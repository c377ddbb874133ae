/** What unlinking a node does to colours: nothing is missing when the node that left its slot was red, and one
    black is missing at the child that moved up when it was black. */
module RbUnlink {
  import opened RbShape
  import opened RbEdit
  import opened RbPaint
  import opened RbInsert
  import opened RbRemove

  /** The tree after a node of colour `lost` left a slot that x took over. */
  ghost predicate Left(l: Links, s: Shape, k: Paint, x: nat, lost: Colour) {
    if lost == Black then Lacking(l, s, k, x) else RedBlack(l, s, k)
  }

  lemma SpliceLeaves(l: Links, l': Links, s: Shape, s': Shape, k: Paint, z: nat, c: nat)
    requires RedBlack(l, s, k) && At(l, s, z) && OnlyChild(l, z, c) && c < |s.pos|
    requires Spliced(l, l', z, c) && Shrunk(s, s', z, s.pos[z])
    ensures Left(l', s', k, c, k.colour[z])
  {
    SpliceKeepsTree(l, l', s, s', z, c);
    if k.colour[z] == Black {
      SpliceBlack(l, l', s, s', k, z, c);
    } else {
      SpliceRed(l, l', s, s', k, z, c);
    }
  }

  lemma SpliceBlack(l: Links, l': Links, s: Shape, s': Shape, k: Paint, z: nat, c: nat)
    requires RedBlack(l, s, k) && At(l, s, z) && OnlyChild(l, z, c) && c < |s.pos| && Tree(l', s')
    requires Spliced(l, l', z, c) && Shrunk(s, s', z, s.pos[z]) && k.colour[z] == Black
    ensures Lacking(l', s', k, c)
  {
    ShrinkKeepsPositions(s, s', z, s.pos[z]);
    SpliceHole(l, l', s, s', k, z, c);
    SpliceBlackNodes(l, l', s, s', k, z, c);
  }

  lemma SpliceBlackNodes(l: Links, l': Links, s: Shape, s': Shape, k: Paint, z: nat, c: nat)
    requires RedBlack(l, s, k) && At(l, s, z) && OnlyChild(l, z, c) && c < |s.pos| && Tree(l', s')
    requires Spliced(l, l', z, c) && Shrunk(s, s', z, s.pos[z]) && k.colour[z] == Black
    ensures AllEven(l', s', k, l.parent[z], c) && AllCalm(l', s', k, c, c)
  {
    ShrinkKeepsPositions(s, s', z, s.pos[z]);
    Neighbours(l, s, z);
    assert Even(l, s, k, z, 0, 0) && Calm(l, s, k, z, 0);
    forall u | In(s', u) ensures Even(l', s', k, u, l.parent[z], c) && Calm(l', s', k, u, c) {
      Neighbours(l, s, u);
      assert Even(l, s, k, u, 0, 0) && Calm(l, s, k, u, 0);
      SpliceNode(l, l', s, s', k, z, c, u);
    }
  }

  /** The hole that a black node leaves is a slot of its own. */
  lemma SpliceHole(l: Links, l': Links, s: Shape, s': Shape, k: Paint, z: nat, c: nat)
    requires RedBlack(l, s, k) && At(l, s, z) && OnlyChild(l, z, c) && c < |s.pos|
    requires Sizes(l', s') && Spliced(l, l', z, c) && k.colour[z] == Black
    ensures l'.parent[c] == l.parent[z] && (c == l'.root <==> z == l.root) && (c == l'.root ==> l.parent[z] == 0)
    ensures var p := l.parent[z];
            z != l.root ==>
              && In(s, p) && p != z && l'.root == l.root && l'.left[p] < |s.pos| && l'.right[p] < |s.pos|
              && l'.left[p] != l'.right[p] && (c == l'.left[p] || c == l'.right[p])
  {
    Neighbours(l, s, z);
    Neighbours(l, s, l.root);
    assert Even(l, s, k, z, 0, 0);
    if z != l.root {
      Neighbours(l, s, l.parent[z]);
      assert Even(l, s, k, l.parent[z], 0, 0);
      SpliceSlots(l, l', s, s', k, z, c, l.parent[z]);
      SpliceSiblings(l, s, k, z, c);
    }
  }

  lemma SpliceRed(l: Links, l': Links, s: Shape, s': Shape, k: Paint, z: nat, c: nat)
    requires RedBlack(l, s, k) && At(l, s, z) && OnlyChild(l, z, c) && c < |s.pos| && Tree(l', s')
    requires Spliced(l, l', z, c) && Shrunk(s, s', z, s.pos[z]) && k.colour[z] == Red
    ensures RedBlack(l', s', k)
  {
    ShrinkKeepsPositions(s, s', z, s.pos[z]);
    Neighbours(l, s, z);
    assert Even(l, s, k, z, 0, 0) && Calm(l, s, k, z, 0);
    forall u | In(s', u) ensures Even(l', s', k, u, 0, 0) && Calm(l', s', k, u, 0) {
      Neighbours(l, s, u);
      assert Even(l, s, k, u, 0, 0) && Calm(l, s, k, u, 0);
      SpliceNode(l, l', s, s', k, z, c, u);
    }
  }

  /** A black node that leaves has a sibling. */
  lemma SpliceSiblings(l: Links, s: Shape, k: Paint, z: nat, c: nat)
    requires Painted(l, s, k) && At(l, s, z) && OnlyChild(l, z, c) && z != l.root && At(l, s, l.parent[z])
    requires Even(l, s, k, z, 0, 0) && Even(l, s, k, l.parent[z], 0, 0) && k.colour[z] == Black
    ensures l.left[l.parent[z]] != 0 && l.right[l.parent[z]] != 0
  {
  }

  lemma SpliceNode(l: Links, l': Links, s: Shape, s': Shape, k: Paint, z: nat, c: nat, u: nat)
    requires At(l, s, z) && At(l, s, u) && u != z && Painted(l, s, k) && Painted(l', s', k) && u < |s'.pos|
    requires OnlyChild(l, z, c) && c < |s.pos| && Spliced(l, l', z, c)
    requires (z != l.root ==> At(l, s, l.parent[z]))
    requires Even(l, s, k, z, 0, 0) && Calm(l, s, k, z, 0)
    requires Even(l, s, k, u, 0, 0) && Calm(l, s, k, u, 0)
    ensures if k.colour[z] == Black then Even(l', s', k, u, l.parent[z], c) && Calm(l', s', k, u, c)
            else Even(l', s', k, u, 0, 0) && Calm(l', s', k, u, 0)
  {
    SpliceSlots(l, l', s, s', k, z, c, u);
    if u == l.parent[z] && k.colour[z] == Black {
      SpliceSiblings(l, s, k, z, c);
    }
    SlotNode(l, l', s, s', k, l.parent[z], z, c, u);
  }

  lemma SlotNode(l: Links, l': Links, s: Shape, s': Shape, k: Paint, p: nat, z: nat, c: nat, u: nat)
    requires Painted(l, s, k) && Painted(l', s', k) && u < |s.pos| && 0 < z < |s.pos| && c < |s.pos|
    requires l'.left[u] == if l.left[u] == z then c else l.left[u]
    requires l'.right[u] == if l.right[u] == z then c else l.right[u]
    requires u == p <==> l.left[u] == z || l.right[u] == z
    requires l.left[u] != z || l.right[u] != z
    requires c != 0 ==> l.left[u] != c && l.right[u] != c
    requires u == p && k.colour[z] == Black ==> l.left[u] != 0 && l.right[u] != 0
    requires Weight(k, z) == Weight(k, c) + (if k.colour[z] == Black then 1 else 0)
    requires k.colour[z] == Red ==> k.colour[c] == Black
    requires Even(l, s, k, u, 0, 0) && Calm(l, s, k, u, 0)
    ensures if k.colour[z] == Black then Even(l', s', k, u, p, c) && Calm(l', s', k, u, c)
            else Even(l', s', k, u, 0, 0) && Calm(l', s', k, u, 0)
  {
  }

  lemma SpliceSlots(l: Links, l': Links, s: Shape, s': Shape, k: Paint, z: nat, c: nat, u: nat)
    requires At(l, s, z) && At(l, s, u) && u != z && Painted(l, s, k) && Sizes(l', s')
    requires OnlyChild(l, z, c) && c < |s.pos| && Spliced(l, l', z, c)
    requires (z != l.root ==> At(l, s, l.parent[z]))
    ensures l'.left[u] == if l.left[u] == z then c else l.left[u]
    ensures l'.right[u] == if l.right[u] == z then c else l.right[u]
    ensures l.left[u] == z || l.right[u] == z <==> u == l.parent[z]
    ensures l.left[u] != z || l.right[u] != z
    ensures c != 0 ==> l.left[u] != c && l.right[u] != c
  {
  }

  /** The colours after y took over the node of z. */
  ghost function Taken(k: Paint, z: nat, y: nat): Paint
    requires z < |k.colour| == |k.bh| && y < |k.colour|
  {
    Paint(k.colour[y := k.colour[z]], k.bh[y := k.bh[z]])
  }

  lemma RenameLeaves(l: Links, l': Links, s: Shape, k: Paint, z: nat, y: nat, x: nat, lost: Colour)
    requires Left(l, s, k, x, lost) && x != z && x != y
    requires Tree(l, s) && In(s, z) && 0 < y < |s.pos| && !In(s, y) && |k.colour| == |k.bh| == |s.pos|
    requires Renamed(l, l', z, y)
    ensures Left(l', Rename(s, z, y), Taken(k, z, y), x, lost)
  {
    RenameKeepsTree(l, l', s, z, y);
    RenameKeepsPositions(s, z, y);
    var p := if lost == Black then l.parent[x] else 0;
    var d := if lost == Black then x else 0;
    RenameNodes(l, l', s, k, z, y, p, d);
    if lost == Black {
      RenameHole(l, l', s, k, z, y, x);
    }
  }

  lemma RenameHole(l: Links, l': Links, s: Shape, k: Paint, z: nat, y: nat, x: nat)
    requires Lacking(l, s, k, x) && x != z && x != y
    requires In(s, z) && 0 < y < |s.pos| && !In(s, y) && Renamed(l, l', z, y)
    ensures l'.parent[x] == (if l.parent[x] == z then y else l.parent[x])
    ensures var s' := Rename(s, z, y);
            && (x == l'.root <==> x == l.root) && (x == l'.root ==> l'.parent[x] == 0)
            && (x != l'.root ==>
                  && In(s', l'.parent[x]) && l'.left[l'.parent[x]] < |s.pos| && l'.right[l'.parent[x]] < |s.pos|
                  && l'.left[l'.parent[x]] != l'.right[l'.parent[x]]
                  && (x == l'.left[l'.parent[x]] || x == l'.right[l'.parent[x]]))
  {
    RenameKeepsPositions(s, z, y);
    Neighbours(l, s, z);
    if x != l.root {
      Neighbours(l, s, l.parent[x]);
    }
    if x != 0 && x != l.root {
      Neighbours(l, s, x);
    }
  }

  lemma RenameNodes(l: Links, l': Links, s: Shape, k: Paint, z: nat, y: nat, p: nat, d: nat)
    requires Tree(l, s) && Painted(l, s, k) && In(s, z) && 0 < y < |s.pos| && !In(s, y) && p != y && d != z && d != y
    requires Renamed(l, l', z, y) && Tree(l', Rename(s, z, y))
    requires AllEven(l, s, k, p, d) && AllCalm(l, s, k, d, d)
    ensures AllEven(l', Rename(s, z, y), Taken(k, z, y), if p == z then y else p, d)
    ensures AllCalm(l', Rename(s, z, y), Taken(k, z, y), d, d)
  {
    var s', k' := Rename(s, z, y), Taken(k, z, y);
    RenameKeepsPositions(s, z, y);
    Neighbours(l, s, z);
    forall u | In(s', u)
      ensures Even(l', s', k', u, if p == z then y else p, d) && (u != d ==> Calm(l', s', k', u, d))
    {
      var v := if u == y then z else u;
      Neighbours(l, s, v);
      assert Even(l, s, k, v, p, d) && (v != d ==> Calm(l, s, k, v, d));
      RenameSlots(l, l', s, z, y, u, v);
      RenameNode(l, l', s, s', k, z, y, p, d, u, v);
    }
  }

  lemma RenameSlots(l: Links, l': Links, s: Shape, z: nat, y: nat, u: nat, v: nat)
    requires At(l, s, v) && At(l, s, z) && 0 < y < |s.pos| && !In(s, y) && (z != l.root ==> At(l, s, l.parent[z]))
    requires Renamed(l, l', z, y) && u != z && 0 < u < |s.pos| && v == if u == y then z else u
    ensures l'.left[u] == if l.left[v] == z then y else l.left[v]
    ensures l'.right[u] == if l.right[v] == z then y else l.right[v]
    ensures l.left[v] != y && l.right[v] != y && l.left[v] < |s.pos| && l.right[v] < |s.pos|
  {
  }

  lemma RenameNode(l: Links, l': Links, s: Shape, s': Shape, k: Paint, z: nat, y: nat, p: nat, d: nat, u: nat, v: nat)
    requires Painted(l, s, k) && Sizes(l', s') && |s'.pos| == |s.pos| && 0 < z < |s.pos| && v < |s.pos|
    requires 0 < y < |s.pos| && p != y && d != z && d != y
    requires u != z && 0 < u < |s.pos| && v == if u == y then z else u
    requires l.left[v] != y && l.right[v] != y && l.left[v] < |s.pos| && l.right[v] < |s.pos|
    requires l'.left[u] == if l.left[v] == z then y else l.left[v]
    requires l'.right[u] == if l.right[v] == z then y else l.right[v]
    requires Even(l, s, k, v, p, d) && (v != d ==> Calm(l, s, k, v, d))
    ensures Even(l', s', Taken(k, z, y), u, if p == z then y else p, d)
    ensures u != d ==> Calm(l', s', Taken(k, z, y), u, d)
  {
  }

  /** The hooks after `transplant(u, v)`. */
  ghost function Transplanted(l: Links, u: nat, v: nat): Links
    requires u < |l.parent| == |l.left| == |l.right| && v < |l.parent| && l.parent[u] < |l.parent|
  {
    var p := l.parent[u];
    Links(l.parent[v := p],
          if p != 0 && l.left[p] == u then l.left[p := v] else l.left,
          if p != 0 && l.left[p] != u then l.right[p := v] else l.right,
          if p == 0 then v else l.root)
  }

  lemma TransplantSplices(l: Links, z: nat, c: nat)
    requires 0 < z < |l.parent| == |l.left| == |l.right| && c < |l.parent| && l.parent[z] < |l.parent|
    ensures Spliced(l, Transplanted(l, z, c), z, c)
  {
  }

  /** z has two children, and y is next to it in order. */
  ghost predicate Inner(l: Links, s: Shape, z: nat, y: nat) {
    && At(l, s, z) && At(l, s, y) && l.left[z] != 0 && l.right[z] != 0
    && l.left[y] == 0 && s.pos[y] == s.pos[z] + 1
    && (z != l.root ==> At(l, s, l.parent[z])) && y != l.root && At(l, s, l.parent[y])
    && At(l, s, l.left[z]) && At(l, s, l.right[z]) && (l.right[y] != 0 ==> At(l, s, l.right[y]))
  }

  /** The hooks after y, the successor of z, was taken out of its slot and put in the place of z. */
  ghost function Replaced(l: Links, z: nat, y: nat): (l': Links)
    requires z < |l.parent| == |l.left| == |l.right| && y < |l.parent| && l.parent[y] < |l.parent| && y != z
    requires l.parent[z] < |l.parent| && l.right[y] < |l.parent| && l.left[z] < |l.parent|
    requires l.right[z] < |l.parent| && l.right[y] != z && l.parent[y] != y && l.right[y] != y
  {
    var x := l.right[y];
    var l1 := if y != l.right[z]
              then var a := Transplanted(l, y, x);
                   Links(a.parent[l.right[z] := y], a.left, a.right[y := l.right[z]], a.root)
              else l.(parent := l.parent[x := y]);
    var p := l.parent[z];
    Links(l1.parent[y := p][l.left[z] := y],
          (if p != 0 && l1.left[p] == z then l1.left[p := y] else l1.left)[y := l.left[z]],
          if p != 0 && l1.left[p] != z then l1.right[p := y] else l1.right,
          if p == 0 then y else l1.root)
  }

  ghost predicate ReplaceOk(l: Links, z: nat, y: nat) {
    && 0 < z < |l.parent| == |l.left| == |l.right| && 0 < y < |l.parent| && l.parent[y] < |l.parent| && y != z
    && l.parent[z] < |l.parent| && l.right[y] < |l.parent| && l.left[z] < |l.parent|
    && l.right[z] < |l.parent| && l.right[y] != z && l.parent[y] != y && l.right[y] != y
    && l.parent[z] != y && l.parent[z] != z && l.right[z] != z && l.parent[y] != 0
    && l.left[z] != 0 && l.left[z] != y && l.left[z] != z && l.right[y] != l.left[z]
    && (y != l.right[z] ==> l.right[y] != l.right[z] && l.parent[y] != z)
  }

  lemma InnerCanReplace(l: Links, s: Shape, z: nat, y: nat)
    requires Tree(l, s) && In(s, z) && In(s, y) && At(l, s, z) && l.left[z] != 0 && l.right[z] != 0
    requires s.pos[y] == s.pos[z] + 1 && l.left[y] == 0
    ensures Inner(l, s, z, y) && ReplaceOk(l, z, y)
  {
    Neighbours(l, s, z);
    Neighbours(l, s, y);
  }

  lemma ReplaceRenames(l: Links, s: Shape, z: nat, y: nat)
    requires Inner(l, s, z, y) && ReplaceOk(l, z, y) && l.parent[0] == 0
    ensures Renamed(Transplanted(l, y, l.right[y]), Replaced(l, z, y), z, y)
  {
    ReplaceLeft(l, s, z, y);
    ReplaceRight(l, s, z, y);
    ReplaceParent(l, s, z, y);
  }

  lemma ReplaceLeft(l: Links, s: Shape, z: nat, y: nat)
    requires Inner(l, s, z, y) && ReplaceOk(l, z, y)
    ensures var l1, l' := Transplanted(l, y, l.right[y]), Replaced(l, z, y);
            forall u | 0 < u < |l.left| && u != z ::
              l'.left[u] == if u == y then l1.left[z] else if u == l1.parent[z] && l1.left[u] == z then y
                                                           else l1.left[u]
  {
  }

  lemma ReplaceRight(l: Links, s: Shape, z: nat, y: nat)
    requires Inner(l, s, z, y) && ReplaceOk(l, z, y)
    ensures var l1, l' := Transplanted(l, y, l.right[y]), Replaced(l, z, y);
            forall u | 0 < u < |l.right| && u != z ::
              l'.right[u] == if u == y then l1.right[z] else if u == l1.parent[z] && l1.left[u] != z then y
                                                             else l1.right[u]
  {
  }

  lemma ReplaceParent(l: Links, s: Shape, z: nat, y: nat)
    requires Inner(l, s, z, y) && ReplaceOk(l, z, y) && l.parent[0] == 0
    ensures var l1, l' := Transplanted(l, y, l.right[y]), Replaced(l, z, y);
            && (forall u | 0 < u < |l.parent| && u != z ::
                  l'.parent[u] == if u == y then l1.parent[z] else if u == l1.left[z] || u == l1.right[z] then y
                                                                   else l1.parent[u])
            && l'.parent[0] == (if l1.parent[0] == z then y else l1.parent[0])
            && l'.root == (if l1.root == z then y else l1.root)
  {
  }

  /** Unlinking a node with at most one child. */
  lemma UnlinkOuter(l: Links, s: Shape, k: Paint, z: nat, c: nat)
    requires RedBlack(l, s, k) && In(s, z) && OnlyChild(l, z, c)
    ensures 0 < z < |l.parent| == |l.left| == |l.right| == |s.pos| && c < |s.pos| && l.parent[z] < |s.pos| && c != z
    ensures Left(Transplanted(l, z, c), Shrink(s, z, s.pos[z]), k, c, k.colour[z])
    ensures Shrink(s, z, s.pos[z]).order == Deleted(s.order, s.pos[z]) && |Shrink(s, z, s.pos[z]).pos| == |s.pos|
  {
    Neighbours(l, s, z);
    TransplantSplices(l, z, c);
    SpliceLeaves(l, Transplanted(l, z, c), s, Shrink(s, z, s.pos[z]), k, z, c);
  }

  /** Unlinking a node with two children: the next item y takes its place and colour. */
  lemma UnlinkInner(l: Links, s: Shape, k: Paint, z: nat, y: nat)
    requires RedBlack(l, s, k) && Inner(l, s, z, y) && l.parent[0] == 0
    ensures ReplaceOk(l, z, y)
    ensures var s1 := Shrink(s, y, s.pos[y]);
            && Positions(s1) && In(s1, z)
            && Left(Replaced(l, z, y), Rename(s1, z, y), Taken(k, z, y), l.right[y], k.colour[y])
            && Rename(s1, z, y).order == Deleted(s.order, s.pos[z])
  {
    var x := l.right[y];
    var l1, s1 := Transplanted(l, y, x), Shrink(s, y, s.pos[y]);
    InnerCanReplace(l, s, z, y);
    InnerOrder(s, z, y);
    InnerSpliced(l, s, k, z, y);
    ReplaceRenames(l, s, z, y);
    RenameLeaves(l1, Replaced(l, z, y), s1, k, z, y, x, k.colour[y]);
  }

  lemma InnerSpliced(l: Links, s: Shape, k: Paint, z: nat, y: nat)
    requires RedBlack(l, s, k) && Inner(l, s, z, y) && ReplaceOk(l, z, y)
    ensures var l1, s1 := Transplanted(l, y, l.right[y]), Shrink(s, y, s.pos[y]);
            Left(l1, s1, k, l.right[y], k.colour[y]) && In(s1, z) && !In(s1, y)
  {
    TransplantSplices(l, y, l.right[y]);
    SpliceLeaves(l, Transplanted(l, y, l.right[y]), s, Shrink(s, y, s.pos[y]), k, y, l.right[y]);
    ShrinkKeepsPositions(s, Shrink(s, y, s.pos[y]), y, s.pos[y]);
  }

  lemma InnerOrder(s: Shape, z: nat, y: nat)
    requires Positions(s) && |s.pos| == |s.lo| == |s.hi| && In(s, z) && In(s, y) && s.pos[y] == s.pos[z] + 1
    ensures var s1 := Shrink(s, y, s.pos[y]);
            Positions(s1) && In(s1, z) && Rename(s1, z, y).order == Deleted(s.order, s.pos[z])
  {
    ShrinkKeepsPositions(s, Shrink(s, y, s.pos[y]), y, s.pos[y]);
    assert s.order[s.pos[y]] == y;
  }
}
