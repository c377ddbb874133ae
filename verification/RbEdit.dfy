/** Linking a new leaf and unlinking a node: what the hooks become, what the shape becomes, and that the
    result is a tree again whose in-order walk lost or gained exactly the one item. */
module RbEdit {
  import opened RbShape

  function Inserted(q: seq<nat>, p: nat, z: nat): seq<nat>
    requires p <= |q|
  {
    q[..p] + [z] + q[p..]
  }

  function Deleted(q: seq<nat>, p: nat): seq<nat>
    requires p < |q|
  {
    q[..p] + q[p + 1..]
  }

  /** z joins as a child of y, which sits at position q; `p` is q or q + 1. */
  ghost predicate Grown(s: Shape, s': Shape, z: nat, q: nat, p: nat)
    requires 0 < |s.pos| == |s.lo| == |s.hi| && p <= |s.order|
  {
    && s'.order == Inserted(s.order, p, z)
    && |s'.pos| == |s'.lo| == |s'.hi| == |s.pos|
    && (forall u | 0 <= u < |s.pos| ::
          s'.pos[u] == if u == z then p else if s.pos[u] >= p then s.pos[u] + 1 else s.pos[u])
    && (forall u | 0 <= u < |s.lo| ::
          s'.lo[u] == if u == z then p else if s.lo[u] > q then s.lo[u] + 1 else s.lo[u])
    && (forall u | 0 <= u < |s.hi| ::
          s'.hi[u] == if u == z then p + 1 else if s.hi[u] > q then s.hi[u] + 1 else s.hi[u])
  }

  ghost function Grow(s: Shape, z: nat, q: nat, p: nat): (s': Shape)
    requires 0 < |s.pos| == |s.lo| == |s.hi| && p <= |s.order|
    ensures Grown(s, s', z, q, p)
  {
    Shape(Inserted(s.order, p, z),
          seq(|s.pos|, u requires 0 <= u < |s.pos| =>
            if u == z then p as int else if s.pos[u] >= p then s.pos[u] + 1 else s.pos[u]),
          seq(|s.lo|, u requires 0 <= u < |s.lo| =>
            if u == z then p as int else if s.lo[u] > q then s.lo[u] + 1 else s.lo[u]),
          seq(|s.hi|, u requires 0 <= u < |s.hi| =>
            if u == z then p + 1 else if s.hi[u] > q then s.hi[u] + 1 else s.hi[u]))
  }

  ghost predicate LinkedLeaf(l: Links, l': Links, z: nat, y: nat, onLeft: bool)
    requires z < |l.parent| == |l.left| == |l.right|
    requires y < |l.left|
  {
    && l'.parent == l.parent[z := y]
    && l'.left == (if onLeft then l.left[y := z] else l.left)[z := 0]
    && l'.right == (if onLeft then l.right else l.right[y := z])[z := 0]
    && l'.root == l.root
  }

  lemma LinkKeepsPositions(s: Shape, s': Shape, z: nat, q: nat, p: nat)
    requires 0 < |s.pos| == |s.lo| == |s.hi| && p <= |s.order|
    requires Positions(s) && 0 < z < |s.pos| && s.pos[z] < 0
    requires Grown(s, s', z, q, p)
    ensures Positions(s')
    ensures forall u :: In(s', u) <==> In(s, u) || u == z
  {
    forall i | 0 <= i < |s'.order| ensures In(s', s'.order[i]) && s'.pos[s'.order[i]] == i {
      if i < p {
        assert s'.order[i] == s.order[i];
      } else if i > p {
        assert s'.order[i] == s.order[i - 1];
      }
    }
  }

  /** y gets the new leaf z on a free side, as seen from y and another node u. */
  ghost predicate Linking(l: Links, l': Links, s: Shape, s': Shape, z: nat, y: nat, onLeft: bool, u: nat) {
    && At(l, s, y) && At(l, s, u) && (s.pos[u] == s.pos[y] ==> u == y)
    && 0 < z < |s.pos| && !In(s, z)
    && (if onLeft then l.left[y] == 0 else l.right[y] == 0)
    && LinkedLeaf(l, l', z, y, onLeft)
    && Grown(s, s', z, s.pos[y], if onLeft then s.pos[y] else s.pos[y] + 1)
  }

  lemma LinkKeepsTree(l: Links, l': Links, s: Shape, s': Shape, z: nat, y: nat, onLeft: bool)
    requires Tree(l, s) && Linking(l, l', s, s', z, y, onLeft, y)
    ensures Tree(l', s')
  {
    LinkKeepsPositions(s, s', z, s.pos[y], if onLeft then s.pos[y] else s.pos[y] + 1);
    forall u | In(s', u) ensures Node(l', s', u) {
      if u != z {
        Neighbours(l, s, u);
        LinkKeepsLeft(l, l', s, s', z, y, onLeft, u);
        LinkKeepsRight(l, l', s, s', z, y, onLeft, u);
        LinkKeepsUp(l, l', s, s', z, y, onLeft, u);
      }
    }
  }

  lemma LinkKeepsLeft(l: Links, l': Links, s: Shape, s': Shape, z: nat, y: nat, onLeft: bool, u: nat)
    requires Linking(l, l', s, s', z, y, onLeft, u)
    ensures Range(s', u) && Left(l', s', u)
  {
    if onLeft {
    } else {
    }
  }

  lemma LinkKeepsRight(l: Links, l': Links, s: Shape, s': Shape, z: nat, y: nat, onLeft: bool, u: nat)
    requires Linking(l, l', s, s', z, y, onLeft, u)
    ensures Right(l', s', u)
  {
    if onLeft {
    } else {
    }
  }

  lemma LinkKeepsUp(l: Links, l': Links, s: Shape, s': Shape, z: nat, y: nat, onLeft: bool, u: nat)
    requires Linking(l, l', s, s', z, y, onLeft, u)
    ensures Up(l', s', u)
  {
    if onLeft {
    } else {
    }
  }

  /** z and the position q disappear. */
  ghost predicate Shrunk(s: Shape, s': Shape, z: nat, q: nat)
    requires 0 < |s.pos| == |s.lo| == |s.hi| && q < |s.order|
  {
    && s'.order == Deleted(s.order, q)
    && |s'.pos| == |s'.lo| == |s'.hi| == |s.pos|
    && (forall u | 0 <= u < |s.pos| ::
          s'.pos[u] == if u == z then -1 else if s.pos[u] > q then s.pos[u] - 1 else s.pos[u])
    && (forall u | 0 <= u < |s.lo| ::
          s'.lo[u] == if s.lo[u] > q then s.lo[u] - 1 else s.lo[u])
    && (forall u | 0 <= u < |s.hi| ::
          s'.hi[u] == if s.hi[u] > q then s.hi[u] - 1 else s.hi[u])
  }

  ghost function Shrink(s: Shape, z: nat, q: nat): (s': Shape)
    requires 0 < |s.pos| == |s.lo| == |s.hi| && q < |s.order|
    ensures Shrunk(s, s', z, q)
  {
    Shape(Deleted(s.order, q),
          seq(|s.pos|, u requires 0 <= u < |s.pos| =>
            if u == z then -1 else if s.pos[u] > q then s.pos[u] - 1 else s.pos[u]),
          seq(|s.lo|, u requires 0 <= u < |s.lo| => if s.lo[u] > q then s.lo[u] - 1 else s.lo[u]),
          seq(|s.hi|, u requires 0 <= u < |s.hi| => if s.hi[u] > q then s.hi[u] - 1 else s.hi[u]))
  }

  ghost predicate OnlyChild(l: Links, z: nat, c: nat)
    requires z < |l.left| == |l.right|
  {
    if l.left[z] == 0 then c == l.right[z] else l.right[z] == 0 && c == l.left[z]
  }

  /** c takes the place of z (c may be nil). */
  ghost predicate Spliced(l: Links, l': Links, z: nat, c: nat)
    requires z < |l.parent| == |l.left| == |l.right|
  {
    var p := l.parent[z];
    && |l'.parent| == |l'.left| == |l'.right| == |l.parent|
    && (forall u | 0 < u < |l.left| ::
          l'.left[u] == if u == p && l.left[u] == z then c else l.left[u])
    && (forall u | 0 < u < |l.right| ::
          l'.right[u] == if u == p && l.left[u] != z then c else l.right[u])
    && (forall u | 0 <= u < |l.parent| ::
          l'.parent[u] == if u == c then p else l.parent[u])
    && l'.root == (if p == 0 then c else l.root)
  }

  lemma ShrinkKeepsPositions(s: Shape, s': Shape, z: nat, q: nat)
    requires 0 < |s.pos| == |s.lo| == |s.hi| && q < |s.order|
    requires Positions(s) && In(s, z) && s.pos[z] == q
    requires Shrunk(s, s', z, q)
    ensures Positions(s')
    ensures forall u :: In(s', u) <==> In(s, u) && u != z
  {
    forall i | 0 <= i < |s'.order| ensures In(s', s'.order[i]) && s'.pos[s'.order[i]] == i {
      if i < q {
        assert s'.order[i] == s.order[i];
      } else {
        assert s'.order[i] == s.order[i + 1];
      }
    }
  }

  /** z has at most the child c, and c takes its place, as seen from z, c and another node u. */
  ghost predicate Splicing(l: Links, l': Links, s: Shape, s': Shape, z: nat, c: nat, u: nat) {
    && At(l, s, z) && At(l, s, u) && s.pos[u] != s.pos[z] && (c != 0 ==> At(l, s, c))
    && (l.left[u] != 0 ==> At(l, s, l.left[u]) && (s.pos[l.left[u]] == s.pos[z] ==> l.left[u] == z))
    && (l.right[u] != 0 ==> At(l, s, l.right[u]) && (s.pos[l.right[u]] == s.pos[z] ==> l.right[u] == z))
    && (u != l.root ==> At(l, s, l.parent[u]))
    && OnlyChild(l, z, c)
    && Spliced(l, l', z, c)
    && Shrunk(s, s', z, s.pos[z])
  }

  lemma SpliceKeepsTree(l: Links, l': Links, s: Shape, s': Shape, z: nat, c: nat)
    requires Tree(l, s) && At(l, s, z) && OnlyChild(l, z, c)
    requires Spliced(l, l', z, c) && Shrunk(s, s', z, s.pos[z])
    ensures Tree(l', s')
  {
    ShrinkKeepsPositions(s, s', z, s.pos[z]);
    Neighbours(l, s, z);
    forall u | In(s', u) ensures Node(l', s', u) {
      Neighbours(l, s, u);
      SpliceKeepsLeft(l, l', s, s', z, c, u);
      SpliceKeepsRight(l, l', s, s', z, c, u);
      SpliceKeepsUp(l, l', s, s', z, c, u);
    }
  }

  lemma SpliceKeepsLeft(l: Links, l': Links, s: Shape, s': Shape, z: nat, c: nat, u: nat)
    requires Splicing(l, l', s, s', z, c, u)
    ensures Range(s', u) && Left(l', s', u)
  {
    if l.left[u] == z {
    } else {
    }
  }

  lemma SpliceKeepsRight(l: Links, l': Links, s: Shape, s': Shape, z: nat, c: nat, u: nat)
    requires Splicing(l, l', s, s', z, c, u)
    ensures Right(l', s', u)
  {
    if l.right[u] == z {
    } else {
    }
  }

  lemma SpliceKeepsUp(l: Links, l': Links, s: Shape, s': Shape, z: nat, c: nat, u: nat)
    requires Splicing(l, l', s, s', z, c, u)
    ensures Up(l', s', u)
  {
  }

  /** The unlinked item y takes over the node of z. */
  ghost predicate Renamed(l: Links, l': Links, z: nat, y: nat)
    requires 0 < z < |l.parent| == |l.left| == |l.right| && 0 < y < |l.left|
  {
    && |l'.parent| == |l'.left| == |l'.right| == |l.parent|
    && (forall u | 0 < u < |l.left| && u != z ::
          l'.left[u] == if u == y then l.left[z] else if u == l.parent[z] && l.left[u] == z then y else l.left[u])
    && (forall u | 0 < u < |l.right| && u != z ::
          l'.right[u] == if u == y then l.right[z] else if u == l.parent[z] && l.left[u] != z then y else l.right[u])
    && (forall u | 0 < u < |l.parent| && u != z ::
          l'.parent[u] == if u == y then l.parent[z] else if u == l.left[z] || u == l.right[z] then y else l.parent[u])
    && l'.parent[0] == (if l.parent[0] == z then y else l.parent[0])
    && l'.root == (if l.root == z then y else l.root)
  }

  ghost function Rename(s: Shape, z: nat, y: nat): Shape
    requires Positions(s) && In(s, z) && 0 < y < |s.pos| == |s.lo| == |s.hi|
  {
    Shape(s.order[s.pos[z] := y], s.pos[y := s.pos[z]][z := -1], s.lo[y := s.lo[z]], s.hi[y := s.hi[z]])
  }

  lemma RenameKeepsTree(l: Links, l': Links, s: Shape, z: nat, y: nat)
    requires Tree(l, s) && In(s, z) && 0 < y < |s.pos| && !In(s, y)
    requires Renamed(l, l', z, y)
    ensures Tree(l', Rename(s, z, y))
  {
    var s' := Rename(s, z, y);
    Neighbours(l, s, z);
    RenameKeepsPositions(s, z, y);
    forall u | In(s', u) ensures Node(l', s', u) {
      Neighbours(l, s, if u == y then z else u);
      RenameKeepsNode(l, l', s, s', z, y, u);
    }
  }

  lemma RenameKeepsPositions(s: Shape, z: nat, y: nat)
    requires Positions(s) && In(s, z) && 0 < y < |s.pos| == |s.lo| == |s.hi| && !In(s, y)
    ensures Positions(Rename(s, z, y))
    ensures forall u :: In(Rename(s, z, y), u) <==> u == y || (In(s, u) && u != z)
  {
  }

  /** y takes over the node of z, as seen from u. */
  ghost predicate Renaming(l: Links, l': Links, s: Shape, s': Shape, z: nat, y: nat, u: nat) {
    && Positions(s) && At(l, s, z) && In(s, l.root) && 0 < y < |s.pos| && !In(s, y)
    && Renamed(l, l', z, y) && s' == Rename(s, z, y)
    && u != z && (u != y ==> At(l, s, u))
    && (u != y && u != l.root ==> At(l, s, l.parent[u])) && (z != l.root ==> At(l, s, l.parent[z]))
  }

  lemma RenameKeepsNode(l: Links, l': Links, s: Shape, s': Shape, z: nat, y: nat, u: nat)
    requires Renaming(l, l', s, s', z, y, u)
    ensures Node(l', s', u)
  {
    RenameKeepsLeft(l, l', s, s', z, y, u);
    RenameKeepsRight(l, l', s, s', z, y, u);
    RenameKeepsUp(l, l', s, s', z, y, u);
  }

  lemma RenameKeepsLeft(l: Links, l': Links, s: Shape, s': Shape, z: nat, y: nat, u: nat)
    requires Renaming(l, l', s, s', z, y, u)
    ensures Range(s', u) && Left(l', s', u)
  {
    if u == y {
    } else if u == l.parent[z] {
    } else {
    }
  }

  lemma RenameKeepsRight(l: Links, l': Links, s: Shape, s': Shape, z: nat, y: nat, u: nat)
    requires Renaming(l, l', s, s', z, y, u)
    ensures Right(l', s', u)
  {
    if u == y {
    } else if u == l.parent[z] {
    } else {
    }
  }

  lemma RenameKeepsUp(l: Links, l': Links, s: Shape, s': Shape, z: nat, y: nat, u: nat)
    requires Renaming(l, l', s, s', z, y, u)
    ensures Up(l', s', u)
  {
    if u == y {
    } else {
    }
  }
}
