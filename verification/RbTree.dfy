/** `lib::rbtree`: the intrusive red-black tree threaded with successor and predecessor links. */
module RbTree {
  import opened RbShape
  import opened RbEdit
  import opened RbPaint
  import opened RbInsert
  import opened RbRemove
  import U = RbUnlink
  import Th = RbThread

  /** Comparing z with x tells on which side of x the place of z is. */
  lemma WalkStep(l: Links, s: Shape, key: seq<int>, z: nat, x: nat)
    requires Tree(l, s) && In(s, x) && z < |key| == |s.pos| && Th.Sorted(s.order, key)
    ensures At(l, s, x)
    ensures if key[z] < key[x] then Th.Place(s.order, key, key[z]) <= s.pos[x]
            else s.pos[x] + 1 <= Th.Place(s.order, key, key[z])
    ensures if s.lo[x] == s.pos[x] then l.left[x] == 0
            else In(s, l.left[x]) && s.lo[l.left[x]] == s.lo[x] && s.hi[l.left[x]] == s.pos[x]
    ensures if s.pos[x] + 1 == s.hi[x] then l.right[x] == 0
            else In(s, l.right[x]) && s.lo[l.right[x]] == s.pos[x] + 1 && s.hi[l.right[x]] == s.hi[x]
  {
    Neighbours(l, s, x);
    Th.PlaceSorted(s.order, key, key[z]);
    assert s.order[s.pos[x]] == x;
  }

  /** y is the neighbour of z on the side where z is to be hung below it. */
  ghost predicate ThreadSpot(q: seq<nat>, key: seq<int>, z: nat, y: nat)
    requires Th.Within(q, |key|) && z < |key| && y < |key|
  {
    var p := Th.Place(q, key, key[z]);
    y == Th.Item(q, if key[z] < key[y] then p else p - 1)
  }

  /** z is to become a child of y, and thereby come last among its equals. */
  ghost predicate HangsBelow(l: Links, s: Shape, key: seq<int>, z: nat, y: nat)
    requires Tree(l, s) && z < |key| == |s.pos| && Th.Within(s.order, |key|)
  {
    && At(l, s, y)
    && var p := Th.Place(s.order, key, key[z]);
       if key[z] < key[y] then l.left[y] == 0 && p == s.pos[y] else l.right[y] == 0 && p == s.pos[y] + 1
  }

  lemma SpotFound(l: Links, s: Shape, k: Paint, key: seq<int>, z: nat, y: nat)
    requires RedBlack(l, s, k) && z < |key| == |s.pos| && Th.Sorted(s.order, key) && HangsBelow(l, s, key, z, y)
    ensures |s.pos| == |s.lo| == |s.hi| && 0 < y < |key| && Positions(s) && ThreadSpot(s.order, key, z, y)
  {
    assert s.order[s.pos[y]] == y;
  }

  /** Items outside the tree may have any hook. */
  ghost predicate Reset(l: Links, l': Links, s: Shape, k: Paint, k': Paint, z: nat) {
    && RedBlack(l, s, k) && z < |l.parent| && !In(s, z)
    && l' == Links(l.parent[0 := 0][z := 0], l.left[0 := 0][z := 0], l.right[0 := 0][z := 0], l.root)
    && k' == Paint(k.colour[0 := Black][z := Black], k.bh)
  }

  lemma ResetKeeps(l: Links, l': Links, s: Shape, k: Paint, k': Paint, z: nat)
    requires Reset(l, l', s, k, k', z)
    ensures RedBlack(l', s, k')
  {
    forall u | In(s, u) ensures u < |s.pos| && Node(l', s, u) && Even(l', s, k', u, 0, 0) && Calm(l', s, k', u, 0) {
      ResetNode(l, l', s, k, k', z, u);
    }
  }

  lemma ResetNode(l: Links, l': Links, s: Shape, k: Paint, k': Paint, z: nat, u: nat)
    requires Reset(l, l', s, k, k', z) && In(s, u)
    ensures u < |s.pos| && Painted(l', s, k') && Node(l', s, u) && Even(l', s, k', u, 0, 0) && Calm(l', s, k', u, 0)
  {
    Neighbours(l, s, u);
    assert Even(l, s, k, u, 0, 0) && Calm(l, s, k, u, 0);
  }

  ghost function Width(s: Shape, x: nat): int
    requires x < |s.lo| == |s.hi|
  {
    if x == 0 then 0 else s.hi[x] - s.lo[x]
  }

  /** Moving up from x reaches a wider subtree. */
  lemma HigherIsWider(l: Links, s: Shape, k: Paint, x: nat)
    requires Lacking(l, s, k, x) && x != l.root
    ensures 0 < l.parent[x] < |s.pos| && Width(s, x) < Width(s, l.parent[x]) <= |s.order|
    ensures l.left[l.parent[x]] != l.right[l.parent[x]]
  {
    Neighbours(l, s, l.parent[x]);
    if x != 0 {
      Neighbours(l, s, x);
    }
  }

  class RbTree {
    // hooks
    var parent: seq<nat>
    var left: seq<nat>
    var right: seq<nat>
    var successor: seq<nat>
    var predecessor: seq<nat>
    var colour: seq<Colour>
    // the part of the items that the comparison looks at
    var key: seq<int>

    var root: nat
    var head: nat
    var size: nat

    ghost var shape: Shape
    ghost var bh: seq<int>

    ghost function L(): Links
      reads `parent, `left, `right, `root
    {
      Links(parent, left, right, root)
    }

    ghost function K(): Paint
      reads `colour, `bh
    {
      Paint(colour, bh)
    }

    /** The items of the tree in thread order. */
    ghost function Items(): seq<nat>
      reads `shape
    {
      shape.order
    }

    ghost predicate Valid()
      reads this
    {
      && RedBlack(L(), shape, K())
      && |key| == |successor| == |parent|
      && Th.Threaded(Items(), successor, predecessor, head)
      && Th.Sorted(Items(), key)
      && size == |Items()|
    }

    method RotateLeft(x: nat)
      requires CanRotateLeft(L(), x) && root < |parent| && parent[root] == 0
      modifies `parent, `left, `right, `root
      ensures L() == LeftRotation(old(L()), x)
    {
      assert right[x] != 0 && parent[root] == 0;
      var y := right[x];
      right := right[x := left[y]];
      if right[x] != 0 {
        parent := parent[left[y] := x];
      }
      parent := parent[y := parent[x]];
      if parent[y] == 0 {
        root := y;
      } else if x == left[parent[x]] {
        left := left[parent[x] := y];
      } else {
        right := right[parent[x] := y];
      }
      left := left[y := x];
      parent := parent[x := y];
    }

    method RotateRight(x: nat)
      requires CanRotateRight(L(), x) && root < |parent| && parent[root] == 0
      modifies `parent, `left, `right, `root
      ensures L() == RightRotation(old(L()), x)
    {
      assert left[x] != 0 && parent[root] == 0;
      var y := left[x];
      left := left[x := right[y]];
      if left[x] != 0 {
        parent := parent[right[y] := x];
      }
      parent := parent[y := parent[x]];
      if parent[y] == 0 {
        root := y;
      } else if x == right[parent[x]] {
        right := right[parent[x] := y];
      } else {
        left := left[parent[x] := y];
      }
      right := right[y := x];
      parent := parent[x := y];
    }


    /** The parent and the uncle y of z are red. */
    method InsertRecolour(z: nat, ghost p: nat, ghost g: nat, y: nat) returns (z': nat)
      requires RedPair(L(), shape, K(), z, p, g) && g < |left|
      requires y < |colour| && colour[y] == Red && (if p == left[g] then y == right[g] else y == left[g])
      modifies `colour, `bh
      ensures Fixing(L(), shape, K(), z') && z' == g && parent[z'] < |colour|
    {
      Neighbours(L(), shape, z);
      Grandparent(L(), shape, K(), z);
      ghost var k := K();
      bh := bh[g := bh[g] + 1];
      colour := colour[parent[z] := Black];
      colour := colour[y := Black];
      colour := colour[parent[parent[z]] := Red];
      z' := parent[parent[z]];
      Recolour(L(), shape, k, K(), z, y);
      Neighbours(L(), shape, z');
    }

    /** The parent of z is a left child, and the uncle is black. */
    method InsertTurnRight(z: nat, ghost p: nat, ghost g: nat) returns (z': nat)
      requires RedPair(L(), shape, K(), z, p, g) && 0 < g < |left| && left[g] == p
      requires z == left[p] || z == right[p]
      requires right[g] < |colour| && colour[right[g]] == Black
      modifies `parent, `left, `right, `root, `shape, `colour
      ensures Fixing(L(), shape, K(), z') && parent[z'] < |colour| && colour[parent[z']] == Black
      ensures shape.order == old(shape.order) && shape.pos == old(shape.pos)
    {
      if z == right[parent[z]] {
        z' := parent[z];
        InnerLeftStep(L(), shape, K(), z, p, g);
        RotateLeft(z');
        shape := TurnLeft(shape, p, z);
        InsertOuterRight(z', z, g);
      } else {
        z' := z;
        InsertOuterRight(z', p, g);
      }
    }

    method InsertOuterRight(z: nat, ghost p: nat, ghost g: nat)
      requires RedPair(L(), shape, K(), z, p, g) && 0 < g < |left| && left[g] == p && left[p] == z
      requires right[g] < |colour| && colour[right[g]] == Black
      modifies `parent, `left, `right, `root, `shape, `colour
      ensures Fixing(L(), shape, K(), z) && parent[z] < |colour| && colour[parent[z]] == Black
      ensures shape.order == old(shape.order) && shape.pos == old(shape.pos)
    {
      OuterRightStep(L(), shape, K(), Paint(colour[p := Black][g := Red], bh), z, p, g);
      colour := colour[parent[z] := Black];
      colour := colour[parent[parent[z]] := Red];
      RotateRight(parent[parent[z]]);
      shape := TurnRight(shape, g, p);
    }

    /** The parent of z is a right child, and the uncle is black. */
    method InsertTurnLeft(z: nat, ghost p: nat, ghost g: nat) returns (z': nat)
      requires RedPair(L(), shape, K(), z, p, g) && 0 < g < |left| && right[g] == p
      requires z == left[p] || z == right[p]
      requires left[g] < |colour| && colour[left[g]] == Black
      modifies `parent, `left, `right, `root, `shape, `colour
      ensures Fixing(L(), shape, K(), z') && parent[z'] < |colour| && colour[parent[z']] == Black
      ensures shape.order == old(shape.order) && shape.pos == old(shape.pos)
    {
      if z == left[parent[z]] {
        z' := parent[z];
        InnerRightStep(L(), shape, K(), z, p, g);
        RotateRight(z');
        shape := TurnRight(shape, p, z);
        InsertOuterLeft(z', z, g);
      } else {
        z' := z;
        InsertOuterLeft(z', p, g);
      }
    }

    method InsertOuterLeft(z: nat, ghost p: nat, ghost g: nat)
      requires RedPair(L(), shape, K(), z, p, g) && 0 < g < |left| && right[g] == p && right[p] == z
      requires left[g] < |colour| && colour[left[g]] == Black
      modifies `parent, `left, `right, `root, `shape, `colour
      ensures Fixing(L(), shape, K(), z) && parent[z] < |colour| && colour[parent[z]] == Black
      ensures shape.order == old(shape.order) && shape.pos == old(shape.pos)
    {
      OuterLeftStep(L(), shape, K(), Paint(colour[p := Black][g := Red], bh), z, p, g);
      colour := colour[parent[z] := Black];
      colour := colour[parent[parent[z]] := Red];
      RotateLeft(parent[parent[z]]);
      shape := TurnLeft(shape, g, p);
    }

    method InsertFixup(z0: nat)
      requires Fixing(L(), shape, K(), z0)
      modifies `parent, `left, `right, `root, `shape, `colour, `bh
      ensures Tree(L(), shape) && Painted(L(), shape, K())
      ensures AllEven(L(), shape, K(), 0, 0) && AllCalm(L(), shape, K(), 0, 0) && colour[root] == Black
      ensures shape.order == old(shape.order) && shape.pos == old(shape.pos)
    {
      var z := z0;
      Neighbours(L(), shape, z);
      while colour[parent[z]] == Red
        invariant Fixing(L(), shape, K(), z) && parent[z] < |colour|
        invariant shape.order == old(shape.order) && shape.pos == old(shape.pos)
        decreases if colour[parent[z]] == Red then 1 + |shape.order| - (shape.hi[z] - shape.lo[z]) else 0
      {
        RedPairExists(L(), shape, K(), z);
        ghost var p, g := parent[z], parent[parent[z]];
        if parent[z] == left[parent[parent[z]]] {
          var y := right[parent[parent[z]]];
          if colour[y] == Red {
            z := InsertRecolour(z, p, g, y);
          } else {
            z := InsertTurnRight(z, p, g);
          }
        } else {
          var y := left[parent[parent[z]]];
          if colour[y] == Red {
            z := InsertRecolour(z, p, g, y);
          } else {
            z := InsertTurnLeft(z, p, g);
          }
        }
      }
      BlackRoot(L(), shape, K(), z);
      colour := colour[root := Black];
    }

    /** The walk down to the place of z. */
    method FindParent(z: nat) returns (y: nat)
      requires Tree(L(), shape) && root != 0 && z < |key| == |parent| && Th.Sorted(Items(), key)
      ensures HangsBelow(L(), shape, key, z, y)
    {
      var x := root;
      y := 0;
      ghost var a, b := 0, |Items()|;
      ghost var p := Th.Place(Items(), key, key[z]);
      while x != 0
        invariant 0 <= a <= p <= b <= |Items()|
        invariant if x == 0 then a == b else In(shape, x) && shape.lo[x] == a && shape.hi[x] == b
        invariant y == 0 ==> x != 0
        invariant y != 0 ==> At(L(), shape, y)
        invariant y != 0 ==> if key[z] < key[y] then left[y] == x && b == shape.pos[y]
                             else right[y] == x && a == shape.pos[y] + 1
        decreases b - a
      {
        WalkStep(L(), shape, key, z, x);
        y := x;
        if key[z] < key[x] {
          x := left[x];
          b := shape.pos[y];
        } else {
          x := right[x];
          a := shape.pos[y] + 1;
        }
      }
    }

    /** Every item of an empty tree that is given the default hook is a one-item tree. */
    method InsertFirst(z: nat)
      requires Valid() && Items() == [] && 0 < z < |parent|
      requires parent[z] == left[z] == right[z] == successor[z] == predecessor[z] == 0 && colour[z] == Black
      modifies `root, `head, `shape, `bh
      ensures RedBlack(L(), shape, K()) && Items() == [z] && |shape.pos| == |old(shape.pos)|
      ensures Th.Threaded(Items(), successor, predecessor, head)
    {
      root := z;
      head := root;
      bh := bh[z := 1];
      shape := Shape([z], shape.pos[z := 0], shape.lo[z := 0], shape.hi[z := 1]);
    }

    /** z joins the thread next to its parent-to-be y. */
    method ThreadIn(z: nat, y: nat)
      requires |key| == |successor| == |shape.pos| == |shape.lo| == |shape.hi|
      requires 0 < z < |key| && 0 < y < |key| && Positions(shape) && !In(shape, z)
      requires Th.Threaded(Items(), successor, predecessor, head) && Th.Sorted(Items(), key)
      requires ThreadSpot(Items(), key, z, y)
      modifies `successor, `predecessor, `head
      ensures Th.Threaded(Inserted(Items(), Th.Place(Items(), key, key[z]), z), successor, predecessor, head)
      ensures |successor| == |old(successor)|
    {
      ghost var q, su, pr, hd := Items(), successor, predecessor, head;
      ghost var p := Th.Place(q, key, key[z]);
      if key[z] < key[y] {
        successor := successor[z := y];
        var prev := predecessor[y];
        predecessor := predecessor[z := prev];
        if prev != 0 {
          successor := successor[prev := z];
        }
        predecessor := predecessor[y := z];
      } else {
        predecessor := predecessor[z := y];
        var succ := successor[y];
        successor := successor[z := succ];
        if succ != 0 {
          predecessor := predecessor[succ := z];
        }
        successor := successor[y := z];
      }
      if head == 0 || key[z] < key[head] {
        head := z;
      }
      Th.InsertThreaded(shape, z, p, su, successor, pr, predecessor, hd);
    }

    method ThreadBelow(z: nat, y: nat)
      requires RedBlack(L(), shape, K()) && |key| == |successor| == |parent|
      requires Th.Threaded(Items(), successor, predecessor, head) && Th.Sorted(Items(), key)
      requires 0 < z < |parent| && !In(shape, z) && HangsBelow(L(), shape, key, z, y)
      modifies `successor, `predecessor, `head
      ensures Th.Threaded(Inserted(Items(), Th.Place(Items(), key, key[z]), z), successor, predecessor, head)
      ensures |successor| == |old(successor)|
    {
      SpotFound(L(), shape, K(), key, z, y);
      ThreadIn(z, y);
    }

    /** z becomes a red leaf below y. */
    method LinkUnder(z: nat, y: nat, ghost p: nat)
      requires RedBlack(L(), shape, K()) && At(L(), shape, y) && 0 < z < |parent| == |key| && !In(shape, z)
      requires p == if key[z] < key[y] then shape.pos[y] else shape.pos[y] + 1
      requires if key[z] < key[y] then left[y] == 0 else right[y] == 0
      modifies `parent, `left, `right, `colour, `shape, `bh
      ensures Fixing(L(), shape, K(), z)
      ensures p <= |old(Items())| && Items() == Inserted(old(Items()), p, z) && |shape.pos| == |old(shape.pos)|
    {
      ghost var l, s, k := L(), shape, K();
      parent := parent[z := y];
      if key[z] < key[y] {
        left := left[y := z];
      } else {
        right := right[y := z];
      }
      left := left[z := 0];
      right := right[z := 0];
      colour := colour[z := Red];
      bh := bh[z := 1];
      shape := Grow(s, z, s.pos[y], p);
      LinkFixing(l, L(), s, shape, k, z, y, key[z] < key[y]);
    }

    /** The hook of z and the temporary hook are given their default values. */
    method ResetHooks(z: nat)
      requires Valid() && z < |parent| && !In(shape, z)
      modifies `parent, `left, `right, `successor, `predecessor, `colour
      ensures Valid() && |parent| == |old(parent)|
              && parent[z] == left[z] == right[z] == successor[z] == predecessor[z] == 0 && colour[z] == Black
    {
      ghost var l, k := L(), K();
      parent, left, right := parent[0 := 0][z := 0], left[0 := 0][z := 0], right[0 := 0][z := 0];
      successor, predecessor := successor[0 := 0][z := 0], predecessor[0 := 0][z := 0];
      colour := colour[0 := Black][z := Black];
      ResetKeeps(l, L(), shape, k, K(), z);
    }

    method LinkAndRepair(z: nat, y: nat, ghost p: nat)
      requires RedBlack(L(), shape, K()) && At(L(), shape, y) && 0 < z < |parent| == |key| && !In(shape, z)
      requires if key[z] < key[y] then left[y] == 0 else right[y] == 0
      requires p == if key[z] < key[y] then shape.pos[y] else shape.pos[y] + 1
      modifies `parent, `left, `right, `colour, `root, `shape, `bh
      ensures RedBlack(L(), shape, K())
      ensures p <= |old(Items())| && Items() == Inserted(old(Items()), p, z) && |shape.pos| == |old(shape.pos)|
    {
      LinkUnder(z, y, p);
      InsertFixup(z);
    }

    /** `_insert`, after the walk down: the new leaf, the thread and the repair. */
    method InsertBelow(z: nat, y: nat)
      requires RedBlack(L(), shape, K()) && |key| == |successor| == |parent|
      requires Th.Threaded(Items(), successor, predecessor, head) && Th.Sorted(Items(), key)
      requires 0 < z < |parent| && !In(shape, z) && HangsBelow(L(), shape, key, z, y)
      modifies `parent, `left, `right, `successor, `predecessor, `colour, `root, `head, `shape, `bh
      ensures RedBlack(L(), shape, K())
      ensures Items() == Inserted(old(Items()), Th.Place(old(Items()), key, key[z]), z)
      ensures Th.Threaded(Items(), successor, predecessor, head)
      ensures |shape.pos| == |old(shape.pos)| && |successor| == |old(successor)|
    {
      ghost var q, p := Items(), Th.Place(Items(), key, key[z]);
      ThreadBelow(z, y);
      LinkAndRepair(z, y, p);
      assert Items() == Inserted(q, p, z);
    }

    /** Links z, which is in no tree, behind all items of the same key. */
    method Insert(z: nat)
      requires Valid() && 0 < z < |parent| && !In(shape, z)
      modifies this
      ensures Valid() && key == old(key) && |parent| == |old(parent)|
      ensures Items() == Inserted(old(Items()), Th.Place(old(Items()), key, key[z]), z)
    {
      ResetHooks(z);
      if root == 0 {
        InsertFirst(z);
      } else {
        var y := FindParent(z);
        InsertBelow(z, y);
      }
      size := size + 1;
      Th.InsertSorted(old(Items()), key, z);
    }

    /** z leaves the thread. */
    method Unthread(z: nat)
      requires Positions(shape) && |successor| == |shape.pos| && In(shape, z)
      requires Th.Threaded(Items(), successor, predecessor, head)
      modifies `successor, `predecessor, `head
      ensures Th.Threaded(Deleted(Items(), shape.pos[z]), successor, predecessor, head)
      ensures |successor| == |old(successor)| && successor[z] == predecessor[z] == 0
    {
      ghost var su, pr, hd, p := successor, predecessor, head, shape.pos[z];
      assert Items()[p] == z;
      assert su[Items()[p]] == Th.Item(Items(), p + 1) && pr[Items()[p]] == Th.Item(Items(), p - 1);
      var pred := predecessor[z];
      var succ := successor[z];
      assert pred == 0 || successor[pred] == z by {
        assert pred != 0 ==> su[Items()[p - 1]] == z;
      }
      assert succ == 0 || predecessor[succ] == z by {
        assert succ != 0 ==> pr[Items()[p + 1]] == z;
      }
      if pred != 0 {
        successor := successor[pred := succ];
      } else {
        head := succ;
      }
      if succ != 0 {
        predecessor := predecessor[succ := pred];
      }
      // the source tests `_head == z` once more here; by now that cannot be
      assert head != z by {
        assert head != 0 ==> shape.pos[head] == if p == 0 then 1 else 0;
      }
      predecessor := predecessor[z := 0];
      successor := successor[z := 0];
      Th.DeleteThreaded(shape, p, su, successor, pr, predecessor, hd);
    }

    method Transplant(u: nat, v: nat)
      requires 0 < u < |parent| == |left| == |right| && v < |parent| && parent[u] < |parent|
      requires parent[u] != 0 ==> v != u
      modifies `parent, `left, `right, `root
      ensures L() == U.Transplanted(old(L()), u, v)
    {
      if parent[u] == 0 {
        root := v;
      } else if u == left[parent[u]] {
        left := left[parent[u] := v];
      } else {
        right := right[parent[u] := v];
      }
      parent := parent[v := parent[u]];
    }

    method Minimum(x0: nat) returns (x: nat)
      requires Tree(L(), shape) && In(shape, x0)
      ensures In(shape, x) && left[x] == 0 && shape.pos[x] == shape.lo[x0]
    {
      x := x0;
      Neighbours(L(), shape, x);
      while left[x] != 0
        invariant At(L(), shape, x) && shape.lo[x] == shape.lo[x0]
        decreases shape.hi[x] - shape.lo[x]
      {
        Neighbours(L(), shape, x);
        x := left[x];
      }
    }

    /** x is a left child with a red sibling. */
    method RemoveRedLeft(x: nat, ghost p: nat, w: nat) returns (w': nat)
      requires ShortLeft(L(), shape, K(), x, p, w) && w < |colour| && colour[w] == Red
      modifies `parent, `left, `right, `root, `shape, `colour
      ensures ShortLeft(L(), shape, K(), x, p, w') && w' < |colour| && colour[w'] == Black && colour[p] == Red
      ensures Items() == old(Items()) && |shape.pos| == |old(shape.pos)|
    {
      RedSiblingLeft(L(), shape, K(), Paint(colour[w := Black][p := Red], bh), x, p, w);
      colour := colour[w := Black];
      colour := colour[parent[x] := Red];
      RotateLeft(parent[x]);
      shape := TurnLeft(shape, p, w);
      w' := right[parent[x]];
    }

    /** x is a left child, and its black sibling has a red child. */
    method RemoveTurnLeft(x: nat, ghost p: nat, w: nat) returns (x': nat)
      requires ShortLeft(L(), shape, K(), x, p, w) && w < |colour| && colour[w] == Black
      requires right[w] < |colour| && left[w] < |colour| && (colour[right[w]] == Red || colour[left[w]] == Red)
      modifies `parent, `left, `right, `root, `shape, `colour, `bh
      ensures Lacking(L(), shape, K(), x') && x' == root
      ensures Items() == old(Items()) && |shape.pos| == |old(shape.pos)|
    {
      if colour[right[w]] == Black {
        ghost var v := left[w];
        InnerNephewLeftStep(L(), shape, K(), Paint(colour[v := Black][w := Red], bh), x, p, w);
        colour := colour[left[w] := Black];
        colour := colour[w := Red];
        RotateRight(w);
        shape := TurnRight(shape, w, v);
        x' := RemoveTurnOuterLeft(x, p, right[parent[x]]);
      } else {
        x' := RemoveTurnOuterLeft(x, p, w);
      }
    }

    method RemoveTurnOuterLeft(x: nat, ghost p: nat, w: nat) returns (x': nat)
      requires ShortLeft(L(), shape, K(), x, p, w) && w < |colour| && colour[w] == Black
      requires right[w] < |colour| && colour[right[w]] == Red
      modifies `parent, `left, `right, `root, `shape, `colour, `bh
      ensures Lacking(L(), shape, K(), x') && x' == root
      ensures Items() == old(Items()) && |shape.pos| == |old(shape.pos)|
    {
      OuterNephewLeftStep(L(), shape, K(),
                        Paint(colour[w := colour[p]][p := Black][right[w] := Black], bh[p := bh[w]][w := bh[w] + 1]),
                            x, p, w);
      colour := colour[w := colour[parent[x]]];
      colour := colour[parent[x] := Black];
      colour := colour[right[w] := Black];
      bh := bh[p := bh[w]][w := bh[w] + 1];
      RotateLeft(parent[x]);
      shape := TurnLeft(shape, p, w);
      x' := root;
    }

    /** x is a left child with a black sibling. */
    method RemoveBlackLeft(x: nat, ghost p: nat, w: nat) returns (x': nat)
      requires ShortLeft(L(), shape, K(), x, p, w) && w < |colour| && colour[w] == Black
      modifies `parent, `left, `right, `root, `shape, `colour, `bh
      ensures Lacking(L(), shape, K(), x') && Items() == old(Items()) && |shape.pos| == |old(shape.pos)|
      ensures x' == root || (x' == p && shape == old(shape) && colour[p] == old(colour[p]))
    {
      SiblingLeft(L(), shape, K(), x, p, w);
      if colour[left[w]] == Black && colour[right[w]] == Black {
        BlackNephewsLeft(L(), shape, K(), Paint(colour[w := Red], bh[p := bh[p] - 1]), x, p, w);
        colour := colour[w := Red];
        bh := bh[p := bh[p] - 1];
        x' := parent[x];
      } else {
        x' := RemoveTurnLeft(x, p, w);
      }
    }

    /** One round of the repair with x as a left child. */
    method RemoveStepLeft(x: nat, ghost p: nat) returns (x': nat)
      requires p < |right| && p < |left| && ShortLeft(L(), shape, K(), x, p, right[p])
      modifies `parent, `left, `right, `root, `shape, `colour, `bh
      ensures Lacking(L(), shape, K(), x') && Items() == old(Items()) && |shape.pos| == |old(shape.pos)|
      ensures x' == root || colour[x'] == Red || (x' == p && shape == old(shape))
    {
      var w := right[parent[x]];
      SiblingLeft(L(), shape, K(), x, p, w);
      if colour[w] == Red {
        w := RemoveRedLeft(x, p, w);
      }
      x' := RemoveBlackLeft(x, p, w);
    }

    /** x is a right child with a red sibling. */
    method RemoveRedRight(x: nat, ghost p: nat, w: nat) returns (w': nat)
      requires ShortRight(L(), shape, K(), x, p, w) && w < |colour| && colour[w] == Red
      modifies `parent, `left, `right, `root, `shape, `colour
      ensures ShortRight(L(), shape, K(), x, p, w') && w' < |colour| && colour[w'] == Black && colour[p] == Red
      ensures Items() == old(Items()) && |shape.pos| == |old(shape.pos)|
    {
      RedSiblingRight(L(), shape, K(), Paint(colour[w := Black][p := Red], bh), x, p, w);
      colour := colour[w := Black];
      colour := colour[parent[x] := Red];
      RotateRight(parent[x]);
      shape := TurnRight(shape, p, w);
      w' := left[parent[x]];
    }

    /** x is a right child, and its black sibling has a red child. */
    method RemoveTurnRight(x: nat, ghost p: nat, w: nat) returns (x': nat)
      requires ShortRight(L(), shape, K(), x, p, w) && w < |colour| && colour[w] == Black
      requires left[w] < |colour| && right[w] < |colour| && (colour[left[w]] == Red || colour[right[w]] == Red)
      modifies `parent, `left, `right, `root, `shape, `colour, `bh
      ensures Lacking(L(), shape, K(), x') && x' == root
      ensures Items() == old(Items()) && |shape.pos| == |old(shape.pos)|
    {
      if colour[left[w]] == Black {
        ghost var v := right[w];
        InnerNephewRightStep(L(), shape, K(), Paint(colour[v := Black][w := Red], bh), x, p, w);
        colour := colour[right[w] := Black];
        colour := colour[w := Red];
        RotateLeft(w);
        shape := TurnLeft(shape, w, v);
        x' := RemoveTurnOuterRight(x, p, left[parent[x]]);
      } else {
        x' := RemoveTurnOuterRight(x, p, w);
      }
    }

    method RemoveTurnOuterRight(x: nat, ghost p: nat, w: nat) returns (x': nat)
      requires ShortRight(L(), shape, K(), x, p, w) && w < |colour| && colour[w] == Black
      requires left[w] < |colour| && colour[left[w]] == Red
      modifies `parent, `left, `right, `root, `shape, `colour, `bh
      ensures Lacking(L(), shape, K(), x') && x' == root
      ensures Items() == old(Items()) && |shape.pos| == |old(shape.pos)|
    {
      OuterNephewRightStep(L(), shape, K(),
                        Paint(colour[w := colour[p]][p := Black][left[w] := Black], bh[p := bh[w]][w := bh[w] + 1]), x,
                            p, w);
      colour := colour[w := colour[parent[x]]];
      colour := colour[parent[x] := Black];
      colour := colour[left[w] := Black];
      bh := bh[p := bh[w]][w := bh[w] + 1];
      RotateRight(parent[x]);
      shape := TurnRight(shape, p, w);
      x' := root;
    }

    /** x is a right child with a black sibling. */
    method RemoveBlackRight(x: nat, ghost p: nat, w: nat) returns (x': nat)
      requires ShortRight(L(), shape, K(), x, p, w) && w < |colour| && colour[w] == Black
      modifies `parent, `left, `right, `root, `shape, `colour, `bh
      ensures Lacking(L(), shape, K(), x') && Items() == old(Items()) && |shape.pos| == |old(shape.pos)|
      ensures x' == root || (x' == p && shape == old(shape) && colour[p] == old(colour[p]))
    {
      SiblingRight(L(), shape, K(), x, p, w);
      if colour[right[w]] == Black && colour[left[w]] == Black {
        BlackNephewsRight(L(), shape, K(), Paint(colour[w := Red], bh[p := bh[p] - 1]), x, p, w);
        colour := colour[w := Red];
        bh := bh[p := bh[p] - 1];
        x' := parent[x];
      } else {
        x' := RemoveTurnRight(x, p, w);
      }
    }

    /** One round of the repair with x as a right child. */
    method RemoveStepRight(x: nat, ghost p: nat) returns (x': nat)
      requires p < |right| && p < |left| && ShortRight(L(), shape, K(), x, p, left[p])
      modifies `parent, `left, `right, `root, `shape, `colour, `bh
      ensures Lacking(L(), shape, K(), x') && Items() == old(Items()) && |shape.pos| == |old(shape.pos)|
      ensures x' == root || colour[x'] == Red || (x' == p && shape == old(shape))
    {
      var w := left[parent[x]];
      SiblingRight(L(), shape, K(), x, p, w);
      if colour[w] == Red {
        w := RemoveRedRight(x, p, w);
      }
      x' := RemoveBlackRight(x, p, w);
    }

    method RemoveFixup(x0: nat)
      requires Lacking(L(), shape, K(), x0)
      modifies `parent, `left, `right, `root, `shape, `colour, `bh
      ensures RedBlack(L(), shape, K()) && Items() == old(Items()) && |shape.pos| == |old(shape.pos)|
    {
      var x := x0;
      while x != root && colour[x] == Black
        invariant Lacking(L(), shape, K(), x) && Items() == old(Items()) && |shape.pos| == |old(shape.pos)|
        decreases if x == root || colour[x] == Red then 0 else 1 + |Items()| - Width(shape, x)
      {
        ghost var p := parent[x];
        HigherIsWider(L(), shape, K(), x);
        if x == left[parent[x]] {
          x := RemoveStepLeft(x, p);
        } else {
          x := RemoveStepRight(x, p);
        }
      }
      Blacken(L(), shape, K(), x);
      colour := colour[x := Black];
    }

    /** z has at most one child. */
    method UnlinkOuter(z: nat, c: nat)
      requires RedBlack(L(), shape, K()) && In(shape, z) && At(L(), shape, z) && OnlyChild(L(), z, c) && c < |left|
      modifies `parent, `left, `right, `root, `shape
      ensures U.Left(L(), shape, K(), c, old(colour[z]))
      ensures Items() == Deleted(old(Items()), old(shape.pos[z])) && |shape.pos| == |old(shape.pos)|
    {
      U.UnlinkOuter(L(), shape, K(), z, c);
      Transplant(z, c);
      shape := Shrink(shape, z, shape.pos[z]);
    }

    /** y, next to z, leaves its slot and gets the links of z. */
    method Replace(z: nat, y: nat)
      requires U.ReplaceOk(L(), z, y)
      modifies `parent, `left, `right, `root
      ensures L() == U.Replaced(old(L()), z, y)
    {
      var x := right[y];
      if y != right[z] {
        Transplant(y, right[y]);
        right := right[y := right[z]];
        parent := parent[right[y] := y];
      } else {
        parent := parent[x := y];
      }
      Transplant(z, y);
      left := left[y := left[z]];
      parent := parent[left[y] := y];
    }

    /** y, next to z, also gets the colour of z. */
    method ReplaceAndPaint(z: nat, y: nat, ghost s': Shape)
      requires U.ReplaceOk(L(), z, y) && z < |colour| && y < |colour| && |bh| == |colour|
      modifies `parent, `left, `right, `root, `shape, `colour, `bh
      ensures L() == U.Replaced(old(L()), z, y) && K() == U.Taken(old(K()), z, y) && shape == s'
    {
      Replace(z, y);
      colour := colour[y := colour[z]];
      bh := bh[y := bh[z]];
      shape := s';
    }

    /** z has two children. */
    method UnlinkInner(z: nat, y: nat)
      requires RedBlack(L(), shape, K()) && U.Inner(L(), shape, z, y) && parent[0] == 0
      modifies `parent, `left, `right, `root, `shape, `colour, `bh
      ensures U.Left(L(), shape, K(), old(right[y]), old(colour[y]))
      ensures Items() == Deleted(old(Items()), old(shape.pos[z])) && |shape.pos| == |old(shape.pos)|
    {
      U.UnlinkInner(L(), shape, K(), z, y);
      ReplaceAndPaint(z, y, Rename(Shrink(shape, y, shape.pos[y]), z, y));
    }

    /** Takes z out of the links, and tells which child x moved up and which colour its slot lost. */
    method Unlink(z: nat) returns (x: nat, lost: Colour)
      requires RedBlack(L(), shape, K()) && In(shape, z) && parent[0] == 0
      modifies `parent, `left, `right, `root, `shape, `colour, `bh
      ensures U.Left(L(), shape, K(), x, lost)
      ensures Items() == Deleted(old(Items()), old(shape.pos[z])) && |shape.pos| == |old(shape.pos)|
    {
      Neighbours(L(), shape, z);
      if left[z] == 0 {
        x := right[z];
        lost := colour[z];
        UnlinkOuter(z, x);
      } else if right[z] == 0 {
        x := left[z];
        lost := colour[z];
        UnlinkOuter(z, x);
      } else {
        var y := Minimum(right[z]);
        U.InnerCanReplace(L(), shape, z, y);
        lost := colour[y];
        x := right[y];
        UnlinkInner(z, y);
      }
    }

    method UnlinkAndRepair(z: nat)
      requires RedBlack(L(), shape, K()) && In(shape, z) && parent[0] == 0
      modifies `parent, `left, `right, `root, `shape, `colour, `bh
      ensures RedBlack(L(), shape, K())
      ensures Items() == Deleted(old(Items()), old(shape.pos[z])) && |shape.pos| == |old(shape.pos)|
    {
      var x, lost := Unlink(z);
      if lost == Black {
        RemoveFixup(x);
      }
    }

    /** `_remove` */
    method RemoveLinked(z: nat)
      requires Valid() && In(shape, z) && parent[0] == 0
      modifies `parent, `left, `right, `root, `shape, `colour, `bh, `successor, `predecessor, `head
      ensures RedBlack(L(), shape, K()) && |shape.pos| == |old(shape.pos)| && |successor| == |old(successor)|
      ensures Items() == Deleted(old(Items()), old(shape.pos[z]))
      ensures Th.Threaded(Items(), successor, predecessor, head)
    {
      Unthread(z);
      UnlinkAndRepair(z);
      if root == 0 {
        head := 0;
      } else {
        assert head != 0 && predecessor[head] == 0 by {
          assert predecessor[Items()[0]] == Th.Item(Items(), -1);
        }
      }
    }

    /** Takes z out of the tree. */
    method Remove(z: nat)
      requires Valid() && In(shape, z)
      modifies this
      ensures Valid() && key == old(key) && |parent| == |old(parent)|
      ensures Items() == Deleted(old(Items()), old(shape.pos[z]))
    {
      ResetHooks(0);
      assert Items()[shape.pos[z]] == z;
      RemoveLinked(z);
      Th.DeleteSorted(old(Items()), key, old(shape.pos[z]));
      assert size != 0;
      size := size - 1;
    }

    constructor (capacity: nat)
      ensures Valid() && Items() == [] && |parent| == capacity + 1
    {
      parent, left, right := seq(capacity + 1, _ => 0), seq(capacity + 1, _ => 0), seq(capacity + 1, _ => 0);
      successor, predecessor := seq(capacity + 1, _ => 0), seq(capacity + 1, _ => 0);
      colour, bh := seq(capacity + 1, _ => Black), seq(capacity + 1, _ => 0);
      key := seq(capacity + 1, _ => 0);
      root, head, size := 0, 0, 0;
      shape := Shape([], seq(capacity + 1, _ => -1), seq(capacity + 1, _ => 0), seq(capacity + 1, _ => 0));
    }

    /** The key of an item may be changed while the item is in no tree. */
    method SetKey(z: nat, k: int)
      requires Valid() && z < |key| && !In(shape, z)
      modifies `key
      ensures Valid() && key == old(key)[z := k]
    {
      key := key[z := k];
    }

    method First() returns (x: nat)
      requires Valid()
      ensures x == if Items() == [] then 0 else Items()[0]
    {
      x := head;
    }

    /** The greatest item, found by going right from the root. */
    method Last() returns (x: nat)
      requires Valid()
      ensures x == if Items() == [] then 0 else Items()[|Items()| - 1]
    {
      x := root;
      if x != 0 {
        while right[x] != 0
          invariant At(L(), shape, x) && shape.hi[x] == |Items()|
          decreases shape.hi[x] - shape.lo[x]
        {
          Neighbours(L(), shape, x);
          x := right[x];
        }
      }
    }

    /** The search down from the root finds whether some item has the key of x. */
    method Contains(x: nat) returns (found: bool)
      requires Valid() && x < |key|
      ensures found <==> exists i :: 0 <= i < |Items()| && key[Items()[i]] == key[x]
    {
      var current := root;
      ghost var a, b := 0, |Items()|;
      while current != 0 && key[current] != key[x]
        invariant 0 <= a <= b <= |Items()|
        invariant if current == 0 then a == b
                  else In(shape, current) && shape.lo[current] == a && shape.hi[current] == b
        invariant forall i | 0 <= i < a :: key[Items()[i]] < key[x]
        invariant forall i | b <= i < |Items()| :: key[Items()[i]] > key[x]
        decreases b - a
      {
        WalkStep(L(), shape, key, x, current);
        assert Items()[shape.pos[current]] == current;
        if key[x] < key[current] {
          b := shape.pos[current];
          current := left[current];
        } else {
          a := shape.pos[current] + 1;
          current := right[current];
        }
      }
      if current != 0 {
        assert Items()[shape.pos[current]] == current;
      }
      found := current != 0;
    }
  }
}
