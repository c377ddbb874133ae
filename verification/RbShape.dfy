/** The shape of the intrusive red-black tree, seen without its algorithms.

    The hooks of all items live in an arena: `parent[i]`, `left[i]` and `right[i]` are the fields of
    item `i`'s hook.  Index 0 stands for nil, and its hook is the temporary one (`nh`) that every public
    operation makes on its stack.

    The ghost `Shape` gives every linked item its in-order position and the range `lo..hi` of in-order
    positions that its subtree covers.  With it, "these hooks form one binary tree whose in-order walk
    is `order`" becomes a condition on each node alone. */
module RbShape {

  datatype Links = Links(parent: seq<nat>, left: seq<nat>, right: seq<nat>, root: nat)

  datatype Shape = Shape(order: seq<nat>, pos: seq<int>, lo: seq<int>, hi: seq<int>)

  /** Item x is linked into the tree. */
  ghost predicate In(s: Shape, x: int) {
    0 < x < |s.pos| && 0 <= s.pos[x]
  }

  ghost predicate Sizes(l: Links, s: Shape) {
    0 < |s.pos| == |s.lo| == |s.hi| == |l.parent| == |l.left| == |l.right|
  }

  /** `order` and `pos` are inverse to each other. */
  ghost predicate Positions(s: Shape) {
    && (forall i | 0 <= i < |s.order| :: In(s, s.order[i]) && s.pos[s.order[i]] == i)
    && (forall x | In(s, x) :: s.pos[x] < |s.order| && s.order[s.pos[x]] == x)
  }

  /** c is nil when the range is empty, and otherwise a node that covers exactly the range. */
  ghost predicate Child(l: Links, s: Shape, c: nat, p: nat, from: int, to: int)
    requires Sizes(l, s)
  {
    if from == to then c == 0
    else In(s, c) && s.lo[c] == from && s.hi[c] == to && l.parent[c] == p
  }

  ghost predicate Range(s: Shape, x: nat)
    requires In(s, x) && |s.pos| == |s.lo| == |s.hi|
  {
    0 <= s.lo[x] <= s.pos[x] < s.hi[x] <= |s.order|
  }

  ghost predicate Left(l: Links, s: Shape, x: nat)
    requires Sizes(l, s) && In(s, x)
  {
    Child(l, s, l.left[x], x, s.lo[x], s.pos[x])
  }

  ghost predicate Right(l: Links, s: Shape, x: nat)
    requires Sizes(l, s) && In(s, x)
  {
    Child(l, s, l.right[x], x, s.pos[x] + 1, s.hi[x])
  }

  ghost predicate Up(l: Links, s: Shape, x: nat)
    requires Sizes(l, s) && In(s, x)
  {
    if x == l.root then l.parent[x] == 0
    else In(s, l.parent[x]) && (l.left[l.parent[x]] == x || l.right[l.parent[x]] == x)
  }

  ghost predicate Node(l: Links, s: Shape, x: nat)
    requires Sizes(l, s) && In(s, x)
  {
    Range(s, x) && Left(l, s, x) && Right(l, s, x) && Up(l, s, x)
  }

  /** The root covers all positions. */
  ghost predicate Rooted(l: Links, s: Shape)
    requires |s.pos| == |s.lo| == |s.hi|
  {
    if s.order == [] then l.root == 0
    else In(s, l.root) && s.lo[l.root] == 0 && s.hi[l.root] == |s.order|
  }

  ghost predicate Tree(l: Links, s: Shape) {
    && Sizes(l, s)
    && Positions(s)
    && (forall x {:trigger Node(l, s, x)} | In(s, x) :: Node(l, s, x))
    && Rooted(l, s)
  }

  /** What x and its neighbours see of a tree around x. */
  ghost predicate At(l: Links, s: Shape, x: nat) {
    Sizes(l, s) && In(s, x) && Node(l, s, x)
  }

  /** Any linked item, and its neighbours, are nodes. */
  lemma Neighbours(l: Links, s: Shape, u: nat)
    requires Tree(l, s) && In(s, u)
    ensures At(l, s, u)
    ensures l.left[u] != 0 ==> At(l, s, l.left[u])
    ensures l.right[u] != 0 ==> At(l, s, l.right[u])
    ensures u != l.root ==> At(l, s, l.parent[u])
  {
    assert Node(l, s, u);
  }

  /** The shape after the edge between x and its right child y is turned. */
  ghost function TurnLeft(s: Shape, x: nat, y: nat): Shape
    requires x < |s.pos| == |s.lo| == |s.hi| && y < |s.pos|
  {
    s.(lo := s.lo[y := s.lo[x]], hi := s.hi[x := s.pos[y]][y := s.hi[x]])
  }

  ghost function TurnRight(s: Shape, x: nat, y: nat): Shape
    requires x < |s.pos| == |s.lo| == |s.hi| && y < |s.pos|
  {
    s.(lo := s.lo[x := s.pos[y] + 1][y := s.lo[x]], hi := s.hi[y := s.hi[x]])
  }

  /** The hooks a rotation touches are there and distinct. */
  ghost predicate CanRotateLeft(l: Links, x: nat) {
    && 0 < x < |l.parent| == |l.left| == |l.right|
    && 0 < l.right[x] < |l.left| && l.right[x] != x
    && l.parent[x] < |l.left| && l.parent[x] != x && l.parent[x] != l.right[x]
    && l.left[l.right[x]] < |l.left| && l.left[l.right[x]] != x && l.left[l.right[x]] != l.right[x]
  }

  ghost predicate CanRotateRight(l: Links, x: nat) {
    && 0 < x < |l.parent| == |l.left| == |l.right|
    && 0 < l.left[x] < |l.left| && l.left[x] != x
    && l.parent[x] < |l.left| && l.parent[x] != x && l.parent[x] != l.left[x]
    && l.right[l.left[x]] < |l.left| && l.right[l.left[x]] != x && l.right[l.left[x]] != l.left[x]
  }

  /** What a left rotation at x leaves in the hooks; `l'` is otherwise `l`. */
  ghost predicate RotatedLeft(l: Links, l': Links, x: nat)
    requires 0 < x < |l.parent| == |l.left| == |l.right|
    requires 0 < l.right[x] < |l.parent|
  {
    var y := l.right[x];
    var p := l.parent[x];
    && |l'.parent| == |l'.left| == |l'.right| == |l.parent|
    && (forall u | 0 < u < |l.left| ::
          l'.left[u] == if u == y then x else if u == p && l.left[p] == x then y else l.left[u])
    && (forall u | 0 < u < |l.right| ::
          l'.right[u] == if u == x then l.left[y] else if u == p && l.left[p] != x then y else l.right[u])
    && (forall u | 0 < u < |l.parent| ::
          l'.parent[u] == if u == x then y else if u == y then p else if u == l.left[y] then x else l.parent[u])
    && l'.parent[0] == l.parent[0]
    && l'.root == (if p == 0 then y else l.root)
  }

  ghost predicate RotatedRight(l: Links, l': Links, x: nat)
    requires 0 < x < |l.parent| == |l.left| == |l.right|
    requires 0 < l.left[x] < |l.parent|
  {
    var y := l.left[x];
    var p := l.parent[x];
    && |l'.parent| == |l'.left| == |l'.right| == |l.parent|
    && (forall u | 0 < u < |l.right| ::
          l'.right[u] == if u == y then x else if u == p && l.right[p] == x then y else l.right[u])
    && (forall u | 0 < u < |l.left| ::
          l'.left[u] == if u == x then l.right[y] else if u == p && l.right[p] != x then y else l.left[u])
    && (forall u | 0 < u < |l.parent| ::
          l'.parent[u] == if u == x then y else if u == y then p else if u == l.right[y] then x else l.parent[u])
    && l'.parent[0] == l.parent[0]
    && l'.root == (if p == 0 then y else l.root)
  }

  /** A left rotation at x, as seen from x, its child y, its parent and another node u. */
  ghost predicate RotatingLeft(l: Links, l': Links, s: Shape, s': Shape, x: nat, u: nat) {
    && At(l, s, x) && l.right[x] != 0 && At(l, s, l.right[x]) && At(l, s, u)
    && (x != l.root ==> At(l, s, l.parent[x]))
    && (u != l.root ==> At(l, s, l.parent[u]))
    && RotatedLeft(l, l', x)
    && s' == TurnLeft(s, x, l.right[x])
    && (s.pos[u] == s.pos[x] ==> u == x) && (s.pos[u] == s.pos[l.right[x]] ==> u == l.right[x])
  }

  lemma RotateLeftKeepsLeft(l: Links, l': Links, s: Shape, s': Shape, x: nat, u: nat)
    requires RotatingLeft(l, l', s, s', x, u)
    ensures Range(s', u) && Left(l', s', u)
  {
    if u == x || u == l.right[x] {
    } else if l.left[u] == x {
    } else {
    }
  }

  lemma RotateLeftKeepsRight(l: Links, l': Links, s: Shape, s': Shape, x: nat, u: nat)
    requires RotatingLeft(l, l', s, s', x, u)
    ensures Right(l', s', u)
  {
    if u == x || u == l.right[x] {
    } else if l.right[u] == x {
    } else {
    }
  }

  lemma RotateLeftKeepsUp(l: Links, l': Links, s: Shape, s': Shape, x: nat, u: nat)
    requires RotatingLeft(l, l', s, s', x, u)
    ensures Up(l', s', u)
  {
  }

  /** A right rotation at x, as seen from x, its child y, its parent and another node u. */
  ghost predicate RotatingRight(l: Links, l': Links, s: Shape, s': Shape, x: nat, u: nat) {
    && At(l, s, x) && l.left[x] != 0 && At(l, s, l.left[x]) && At(l, s, u)
    && (x != l.root ==> At(l, s, l.parent[x]))
    && (u != l.root ==> At(l, s, l.parent[u]))
    && RotatedRight(l, l', x)
    && s' == TurnRight(s, x, l.left[x])
    && (s.pos[u] == s.pos[x] ==> u == x) && (s.pos[u] == s.pos[l.left[x]] ==> u == l.left[x])
  }

  lemma RotateRightKeepsLeft(l: Links, l': Links, s: Shape, s': Shape, x: nat, u: nat)
    requires RotatingRight(l, l', s, s', x, u)
    ensures Range(s', u) && Left(l', s', u)
  {
    if u == x || u == l.left[x] {
    } else if l.left[u] == x {
    } else {
    }
  }

  lemma RotateRightKeepsRight(l: Links, l': Links, s: Shape, s': Shape, x: nat, u: nat)
    requires RotatingRight(l, l', s, s', x, u)
    ensures Right(l', s', u)
  {
    if u == x || u == l.left[x] {
    } else if l.right[u] == x {
    } else {
    }
  }

  lemma RotateRightKeepsUp(l: Links, l': Links, s: Shape, s': Shape, x: nat, u: nat)
    requires RotatingRight(l, l', s, s', x, u)
    ensures Up(l', s', u)
  {
  }

  lemma RotateLeftKeepsNode(l: Links, l': Links, s: Shape, s': Shape, x: nat, u: nat)
    requires RotatingLeft(l, l', s, s', x, u)
    ensures Node(l', s', u)
  {
    RotateLeftKeepsLeft(l, l', s, s', x, u);
    RotateLeftKeepsRight(l, l', s, s', x, u);
    RotateLeftKeepsUp(l, l', s, s', x, u);
  }

  lemma RotateLeftKeepsRoot(l: Links, l': Links, s: Shape, s': Shape, x: nat)
    requires RotatingLeft(l, l', s, s', x, l.root) && Rooted(l, s) && s.order != []
    ensures Rooted(l', s')
  {
  }

  lemma SamePositions(s: Shape, s': Shape)
    requires Positions(s) && s'.order == s.order && s'.pos == s.pos
    ensures Positions(s')
    ensures forall u :: In(s', u) <==> In(s, u)
  {
  }

  lemma RotateLeftKeepsTree(l: Links, l': Links, s: Shape, x: nat)
    requires Tree(l, s) && At(l, s, x) && l.right[x] != 0
    requires RotatedLeft(l, l', x)
    ensures Tree(l', TurnLeft(s, x, l.right[x]))
  {
    var y := l.right[x];
    var s' := TurnLeft(s, x, y);
    SamePositions(s, s');
    Neighbours(l, s, x);
    Neighbours(l, s, l.root);
    forall u | In(s', u) ensures Node(l', s', u) {
      Neighbours(l, s, u);
      RotateLeftKeepsNode(l, l', s, s', x, u);
    }
    RotateLeftKeepsRoot(l, l', s, s', x);
  }

  lemma RotateRightKeepsNode(l: Links, l': Links, s: Shape, s': Shape, x: nat, u: nat)
    requires RotatingRight(l, l', s, s', x, u)
    ensures Node(l', s', u)
  {
    RotateRightKeepsLeft(l, l', s, s', x, u);
    RotateRightKeepsRight(l, l', s, s', x, u);
    RotateRightKeepsUp(l, l', s, s', x, u);
  }

  lemma RotateRightKeepsRoot(l: Links, l': Links, s: Shape, s': Shape, x: nat)
    requires RotatingRight(l, l', s, s', x, l.root) && Rooted(l, s) && s.order != []
    ensures Rooted(l', s')
  {
  }

  lemma RotateRightKeepsTree(l: Links, l': Links, s: Shape, x: nat)
    requires Tree(l, s) && At(l, s, x) && l.left[x] != 0
    requires RotatedRight(l, l', x)
    ensures Tree(l', TurnRight(s, x, l.left[x]))
  {
    var y := l.left[x];
    var s' := TurnRight(s, x, y);
    SamePositions(s, s');
    Neighbours(l, s, x);
    Neighbours(l, s, l.root);
    forall u | In(s', u) ensures Node(l', s', u) {
      Neighbours(l, s, u);
      RotateRightKeepsNode(l, l', s, s', x, u);
    }
    RotateRightKeepsRoot(l, l', s, s', x);
  }

  lemma TreeCanRotateLeft(l: Links, s: Shape, x: nat)
    requires Tree(l, s) && In(s, x) && At(l, s, x) && l.right[x] != 0
    ensures CanRotateLeft(l, x) && In(s, l.root) && l.parent[l.root] == 0
  {
    Neighbours(l, s, x);
    Neighbours(l, s, l.root);
    Neighbours(l, s, l.right[x]);
  }

  lemma TreeCanRotateRight(l: Links, s: Shape, x: nat)
    requires Tree(l, s) && In(s, x) && At(l, s, x) && l.left[x] != 0
    ensures CanRotateRight(l, x) && In(s, l.root) && l.parent[l.root] == 0
  {
    Neighbours(l, s, x);
    Neighbours(l, s, l.root);
    Neighbours(l, s, l.left[x]);
  }

  /** The hooks after the writes of a left rotation. */
  ghost function LeftRotation(l: Links, x: nat): Links
    requires CanRotateLeft(l, x)
  {
    var y := l.right[x];
    var p := l.parent[x];
    var onSide := p != 0 && l.left[p] == x;
    Links((if l.left[y] != 0 then l.parent[l.left[y] := x] else l.parent)[y := p][x := y],
          (if onSide then l.left[p := y] else l.left)[y := x],
          if p != 0 && !onSide then l.right[x := l.left[y]][p := y] else l.right[x := l.left[y]],
          if p == 0 then y else l.root)
  }

  lemma LeftRotationPointwise(l: Links, x: nat)
    requires CanRotateLeft(l, x)
    ensures RotatedLeft(l, LeftRotation(l, x), x)
  {
  }

  /** The hooks after the writes of a right rotation. */
  ghost function RightRotation(l: Links, x: nat): Links
    requires CanRotateRight(l, x)
  {
    var y := l.left[x];
    var p := l.parent[x];
    var onSide := p != 0 && l.right[p] == x;
    Links((if l.right[y] != 0 then l.parent[l.right[y] := x] else l.parent)[y := p][x := y],
          if p != 0 && !onSide then l.left[x := l.right[y]][p := y] else l.left[x := l.right[y]],
          (if onSide then l.right[p := y] else l.right)[y := x],
          if p == 0 then y else l.root)
  }

  lemma RightRotationPointwise(l: Links, x: nat)
    requires CanRotateRight(l, x)
    ensures RotatedRight(l, RightRotation(l, x), x)
  {
  }
}
