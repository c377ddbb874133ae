/** The steps of insertion fixup, on values.  z is the red node that may hang below a red parent. */
module RbInsert {
  import opened RbShape
  import opened RbEdit
  import opened RbPaint

  /** A red-black tree but for the red z below a red parent. */
  ghost predicate Fixing(l: Links, s: Shape, k: Paint, z: nat) {
    && Tree(l, s) && Painted(l, s, k) && In(s, z) && k.colour[z] == Red
    && AllEven(l, s, k, 0, 0) && AllCalm(l, s, k, z, 0)
    && (z != l.root ==> k.colour[l.root] == Black)
  }

  /** z and its parent are red, so the grandparent exists and is black. */
  lemma Grandparent(l: Links, s: Shape, k: Paint, z: nat)
    requires Fixing(l, s, k, z) && At(l, s, z) && k.colour[l.parent[z]] == Red
    ensures var p := l.parent[z]; var g := l.parent[p];
            && z != l.root && p != l.root && At(l, s, p) && At(l, s, g) && k.colour[g] == Black
            && z != p && p != g && z != g
  {
    var p := l.parent[z];
    Neighbours(l, s, z);
    Neighbours(l, s, p);
    assert Calm(l, s, k, l.parent[p], z);
  }

  ghost predicate Recoloured(l: Links, s: Shape, k: Paint, k': Paint, z: nat, y: nat) {
    && Fixing(l, s, k, z) && At(l, s, z) && k.colour[l.parent[z]] == Red && l.parent[z] < |l.parent|
    && RepaintedAt(l, k, k', l.parent[z], l.parent[l.parent[z]], y)
  }

  ghost predicate RepaintedAt(l: Links, k: Paint, k': Paint, p: nat, g: nat, y: nat) {
    && g < |l.left| && g < |l.right| && (if p == l.left[g] then y == l.right[g] else y == l.left[g])
    && p < |k.colour| && g < |k.colour| && g < |k.bh| && y < |k.colour| && k.colour[y] == Red
    && k' == Paint(k.colour[p := Black][y := Black][g := Red], k.bh[g := k.bh[g] + 1])
  }

  /** The uncle is red: both red nodes turn black and the grandparent red. */
  lemma Recolour(l: Links, s: Shape, k: Paint, k': Paint, z: nat, y: nat)
    requires Recoloured(l, s, k, k', z, y)
    ensures Fixing(l, s, k', l.parent[l.parent[z]])
  {
    var g := l.parent[l.parent[z]];
    Grandparent(l, s, k, z);
    forall u | In(s, u) ensures Even(l, s, k', u, 0, 0) && Calm(l, s, k', u, g) {
      RecolourAt(l, s, k, k', z, y, u);
    }
  }

  lemma RecolourAt(l: Links, s: Shape, k: Paint, k': Paint, z: nat, y: nat, u: nat)
    requires Recoloured(l, s, k, k', z, y) && Painted(l, s, k') && In(s, u) && u < |s.pos|
    ensures Even(l, s, k', u, 0, 0) && Calm(l, s, k', u, l.parent[l.parent[z]])
  {
    var p := l.parent[z];
    var g := l.parent[p];
    Grandparent(l, s, k, z);
    Neighbours(l, s, g);
    Neighbours(l, s, u);
    assert Even(l, s, k, u, 0, 0) && Calm(l, s, k, u, z);
    RecolourNode(l, s, k, k', p, y, g, z, u);
  }

  lemma RecolourNode(l: Links, s: Shape, k: Paint, k': Paint, p: nat, y: nat, g: nat, z: nat, u: nat)
    requires Painted(l, s, k) && At(l, s, p) && At(l, s, g) && At(l, s, y) && At(l, s, u)
    requires z < |l.parent| && p != g && y != g && p != y && l.parent[p] == g && l.parent[y] == g && l.parent[z] == p
    requires {p, y} == {l.left[g], l.right[g]}
    requires k.colour[p] == Red && k.colour[y] == Red && k.colour[g] == Black
    requires k' == Paint(k.colour[p := Black][y := Black][g := Red], k.bh[g := k.bh[g] + 1])
    requires Even(l, s, k, u, 0, 0) && Calm(l, s, k, u, z)
    ensures Even(l, s, k', u, 0, 0) && Calm(l, s, k', u, g)
  {
  }

  /** z is the inner grandchild: the edge to its parent turns, and the parent becomes the outer one. */
  lemma TurnLeftInner(l: Links, l': Links, s: Shape, s': Shape, k: Paint, z: nat)
    requires Fixing(l, s, k, z) && At(l, s, z) && k.colour[l.parent[z]] == Red
    requires l.right[l.parent[z]] == z
    requires MovedLeft(l, l', s, s', l.parent[z])
    ensures Fixing(l', s', k, l.parent[z]) && l'.parent[l.parent[z]] == z && l'.left[z] == l.parent[z]
    ensures l'.parent[z] == l.parent[l.parent[z]]
  {
    var p := l.parent[z];
    Grandparent(l, s, k, z);
    Neighbours(l, s, z);
    assert Even(l, s, k, p, 0, 0) && Even(l, s, k, z, 0, 0) && Calm(l, s, k, p, z) && Calm(l, s, k, z, z);
    TurnLeftKeepsEven(l, l', s, s', k, k, p, 0, 0, 0, 0);
    TurnLeftKeepsCalm(l, l', s, s', k, k, p, z, p);
  }

  /** z is the inner grandchild: the edge to its parent turns, and the parent becomes the outer one. */
  lemma TurnRightInner(l: Links, l': Links, s: Shape, s': Shape, k: Paint, z: nat)
    requires Fixing(l, s, k, z) && At(l, s, z) && k.colour[l.parent[z]] == Red
    requires l.left[l.parent[z]] == z
    requires MovedRight(l, l', s, s', l.parent[z])
    ensures Fixing(l', s', k, l.parent[z]) && l'.parent[l.parent[z]] == z && l'.right[z] == l.parent[z]
    ensures l'.parent[z] == l.parent[l.parent[z]]
  {
    var p := l.parent[z];
    Grandparent(l, s, k, z);
    Neighbours(l, s, z);
    assert Even(l, s, k, p, 0, 0) && Even(l, s, k, z, 0, 0) && Calm(l, s, k, p, z) && Calm(l, s, k, z, z);
    TurnRightKeepsEven(l, l', s, s', k, k, p, 0, 0, 0, 0);
    TurnRightKeepsCalm(l, l', s, s', k, k, p, z, p);
  }

  /** The two nodes that turn, afterwards. */
  lemma TurnLeftOuterHere(l: Links, l': Links, s: Shape, s': Shape, k: Paint, k': Paint, z: nat)
    requires Fixing(l, s, k, z) && At(l, s, z) && k.colour[l.parent[z]] == Red
    requires var p := l.parent[z]; var g := l.parent[p];
             && g < |l.left| && l.right[g] == p && l.right[p] == z
             && l.left[g] < |k.colour| && k.colour[l.left[g]] == Black
             && k' == Paint(k.colour[p := Black][g := Red], k.bh)
             && MovedLeft(l, l', s, s', g)
    ensures TurnedLeft(l, l', s, s', k, k', l.parent[l.parent[z]]) && l.right[l.parent[l.parent[z]]] < |s.pos|
    ensures Even(l', s', k', l.parent[l.parent[z]], 0, 0) && Even(l', s', k', l.right[l.parent[l.parent[z]]], 0, 0)
    ensures Calm(l', s', k', l.parent[l.parent[z]], z) && Calm(l', s', k', l.right[l.parent[l.parent[z]]], z)
  {
    var p := l.parent[z];
    var g := l.parent[p];
    Grandparent(l, s, k, z);
    Neighbours(l, s, z);
    assert Even(l, s, k, p, 0, 0) && Even(l, s, k, g, 0, 0) && Calm(l, s, k, p, z) && Calm(l, s, k, z, z);
  }

  /** z is the outer grandchild: its parent turned black, the grandparent red, and the edge between them turned. */
  lemma TurnLeftOuter(l: Links, l': Links, s: Shape, s': Shape, k: Paint, k': Paint, z: nat)
    requires Fixing(l, s, k, z) && At(l, s, z) && k.colour[l.parent[z]] == Red
    requires var p := l.parent[z]; var g := l.parent[p];
             && g < |l.left| && l.right[g] == p && l.right[p] == z
             && l.left[g] < |k.colour| && k.colour[l.left[g]] == Black
             && k' == Paint(k.colour[p := Black][g := Red], k.bh)
             && MovedLeft(l, l', s, s', g)
    ensures Fixing(l', s', k', z) && l'.parent[z] < |k'.colour| && k'.colour[l'.parent[z]] == Black
  {
    var p := l.parent[z];
    var g := l.parent[p];
    Grandparent(l, s, k, z);
    Neighbours(l, s, z);
    assert Even(l, s, k, p, 0, 0) && Even(l, s, k, g, 0, 0) && Calm(l, s, k, p, z) && Calm(l, s, k, z, z);
    TurnLeftOuterHere(l, l', s, s', k, k', z);
    TurnLeftKeepsEven(l, l', s, s', k, k', g, 0, 0, 0, 0);
    TurnLeftKeepsCalm(l, l', s, s', k, k', g, z, z);
  }

  /** The two nodes that turn, afterwards. */
  lemma TurnRightOuterHere(l: Links, l': Links, s: Shape, s': Shape, k: Paint, k': Paint, z: nat)
    requires Fixing(l, s, k, z) && At(l, s, z) && k.colour[l.parent[z]] == Red
    requires var p := l.parent[z]; var g := l.parent[p];
             && g < |l.left| && l.left[g] == p && l.left[p] == z
             && l.right[g] < |k.colour| && k.colour[l.right[g]] == Black
             && k' == Paint(k.colour[p := Black][g := Red], k.bh)
             && MovedRight(l, l', s, s', g)
    ensures TurnedRight(l, l', s, s', k, k', l.parent[l.parent[z]]) && l.left[l.parent[l.parent[z]]] < |s.pos|
    ensures Even(l', s', k', l.parent[l.parent[z]], 0, 0) && Even(l', s', k', l.left[l.parent[l.parent[z]]], 0, 0)
    ensures Calm(l', s', k', l.parent[l.parent[z]], z) && Calm(l', s', k', l.left[l.parent[l.parent[z]]], z)
  {
    var p := l.parent[z];
    var g := l.parent[p];
    Grandparent(l, s, k, z);
    Neighbours(l, s, z);
    assert Even(l, s, k, p, 0, 0) && Even(l, s, k, g, 0, 0) && Calm(l, s, k, p, z) && Calm(l, s, k, z, z);
  }

  /** z is the outer grandchild: its parent turned black, the grandparent red, and the edge between them turned. */
  lemma TurnRightOuter(l: Links, l': Links, s: Shape, s': Shape, k: Paint, k': Paint, z: nat)
    requires Fixing(l, s, k, z) && At(l, s, z) && k.colour[l.parent[z]] == Red
    requires var p := l.parent[z]; var g := l.parent[p];
             && g < |l.left| && l.left[g] == p && l.left[p] == z
             && l.right[g] < |k.colour| && k.colour[l.right[g]] == Black
             && k' == Paint(k.colour[p := Black][g := Red], k.bh)
             && MovedRight(l, l', s, s', g)
    ensures Fixing(l', s', k', z) && l'.parent[z] < |k'.colour| && k'.colour[l'.parent[z]] == Black
  {
    var p := l.parent[z];
    var g := l.parent[p];
    Grandparent(l, s, k, z);
    Neighbours(l, s, z);
    assert Even(l, s, k, p, 0, 0) && Even(l, s, k, g, 0, 0) && Calm(l, s, k, p, z) && Calm(l, s, k, z, z);
    TurnRightOuterHere(l, l', s, s', k, k', z);
    TurnRightKeepsEven(l, l', s, s', k, k', g, 0, 0, 0, 0);
    TurnRightKeepsCalm(l, l', s, s', k, k', g, z, z);
  }

  /** z is red below a red parent p, and g is above p. */
  ghost predicate RedPair(l: Links, s: Shape, k: Paint, z: nat, p: nat, g: nat) {
    && Fixing(l, s, k, z) && l.parent[z] == p && 0 < p < |s.pos| && k.colour[p] == Red && l.parent[p] == g
  }

  lemma RedPairExists(l: Links, s: Shape, k: Paint, z: nat)
    requires Fixing(l, s, k, z) && (l.parent[z] < |s.pos| ==> k.colour[l.parent[z]] == Red)
    ensures var p := l.parent[z];
            && 0 < p < |s.pos| && 0 < l.parent[p] < |s.pos| && RedPair(l, s, k, z, p, l.parent[p])
            && (l.left[p] == z || l.right[p] == z)
            && l.left[l.parent[p]] < |s.pos| && l.right[l.parent[p]] < |s.pos|
            && (l.left[l.parent[p]] == p || l.right[l.parent[p]] == p)
            && s.hi[z] - s.lo[z] < s.hi[l.parent[p]] - s.lo[l.parent[p]] <= |s.order|
  {
    Neighbours(l, s, z);
    Grandparent(l, s, k, z);
    Neighbours(l, s, l.parent[z]);
    Neighbours(l, s, l.parent[l.parent[z]]);
  }

  lemma InnerLeftStep(l: Links, s: Shape, k: Paint, z: nat, p: nat, g: nat)
    requires RedPair(l, s, k, z, p, g) && l.right[p] == z
    ensures CanRotateLeft(l, p) && In(s, l.root) && l.parent[l.root] == 0
    ensures var l' := LeftRotation(l, p);
            RedPair(l', TurnLeft(s, p, z), k, p, z, g) && l'.left[z] == p
            && (l.left[g] == p ==> l'.left[g] == z && l'.right[g] == l.right[g])
  {
    Neighbours(l, s, z);
    Neighbours(l, s, p);
    Grandparent(l, s, k, z);
    TreeCanRotateLeft(l, s, p);
    LeftRotationPointwise(l, p);
    RotateLeftKeepsTree(l, LeftRotation(l, p), s, p);
    TurnLeftInner(l, LeftRotation(l, p), s, TurnLeft(s, p, z), k, z);
  }

  lemma OuterLeftStep(l: Links, s: Shape, k: Paint, k': Paint, z: nat, p: nat, g: nat)
    requires RedPair(l, s, k, z, p, g) && l.right[p] == z && 0 < g < |s.pos| && l.right[g] == p
    requires l.left[g] < |s.pos| && k.colour[l.left[g]] == Black
    requires k' == Paint(k.colour[p := Black][g := Red], k.bh)
    ensures CanRotateLeft(l, g) && In(s, l.root) && l.parent[l.root] == 0
    ensures var l' := LeftRotation(l, g);
            Fixing(l', TurnLeft(s, g, p), k', z) && l'.parent[z] == p && k'.colour[p] == Black
  {
    Neighbours(l, s, z);
    Neighbours(l, s, p);
    Grandparent(l, s, k, z);
    Neighbours(l, s, g);
    TreeCanRotateLeft(l, s, g);
    LeftRotationPointwise(l, g);
    RotateLeftKeepsTree(l, LeftRotation(l, g), s, g);
    TurnLeftOuter(l, LeftRotation(l, g), s, TurnLeft(s, g, p), k, k', z);
  }

  lemma InnerRightStep(l: Links, s: Shape, k: Paint, z: nat, p: nat, g: nat)
    requires RedPair(l, s, k, z, p, g) && l.left[p] == z
    ensures CanRotateRight(l, p) && In(s, l.root) && l.parent[l.root] == 0
    ensures var l' := RightRotation(l, p);
            RedPair(l', TurnRight(s, p, z), k, p, z, g) && l'.right[z] == p
            && (l.right[g] == p ==> l'.right[g] == z && l'.left[g] == l.left[g])
  {
    Neighbours(l, s, z);
    Neighbours(l, s, p);
    Grandparent(l, s, k, z);
    TreeCanRotateRight(l, s, p);
    RightRotationPointwise(l, p);
    RotateRightKeepsTree(l, RightRotation(l, p), s, p);
    TurnRightInner(l, RightRotation(l, p), s, TurnRight(s, p, z), k, z);
  }

  lemma OuterRightStep(l: Links, s: Shape, k: Paint, k': Paint, z: nat, p: nat, g: nat)
    requires RedPair(l, s, k, z, p, g) && l.left[p] == z && 0 < g < |s.pos| && l.left[g] == p
    requires l.right[g] < |s.pos| && k.colour[l.right[g]] == Black
    requires k' == Paint(k.colour[p := Black][g := Red], k.bh)
    ensures CanRotateRight(l, g) && In(s, l.root) && l.parent[l.root] == 0
    ensures var l' := RightRotation(l, g);
            Fixing(l', TurnRight(s, g, p), k', z) && l'.parent[z] == p && k'.colour[p] == Black
  {
    Neighbours(l, s, z);
    Neighbours(l, s, p);
    Grandparent(l, s, k, z);
    Neighbours(l, s, g);
    TreeCanRotateRight(l, s, g);
    RightRotationPointwise(l, g);
    RotateRightKeepsTree(l, RightRotation(l, g), s, g);
    TurnRightOuter(l, RightRotation(l, g), s, TurnRight(s, g, p), k, k', z);
  }

  /** Once z hangs below a black parent, blackening the root ends the repair. */
  lemma BlackRoot(l: Links, s: Shape, k: Paint, z: nat)
    requires Fixing(l, s, k, z) && (l.parent[z] < |k.colour| ==> k.colour[l.parent[z]] == Black)
    ensures In(s, l.root)
    ensures var k' := Paint(k.colour[l.root := Black], k.bh);
            AllEven(l, s, k', 0, 0) && AllCalm(l, s, k', 0, 0)
  {
    var k' := Paint(k.colour[l.root := Black], k.bh);
    Neighbours(l, s, z);
    forall u | In(s, u) ensures Even(l, s, k', u, 0, 0) && Calm(l, s, k', u, 0) {
      assert Even(l, s, k, u, 0, 0) && Calm(l, s, k, u, z);
      Neighbours(l, s, u);
      Neighbours(l, s, l.root);
    }
  }

  /** A red-black tree. */
  ghost predicate RedBlack(l: Links, s: Shape, k: Paint) {
    && Tree(l, s) && Painted(l, s, k)
    && AllEven(l, s, k, 0, 0) && AllCalm(l, s, k, 0, 0)
    && l.root < |k.colour| && k.colour[l.root] == Black
  }

  /** A new red leaf is the only thing to repair. */
  lemma LinkFixing(l: Links, l': Links, s: Shape, s': Shape, k: Paint, z: nat, y: nat, onLeft: bool)
    requires RedBlack(l, s, k) && Linking(l, l', s, s', z, y, onLeft, y)
    ensures Fixing(l', s', Paint(k.colour[z := Red], k.bh[z := 1]), z)
  {
    LinkKeepsTree(l, l', s, s', z, y, onLeft);
    LinkKeepsPositions(s, s', z, s.pos[y], if onLeft then s.pos[y] else s.pos[y] + 1);
    var k' := Paint(k.colour[z := Red], k.bh[z := 1]);
    forall u | In(s', u) ensures Even(l', s', k', u, 0, 0) && Calm(l', s', k', u, z) {
      if u != z {
        Neighbours(l, s, u);
        assert Even(l, s, k, u, 0, 0) && Calm(l, s, k, u, 0);
        LinkFixingNode(l, l', s, s', k, k', z, y, onLeft, u);
      }
    }
  }

  lemma LinkFixingNode(l: Links, l': Links, s: Shape, s': Shape, k: Paint, k': Paint, z: nat, y: nat,
                       onLeft: bool, u: nat)
    requires Painted(l, s, k) && Linking(l, l', s, s', z, y, onLeft, u) && Painted(l', s', k') && u != z
    requires k' == Paint(k.colour[z := Red], k.bh[z := 1])
    requires Even(l, s, k, u, 0, 0) && Calm(l, s, k, u, 0)
    ensures Even(l', s', k', u, 0, 0) && Calm(l', s', k', u, z)
  {
  }
}
