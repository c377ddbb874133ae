/** The steps of removal fixup, on values.  x, an item or nil, is the place that lacks one black. */
module RbRemove {
  import opened RbShape
  import opened RbPaint
  import opened RbInsert

  /** A red-black tree but for one black missing at x, whose parent is read from x's hook even when x is nil. */
  ghost predicate Lacking(l: Links, s: Shape, k: Paint, x: nat) {
    && Tree(l, s) && Painted(l, s, k) && x < |s.pos|
    && (x == l.root || In(s, l.parent[x]))
    && (x == l.root ==> l.parent[x] == 0)
    && (x != l.root ==> var p := l.parent[x];
          && l.left[p] < |s.pos| && l.right[p] < |s.pos|
          && l.left[p] != l.right[p] && (x == l.left[p] || x == l.right[p]))
    && AllEven(l, s, k, l.parent[x], x) && AllCalm(l, s, k, x, x)
    && (x != l.root ==> k.colour[l.root] == Black)
  }

  /** The repair is over: x is the root or red, and turns black. */
  lemma Blacken(l: Links, s: Shape, k: Paint, x: nat)
    requires Lacking(l, s, k, x) && (x == l.root || k.colour[x] == Red)
    ensures RedBlack(l, s, Paint(k.colour[x := Black], k.bh))
  {
    var k' := Paint(k.colour[x := Black], k.bh);
    forall u | In(s, u) ensures Even(l, s, k', u, 0, 0) && Calm(l, s, k', u, 0) {
      assert Even(l, s, k, u, l.parent[x], x) && (u != x ==> Calm(l, s, k, u, x));
      Neighbours(l, s, u);
    }
  }

  lemma CalmWeaker(l: Links, s: Shape, k: Paint, e: nat, skip: nat)
    requires Painted(l, s, k) && AllCalm(l, s, k, 0, 0)
    ensures AllCalm(l, s, k, e, skip)
  {
    forall u | In(s, u) ensures Calm(l, s, k, u, e) {
      assert Calm(l, s, k, u, 0);
    }
  }

  /** While the repair goes on, no red node hangs below a red one. */
  lemma NoRedPair(l: Links, s: Shape, k: Paint, x: nat)
    requires Lacking(l, s, k, x) && x != l.root && k.colour[x] == Black
    ensures AllCalm(l, s, k, 0, 0)
  {
    forall u | In(s, u) ensures Calm(l, s, k, u, 0) {
      assert u != x ==> Calm(l, s, k, u, x);
      Neighbours(l, s, u);
    }
  }

  /** x is the left child of p and lacks a black, and w is its sibling. */
  ghost predicate ShortLeft(l: Links, s: Shape, k: Paint, x: nat, p: nat, w: nat) {
    && Lacking(l, s, k, x) && x != l.root && k.colour[x] == Black
    && l.parent[x] == p && 0 < p < |s.pos| && l.left[p] == x && l.right[p] == w
  }

  /** The sibling is an item. */
  lemma SiblingLeft(l: Links, s: Shape, k: Paint, x: nat, p: nat, w: nat)
    requires ShortLeft(l, s, k, x, p, w)
    ensures In(s, w) && At(l, s, w) && At(l, s, p) && w != x && w != p && x != p
    ensures k.bh[p] == Weight(k, x) + 1 == Weight(k, w) && 0 <= k.bh[w] && 1 <= Weight(k, x)
    ensures k.bh[w] == Weight(k, l.left[w]) == Weight(k, l.right[w])
    ensures AllCalm(l, s, k, 0, 0) && Calm(l, s, k, p, 0) && Calm(l, s, k, w, 0)
    ensures l.left[w] < |s.pos| && l.right[w] < |s.pos|
    ensures l.parent[w] == p && (x != 0 ==> At(l, s, x))
  {
    NoRedPair(l, s, k, x);
    assert Even(l, s, k, p, p, x) && Calm(l, s, k, p, 0);
    Neighbours(l, s, p);
    if x != 0 {
      Neighbours(l, s, x);
      assert Even(l, s, k, x, p, x);
    }
    Neighbours(l, s, w);
    assert Even(l, s, k, w, p, x) && Calm(l, s, k, w, 0);
  }

  /** x is the right child of p and lacks a black, and w is its sibling. */
  ghost predicate ShortRight(l: Links, s: Shape, k: Paint, x: nat, p: nat, w: nat) {
    && Lacking(l, s, k, x) && x != l.root && k.colour[x] == Black
    && l.parent[x] == p && 0 < p < |s.pos| && l.right[p] == x && l.left[p] == w
  }

  /** The sibling is an item. */
  lemma SiblingRight(l: Links, s: Shape, k: Paint, x: nat, p: nat, w: nat)
    requires ShortRight(l, s, k, x, p, w)
    ensures In(s, w) && At(l, s, w) && At(l, s, p) && w != x && w != p && x != p
    ensures k.bh[p] == Weight(k, x) + 1 == Weight(k, w) && 0 <= k.bh[w] && 1 <= Weight(k, x)
    ensures k.bh[w] == Weight(k, l.left[w]) == Weight(k, l.right[w])
    ensures AllCalm(l, s, k, 0, 0) && Calm(l, s, k, p, 0) && Calm(l, s, k, w, 0)
    ensures l.left[w] < |s.pos| && l.right[w] < |s.pos|
    ensures l.parent[w] == p && (x != 0 ==> At(l, s, x))
  {
    NoRedPair(l, s, k, x);
    assert Even(l, s, k, p, p, x) && Calm(l, s, k, p, 0);
    Neighbours(l, s, p);
    if x != 0 {
      Neighbours(l, s, x);
      assert Even(l, s, k, x, p, x);
    }
    Neighbours(l, s, w);
    assert Even(l, s, k, w, p, x) && Calm(l, s, k, w, 0);
  }

  /** The sibling is red: it changes colours with p and turns above it, which leaves a black sibling. */
  lemma RedSiblingLeft(l: Links, s: Shape, k: Paint, k': Paint, x: nat, p: nat, w: nat)
    requires ShortLeft(l, s, k, x, p, w) && w < |k.colour| && k.colour[w] == Red
    requires k' == Paint(k.colour[w := Black][p := Red], k.bh)
    ensures CanRotateLeft(l, p) && In(s, l.root) && l.parent[l.root] == 0 && l.left[w] < |k.colour|
    ensures ShortLeft(LeftRotation(l, p), TurnLeft(s, p, w), k', x, p, l.left[w])
    ensures k'.colour[p] == Red && k'.colour[l.left[w]] == Black
  {
    SiblingLeft(l, s, k, x, p, w);
    Neighbours(l, s, p);
    TreeCanRotateLeft(l, s, p);
    var l', s' := LeftRotation(l, p), TurnLeft(s, p, w);
    LeftRotationPointwise(l, p);
    RotateLeftKeepsTree(l, l', s, p);
    RedSiblingLeftPaint(l, l', s, s', k, k', x, p, w);
  }

  lemma RedSiblingLeftPaint(l: Links, l': Links, s: Shape, s': Shape, k: Paint, k': Paint, x: nat, p: nat, w: nat)
    requires ShortLeft(l, s, k, x, p, w) && w < |k.colour| && k.colour[w] == Red
    requires k' == Paint(k.colour[w := Black][p := Red], k.bh)
    requires MovedLeft(l, l', s, s', p)
    ensures l.left[w] < |k.colour| && k'.colour[l.left[w]] == Black
    ensures ShortLeft(l', s', k', x, p, l.left[w])
  {
    SiblingLeft(l, s, k, x, p, w);
    TurnLeftKeepsEven(l, l', s, s', k, k', p, p, x, p, x);
    TurnLeftKeepsCalm(l, l', s, s', k, k', p, 0, 0);
    CalmWeaker(l', s', k', x, x);
  }

  lemma BlackNephewsLeftAt(l: Links, s: Shape, k: Paint, k': Paint, x: nat, p: nat, w: nat, u: nat)
    requires ShortLeft(l, s, k, x, p, w) && w < |k.colour| && k.colour[w] == Black
    requires l.left[w] < |k.colour| && l.right[w] < |k.colour|
    requires k.colour[l.left[w]] == Black && k.colour[l.right[w]] == Black
    requires k' == Paint(k.colour[w := Red], k.bh[p := k.bh[p] - 1])
    requires In(s, u) && Painted(l, s, k')
    ensures Even(l, s, k', u, l.parent[p], p) && (u != p ==> Calm(l, s, k', u, p))
  {
    SiblingLeft(l, s, k, x, p, w);
    Neighbours(l, s, p);
    assert Even(l, s, k, u, p, x) && Calm(l, s, k, u, 0);
    Neighbours(l, s, u);
  }

  /** Both nephews are black: the sibling turns red, and p lacks the black instead. */
  lemma BlackNephewsLeft(l: Links, s: Shape, k: Paint, k': Paint, x: nat, p: nat, w: nat)
    requires ShortLeft(l, s, k, x, p, w) && w < |k.colour| && k.colour[w] == Black
    requires l.left[w] < |k.colour| && l.right[w] < |k.colour|
    requires k.colour[l.left[w]] == Black && k.colour[l.right[w]] == Black
    requires k' == Paint(k.colour[w := Red], k.bh[p := k.bh[p] - 1])
    ensures Lacking(l, s, k', p)
  {
    SiblingLeft(l, s, k, x, p, w);
    Neighbours(l, s, p);
    forall u | In(s, u) ensures Even(l, s, k', u, l.parent[p], p) && (u != p ==> Calm(l, s, k', u, p)) {
      BlackNephewsLeftAt(l, s, k, k', x, p, w, u);
    }
    if p != l.root {
      Neighbours(l, s, l.parent[p]);
    }
  }

  /** The two nodes that turn, afterwards. */
  lemma InnerNephewLeftHere(l: Links, l': Links, s: Shape, s': Shape, k: Paint, k': Paint, x: nat, p: nat, w: nat)
    requires ShortLeft(l, s, k, x, p, w) && w < |k.colour| && k.colour[w] == Black
    requires 0 < l.left[w] < |k.colour| && l.right[w] < |k.colour|
    requires k.colour[l.left[w]] == Red && k.colour[l.right[w]] == Black
    requires k' == Paint(k.colour[l.left[w] := Black][w := Red], k.bh)
    requires MovedRight(l, l', s, s', w)
    ensures TurnedRight(l, l', s, s', k, k', w) && l.left[w] < |s.pos|
    ensures Even(l', s', k', w, p, x) && Even(l', s', k', l.left[w], p, x)
    ensures Calm(l', s', k', w, 0) && Calm(l', s', k', l.left[w], 0)
  {
    SiblingLeft(l, s, k, x, p, w);
    Neighbours(l, s, w);
    assert Even(l, s, k, l.left[w], p, x) && Calm(l, s, k, l.left[w], 0);
  }

  /** The outer nephew is black, so the inner one is red: it changes colours with the sibling and turns above it. */
  lemma InnerNephewLeft(l: Links, l': Links, s: Shape, s': Shape, k: Paint, k': Paint, x: nat, p: nat, w: nat)
    requires ShortLeft(l, s, k, x, p, w) && w < |k.colour| && k.colour[w] == Black
    requires 0 < l.left[w] < |k.colour| && l.right[w] < |k.colour|
    requires k.colour[l.left[w]] == Red && k.colour[l.right[w]] == Black
    requires k' == Paint(k.colour[l.left[w] := Black][w := Red], k.bh)
    requires MovedRight(l, l', s, s', w)
    ensures ShortLeft(l', s', k', x, p, l.left[w]) && k'.colour[l.left[w]] == Black
    ensures l'.right[l.left[w]] == w && k'.colour[w] == Red
  {
    SiblingLeft(l, s, k, x, p, w);
    Neighbours(l, s, w);
    assert Even(l, s, k, l.left[w], p, x) && Calm(l, s, k, l.left[w], 0);
    InnerNephewLeftHere(l, l', s, s', k, k', x, p, w);
    TurnRightKeepsEven(l, l', s, s', k, k', w, p, x, p, x);
    TurnRightKeepsCalm(l, l', s, s', k, k', w, 0, 0);
    CalmWeaker(l', s', k', x, x);
  }

  /** The two nodes that turn, afterwards. */
  lemma OuterNephewLeftHere(l: Links, l': Links, s: Shape, s': Shape, k: Paint, k': Paint, x: nat, p: nat, w: nat)
    requires ShortLeft(l, s, k, x, p, w) && w < |k.colour| && k.colour[w] == Black
    requires l.right[w] < |k.colour| && k.colour[l.right[w]] == Red
    requires k' == Paint(k.colour[w := k.colour[p]][p := Black][l.right[w] := Black],
               k.bh[p := k.bh[w]][w := k.bh[w] + 1])
    requires MovedLeft(l, l', s, s', p)
    ensures TurnedLeft(l, l', s, s', k, k', p) && l.right[p] < |s.pos|
    ensures Even(l', s', k', p, 0, l'.root) && Even(l', s', k', l.right[p], 0, l'.root)
    ensures Calm(l', s', k', p, 0) && Calm(l', s', k', l.right[p], 0)
  {
    SiblingLeft(l, s, k, x, p, w);
    Neighbours(l, s, w);
    assert Even(l, s, k, l.right[w], p, x);
  }

  /** The outer nephew is red: the sibling turns above p and takes its colour, and no black is missing any more. */
  lemma OuterNephewLeft(l: Links, l': Links, s: Shape, s': Shape, k: Paint, k': Paint, x: nat, p: nat, w: nat)
    requires ShortLeft(l, s, k, x, p, w) && w < |k.colour| && k.colour[w] == Black
    requires l.right[w] < |k.colour| && k.colour[l.right[w]] == Red
    requires k' == Paint(k.colour[w := k.colour[p]][p := Black][l.right[w] := Black],
               k.bh[p := k.bh[w]][w := k.bh[w] + 1])
    requires MovedLeft(l, l', s, s', p)
    ensures Lacking(l', s', k', l'.root)
  {
    SiblingLeft(l, s, k, x, p, w);
    Neighbours(l, s, w);
    assert Even(l, s, k, l.right[w], p, x);
    OuterNephewLeftHere(l, l', s, s', k, k', x, p, w);
    TurnLeftKeepsEven(l, l', s, s', k, k', p, p, x, 0, l'.root);
    TurnLeftKeepsCalm(l, l', s, s', k, k', p, 0, 0);
    CalmWeaker(l', s', k', l'.root, l'.root);
    Neighbours(l', s', l'.root);
  }

  /** The sibling is red: it changes colours with p and turns above it, which leaves a black sibling. */
  lemma RedSiblingRight(l: Links, s: Shape, k: Paint, k': Paint, x: nat, p: nat, w: nat)
    requires ShortRight(l, s, k, x, p, w) && w < |k.colour| && k.colour[w] == Red
    requires k' == Paint(k.colour[w := Black][p := Red], k.bh)
    ensures CanRotateRight(l, p) && In(s, l.root) && l.parent[l.root] == 0 && l.right[w] < |k.colour|
    ensures ShortRight(RightRotation(l, p), TurnRight(s, p, w), k', x, p, l.right[w])
    ensures k'.colour[p] == Red && k'.colour[l.right[w]] == Black
  {
    SiblingRight(l, s, k, x, p, w);
    Neighbours(l, s, p);
    TreeCanRotateRight(l, s, p);
    var l', s' := RightRotation(l, p), TurnRight(s, p, w);
    RightRotationPointwise(l, p);
    RotateRightKeepsTree(l, l', s, p);
    RedSiblingRightPaint(l, l', s, s', k, k', x, p, w);
  }

  lemma RedSiblingRightPaint(l: Links, l': Links, s: Shape, s': Shape, k: Paint, k': Paint, x: nat, p: nat, w: nat)
    requires ShortRight(l, s, k, x, p, w) && w < |k.colour| && k.colour[w] == Red
    requires k' == Paint(k.colour[w := Black][p := Red], k.bh)
    requires MovedRight(l, l', s, s', p)
    ensures l.right[w] < |k.colour| && k'.colour[l.right[w]] == Black
    ensures ShortRight(l', s', k', x, p, l.right[w])
  {
    SiblingRight(l, s, k, x, p, w);
    TurnRightKeepsEven(l, l', s, s', k, k', p, p, x, p, x);
    TurnRightKeepsCalm(l, l', s, s', k, k', p, 0, 0);
    CalmWeaker(l', s', k', x, x);
  }

  lemma BlackNephewsRightAt(l: Links, s: Shape, k: Paint, k': Paint, x: nat, p: nat, w: nat, u: nat)
    requires ShortRight(l, s, k, x, p, w) && w < |k.colour| && k.colour[w] == Black
    requires l.left[w] < |k.colour| && l.right[w] < |k.colour|
    requires k.colour[l.left[w]] == Black && k.colour[l.right[w]] == Black
    requires k' == Paint(k.colour[w := Red], k.bh[p := k.bh[p] - 1])
    requires In(s, u) && Painted(l, s, k')
    ensures Even(l, s, k', u, l.parent[p], p) && (u != p ==> Calm(l, s, k', u, p))
  {
    SiblingRight(l, s, k, x, p, w);
    Neighbours(l, s, p);
    assert Even(l, s, k, u, p, x) && Calm(l, s, k, u, 0);
    Neighbours(l, s, u);
  }

  /** Both nephews are black: the sibling turns red, and p lacks the black instead. */
  lemma BlackNephewsRight(l: Links, s: Shape, k: Paint, k': Paint, x: nat, p: nat, w: nat)
    requires ShortRight(l, s, k, x, p, w) && w < |k.colour| && k.colour[w] == Black
    requires l.left[w] < |k.colour| && l.right[w] < |k.colour|
    requires k.colour[l.left[w]] == Black && k.colour[l.right[w]] == Black
    requires k' == Paint(k.colour[w := Red], k.bh[p := k.bh[p] - 1])
    ensures Lacking(l, s, k', p)
  {
    SiblingRight(l, s, k, x, p, w);
    Neighbours(l, s, p);
    forall u | In(s, u) ensures Even(l, s, k', u, l.parent[p], p) && (u != p ==> Calm(l, s, k', u, p)) {
      BlackNephewsRightAt(l, s, k, k', x, p, w, u);
    }
    if p != l.root {
      Neighbours(l, s, l.parent[p]);
    }
  }

  /** The two nodes that turn, afterwards. */
  lemma InnerNephewRightHere(l: Links, l': Links, s: Shape, s': Shape, k: Paint, k': Paint, x: nat, p: nat, w: nat)
    requires ShortRight(l, s, k, x, p, w) && w < |k.colour| && k.colour[w] == Black
    requires 0 < l.right[w] < |k.colour| && l.left[w] < |k.colour|
    requires k.colour[l.right[w]] == Red && k.colour[l.left[w]] == Black
    requires k' == Paint(k.colour[l.right[w] := Black][w := Red], k.bh)
    requires MovedLeft(l, l', s, s', w)
    ensures TurnedLeft(l, l', s, s', k, k', w) && l.right[w] < |s.pos|
    ensures Even(l', s', k', w, p, x) && Even(l', s', k', l.right[w], p, x)
    ensures Calm(l', s', k', w, 0) && Calm(l', s', k', l.right[w], 0)
  {
    SiblingRight(l, s, k, x, p, w);
    Neighbours(l, s, w);
    assert Even(l, s, k, l.right[w], p, x) && Calm(l, s, k, l.right[w], 0);
  }

  /** The outer nephew is black, so the inner one is red: it changes colours with the sibling and turns above it. */
  lemma InnerNephewRight(l: Links, l': Links, s: Shape, s': Shape, k: Paint, k': Paint, x: nat, p: nat, w: nat)
    requires ShortRight(l, s, k, x, p, w) && w < |k.colour| && k.colour[w] == Black
    requires 0 < l.right[w] < |k.colour| && l.left[w] < |k.colour|
    requires k.colour[l.right[w]] == Red && k.colour[l.left[w]] == Black
    requires k' == Paint(k.colour[l.right[w] := Black][w := Red], k.bh)
    requires MovedLeft(l, l', s, s', w)
    ensures ShortRight(l', s', k', x, p, l.right[w]) && k'.colour[l.right[w]] == Black
    ensures l'.left[l.right[w]] == w && k'.colour[w] == Red
  {
    SiblingRight(l, s, k, x, p, w);
    Neighbours(l, s, w);
    assert Even(l, s, k, l.right[w], p, x) && Calm(l, s, k, l.right[w], 0);
    InnerNephewRightHere(l, l', s, s', k, k', x, p, w);
    TurnLeftKeepsEven(l, l', s, s', k, k', w, p, x, p, x);
    TurnLeftKeepsCalm(l, l', s, s', k, k', w, 0, 0);
    CalmWeaker(l', s', k', x, x);
  }

  /** The two nodes that turn, afterwards. */
  lemma OuterNephewRightHere(l: Links, l': Links, s: Shape, s': Shape, k: Paint, k': Paint, x: nat, p: nat, w: nat)
    requires ShortRight(l, s, k, x, p, w) && w < |k.colour| && k.colour[w] == Black
    requires l.left[w] < |k.colour| && k.colour[l.left[w]] == Red
    requires k' == Paint(k.colour[w := k.colour[p]][p := Black][l.left[w] := Black],
               k.bh[p := k.bh[w]][w := k.bh[w] + 1])
    requires MovedRight(l, l', s, s', p)
    ensures TurnedRight(l, l', s, s', k, k', p) && l.left[p] < |s.pos|
    ensures Even(l', s', k', p, 0, l'.root) && Even(l', s', k', l.left[p], 0, l'.root)
    ensures Calm(l', s', k', p, 0) && Calm(l', s', k', l.left[p], 0)
  {
    SiblingRight(l, s, k, x, p, w);
    Neighbours(l, s, w);
    assert Even(l, s, k, l.left[w], p, x);
  }

  /** The outer nephew is red: the sibling turns above p and takes its colour, and no black is missing any more. */
  lemma OuterNephewRight(l: Links, l': Links, s: Shape, s': Shape, k: Paint, k': Paint, x: nat, p: nat, w: nat)
    requires ShortRight(l, s, k, x, p, w) && w < |k.colour| && k.colour[w] == Black
    requires l.left[w] < |k.colour| && k.colour[l.left[w]] == Red
    requires k' == Paint(k.colour[w := k.colour[p]][p := Black][l.left[w] := Black],
               k.bh[p := k.bh[w]][w := k.bh[w] + 1])
    requires MovedRight(l, l', s, s', p)
    ensures Lacking(l', s', k', l'.root)
  {
    SiblingRight(l, s, k, x, p, w);
    Neighbours(l, s, w);
    assert Even(l, s, k, l.left[w], p, x);
    OuterNephewRightHere(l, l', s, s', k, k', x, p, w);
    TurnRightKeepsEven(l, l', s, s', k, k', p, p, x, 0, l'.root);
    TurnRightKeepsCalm(l, l', s, s', k, k', p, 0, 0);
    CalmWeaker(l', s', k', l'.root, l'.root);
    Neighbours(l', s', l'.root);
  }

  lemma InnerNephewLeftStep(l: Links, s: Shape, k: Paint, k': Paint, x: nat, p: nat, w: nat)
    requires ShortLeft(l, s, k, x, p, w) && w < |k.colour| && k.colour[w] == Black
    requires 0 < l.left[w] < |k.colour| && l.right[w] < |k.colour|
    requires k.colour[l.left[w]] == Red && k.colour[l.right[w]] == Black
    requires k' == Paint(k.colour[l.left[w] := Black][w := Red], k.bh)
    ensures CanRotateRight(l, w) && In(s, l.root) && l.parent[l.root] == 0
    ensures var l' := RightRotation(l, w);
            ShortLeft(l', TurnRight(s, w, l.left[w]), k', x, p, l.left[w]) && k'.colour[l.left[w]] == Black
            && l'.right[l.left[w]] == w && k'.colour[w] == Red
  {
    SiblingLeft(l, s, k, x, p, w);
    Neighbours(l, s, w);
    TreeCanRotateRight(l, s, w);
    var l', s' := RightRotation(l, w), TurnRight(s, w, l.left[w]);
    RightRotationPointwise(l, w);
    RotateRightKeepsTree(l, l', s, w);
    InnerNephewLeft(l, l', s, s', k, k', x, p, w);
  }

  lemma OuterNephewLeftStep(l: Links, s: Shape, k: Paint, k': Paint, x: nat, p: nat, w: nat)
    requires ShortLeft(l, s, k, x, p, w) && w < |k.colour| && k.colour[w] == Black
    requires l.right[w] < |k.colour| && k.colour[l.right[w]] == Red
    requires k' == Paint(k.colour[w := k.colour[p]][p := Black][l.right[w] := Black],
               k.bh[p := k.bh[w]][w := k.bh[w] + 1])
    ensures CanRotateLeft(l, p) && In(s, l.root) && l.parent[l.root] == 0
    ensures var l' := LeftRotation(l, p); Lacking(l', TurnLeft(s, p, w), k', l'.root)
  {
    SiblingLeft(l, s, k, x, p, w);
    Neighbours(l, s, p);
    TreeCanRotateLeft(l, s, p);
    var l', s' := LeftRotation(l, p), TurnLeft(s, p, w);
    LeftRotationPointwise(l, p);
    RotateLeftKeepsTree(l, l', s, p);
    OuterNephewLeft(l, l', s, s', k, k', x, p, w);
  }

  lemma InnerNephewRightStep(l: Links, s: Shape, k: Paint, k': Paint, x: nat, p: nat, w: nat)
    requires ShortRight(l, s, k, x, p, w) && w < |k.colour| && k.colour[w] == Black
    requires 0 < l.right[w] < |k.colour| && l.left[w] < |k.colour|
    requires k.colour[l.right[w]] == Red && k.colour[l.left[w]] == Black
    requires k' == Paint(k.colour[l.right[w] := Black][w := Red], k.bh)
    ensures CanRotateLeft(l, w) && In(s, l.root) && l.parent[l.root] == 0
    ensures var l' := LeftRotation(l, w);
            ShortRight(l', TurnLeft(s, w, l.right[w]), k', x, p, l.right[w]) && k'.colour[l.right[w]] == Black
            && l'.left[l.right[w]] == w && k'.colour[w] == Red
  {
    SiblingRight(l, s, k, x, p, w);
    Neighbours(l, s, w);
    TreeCanRotateLeft(l, s, w);
    var l', s' := LeftRotation(l, w), TurnLeft(s, w, l.right[w]);
    LeftRotationPointwise(l, w);
    RotateLeftKeepsTree(l, l', s, w);
    InnerNephewRight(l, l', s, s', k, k', x, p, w);
  }

  lemma OuterNephewRightStep(l: Links, s: Shape, k: Paint, k': Paint, x: nat, p: nat, w: nat)
    requires ShortRight(l, s, k, x, p, w) && w < |k.colour| && k.colour[w] == Black
    requires l.left[w] < |k.colour| && k.colour[l.left[w]] == Red
    requires k' == Paint(k.colour[w := k.colour[p]][p := Black][l.left[w] := Black],
               k.bh[p := k.bh[w]][w := k.bh[w] + 1])
    ensures CanRotateRight(l, p) && In(s, l.root) && l.parent[l.root] == 0
    ensures var l' := RightRotation(l, p); Lacking(l', TurnRight(s, p, w), k', l'.root)
  {
    SiblingRight(l, s, k, x, p, w);
    Neighbours(l, s, p);
    TreeCanRotateRight(l, s, p);
    var l', s' := RightRotation(l, p), TurnRight(s, p, w);
    RightRotationPointwise(l, p);
    RotateRightKeepsTree(l, l', s, p);
    OuterNephewRight(l, l', s, s', k, k', x, p, w);
  }
}
