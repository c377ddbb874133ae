/** Colours and black heights.

    The ghost `bh[x]` counts the black nodes below x on every path down to nil.  During a removal one node
    or nil slot may carry an extra black: it is the child d of p.  During an insertion one red node e may
    hang below a red parent.  Zero for p or e means there is no such place. */
module RbPaint {
  import opened RbShape

  datatype Colour = Red | Black

  datatype Paint = Paint(colour: seq<Colour>, bh: seq<int>)

  ghost predicate Painted(l: Links, s: Shape, k: Paint) {
    Sizes(l, s) && |k.colour| == |k.bh| == |s.pos| && k.colour[0] == Black && k.bh[0] == 0
  }

  /** The black height x passes on to its parent. */
  ghost function Weight(k: Paint, x: nat): int
    requires x < |k.colour| == |k.bh|
  {
    k.bh[x] + if k.colour[x] == Black then 1 else 0
  }

  ghost function Extra(u: nat, c: nat, p: nat, d: nat): int {
    if u == p && c == d then 1 else 0
  }

  /** Both sides of u weigh the same. */
  ghost predicate Even(l: Links, s: Shape, k: Paint, u: nat, p: nat, d: nat)
    requires Painted(l, s, k) && u < |s.pos|
  {
    && 0 <= k.bh[u] && l.left[u] < |s.pos| && l.right[u] < |s.pos|
    && k.bh[u] == Weight(k, l.left[u]) + Extra(u, l.left[u], p, d)
    && k.bh[u] == Weight(k, l.right[u]) + Extra(u, l.right[u], p, d)
  }

  /** A red node has black children, but for e. */
  ghost predicate Calm(l: Links, s: Shape, k: Paint, u: nat, e: nat)
    requires Painted(l, s, k) && u < |s.pos|
  {
    k.colour[u] == Red ==>
      && l.left[u] < |s.pos| && l.right[u] < |s.pos|
      && (l.left[u] != e ==> k.colour[l.left[u]] == Black) && (l.right[u] != e ==> k.colour[l.right[u]] == Black)
  }

  ghost predicate AllEven(l: Links, s: Shape, k: Paint, p: nat, d: nat)
    requires Painted(l, s, k)
  {
    forall u {:trigger Even(l, s, k, u, p, d)} | In(s, u) :: Even(l, s, k, u, p, d)
  }

  ghost predicate AllCalm(l: Links, s: Shape, k: Paint, e: nat, skip: nat)
    requires Painted(l, s, k)
  {
    forall u {:trigger Calm(l, s, k, u, e)} | In(s, u) && u != skip :: Calm(l, s, k, u, e)
  }

  /** Only x, its turned child y and a third node r may change colour, only x and y their black height, and
      y now weighs and shows what x did. */
  ghost predicate Repainted(k: Paint, k': Paint, x: nat, y: nat, r: nat)
    requires x < |k.colour| == |k.bh| && y < |k.colour| && r < |k.colour|
  {
    && |k'.colour| == |k'.bh| == |k.colour|
    && (forall v | 0 <= v < |k.colour| && v != x && v != y && v != r :: k'.colour[v] == k.colour[v])
    && (forall v | 0 <= v < |k.bh| && v != x && v != y :: k'.bh[v] == k.bh[v])
    && Weight(k', y) == Weight(k, x)
    && (k'.colour[y] == Black || k'.colour[y] == k.colour[x])
    && (k'.colour[r] == Black || k'.colour[r] == k.colour[r])
  }

  /** A child slot away from the turned edge weighs what it did, and shows no new red. */
  lemma SlotKeeps(k: Paint, k': Paint, x: nat, y: nat, r: nat, c: nat, c': nat)
    requires x < |k.colour| == |k.bh| && y < |k.colour| && r < |k.colour| && c < |k.colour|
    requires Repainted(k, k', x, y, r) && k.colour[0] == k'.colour[0] == Black && x != 0 && y != 0
    requires c != y && (c == 0 || c != r) && c' == if c == x then y else c
    ensures Weight(k', c') == Weight(k, c)
    ensures k.colour[c] == Black ==> k'.colour[c'] == Black
  {
  }

  /** Node u keeps its black height, and both its slots their weight. */
  ghost predicate SameSlots(l: Links, l': Links, s: Shape, s': Shape, k: Paint, k': Paint, u: nat) {
    && Painted(l, s, k) && Painted(l', s', k') && |s'.pos| == |s.pos| && u < |s.pos|
    && l.left[u] < |s.pos| && l'.left[u] < |s.pos| && l.right[u] < |s.pos| && l'.right[u] < |s.pos|
    && k'.bh[u] == k.bh[u] && (k'.colour[u] == Black || k'.colour[u] == k.colour[u])
    && Weight(k', l'.left[u]) == Weight(k, l.left[u])
    && Weight(k', l'.right[u]) == Weight(k, l.right[u])
    && (k.colour[l.left[u]] == Black ==> k'.colour[l'.left[u]] == Black)
    && (k.colour[l.right[u]] == Black ==> k'.colour[l'.right[u]] == Black)
  }

  lemma TurnLeftKeepsSlots(l: Links, l': Links, s: Shape, s': Shape, k: Paint, k': Paint, x: nat, u: nat)
    requires RotatingLeft(l, l', s, s', x, u) && u != x && u != l.right[x]
    requires Painted(l, s, k) && Painted(l', s', k')
    requires Repainted(k, k', x, l.right[x], l.right[l.right[x]])
    ensures SameSlots(l, l', s, s', k, k', u)
    ensures l'.left[u] == if l.left[u] == x then l.right[x] else l.left[u]
    ensures l'.right[u] == if l.right[u] == x then l.right[x] else l.right[u]
  {
    var y := l.right[x];
    SlotKeeps(k, k', x, y, l.right[y], l.left[u], l'.left[u]);
    SlotKeeps(k, k', x, y, l.right[y], l.right[u], l'.right[u]);
  }

  lemma TurnRightKeepsSlots(l: Links, l': Links, s: Shape, s': Shape, k: Paint, k': Paint, x: nat, u: nat)
    requires RotatingRight(l, l', s, s', x, u) && u != x && u != l.left[x]
    requires Painted(l, s, k) && Painted(l', s', k')
    requires Repainted(k, k', x, l.left[x], l.left[l.left[x]])
    ensures SameSlots(l, l', s, s', k, k', u)
    ensures l'.left[u] == if l.left[u] == x then l.left[x] else l.left[u]
    ensures l'.right[u] == if l.right[u] == x then l.left[x] else l.right[u]
  {
    var y := l.left[x];
    SlotKeeps(k, k', x, y, l.left[y], l.left[u], l'.left[u]);
    SlotKeeps(k, k', x, y, l.left[y], l.right[u], l'.right[u]);
  }

  /** A left rotation at x. */
  ghost predicate MovedLeft(l: Links, l': Links, s: Shape, s': Shape, x: nat) {
    && Tree(l, s) && At(l, s, x) && l.right[x] != 0 && At(l, s, l.right[x])
    && RotatedLeft(l, l', x) && s' == TurnLeft(s, x, l.right[x]) && Tree(l', s')
  }

  /** A left rotation at x together with a repainting that its surroundings do not notice. */
  ghost predicate TurnedLeft(l: Links, l': Links, s: Shape, s': Shape, k: Paint, k': Paint, x: nat) {
    && MovedLeft(l, l', s, s', x)
    && Painted(l, s, k) && Painted(l', s', k')
    && Repainted(k, k', x, l.right[x], l.right[l.right[x]])
  }

  lemma TurnLeftSlotsOf(l: Links, l': Links, s: Shape, s': Shape, k: Paint, k': Paint, x: nat, u: nat)
    requires TurnedLeft(l, l', s, s', k, k', x)
    requires In(s, u) && u != x && u != l.right[x]
    ensures SameSlots(l, l', s, s', k, k', u)
    ensures l'.left[u] == if l.left[u] == x then l.right[x] else l.left[u]
    ensures l'.right[u] == if l.right[u] == x then l.right[x] else l.right[u]
  {
    Neighbours(l, s, x);
    Neighbours(l, s, u);
    TurnLeftKeepsSlots(l, l', s, s', k, k', x, u);
  }

  lemma TurnLeftKeepsEven(l: Links, l': Links, s: Shape, s': Shape, k: Paint, k': Paint, x: nat,
                         p: nat, d: nat, p': nat, d': nat)
    requires TurnedLeft(l, l', s, s', k, k', x) && AllEven(l, s, k, p, d)
    requires Even(l', s', k', x, p', d') && Even(l', s', k', l.right[x], p', d')
    requires if p == 0 || p == x then p' == 0 || p' == x || p' == l.right[x]
             else p' == p && d' == d && d != x && d != l.right[x]
    ensures AllEven(l', s', k', p', d')
  {
    forall u | In(s', u) ensures Even(l', s', k', u, p', d') {
      if u != x && u != l.right[x] {
        assert Even(l, s, k, u, p, d);
        TurnLeftSlotsOf(l, l', s, s', k, k', x, u);
      }
    }
  }

  lemma TurnLeftKeepsCalm(l: Links, l': Links, s: Shape, s': Shape, k: Paint, k': Paint, x: nat, e: nat, e': nat)
    requires TurnedLeft(l, l', s, s', k, k', x) && AllCalm(l, s, k, e, 0)
    requires e != 0 ==> e < |l.parent| && l.parent[e] in {x, l.right[x]}
    requires Calm(l', s', k', x, e') && Calm(l', s', k', l.right[x], e')
    ensures AllCalm(l', s', k', e', 0)
  {
    forall u | In(s', u) ensures Calm(l', s', k', u, e') {
      if u != x && u != l.right[x] {
        assert Calm(l, s, k, u, e);
        Neighbours(l, s, u);
        TurnLeftSlotsOf(l, l', s, s', k, k', x, u);
      }
    }
  }

  /** A right rotation at x. */
  ghost predicate MovedRight(l: Links, l': Links, s: Shape, s': Shape, x: nat) {
    && Tree(l, s) && At(l, s, x) && l.left[x] != 0 && At(l, s, l.left[x])
    && RotatedRight(l, l', x) && s' == TurnRight(s, x, l.left[x]) && Tree(l', s')
  }

  /** A right rotation at x together with a repainting that its surroundings do not notice. */
  ghost predicate TurnedRight(l: Links, l': Links, s: Shape, s': Shape, k: Paint, k': Paint, x: nat) {
    && MovedRight(l, l', s, s', x)
    && Painted(l, s, k) && Painted(l', s', k')
    && Repainted(k, k', x, l.left[x], l.left[l.left[x]])
  }

  lemma TurnRightSlotsOf(l: Links, l': Links, s: Shape, s': Shape, k: Paint, k': Paint, x: nat, u: nat)
    requires TurnedRight(l, l', s, s', k, k', x)
    requires In(s, u) && u != x && u != l.left[x]
    ensures SameSlots(l, l', s, s', k, k', u)
    ensures l'.left[u] == if l.left[u] == x then l.left[x] else l.left[u]
    ensures l'.right[u] == if l.right[u] == x then l.left[x] else l.right[u]
  {
    Neighbours(l, s, x);
    Neighbours(l, s, u);
    TurnRightKeepsSlots(l, l', s, s', k, k', x, u);
  }

  lemma TurnRightKeepsEven(l: Links, l': Links, s: Shape, s': Shape, k: Paint, k': Paint, x: nat,
                         p: nat, d: nat, p': nat, d': nat)
    requires TurnedRight(l, l', s, s', k, k', x) && AllEven(l, s, k, p, d)
    requires Even(l', s', k', x, p', d') && Even(l', s', k', l.left[x], p', d')
    requires if p == 0 || p == x then p' == 0 || p' == x || p' == l.left[x]
             else p' == p && d' == d && d != x && d != l.left[x]
    ensures AllEven(l', s', k', p', d')
  {
    forall u | In(s', u) ensures Even(l', s', k', u, p', d') {
      if u != x && u != l.left[x] {
        assert Even(l, s, k, u, p, d);
        TurnRightSlotsOf(l, l', s, s', k, k', x, u);
      }
    }
  }

  lemma TurnRightKeepsCalm(l: Links, l': Links, s: Shape, s': Shape, k: Paint, k': Paint, x: nat, e: nat, e': nat)
    requires TurnedRight(l, l', s, s', k, k', x) && AllCalm(l, s, k, e, 0)
    requires e != 0 ==> e < |l.parent| && l.parent[e] in {x, l.left[x]}
    requires Calm(l', s', k', x, e') && Calm(l', s', k', l.left[x], e')
    ensures AllCalm(l', s', k', e', 0)
  {
    forall u | In(s', u) ensures Calm(l', s', k', u, e') {
      if u != x && u != l.left[x] {
        assert Calm(l, s, k, u, e);
        Neighbours(l, s, u);
        TurnRightSlotsOf(l, l', s, s', k, k', x, u);
      }
    }
  }
}
