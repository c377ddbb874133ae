/** What the tree invariant means: the hooks spell a red-black tree in the textbook sense, its in-order walk is
    the thread, and it is shallow. */
module RbMeaning {
  import opened Dyadic
  import opened RbShape
  import opened RbPaint
  import opened RbInsert

  datatype Bin = Nil | Fork(left: Bin, item: nat, colour: Colour, right: Bin)

  ghost function InOrder(t: Bin): seq<nat> {
    if t.Nil? then [] else InOrder(t.left) + [t.item] + InOrder(t.right)
  }

  ghost function Size(t: Bin): nat {
    if t.Nil? then 0 else Size(t.left) + 1 + Size(t.right)
  }

  ghost function Height(t: Bin): nat {
    if t.Nil? then 0
    else 1 + if Height(t.left) < Height(t.right) then Height(t.right) else Height(t.left)
  }

  /** Every way down from t to nil meets n black nodes. */
  ghost predicate Blacks(t: Bin, n: int) {
    if t.Nil? then n == 0
    else var m := if t.colour == Black then n - 1 else n; Blacks(t.left, m) && Blacks(t.right, m)
  }

  ghost predicate IsRed(t: Bin) {
    t.Fork? && t.colour == Red
  }

  ghost predicate NoRedPair(t: Bin) {
    t.Fork? ==>
      && (t.colour == Red ==> !IsRed(t.left) && !IsRed(t.right))
      && NoRedPair(t.left) && NoRedPair(t.right)
  }

  /** The tree that the left and right links spell below x. */
  ghost function Below(l: Links, s: Shape, k: Paint, x: nat): Bin
    requires Tree(l, s) && Painted(l, s, k) && (x == 0 || In(s, x))
    decreases if x == 0 then 0 else 1 + s.hi[x] - s.lo[x]
  {
    if x == 0 then Nil
    else
      Neighbours(l, s, x);
      Fork(Below(l, s, k, l.left[x]), x, k.colour[x], Below(l, s, k, l.right[x]))
  }

  lemma {:induction false} BelowInOrder(l: Links, s: Shape, k: Paint, x: nat)
    requires Tree(l, s) && Painted(l, s, k) && In(s, x)
    ensures 0 <= s.lo[x] < s.hi[x] <= |s.order|
    ensures InOrder(Below(l, s, k, x)) == s.order[s.lo[x]..s.hi[x]]
    decreases s.hi[x] - s.lo[x]
  {
    Neighbours(l, s, x);
    if l.left[x] != 0 {
      BelowInOrder(l, s, k, l.left[x]);
    }
    if l.right[x] != 0 {
      BelowInOrder(l, s, k, l.right[x]);
    }
    var a, b, c := s.lo[x], s.pos[x], s.hi[x];
    assert s.order[b] == x;
    assert s.order[a..c] == s.order[a..b] + [x] + s.order[b + 1..c];
  }

  lemma {:induction false} BelowRedBlack(l: Links, s: Shape, k: Paint, x: nat)
    requires RedBlack(l, s, k) && In(s, x)
    ensures Blacks(Below(l, s, k, x), Weight(k, x) - 1) && NoRedPair(Below(l, s, k, x))
    decreases s.hi[x] - s.lo[x]
  {
    Neighbours(l, s, x);
    assert Even(l, s, k, x, 0, 0) && Calm(l, s, k, x, 0);
    if l.left[x] != 0 {
      BelowRedBlack(l, s, k, l.left[x]);
    }
    if l.right[x] != 0 {
      BelowRedBlack(l, s, k, l.right[x]);
    }
  }

  lemma {:induction false} RedBlackIsShallow(t: Bin, n: nat)
    requires Blacks(t, n) && NoRedPair(t)
    ensures Pow2(n) <= Size(t) + 1
    ensures Height(t) <= 2 * n + if IsRed(t) then 1 else 0
  {
    if t.Fork? {
      var m := if t.colour == Black then n - 1 else n;
      assert m >= 0 by { BlacksNonNegative(t.left, m); }
      RedBlackIsShallow(t.left, m);
      RedBlackIsShallow(t.right, m);
    }
  }

  lemma BlacksNonNegative(t: Bin, n: int)
    requires Blacks(t, n)
    ensures n >= 0
  {
  }

  lemma {:induction false} InOrderSize(t: Bin)
    ensures |InOrder(t)| == Size(t)
  {
    if t.Fork? {
      InOrderSize(t.left);
      InOrderSize(t.right);
    }
  }

  /** The whole tree: its walk is the thread, it is red-black, and its height is at most 2 log2(n + 1). */
  lemma TreeMeaning(l: Links, s: Shape, k: Paint, t: Bin)
    requires RedBlack(l, s, k) && t == Below(l, s, k, l.root)
    ensures InOrder(t) == s.order
    ensures !IsRed(t) && NoRedPair(t) && exists n: nat :: Blacks(t, n)
    ensures Pow2(Height(t)) <= (|s.order| + 1) * (|s.order| + 1)
  {
    var n: nat := 0;
    if l.root != 0 {
      BelowInOrder(l, s, k, l.root);
      BelowRedBlack(l, s, k, l.root);
      assert s.order[0..|s.order|] == s.order;
      BlacksNonNegative(t, Weight(k, l.root) - 1);
      n := Weight(k, l.root) - 1;
    }
    assert Blacks(t, n);
    RedBlackIsShallow(t, n);
    InOrderSize(t);
    Pow2Monotone(Height(t), n + n);
    Pow2Adds(n, n);
    Square(Pow2(n), |s.order| + 1);
  }

  lemma Square(a: nat, b: nat)
    requires a <= b
    ensures a * a <= b * b
  {
    assert a * a <= a * b <= b * b;
  }
}
