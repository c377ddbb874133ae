/** Powers of two and naturally aligned blocks. */
module Dyadic {

  function Pow2(k: nat): (p: nat)
    ensures p >= 1
  {
    if k == 0 then 1 else 2 * Pow2(k - 1)
  }

  /** a is a multiple of 2^k. */
  predicate Aligned(a: nat, k: nat) {
    k == 0 || (a % 2 == 0 && Aligned(a / 2, k - 1))
  }

  lemma {:induction false} Pow2Monotone(j: nat, k: nat)
    requires j <= k
    ensures Pow2(j) <= Pow2(k) && (j < k ==> 2 * Pow2(j) <= Pow2(k))
  {
    if j < k {
      Pow2Monotone(j, k - 1);
    }
  }

  lemma {:induction false} Pow2Adds(a: nat, b: nat)
    ensures Pow2(a + b) == Pow2(a) * Pow2(b)
  {
    if b != 0 {
      Pow2Adds(a, b - 1);
      assert Pow2(a + b) == 2 * Pow2(a + (b - 1));
      assert Pow2(a) * (2 * Pow2(b - 1)) == 2 * (Pow2(a) * Pow2(b - 1));
    }
  }

  /** The two halves of an aligned block are aligned. */
  lemma {:induction false} Halves(a: nat, k: nat)
    requires Aligned(a, k + 1)
    ensures Aligned(a, k) && Aligned(a + Pow2(k), k)
  {
    if k != 0 {
      Halves(a / 2, k - 1);
      assert (a + Pow2(k)) / 2 == a / 2 + Pow2(k - 1);
    }
  }

  lemma {:induction false} AlignedSmaller(a: nat, j: nat, k: nat)
    requires Aligned(a, k) && j <= k
    ensures Aligned(a, j)
    decreases k
  {
    if j < k {
      Halves(a, k - 1);
      AlignedSmaller(a, j, k - 1);
    }
  }

  /** An aligned block that starts inside a larger aligned block lies inside it. */
  lemma {:induction false} Nested(a: nat, k: nat, b: nat, j: nat)
    requires Aligned(a, k) && Aligned(b, j) && j <= k && a <= b < a + Pow2(k)
    ensures b + Pow2(j) <= a + Pow2(k)
  {
    if j != 0 {
      Nested(a / 2, k - 1, b / 2, j - 1);
    }
  }

  lemma {:induction false} MulGrows(p: nat, d: nat)
    requires d >= 1
    ensures p * d >= p
  {
    if d > 1 {
      MulGrows(p, d - 1);
      assert p * d == p * (d - 1) + p;
    }
  }

  lemma MultipleMod(p: nat, q: nat)
    requires p >= 1
    ensures (p * q) % p == 0
  {
    var a := p * q;
    var q', r := a / p, a % p;
    assert a == p * q' + r;
    assert p * (q - q') == p * q - p * q' == -(p * (q' - q));
    if q > q' {
      MulGrows(p, q - q');
    }
    if q < q' {
      MulGrows(p, q' - q);
    }
  }

  lemma ModTwice(a: nat, p: nat)
    requires p >= 1
    ensures a % (2 * p) == 0 <==> a % 2 == 0 && (a / 2) % p == 0
  {
    if a % (2 * p) == 0 {
      var q := a / (2 * p);
      assert a == (2 * p) * q;
      assert (2 * p) * q == 2 * (p * q);
      MultipleMod(p, q);
    }
    if a % 2 == 0 && (a / 2) % p == 0 {
      var q := (a / 2) / p;
      assert a / 2 == p * q;
      assert a == 2 * (p * q) == (2 * p) * q;
      MultipleMod(2 * p, q);
    }
  }

  lemma {:induction false} AlignedIsMod(a: nat, k: nat)
    ensures Aligned(a, k) <==> a % Pow2(k) == 0
  {
    if k != 0 {
      AlignedIsMod(a / 2, k - 1);
      ModTwice(a, Pow2(k - 1));
    }
  }

  /** The least order whose block holds n pages. */
  function CeilOrder(n: nat): (o: nat)
    requires n >= 1
    ensures n <= Pow2(o) && (o > 0 ==> Pow2(o - 1) < n)
  {
    if n == 1 then 0 else 1 + CeilOrder((n + 1) / 2)
  }

  /** The greatest order whose block fits into n pages. */
  function FloorOrder(n: nat): (o: nat)
    requires n >= 1
    ensures Pow2(o) <= n < 2 * Pow2(o)
  {
    if n == 1 then 0 else 1 + FloorOrder(n / 2)
  }

  /** Alignment of byte addresses, for frames of 4096 bytes. */
  lemma FrameAligned(f: nat, k: nat)
    ensures (4096 * f) % (4096 * Pow2(k)) == 0 <==> Aligned(f, k)
  {
    var p := Pow2(k);
    AlignedIsMod(f, k);
    if f % p == 0 {
      var q := f / p;
      assert f == p * q;
      assert 4096 * f == (4096 * p) * q;
      MultipleMod(4096 * p, q);
    }
    if (4096 * f) % (4096 * p) == 0 {
      var q := (4096 * f) / (4096 * p);
      assert 4096 * f == (4096 * p) * q;
      assert (4096 * p) * q == 4096 * (p * q);
      MultipleMod(p, q);
    }
  }
}
