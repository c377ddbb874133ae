/** Words of 64 bits as numbers: what stepping to the next page and masking mean for them. */
module PtNumber {
  import opened Dyadic
  import opened PtEntry

  function Bit(w: Word): nat {
    if w & 1 == 1 then 1 else 0
  }

  function Half(w: Word): Word {
    w >> 1
  }

  /** The number that the low n bits stand for. */
  function Number(w: Word, n: nat): nat {
    if n == 0 then 0 else Bit(w) + 2 * Number(Half(w), n - 1)
  }

  lemma {:induction false} NumberBelow(w: Word, n: nat)
    ensures Number(w, n) < Pow2(n)
  {
    if n != 0 {
      NumberBelow(Half(w), n - 1);
    }
  }

  // ----- masks

  /** From the lowest bit on: a zeros, b ones, and zeros, n bits in all. */
  ghost predicate Mask(m: Word, a: nat, b: nat, n: nat) {
    n == 0 ||
      (if a > 0 then Bit(m) == 0 && Mask(Half(m), a - 1, b, n - 1)
       else if b > 0 then Bit(m) == 1 && Mask(Half(m), 0, b - 1, n - 1)
       else Bit(m) == 0 && Mask(Half(m), 0, 0, n - 1))
  }

  lemma ZerosFour(m: Word, m': Word, a: nat, b: nat, n: nat)
    requires m' == m >> 4 && m & 0xF == 0 && Mask(m', a, b, n)
    ensures Mask(m, a + 4, b, n + 4)
  {
    assert Half(m >> 3) == m' && Bit(m >> 3) == 0 && Mask(m >> 3, a + 1, b, n + 1);
    assert Half(m >> 2) == m >> 3 && Bit(m >> 2) == 0 && Mask(m >> 2, a + 2, b, n + 2);
    assert Half(m >> 1) == m >> 2 && Bit(m >> 1) == 0 && Mask(m >> 1, a + 3, b, n + 3);
  }

  lemma OnesFour(m: Word, m': Word, b: nat, n: nat)
    requires m' == m >> 4 && m & 0xF == 0xF && Mask(m', 0, b, n)
    ensures Mask(m, 0, b + 4, n + 4)
  {
    assert Half(m >> 3) == m' && Bit(m >> 3) == 1 && Mask(m >> 3, 0, b + 1, n + 1);
    assert Half(m >> 2) == m >> 3 && Bit(m >> 2) == 1 && Mask(m >> 2, 0, b + 2, n + 2);
    assert Half(m >> 1) == m >> 2 && Bit(m >> 1) == 1 && Mask(m >> 1, 0, b + 3, n + 3);
  }

  lemma {:induction false} NoBits(n: nat)
    ensures Mask(0, 0, 0, n)
  {
    if n != 0 {
      var zero: Word := 0;
      assert Half(zero) == zero;
      NoBits(n - 1);
    }
  }

  lemma Ones40(n: nat)
    ensures Mask(0xFF_FFFF_FFFF, 0, 40, 40 + n)
  {
    NoBits(n);
    OnesFour(0xF, 0, 0, n);
    OnesFour(0xFF, 0xF, 4, 4 + n);
    OnesFour(0xFFF, 0xFF, 8, 8 + n);
    OnesFour(0xFFFF, 0xFFF, 12, 12 + n);
    OnesFour(0xF_FFFF, 0xFFFF, 16, 16 + n);
    OnesFour(0xFF_FFFF, 0xF_FFFF, 20, 20 + n);
    OnesFour(0xFFF_FFFF, 0xFF_FFFF, 24, 24 + n);
    OnesFour(0xFFFF_FFFF, 0xFFF_FFFF, 28, 28 + n);
    OnesFour(0xF_FFFF_FFFF, 0xFFFF_FFFF, 32, 32 + n);
    OnesFour(0xFF_FFFF_FFFF, 0xF_FFFF_FFFF, 36, 36 + n);
  }

  lemma Ones64()
    ensures Mask(0xFFFF_FFFF_FFFF_FFFF, 0, 64, 64)
  {
    Ones40(0);
    OnesFour(0xFFF_FFFF_FFFF, 0xFF_FFFF_FFFF, 40, 40);
    OnesFour(0xFFFF_FFFF_FFFF, 0xFFF_FFFF_FFFF, 44, 44);
    OnesFour(0xF_FFFF_FFFF_FFFF, 0xFFFF_FFFF_FFFF, 48, 48);
    OnesFour(0xFF_FFFF_FFFF_FFFF, 0xF_FFFF_FFFF_FFFF, 52, 52);
    OnesFour(0xFFF_FFFF_FFFF_FFFF, 0xFF_FFFF_FFFF_FFFF, 56, 56);
    OnesFour(0xFFFF_FFFF_FFFF_FFFF, 0xFFF_FFFF_FFFF_FFFF, 60, 60);
  }

  /** The frame numbers in an entry: 40 bits above the 12 of the offset. */
  lemma AddressBits()
    ensures Mask(PA_MASK, 12, 40, 64)
  {
    Ones40(12);
    ZerosFour(0xFFF_FFFF_FFF0, 0xFF_FFFF_FFFF, 0, 40, 52);
    ZerosFour(0xFFFF_FFFF_FF00, 0xFFF_FFFF_FFF0, 4, 40, 56);
    ZerosFour(0xF_FFFF_FFFF_F000, 0xFFFF_FFFF_FF00, 8, 40, 60);
  }

  ghost predicate Keeps(w: Word, m: Word, w': Word) {
    w' == w & m
  }

  lemma KeepsHalf(w: Word, m: Word, w': Word)
    requires Keeps(w, m, w')
    ensures Bit(w') == (if Bit(m) == 1 then Bit(w) else 0) && Keeps(Half(w), Half(m), Half(w'))
  {
  }

  /** The digits of w from a on, b of them, are those of w', which has no others. */
  ghost predicate Digits(w: Word, w': Word, a: nat, b: nat, n: nat) {
    n == 0 ||
      (if a > 0 then Bit(w') == 0 && Digits(Half(w), Half(w'), a - 1, b, n - 1)
       else if b > 0 then Bit(w') == Bit(w) && Digits(Half(w), Half(w'), 0, b - 1, n - 1)
       else Bit(w') == 0 && Digits(Half(w), Half(w'), 0, 0, n - 1))
  }

  lemma {:induction false} KeepsDigits(w: Word, m: Word, w': Word, a: nat, b: nat, n: nat)
    requires Keeps(w, m, w') && Mask(m, a, b, n)
    ensures Digits(w, w', a, b, n)
  {
    if n != 0 {
      KeepsHalf(w, m, w');
      KeepsDigits(Half(w), Half(m), Half(w'), if a > 0 then a - 1 else 0, if a == 0 && b > 0 then b - 1 else b, n - 1);
    }
  }

  /** What is left of v, without the digits below p and those from p * q on. */
  function Middle(v: nat, p: nat, q: nat): nat
    requires p > 0 && q > 0
  {
    v / p % q * p
  }

  lemma NoneLeft(v: nat)
    ensures Middle(v, 1, 1) == 0
  {
  }

  ghost predicate Cut(w: Word, w': Word, a: nat, b: nat, n: nat) {
    Number(w', n) == Middle(Number(w, n), Pow2(a), Pow2(b))
  }

  lemma CutSkip(w: Word, w': Word, a: nat, b: nat, n: nat)
    requires n > 0 && a > 0 && Bit(w') == 0 && Cut(Half(w), Half(w'), a - 1, b, n - 1)
    ensures Cut(w, w', a, b, n)
  {
    SkipDigit(Bit(w), Number(Half(w), n - 1), Pow2(a - 1), Pow2(b));
  }

  lemma CutKeep(w: Word, w': Word, b: nat, n: nat)
    requires n > 0 && b > 0 && Bit(w') == Bit(w) && Cut(Half(w), Half(w'), 0, b - 1, n - 1)
    ensures Cut(w, w', 0, b, n)
  {
    KeepDigit(Bit(w), Number(Half(w), n - 1), Pow2(b - 1));
  }

  lemma CutNone(w: Word, w': Word, n: nat)
    requires n > 0 && Bit(w') == 0 && Cut(Half(w), Half(w'), 0, 0, n - 1)
    ensures Cut(w, w', 0, 0, n)
  {
    NoneLeft(Number(Half(w), n - 1));
    NoneLeft(Number(w, n));
  }

  /** Masking keeps b digits from digit a on. */
  lemma {:induction false} DigitsAre(w: Word, w': Word, a: nat, b: nat, n: nat)
    requires Digits(w, w', a, b, n) && a + b <= n
    ensures Cut(w, w', a, b, n)
  {
    if n == 0 {
      NoneLeft(0);
    } else if a > 0 {
      DigitsAre(Half(w), Half(w'), a - 1, b, n - 1);
      CutSkip(w, w', a, b, n);
    } else if b > 0 {
      DigitsAre(Half(w), Half(w'), 0, b - 1, n - 1);
      CutKeep(w, w', b, n);
    } else {
      DigitsAre(Half(w), Half(w'), 0, 0, n - 1);
      CutNone(w, w', n);
    }
  }

  lemma SkipDigit(d: nat, x: nat, p: nat, q: nat)
    requires d <= 1 && p > 0 && q > 0
    ensures 2 * Middle(x, p, q) == Middle(d + 2 * x, 2 * p, q)
  {
    var k, r := x / p, x % p;
    assert x == p * k + r;
    assert 2 * (p * k) == (2 * p) * k;
    DivIs(d + 2 * x, 2 * p, k, d + 2 * r);
    var y := k % q;
    assert 2 * (y * p) == y * (2 * p);
  }

  lemma DivIs(a: nat, b: nat, k: nat, r: nat)
    requires r < b && a == b * k + r
    ensures a / b == k && a % b == r
  {
    assert a == b * (a / b) + a % b;
    NoMore(b, a / b, k, a % b, r);
  }

  /** Quotient and remainder are unique. */
  lemma NoMore(b: nat, q: nat, k: nat, s: nat, r: nat)
    requires s < b && r < b && b * q + s == b * k + r
    ensures q == k && s == r
  {
    if q > k {
      assert b * q == b * k + b * (q - k);
      Grows(b, q - k);
    }
    if q < k {
      assert b * k == b * q + b * (k - q);
      Grows(b, k - q);
    }
  }

  lemma Grows(b: nat, d: nat)
    requires d > 0
    ensures b * d >= b
  {
    assert b * d == b + b * (d - 1);
  }

  lemma KeepDigit(d: nat, x: nat, q: nat)
    requires d <= 1 && q > 0
    ensures d + 2 * Middle(x, 1, q) == Middle(d + 2 * x, 1, 2 * q)
  {
    var k, r := x / q, x % q;
    assert x == q * k + r;
    assert 2 * (q * k) == (2 * q) * k;
    DivIs(d + 2 * x, 2 * q, k, d + 2 * r);
  }

  // ----- the next page

  /** z and s are the same in the bits of the mask. */
  ghost predicate Same(z: Word, s: Word, m: Word) {
    z & m == s & m
  }

  function CarryOut(x: Word, c: Word): Word {
    if x & 1 == 1 && c == 1 then 1 else 0
  }

  /** In the bits of the mask, z is the sum of x and d. */
  ghost predicate Adds(x: Word, d: Word, z: Word, m: Word) {
    z & m == (x + d) & m
  }

  lemma CarryHalf(x: Word, c: Word, z: Word, m: Word)
    requires Adds(x, c, z, m) && Bit(m) == 1 && c <= 1
    ensures Adds(Half(x), CarryOut(x, c), Half(z), Half(m))
  {
  }

  lemma CarryBit(x: Word, c: Word, z: Word, m: Word)
    requires Adds(x, c, z, m) && Bit(m) == 1 && c <= 1
    ensures Bit(x) + Bit(c) == Bit(z) + 2 * Bit(CarryOut(x, c))
  {
  }

  /** Adding a carry bit by bit. */
  ghost predicate Chain(x: Word, c: Word, z: Word, n: nat) {
    n == 0 || (Bit(x) + Bit(c) == Bit(z) + 2 * Bit(CarryOut(x, c)) && Chain(Half(x), CarryOut(x, c), Half(z), n - 1))
  }

  lemma {:induction false} CarryChain(x: Word, c: Word, z: Word, m: Word, n: nat)
    requires Adds(x, c, z, m) && Mask(m, 0, n, n) && c <= 1
    ensures Chain(x, c, z, n)
  {
    if n != 0 {
      CarryBit(x, c, z, m);
      CarryHalf(x, c, z, m);
      CarryChain(Half(x), CarryOut(x, c), Half(z), Half(m), n - 1);
    }
  }

  function Around(sum: nat, p: nat): nat {
    if sum >= p then sum - p else sum
  }

  lemma {:induction false} ChainIs(x: Word, c: Word, z: Word, n: nat)
    requires Chain(x, c, z, n)
    ensures Number(z, n) == Around(Number(x, n) + Bit(c), Pow2(n))
  {
    NumberBelow(x, n);
    if n != 0 {
      ChainIs(Half(x), CarryOut(x, c), Half(z), n - 1);
    }
  }

  /** 2^k */
  function Digit(k: nat): Word {
    if k == 0 then 1 else Digit(k - 1) << 1
  }

  ghost predicate HalfSame(s: Word, s': Word) {
    (s >> 1) & 0x7FFF_FFFF_FFFF_FFFF == s' & 0x7FFF_FFFF_FFFF_FFFF
  }

  lemma DoubleHalf(x: Word, d: Word)
    ensures HalfSame(x + (d << 1), (x >> 1) + d)
  {
  }

  lemma DoubleBit(x: Word, d: Word)
    ensures Bit(x + (d << 1)) == Bit(x)
  {
  }

  lemma SameHalf(s: Word, s': Word, z: Word, m: Word)
    requires Same(z, s, m) && HalfSame(s, s')
    ensures Same(Half(z), s', Half(m)) && (Bit(m) == 1 ==> Bit(z) == Bit(s))
  {
  }

  lemma DigitHalf(x: Word, d: Word, z: Word, m: Word)
    requires Adds(x, d << 1, z, m) && Bit(m) == 1
    ensures Adds(x >> 1, d, Half(z), Half(m)) && Bit(z) == Bit(x)
  {
    DoubleHalf(x, d);
    DoubleBit(x, d);
    SameHalf(x + (d << 1), (x >> 1) + d, z, m);
  }

  /** Adding 2^k bit by bit. */
  ghost predicate ChainAt(x: Word, k: nat, z: Word, n: nat) {
    if n == 0 || k == 0 then Chain(x, 1, z, n) else Bit(z) == Bit(x) && ChainAt(Half(x), k - 1, Half(z), n - 1)
  }

  lemma {:induction false} DigitChain(x: Word, k: nat, d: Word, z: Word, m: Word, n: nat)
    requires Adds(x, d, z, m) && d == Digit(k) && Mask(m, 0, n, n)
    ensures ChainAt(x, k, z, n)
  {
    if k == 0 {
      CarryChain(x, d, z, m, n);
    } else if n != 0 {
      var d' := Digit(k - 1);
      DigitHalf(x, d', z, m);
      DigitChain(Half(x), k - 1, d', Half(z), Half(m), n - 1);
    }
  }

  lemma {:induction false} ChainAtIs(x: Word, k: nat, z: Word, n: nat)
    requires ChainAt(x, k, z, n) && k <= n
    ensures Number(z, n) == Around(Number(x, n) + Pow2(k), Pow2(n))
  {
    if k == 0 || n == 0 {
      ChainIs(x, 1, z, n);
    } else {
      ChainAtIs(Half(x), k - 1, Half(z), n - 1);
    }
  }
}
