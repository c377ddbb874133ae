/** Clock arithmetic: a frequency as the fraction n / 2^p of nanoseconds per tick. */
module FreqFrac {
  import opened Sizes
  import opened Dyadic

  const GIGA: nat := 1_000_000_000
  const WRAP128: nat := 0x1_0000_0000_0000_0000_0000_0000_0000_0000

  datatype Fraction = Fraction(p: nat, n: nat, freq: nat)

  /** `init`: the quotient in 64 bits; a frequency of 0 has no logarithm. */
  function Init(freq: nat): Fraction
    requires 0 < freq < WRAP
  {
    var p := FloorOrder(freq);
    Fraction(p, Div((GIGA * Pow2(p)) % WRAP, freq), freq)
  }

  function Div(a: nat, b: nat): nat
    requires b > 0
  {
    a / b
  }

  /** `nanos`: the product in 128 bits, saturated to 64. */
  function Nanos(f: Fraction, ticks: nat): nat {
    Shifted(ticks * f.n, Pow2(f.p))
  }

  function Shifted(product: nat, power: nat): nat
    requires power > 0
  {
    var res := product % WRAP128 / power;
    if res >= WRAP then WRAP - 1 else res
  }

  /** `ticks`, in 64 bits. */
  function Ticks(f: Fraction, nanos: nat): nat
    requires f.n > 0
  {
    (nanos * Pow2(f.p)) % WRAP / f.n
  }

  /** The fraction is 10^9 / freq rounded down in its last place. */
  ghost predicate Exact(f: Fraction) {
    && 0 < f.freq && Pow2(f.p) <= f.freq < 2 * Pow2(f.p)
    && f.n == GIGA * Pow2(f.p) / f.freq
  }

  lemma Power34()
    ensures Pow2(34) == 0x4_0000_0000 && Pow2(35) == 0x8_0000_0000
  {
    assert Pow2(8) == 0x100;
    Pow2Adds(8, 8);
    Pow2Adds(16, 16);
    Pow2Adds(32, 2);
    assert Pow2(2) == 4;
  }

  lemma Power35(p: nat)
    ensures p <= 34 <==> GIGA * Pow2(p) < WRAP
    ensures p <= 34 ==> Pow2(p) <= 0x4_0000_0000
    ensures p > 34 ==> Pow2(p) >= 0x8_0000_0000
  {
    Power34();
    if p <= 34 {
      Pow2Monotone(p, 34);
    } else {
      Pow2Monotone(35, p);
    }
  }

  lemma SmallFrequency(freq: nat, p: nat)
    requires 0 < freq && Pow2(p) <= freq < 2 * Pow2(p)
    ensures freq < 0x8_0000_0000 <==> p <= 34
  {
    Power35(p);
  }

  /** For which frequencies the fraction is what it is meant to be. */
  lemma InitExact(freq: nat)
    requires 0 < freq < WRAP
    ensures Init(freq).freq == freq && (Exact(Init(freq)) <==> freq < 0x8_0000_0000)
    ensures freq < 0x8_0000_0000 ==> 0 < Init(freq).n <= GIGA
  {
    var p := FloorOrder(freq);
    SmallFrequency(freq, p);
    Power35(p);
    if p <= 34 {
      Modulo(GIGA * Pow2(p), WRAP);
      QuotientRange(Pow2(p), freq);
    } else {
      WrappedDiffers(GIGA * Pow2(p), WRAP, freq);
    }
  }

  /** At 2^35 Hz the fraction should be 10^9 / 2^35. */
  lemma InitOverflows()
    ensures Init(0x8_0000_0000) == Fraction(35, 463_129_088, 0x8_0000_0000)
    ensures !Exact(Init(0x8_0000_0000))
  {
    Power34();
    var p := FloorOrder(0x8_0000_0000);
    if p < 35 {
      Pow2Monotone(p, 34);
    }
    if p > 35 {
      Pow2Monotone(36, p);
    }
    assert GIGA * 0x8_0000_0000 == WRAP + 463_129_088 * 0x8_0000_0000;
    InitExact(0x8_0000_0000);
  }

  lemma Modulo(x: nat, w: nat)
    requires w > 0
    ensures x < w ==> x % w == x
    ensures x >= w ==> x % w <= x - w
  {
    if x >= w {
      assert x == w * (x / w) + x % w;
      GrowsBy(x / w, w);
    }
  }

  lemma QuotientRange(P: nat, freq: nat)
    requires 0 < P <= freq < 2 * P
    ensures 0 < GIGA * P / freq <= GIGA
  {
    var n := GIGA * P / freq;
    QuotientBounds(GIGA * P, freq);
    Scale(P, freq, GIGA);
    NoGreater(n, GIGA, freq);
  }

  lemma WrappedDiffers(x: nat, w: nat, freq: nat)
    requires 0 < freq < w <= x
    ensures x % w / freq != x / freq
  {
    Modulo(x, w);
    QuotientBounds(x, freq);
    QuotientBounds(x % w, freq);
  }

  lemma QuotientBounds(a: nat, b: nat)
    requires b > 0
    ensures a / b * b <= a < a / b * b + b
  {
  }

  lemma NoGreater(a: nat, b: nat, c: nat)
    requires c > 0 && a * c <= b * c
    ensures a <= b
  {
    if a > b {
      assert a * c == b * c + (a - b) * c;
      assert (a - b) * c >= c by { GrowsBy(a - b, c); }
    }
  }

  lemma LessQuotient(a: nat, b: nat, x: nat, y: nat, P: nat)
    requires P > 0 && a * P <= x <= y < b * P + P
    ensures a <= b
  {
    assert (b + 1) * P == b * P + P;
    NoGreaterStrict(a, b + 1, P);
  }

  lemma NoGreaterStrict(a: nat, b: nat, c: nat)
    requires a * c < b * c
    ensures a < b
  {
    if a >= b {
      Scale(b, a, c);
    }
  }

  lemma {:induction false} GrowsBy(d: nat, c: nat)
    requires d > 0
    ensures d * c >= c
  {
    if d > 1 {
      GrowsBy(d - 1, c);
      assert d * c == (d - 1) * c + c;
    }
  }

  /** A fraction that `init` has computed without an overflow. */
  ghost predicate Sound(f: Fraction) {
    Exact(f) && f.freq < 0x8_0000_0000
  }

  lemma SoundFacts(f: Fraction)
    requires Sound(f)
    ensures 0 < f.n <= GIGA && Pow2(f.p) <= 0x4_0000_0000
  {
    SmallFrequency(f.freq, f.p);
    Power35(f.p);
    QuotientRange(Pow2(f.p), f.freq);
  }

  /** What `nanos` computes as long as the product fits. */
  lemma NanosIs(f: Fraction, ticks: nat, product: nat) returns (r: nat)
    requires product == ticks * f.n < WRAP128
    ensures r == Div(product, Pow2(f.p)) && r * Pow2(f.p) <= product < r * Pow2(f.p) + Pow2(f.p)
    ensures Nanos(f, ticks) == if r >= WRAP then WRAP - 1 else r
  {
    r := Div(product, Pow2(f.p));
    ShiftedIs(product, Pow2(f.p));
  }

  lemma ShiftedIs(product: nat, power: nat)
    requires product < WRAP128 && power > 0
    ensures var r := Div(product, power);
            r * power <= product < r * power + power && Shifted(product, power) == if r >= WRAP then WRAP - 1 else r
  {
    Modulo(product, WRAP128);
    QuotientBounds(product, power);
  }

  /** More ticks are no less time. */
  lemma NoLess(f: Fraction, s: nat, t: nat)
    requires s <= t && t * f.n < WRAP128
    ensures Nanos(f, s) <= Nanos(f, t)
  {
    Scale(s, t, f.n);
    var x, y, P := s * f.n, t * f.n, Pow2(f.p);
    var a := NanosIs(f, s, x);
    var b := NanosIs(f, t, y);
    LessQuotient(a, b, x, y, P);
  }

  ghost predicate Monotone(f: Fraction, t: nat) {
    forall r: nat, s: nat {:trigger Nanos(f, r), Nanos(f, s)} | r <= s <= t :: Nanos(f, r) <= Nanos(f, s)
  }

  /** More ticks are no less time up to t if and only if the product with t fits 128 bits. */
  lemma NanosMonotone(freq: nat, t: nat)
    requires 0 < freq < 0x8_0000_0000
    ensures Monotone(Init(freq), t) <==> t * Init(freq).n < WRAP128
  {
    InitExact(freq);
    MonotoneUpTo(Init(freq), t);
  }

  lemma MonotoneUpTo(f: Fraction, t: nat)
    requires Sound(f)
    ensures Monotone(f, t) <==> t * f.n < WRAP128
  {
    SoundFacts(f);
    if t * f.n < WRAP128 {
      forall r: nat, s: nat | r <= s <= t ensures Nanos(f, r) <= Nanos(f, s) {
        Scale(s, t, f.n);
        NoLess(f, r, s);
      }
    } else {
      var u := FirstTooMuch(f.n);
      NoGreaterStrict(u - 1, t, f.n);
      DropsBack(f, u);
    }
  }

  /** The first number of ticks whose product does not fit. */
  lemma FirstTooMuch(n: nat) returns (u: nat)
    requires 0 < n <= GIGA
    ensures u > 0 && (u - 1) * n < WRAP128 <= u * n < WRAP128 + n && (u - 1) * n >= WRAP128 - n
  {
    u := Div(WRAP128 - 1, n) + 1;
    QuotientBounds(WRAP128 - 1, n);
    assert (u - 1) * n + n == u * n;
  }

  /** There the time is back near zero, and the moment before it was the greatest possible. */
  lemma DropsBack(f: Fraction, u: nat)
    requires 0 < f.n <= GIGA && Pow2(f.p) <= 0x4_0000_0000
    requires u > 0 && (u - 1) * f.n < WRAP128 <= u * f.n < WRAP128 + f.n && (u - 1) * f.n >= WRAP128 - f.n
    ensures Nanos(f, u) < Nanos(f, u - 1)
  {
    var P, x, y := Pow2(f.p), (u - 1) * f.n, u * f.n;
    assert y % WRAP128 == y - WRAP128;
    QuotientBounds(y - WRAP128, P);
    GrowsTo((y - WRAP128) / P, P);
    var a := NanosIs(f, u - 1, x);
    Scale(P, 0x4_0000_0000, WRAP);
    assert (a + 1) * P == a * P + P;
    NoGreaterStrict(WRAP, a + 1, P);
  }

  /** The clock never runs ahead of ticks * 10^9 / freq nanoseconds, and lags it by less than one nanosecond and two for
      every second elapsed, that is by less than 1 + 2 * ticks / freq, if and only if it has not stopped at the greatest
      time of 64 bits for too long. */
  lemma NanosBound(freq: nat, ticks: nat)
    requires 0 < freq < 0x8_0000_0000
    ensures Nanos(Init(freq), ticks) * freq <= ticks * GIGA
    ensures ticks * GIGA < (Nanos(Init(freq), ticks) + 1) * freq + 2 * ticks <==> ticks * (GIGA - 2) < WRAP * freq
  {
    InitExact(freq);
    Bounds(Init(freq), ticks);
  }

  lemma Bounds(f: Fraction, ticks: nat)
    requires Sound(f)
    ensures Nanos(f, ticks) * f.freq <= ticks * GIGA
    ensures ticks * GIGA < (Nanos(f, ticks) + 1) * f.freq + 2 * ticks <==> ticks * (GIGA - 2) < WRAP * f.freq
  {
    SoundFacts(f);
    NeverAhead(f, ticks, ticks * f.n);
    LagNeeds(f.freq, ticks, Nanos(f, ticks));
    if ticks * (GIGA - 2) < WRAP * f.freq {
      ProductFits(f, ticks);
      LagsLittle(f, ticks, ticks * f.n);
    }
  }

  lemma NeverAhead(f: Fraction, ticks: nat, product: nat)
    requires Exact(f) && product == ticks * f.n
    ensures Nanos(f, ticks) * f.freq <= ticks * GIGA
  {
    var P, q, r := Pow2(f.p), f.freq, Div(product % WRAP128, Pow2(f.p));
    Modulo(product, WRAP128);
    QuotientBounds(product % WRAP128, P);
    QuotientBounds(GIGA * P, q);
    Below(r, ticks, f.n, P, q);
    Scale(Nanos(f, ticks), r, q);
  }

  lemma LagNeeds(q: nat, ticks: nat, time: nat)
    requires time < WRAP
    ensures ticks * GIGA < (time + 1) * q + 2 * ticks ==> ticks * (GIGA - 2) < WRAP * q
  {
    Scale(time + 1, WRAP, q);
  }

  lemma ProductFits(f: Fraction, ticks: nat)
    requires f.n <= GIGA && f.freq < 0x8_0000_0000 && ticks * (GIGA - 2) < WRAP * f.freq
    ensures ticks * f.n < WRAP128
  {
    assert WRAP * f.freq <= WRAP * 0x8_0000_0000 by { Scale(f.freq, 0x8_0000_0000, WRAP); }
    Scale(f.n, GIGA, ticks);
  }

  lemma LagsLittle(f: Fraction, ticks: nat, product: nat)
    requires Exact(f) && product == ticks * f.n < WRAP128 && ticks * (GIGA - 2) < WRAP * f.freq
    ensures ticks * GIGA < (Nanos(f, ticks) + 1) * f.freq + 2 * ticks
  {
    var P, q := Pow2(f.p), f.freq;
    var r := NanosIs(f, ticks, product);
    QuotientBounds(GIGA * P, q);
    Above(r, ticks, f.n, P, q);
  }

  lemma Below(r: nat, k: nat, n: nat, P: nat, q: nat)
    requires P > 0 && r * P <= k * n && n * q <= GIGA * P
    ensures r * q <= k * GIGA
  {
    assert (r * q) * P == (r * P) * q;
    Scale(r * P, k * n, q);
    assert (k * n) * q == k * (n * q);
    Scale(n * q, GIGA * P, k);
    assert k * (GIGA * P) == (k * GIGA) * P;
    NoGreater(r * q, k * GIGA, P);
  }

  lemma Above(r: nat, k: nat, n: nat, P: nat, q: nat)
    requires P > 0 && q > 0 && k * n < r * P + P && GIGA * P < n * q + q && q < 2 * P
    ensures k * GIGA < (r + 1) * q + 2 * k
  {
    // k 10^9 P <= k n q + k q < (r + 1) P q + 2 k P
    Scale(GIGA * P, n * q + q, k);
    assert k * (n * q + q) == (k * n) * q + k * q;
    StrictScale(k * n, (r + 1) * P, q);
    Scale(q, 2 * P, k);
    assert k * (2 * P) == (2 * k) * P;
    assert ((r + 1) * P) * q == ((r + 1) * q) * P;
    assert k * (GIGA * P) == (k * GIGA) * P;
    assert ((r + 1) * q + 2 * k) * P == ((r + 1) * q) * P + (2 * k) * P;
    if k * GIGA >= (r + 1) * q + 2 * k {
      Scale((r + 1) * q + 2 * k, k * GIGA, P);
    }
  }

  lemma Scale(a: nat, b: nat, c: nat)
    requires a <= b
    ensures a * c <= b * c && c * a <= c * b
  {
    assert b * c == a * c + (b - a) * c;
  }

  lemma StrictScale(a: nat, b: nat, c: nat)
    requires a < b && c > 0
    ensures a * c < b * c
  {
    assert b * c == a * c + (b - a) * c;
    GrowsBy(b - a, c);
  }

  /** From nanoseconds to ticks and back: never more, and short by no more than a tick, rounded up, if and only if the
      shifted time fits 64 bits. */
  lemma TicksBack(freq: nat, nanos: nat)
    requires 0 < freq < 0x8_0000_0000
    ensures Init(freq).n > 0 && Nanos(Init(freq), Ticks(Init(freq), nanos)) <= nanos
    ensures var f := Init(freq); var short := nanos - Nanos(f, Ticks(f, nanos));
            && (short * Pow2(f.p) < f.n + Pow2(f.p) <==> nanos * Pow2(f.p) < WRAP)
            && (short * freq < GIGA + freq <==> nanos * Pow2(f.p) < WRAP)
  {
    InitExact(freq);
    Returns(Init(freq), nanos);
  }

  lemma Returns(f: Fraction, nanos: nat)
    requires Sound(f)
    ensures f.n > 0 && Nanos(f, Ticks(f, nanos)) <= nanos
    ensures var short := nanos - Nanos(f, Ticks(f, nanos));
            && (short * Pow2(f.p) < f.n + Pow2(f.p) <==> nanos * Pow2(f.p) < WRAP)
            && (short * f.freq < GIGA + f.freq <==> nanos * Pow2(f.p) < WRAP)
  {
    SoundFacts(f);
    var P, n, q, x := Pow2(f.p), f.n, f.freq, nanos * Pow2(f.p);
    Modulo(x, WRAP);
    var y := x % WRAP;
    var k := y / n;
    QuotientBounds(y, n);
    assert k == Ticks(f, nanos) && k * n <= y;
    var r := NanosIs(f, k, k * n);
    NoGreater(r, nanos, P);
    GrowsTo(r, P);
    QuotientBounds(GIGA * P, q);
    if x < WRAP {
      Short(nanos, r, P, n, q, k * n);
    } else {
      FarOff(nanos, r, P, n, q);
    }
  }

  /** When the shifted time has wrapped around, it comes back far too small. */
  lemma FarOff(nanos: nat, r: nat, P: nat, n: nat, q: nat)
    requires r <= nanos && r * P + WRAP <= nanos * P && n <= GIGA && P <= 0x4_0000_0000 && P <= q < 0x8_0000_0000
    ensures (nanos - r) * P >= n + P && (nanos - r) * q >= GIGA + q
  {
    assert (nanos - r) * P == nanos * P - r * P;
    Scale(P, q, nanos - r);
  }

  /** At 3 GHz, that is so from 2^33 nanoseconds on, or 8.6 seconds: they are 0 ticks. */
  lemma TicksWrap()
    ensures Init(3_000_000_000) == Fraction(31, 715_827_882, 3_000_000_000)
    ensures Ticks(Init(3_000_000_000), 0x2_0000_0000) == 0
  {
    Power34();
    Pow2Adds(31, 1);
    Pow2Adds(32, 2);
    var p := FloorOrder(3_000_000_000);
    if p < 31 {
      Pow2Monotone(p + 1, 31);
    }
    if p > 31 {
      Pow2Monotone(32, p);
    }
  }

  lemma GrowsTo(a: nat, b: nat)
    requires b > 0
    ensures a <= a * b
  {
    Scale(1, b, a);
  }

  lemma Short(nanos: nat, r: nat, P: nat, n: nat, q: nat, kn: nat)
    requires P > 0 && q > 0 && r <= nanos
    requires kn < r * P + P && nanos * P < kn + n && n * q <= GIGA * P
    ensures (nanos - r) * P < n + P && (nanos - r) * q < GIGA + q
  {
    var d := nanos - r;
    assert d * P == nanos * P - r * P;
    // d q P < n q + P q <= (10^9 + q) P
    StrictScale(d * P, n + P, q);
    assert (d * P) * q == (d * q) * P;
    assert (n + P) * q == n * q + q * P;
    assert (GIGA + q) * P == GIGA * P + q * P;
    if d * q >= GIGA + q {
      Scale(GIGA + q, d * q, P);
    }
  }
}
