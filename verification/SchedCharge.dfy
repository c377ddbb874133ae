/** What a thread is charged for the time it ran. */
module SchedCharge {
  import opened Sizes
  import opened SchedState

  /** The weight of a thread of normal priority. */
  const WEIGHT0: nat := 1024

  /** The virtual time after running from `since` to `now`, in 64 bits. */
  function Vruntime(t: Thread, now: nat): nat
    requires t.weight > 0
  {
    (t.vruntime + ((now - t.scheduleTime) % WRAP * WEIGHT0) % WRAP / t.weight) % WRAP
  }

  /** A thread that has run for d nanoseconds is charged 1024 * d over its weight, rounded down, if and only if neither
      the product nor the new virtual time exceeds 64 bits. */
  ghost predicate FairlyCharged(t: Thread, v: int, time: nat) {
    Sensible(t, time) ==>
      var d, c := time - t.scheduleTime, v - t.vruntime;
      (c * t.weight <= 1024 * d < (c + 1) * t.weight <==> InWidth(t, d))
  }

  /** The numbers have 64 bits, and the clock has not gone back. */
  predicate Sensible(t: Thread, time: nat) {
    0 < t.weight < WRAP && t.vruntime < WRAP && t.scheduleTime <= time < WRAP
  }

  predicate InWidth(t: Thread, d: nat)
    requires t.weight > 0
  {
    1024 * d < WRAP && t.vruntime + Quotient(1024 * d, t.weight) < WRAP
  }

  function Quotient(x: nat, w: nat): nat
    requires w > 0
  {
    x / w
  }

  lemma QuotientIs(x: nat, w: nat) returns (q: nat)
    requires w > 0
    ensures q == Quotient(x, w) && q * w <= x < (q + 1) * w && q <= x
  {
    q := x / w;
    assert x == w * q + x % w;
    Smaller(q, x, w);
  }

  lemma ChargeIsFair(t: Thread, time: nat)
    requires t.weight > 0
    ensures FairlyCharged(t, Vruntime(t, time), time)
  {
    if Sensible(t, time) {
      var d := time - t.scheduleTime;
      var x := 1024 * d;
      assert d % WRAP == d && d * WEIGHT0 == x;
      var q := QuotientIs(x, t.weight);
      var c := QuotientIs(x % WRAP, t.weight);
      assert Vruntime(t, time) == (t.vruntime + c) % WRAP;
      InOrOut(t.vruntime, x, x % WRAP, t.weight, q, c, Vruntime(t, time));
    }
  }

  lemma Smaller(q: nat, x: nat, w: nat)
    requires w > 0 && q * w <= x
    ensures q <= x
  {
    assert q * w == q + q * (w - 1);
  }

  /** x is what is to be divided, y what is left of it in 64 bits; q and c are the quotients. */
  lemma InOrOut(v0: nat, x: nat, y: nat, w: nat, q: nat, c: nat, v: nat)
    requires 0 < w < WRAP && v0 < WRAP && y == x % WRAP && c <= y && v == (v0 + c) % WRAP
    requires q * w <= x < (q + 1) * w && c * w <= y && (x == y ==> q == c) && q <= x
    ensures (v - v0) * w <= x < (v - v0 + 1) * w <==> x < WRAP && v0 + q < WRAP
  {
    if x < WRAP && v0 + q < WRAP {
      assert v - v0 == q;
    } else if x < WRAP {
      assert v - v0 == q - WRAP;
      NotPositive(q - WRAP + 1, w);
    } else {
      assert v - v0 <= c;
      Monotone(v - v0 + 1, c + 1, w);
      assert (c + 1) * w == c * w + w;
      assert y <= x - WRAP;
    }
  }

  lemma Monotone(a: int, b: int, w: nat)
    requires a <= b
    ensures a * w <= b * w
  {
    assert b * w == a * w + (b - a) * w;
  }

  lemma NotPositive(c: int, w: nat)
    requires c <= 0
    ensures c * w <= 0
  {
  }

  /** A thread of normal weight is charged exactly the time it ran. */
  lemma NormalPays(t: Thread, v: int, time: nat)
    requires Sensible(t, time) && FairlyCharged(t, v, time) && t.weight == 1024 && InWidth(t, time - t.scheduleTime)
    ensures v == t.vruntime + (time - t.scheduleTime)
  {
  }

  /** Of two threads that ran equally long, the heavier one is never charged more. */
  lemma HeavierPaysLess(t: Thread, v: int, time: nat, u: Thread, w: int, now: nat)
    requires Sensible(t, time) && FairlyCharged(t, v, time) && InWidth(t, time - t.scheduleTime)
    requires Sensible(u, now) && FairlyCharged(u, w, now) && InWidth(u, now - u.scheduleTime)
    requires time - t.scheduleTime == now - u.scheduleTime && t.weight <= u.weight
    ensures w - u.vruntime <= v - t.vruntime
  {
    NoMore(1024 * (time - t.scheduleTime), t.weight, v - t.vruntime, u.weight, w - u.vruntime);
  }

  lemma NoMore(x: nat, p: nat, c: int, q: nat, e: int)
    requires 0 < p <= q && c * p <= x < (c + 1) * p && e * q <= x < (e + 1) * q
    ensures e <= c
  {
    if c < 0 {
      NotPositive(c + 1, p);
    }
    if e > c {
      Monotone(c + 1, e, q);
      Widen(c + 1, p, q);
    }
  }

  lemma Widen(a: nat, p: nat, q: nat)
    requires p <= q
    ensures a * p <= a * q
  {
    assert a * q == a * p + a * (q - p);
  }
}
