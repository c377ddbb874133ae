/** Which frames a range of pages is mapped to, as numbers. */
module PtFrames {
  import opened Sizes
  import opened Dyadic
  import opened PtEntry
  import opened PtNumber
  import opened PtState
  import opened PtSteps

  function Value(w: Word): nat {
    Number(w, 64)
  }

  lemma Power12()
    ensures Pow2(12) == 0x1000 && Pow2(8) == 0x100
  {
    assert Pow2(4) == 0x10;
    Pow2Adds(4, 4);
    Pow2Adds(8, 4);
  }

  lemma Power40()
    ensures Pow2(40) == 0x100_0000_0000 && Pow2(32) == 0x1_0000_0000
  {
    Power12();
    Pow2Adds(8, 8);
    Pow2Adds(16, 16);
    Pow2Adds(32, 8);
  }

  lemma Power64()
    ensures Pow2(64) == WRAP
  {
    Power40();
    Pow2Adds(32, 32);
  }

  lemma Digit12()
    ensures Digit(12) == 0x1000
  {
    assert Digit(4) == 0x10;
    assert Digit(8) == 0x100;
  }

  ghost predicate NextPage(w: Word, w': Word) {
    w' == w + 0x1000
  }

  lemma NextAdds(w: Word, w': Word)
    requires NextPage(w, w')
    ensures Adds(w, 0x1000, w', 0xFFFF_FFFF_FFFF_FFFF)
  {
  }

  lemma NextValue(w: Word, w': Word)
    requires NextPage(w, w')
    ensures Value(w') == Around(Value(w) + 0x1000, WRAP)
  {
    NextAdds(w, w');
    AddsValue(w, 0x1000, w');
  }

  lemma AddsValue(w: Word, d: Word, w': Word)
    requires Adds(w, d, w', 0xFFFF_FFFF_FFFF_FFFF) && d == 0x1000
    ensures Value(w') == Around(Value(w) + 0x1000, WRAP)
  {
    Digit12();
    Ones64();
    DigitChain(w, 12, d, w', 0xFFFF_FFFF_FFFF_FFFF, 64);
    ChainAtIs(w, 12, w', 64);
    Power12();
    Power64();
  }

  lemma PageStep(paddr: Word, k: nat)
    requires k > 0
    ensures NextPage(PageAddr(paddr, k - 1), PageAddr(paddr, k))
  {
  }

  /** Page k of a mapping lies k pages behind the first, going around at 2^64. */
  lemma {:induction false} PageAddrIs(paddr: Word, k: nat)
    ensures Value(PageAddr(paddr, k)) == (Value(paddr) + 0x1000 * k) % WRAP
  {
    if k == 0 {
      NumberBelow(paddr, 64);
      Power64();
    } else {
      PageAddrIs(paddr, k - 1);
      PageStep(paddr, k);
      NextValue(PageAddr(paddr, k - 1), PageAddr(paddr, k));
      AroundIs(Value(paddr) + 0x1000 * (k - 1), 0x1000);
    }
  }

  lemma AroundIs(x: nat, d: nat)
    requires d < WRAP
    ensures Around(x % WRAP + d, WRAP) == (x + d) % WRAP
  {
  }

  /** An entry has room for 40 bits of the frame number. */
  function FrameOf(v: nat): nat {
    v / 0x1000 % 0x100_0000_0000
  }

  lemma AddressIs(w: Word, a: Word)
    requires Keeps(w, PA_MASK, a)
    ensures Value(a) == FrameOf(Value(w)) * 0x1000
  {
    AddressBits();
    KeepsDigits(w, PA_MASK, a, 12, 40, 64);
    DigitsAre(w, a, 12, 40, 64);
    Power12();
    Power40();
  }

  /** Page w of an address space shows frame number f. */
  ghost predicate ShowsFrame(mem: map<Frame, seq<Word>>, s: Frame, w: nat, f: nat) {
    Value(GetAddr(Leaf(mem, s, w))) == f * 0x1000
  }

  lemma EntryKeeps(a: Word, flags: Word)
    requires flags & PA_MASK == 0
    ensures Keeps(a, PA_MASK, GetAddr(LeafEntry(a, flags)))
  {
    LeafEntryHolds(a, flags);
  }

  /** Going around at 2^64 makes no difference to the frame. */
  lemma FrameAround(x: nat)
    ensures FrameOf(x % WRAP) == FrameOf(x)
  {
    var q, r := x / WRAP, x % WRAP;
    assert x == WRAP * q + r;
    assert x / 0x1000 == 0x10_0000_0000_0000 * q + r / 0x1000;
  }

  lemma FrameStep(v: nat, k: nat)
    ensures FrameOf(v + 0x1000 * k) == (v / 0x1000 + k) % 0x100_0000_0000
  {
    assert (v + 0x1000 * k) / 0x1000 == v / 0x1000 + k;
  }

  /** After mapping n pages from `first` on to physical memory from `paddr` on, page first + k shows the k-th frame. */
  lemma MappedFrame(t: State, t': State, s: Frame, paddr: Word, flags: Word, first: nat, n: nat, u: Frame, k: nat)
    requires Done(t, t', MapTo(paddr, flags), s, first, n) && first + n <= PAGES && k < n && flags & PA_MASK == 0
    requires u in t.spaces && (u == s || Index(first + k, 4) >= 256)
    ensures ShowsFrame(t'.mem, u, first + k, (Value(paddr) / 0x1000 + k) % 0x100_0000_0000)
  {
    DoneOnce(t, t', MapTo(paddr, flags), s, first, n, u, first + k);
    EntryFrame(paddr, k, flags);
  }

  lemma EntryFrame(paddr: Word, k: nat, flags: Word)
    requires flags & PA_MASK == 0
    ensures Value(GetAddr(LeafEntry(PageAddr(paddr, k), flags))) ==
            (Value(paddr) / 0x1000 + k) % 0x100_0000_0000 * 0x1000
  {
    var a := PageAddr(paddr, k);
    EntryKeeps(a, flags);
    FrameHere(paddr, k, a, GetAddr(LeafEntry(a, flags)));
  }

  lemma FrameHere(paddr: Word, k: nat, a: Word, e: Word)
    requires a == PageAddr(paddr, k) && Keeps(a, PA_MASK, e)
    ensures Value(e) == (Value(paddr) / 0x1000 + k) % 0x100_0000_0000 * 0x1000
  {
    AddressIs(a, e);
    PageAddrIs(paddr, k);
    FrameAround(Value(paddr) + 0x1000 * k);
    FrameStep(Value(paddr), k);
  }

  /** The pages from `first` on show consecutive frames. */
  ghost predicate Consecutive(mem: map<Frame, seq<Word>>, s: Frame, first: nat, n: nat, paddr: Word) {
    forall k: nat {:trigger ConsecutiveAt(mem, s, first, k, paddr)} | k < n :: ConsecutiveAt(mem, s, first, k, paddr)
  }

  ghost predicate ConsecutiveAt(mem: map<Frame, seq<Word>>, s: Frame, first: nat, k: nat, paddr: Word) {
    ShowsFrame(mem, s, first + k, (Value(paddr) / 0x1000 + k) % 0x100_0000_0000)
  }

  lemma MappedFrames(t: State, t': State, s: Frame, paddr: Word, flags: Word, first: nat, n: nat)
    requires s in t.spaces && Done(t, t', MapTo(paddr, flags), s, first, n) && first + n <= PAGES
             && flags & PA_MASK == 0
    ensures Consecutive(t'.mem, s, first, n, paddr)
  {
    forall k: nat | k < n ensures ConsecutiveAt(t'.mem, s, first, k, paddr) {
      MappedFrame(t, t', s, paddr, flags, first, n, s, k);
    }
  }

  /** Two pages of one mapping never share a frame. */
  lemma FramesApart(mem: map<Frame, seq<Word>>, s: Frame, first: nat, n: nat, paddr: Word, j: nat, k: nat)
    requires Consecutive(mem, s, first, n, paddr) && j < k < n <= PAGES
    ensures GetAddr(Leaf(mem, s, first + j)) != GetAddr(Leaf(mem, s, first + k))
  {
    assert ConsecutiveAt(mem, s, first, j, paddr) && ConsecutiveAt(mem, s, first, k, paddr);
    Remainders(Value(paddr) / 0x1000, j, k);
  }

  lemma Remainders(f: nat, j: nat, k: nat)
    requires j < k < j + 0x100_0000_0000
    ensures (f + j) % 0x100_0000_0000 != (f + k) % 0x100_0000_0000
  {
  }
}
