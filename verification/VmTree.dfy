/** The mappings of a process as a set, and what unmapping and protecting ranges of pages does to them. */
module VmTree {
  import opened Sizes

  /** There are 2^52 pages. */
  const MAX_PAGES: nat := 0x10_0000_0000_0000

  /** Pages startp to before endp show the pages of an object from offsetp on. */
  datatype Mapping = Mapping(startp: nat, endp: nat, obj: nat, offsetp: int, prot: nat, flags: nat)

  type Tree = set<Mapping>

  predicate Untouchable(flags: nat) {
    flags / 0x40 % 2 == 1
  }

  /** That is flag 0x40 of those below 0x80. */
  lemma UntouchableBit(flags: nat)
    ensures Untouchable(flags) <==> 0x40 <= flags % 0x80
  {
    assert flags / 0x40 == flags / 0x80 * 2 + flags % 0x80 / 0x40;
  }

  /** What a process sees at a page. */
  datatype View = View(obj: nat, page: int, prot: nat, flags: nat)

  predicate Covers(m: Mapping, p: nat) {
    m.startp <= p < m.endp
  }

  predicate ShowsAt(m: Mapping, p: nat, v: View) {
    Covers(m, p) && v == View(m.obj, m.offsetp + (p - m.startp), m.prot, m.flags)
  }

  ghost predicate Shows(t: Tree, p: nat, v: View) {
    exists m {:trigger ShowsAt(m, p, v)} :: m in t && ShowsAt(m, p, v)
  }

  predicate Apart(a: Mapping, b: Mapping) {
    a == b || a.endp <= b.startp || b.endp <= a.startp
  }

  ghost predicate Disjoint(t: Tree) {
    forall a, b {:trigger Apart(a, b)} | a in t && b in t :: Apart(a, b)
  }

  predicate NonEmpty(m: Mapping) {
    m.startp < m.endp < MAX_PAGES
  }

  /** Disjoint mappings, none of them empty, below the top of the address space. */
  ghost predicate TreeOk(t: Tree) {
    Disjoint(t) && forall m {:trigger NonEmpty(m)} | m in t :: NonEmpty(m)
  }

  /** A page shows at most one thing. */
  lemma OneView(t: Tree, p: nat, v: View, w: View)
    requires TreeOk(t) && Shows(t, p, v) && Shows(t, p, w)
    ensures v == w
  {
    var m :| m in t && ShowsAt(m, p, v);
    var n :| n in t && ShowsAt(n, p, w);
    assert Apart(m, n);
  }

  /** The multiset of mappings is ordered by startp, and erasing goes by that. */
  function Erase(t: Tree, m: Mapping): Tree {
    set x | x in t && x.startp != m.startp
  }

  lemma EraseOne(t: Tree, m: Mapping)
    requires TreeOk(t) && m in t
    ensures Erase(t, m) == t - {m}
  {
    forall x | x in t && x.startp == m.startp ensures x == m {
      assert Apart(x, m) && NonEmpty(x) && NonEmpty(m);
    }
  }

  // ----- cutting a range out of mappings

  datatype Kind = Unmapping | Protecting(prot: nat)

  predicate Hit(m: Mapping, s: nat, n: nat) {
    s < m.endp && m.startp < n && !Untouchable(m.flags)
  }

  function Min(a: nat, b: nat): nat { if a < b then a else b }

  function Max(a: nat, b: nat): nat { if a < b then b else a }

  function HeadOf(m: Mapping, s: nat): nat { if s > m.startp then s - m.startp else 0 }

  function TailOf(m: Mapping, n: nat): nat { if n < m.endp then m.endp - n else 0 }

  /** What a mapping that the pages from s to before n hit is replaced by. */
  function Cut(kind: Kind, m: Mapping, s: nat, n: nat): set<Mapping> {
    var headp, tailp := HeadOf(m, s), TailOf(m, n);
    (if headp != 0 then {m.(endp := m.startp + headp)} else {})
    + (if tailp != 0 then {m.(startp := m.endp - tailp, offsetp := m.offsetp + (m.endp - m.startp) - tailp)} else {})
    + match kind
      case Unmapping => {}
      case Protecting(prot) =>
        {Mapping(Max(s, m.startp), Min(n, m.endp), m.obj, m.offsetp + headp, prot, m.flags)}
  }

  /** The pieces are disjoint and not empty. */
  predicate Sound(kind: Kind, s: nat, n: nat) {
    s < n || (s == n && kind == Unmapping)
  }

  lemma CutOk(kind: Kind, m: Mapping, s: nat, n: nat)
    requires Hit(m, s, n) && NonEmpty(m) && (s <= n || kind == Unmapping)
    ensures forall x {:trigger x in Cut(kind, m, s, n)} | x in Cut(kind, m, s, n) ::
              m.startp <= x.startp <= x.endp <= m.endp
    ensures Disjoint(Cut(kind, m, s, n)) <==> s <= n
    ensures Sound(kind, s, n) ==> forall x {:trigger NonEmpty(x)} | x in Cut(kind, m, s, n) :: NonEmpty(x)
  {
    if n < s {
      var head, tail := m.(endp := s), m.(startp := n, offsetp := m.offsetp + (m.endp - m.startp) - (m.endp - n));
      assert head in Cut(kind, m, s, n) && tail in Cut(kind, m, s, n) && !Apart(head, tail);
    }
  }

  /** The pieces show what the mapping showed, outside of the range; inside, nothing, or the same with another
      protection. A range that ends before it starts has no inside. */
  lemma CutShows(kind: Kind, m: Mapping, s: nat, n: nat, p: nat, v: View)
    requires Hit(m, s, n) && NonEmpty(m) && (s <= n || kind == Unmapping)
    ensures Shows(Cut(kind, m, s, n), p, v) <==>
            if !(s <= p < n) then ShowsAt(m, p, v)
            else kind != Unmapping && v.prot == kind.prot && ShowsAt(m, p, v.(prot := m.prot))
  {
    var c := Cut(kind, m, s, n);
    if Covers(m, p) {
      var headp, tailp := HeadOf(m, s), TailOf(m, n);
      var x := if p < s then m.(endp := m.startp + headp)
               else if n <= p then m.(startp := m.endp - tailp, offsetp := m.offsetp + (m.endp - m.startp) - tailp)
               else if kind == Unmapping then m
               else Mapping(Max(s, m.startp), Min(n, m.endp), m.obj, m.offsetp + headp, kind.prot, m.flags);
      if s <= p < n && kind == Unmapping {
      } else {
        assert x in c && Covers(x, p);
        assert Shows(c, p, v) <== ShowsAt(x, p, v);
      }
      forall y | y in c && ShowsAt(y, p, v) ensures !(s <= p < n && kind == Unmapping) && ShowsAt(x, p, v) {
      }
    }
  }

  ghost predicate HitOk(m: Mapping, s: nat, n: nat) {
    Hit(m, s, n) && NonEmpty(m)
  }

  /** The mappings in `hit` are to be cut. */
  ghost predicate Cutting(kind: Kind, t: Tree, hit: Tree, s: nat, n: nat) {
    && TreeOk(t) && hit <= t && (s <= n || kind == Unmapping)
    && forall m {:trigger HitOk(m, s, n)} | m in hit :: HitOk(m, s, n)
  }

  ghost predicate PieceOf(kind: Kind, hit: Tree, s: nat, n: nat, m: Mapping, x: Mapping) {
    m in hit && x in Cut(kind, m, s, n)
  }

  /** The tree when they have been cut. */
  ghost function AllCut(kind: Kind, t: Tree, hit: Tree, s: nat, n: nat): Tree {
    (t - hit) + set m, x | m in hit && x in Cut(kind, m, s, n) :: x
  }

  /** The mapping that a piece was cut from. */
  lemma Whole(kind: Kind, t: Tree, hit: Tree, s: nat, n: nat, a: Mapping) returns (m: Mapping)
    requires Cutting(kind, t, hit, s, n) && a in AllCut(kind, t, hit, s, n)
    ensures m in t && (m == a || PieceOf(kind, hit, s, n, m, a)) && (m in hit <==> PieceOf(kind, hit, s, n, m, a))
    ensures m.startp <= a.startp <= a.endp <= m.endp && (Sound(kind, s, n) || hit == {} ==> NonEmpty(a))
  {
    if a in t - hit {
      m := a;
      assert NonEmpty(m);
    } else {
      m :| m in hit && a in Cut(kind, m, s, n);
      assert HitOk(m, s, n);
      CutOk(kind, m, s, n);
    }
  }

  lemma CutsApart(kind: Kind, t: Tree, hit: Tree, s: nat, n: nat, a: Mapping, b: Mapping)
    requires Cutting(kind, t, hit, s, n) && (s <= n || hit == {})
    requires a in AllCut(kind, t, hit, s, n) && b in AllCut(kind, t, hit, s, n)
    ensures Apart(a, b)
  {
    var x := Whole(kind, t, hit, s, n, a);
    var y := Whole(kind, t, hit, s, n, b);
    assert Apart(x, y);
    if x == y && x in hit {
      assert HitOk(x, s, n);
      CutOk(kind, x, s, n);
    }
  }

  /** Cutting keeps the mappings disjoint unless the range ends before it starts, and makes an empty one only by
      protecting an empty range. */
  lemma CutsOk(kind: Kind, t: Tree, hit: Tree, s: nat, n: nat)
    requires Cutting(kind, t, hit, s, n)
    ensures Disjoint(AllCut(kind, t, hit, s, n)) <==> s <= n || hit == {}
    ensures TreeOk(AllCut(kind, t, hit, s, n)) <==> Sound(kind, s, n) || hit == {}
  {
    var t' := AllCut(kind, t, hit, s, n);
    forall a, b | a in t' && b in t' && (s <= n || hit == {}) ensures Apart(a, b) {
      CutsApart(kind, t, hit, s, n, a, b);
    }
    forall a | a in t' && (Sound(kind, s, n) || hit == {}) ensures NonEmpty(a) {
      var x := Whole(kind, t, hit, s, n, a);
    }
    if !Sound(kind, s, n) && hit != {} {
      var m :| m in hit;
      assert HitOk(m, s, n);
      CutOk(kind, m, s, n);
      if s == n {
        var x := Mapping(s, s, m.obj, m.offsetp + HeadOf(m, s), kind.prot, m.flags);
        assert x in Cut(kind, m, s, n) && x in t' && !NonEmpty(x);
      } else {
        assert Cut(kind, m, s, n) <= t';
        var a, b :| a in Cut(kind, m, s, n) && b in Cut(kind, m, s, n) && !Apart(a, b);
      }
    }
  }

  /** Erasing one more mapping and putting in its pieces. */
  lemma CutOneMore(kind: Kind, t: Tree, hit: Tree, s: nat, n: nat, m: Mapping)
    requires Cutting(kind, t, hit, s, n) && m in t && m !in hit && HitOk(m, s, n)
    requires Sound(kind, s, n) || hit == {}
    ensures Cutting(kind, t, hit + {m}, s, n)
    ensures AllCut(kind, t, hit + {m}, s, n) == Erase(AllCut(kind, t, hit, s, n), m) + Cut(kind, m, s, n)
  {
    var now, next := AllCut(kind, t, hit, s, n), AllCut(kind, t, hit + {m}, s, n);
    CutsOk(kind, t, hit, s, n);
    EraseOne(now, m);
    forall x | x in now && x != m ensures x in next {
      var y := Whole(kind, t, hit, s, n, x);
    }
    forall x | x in next ensures x in (now - {m}) + Cut(kind, m, s, n) {
      if x in t - (hit + {m}) {
      } else {
        var y :| y in hit + {m} && x in Cut(kind, y, s, n);
        if y != m {
          assert HitOk(y, s, n) && Apart(y, m);
          CutOk(kind, y, s, n);
        }
      }
    }
  }

  /** What page p shall show after the operation: outside of the range, and where it must not be touched, what it
      showed; inside, nothing, or the same with the new protection. */
  ghost predicate Expected(kind: Kind, t: Tree, s: nat, n: nat, p: nat, v: View) {
    if !(s <= p < n) || Untouchable(v.flags) then Shows(t, p, v)
    else kind != Unmapping && v.prot == kind.prot && exists prot: nat :: Shows(t, p, v.(prot := prot))
  }

  ghost predicate CuttingAll(kind: Kind, t: Tree, hit: Tree, s: nat, n: nat) {
    Cutting(kind, t, hit, s, n) && forall m {:trigger Hit(m, s, n)} | m in t && Hit(m, s, n) :: m in hit
  }

  lemma CutsShowNoMore(kind: Kind, t: Tree, hit: Tree, s: nat, n: nat, p: nat, v: View)
    requires CuttingAll(kind, t, hit, s, n) && Shows(AllCut(kind, t, hit, s, n), p, v)
    ensures Expected(kind, t, s, n, p, v)
  {
    var x :| x in AllCut(kind, t, hit, s, n) && ShowsAt(x, p, v);
    if x in t - hit {
      assert Hit(x, s, n) ==> x in hit;
      assert Shows(t, p, v);
    } else {
      var m :| m in hit && x in Cut(kind, m, s, n);
      assert HitOk(m, s, n);
      CutShows(kind, m, s, n, p, v);
      assert Shows(Cut(kind, m, s, n), p, v);
      if !(s <= p < n) {
        assert ShowsAt(m, p, v);
      } else {
        assert ShowsAt(m, p, v.(prot := m.prot));
        assert Shows(t, p, v.(prot := m.prot));
      }
    }
  }

  lemma CutsShowAll(kind: Kind, t: Tree, hit: Tree, s: nat, n: nat, p: nat, v: View)
    requires CuttingAll(kind, t, hit, s, n) && Expected(kind, t, s, n, p, v)
    ensures Shows(AllCut(kind, t, hit, s, n), p, v)
  {
    var t' := AllCut(kind, t, hit, s, n);
    var w := v;
    if s <= p < n && !Untouchable(v.flags) {
      var prot: nat :| Shows(t, p, v.(prot := prot));
      w := v.(prot := prot);
    }
    var m :| m in t && ShowsAt(m, p, w);
    if m in hit {
      assert HitOk(m, s, n);
      CutShows(kind, m, s, n, p, v);
      var x :| x in Cut(kind, m, s, n) && ShowsAt(x, p, v);
      assert x in t';
    } else {
      assert !Hit(m, s, n);
      assert m in t' && w == v;
    }
  }

  // ----- 64-bit ends of ranges

  /** `div_roundup` to pages. */
  function RoundUp(x: nat): nat {
    (x + (PAGE_SIZE - 1)) % WRAP / PAGE_SIZE
  }

  /** The page behind the range, as `unmap` computes it. */
  function EndPage(address: nat, length: nat): nat {
    RoundUp((address + length) % WRAP)
  }

  /** The same without a limit. */
  function PagesUpTo(x: nat): nat {
    (x + (PAGE_SIZE - 1)) / PAGE_SIZE
  }

  /** As many pages as are needed, and not one more. */
  lemma PagesCover(x: nat)
    ensures x <= PAGE_SIZE * PagesUpTo(x) < x + PAGE_SIZE
  {
  }

  /** Neither the sum nor the rounding wraps around. */
  predicate Fits(x: nat) {
    x + (PAGE_SIZE - 1) < WRAP
  }

  lemma RoundFacts(x: nat)
    requires x < WRAP
    ensures if Fits(x) then RoundUp(x) == PagesUpTo(x) else RoundUp(x) == 0
    ensures RoundUp(x) == 0 <==> x == 0 || !Fits(x)
  {
  }

  lemma EndFacts(address: nat, length: nat)
    requires address < WRAP && length < WRAP && address % PAGE_SIZE == 0
    ensures address / PAGE_SIZE < MAX_PAGES
    ensures Fits(address + length) ==> address / PAGE_SIZE <= EndPage(address, length) == PagesUpTo(address + length)
    ensures !Fits(address + length) ==>
              EndPage(address, length) <= address / PAGE_SIZE <= PagesUpTo(address + length)
  {
    if address + length >= WRAP {
      assert (address + length) % WRAP == address + length - WRAP;
    }
  }

  /** Whether the tree shows what it shall after the pages from s to before n have been changed. */
  ghost predicate Behaves(kind: Kind, t: Tree, t': Tree, s: nat, n: nat) {
    forall p: nat, v: View {:trigger Shows(t', p, v)} :: Shows(t', p, v) <==> Expected(kind, t, s, n, p, v)
  }

  /** No page of the range shows anything that was to change. */
  ghost predicate Unaffected(kind: Kind, t: Tree, s: nat, n: nat) {
    forall m, p: nat {:trigger Covers(m, p)} | m in t && Covers(m, p) && s <= p < n && !Untouchable(m.flags) ::
      kind == Protecting(m.prot)
  }

  /** When the range came out empty, all is as it was; that is right only if there was nothing to change. */
  lemma FarMatters(kind: Kind, t: Tree, t': Tree, s: nat, n: nat, far: nat)
    requires TreeOk(t) && Behaves(kind, t, t', s, n) && n <= s
    ensures Behaves(kind, t, t', s, far) <==> Unaffected(kind, t, s, far)
  {
    forall m, p: nat | m in t && Covers(m, p) && s <= p < far && !Untouchable(m.flags) && Behaves(kind, t, t', s, far)
      ensures kind == Protecting(m.prot)
    {
      var v := View(m.obj, m.offsetp + (p - m.startp), m.prot, m.flags);
      assert ShowsAt(m, p, v) && Shows(t, p, v);
      assert Shows(t', p, v) <==> Expected(kind, t, s, n, p, v);
    }
    if Unaffected(kind, t, s, far) {
      forall p: nat, v: View ensures Shows(t', p, v) <==> Expected(kind, t, s, far, p, v) {
        assert Shows(t', p, v) <==> Expected(kind, t, s, n, p, v);
        UnaffectedAt(kind, t, s, far, p, v);
      }
    }
  }

  lemma UnaffectedAt(kind: Kind, t: Tree, s: nat, n: nat, p: nat, v: View)
    requires Unaffected(kind, t, s, n)
    ensures Expected(kind, t, s, n, p, v) <==> Shows(t, p, v)
  {
    if s <= p < n && !Untouchable(v.flags) {
      if Shows(t, p, v) {
        var m :| m in t && ShowsAt(m, p, v);
        assert v == v.(prot := v.prot);
      }
      if Expected(kind, t, s, n, p, v) {
        var prot: nat :| Shows(t, p, v.(prot := prot));
        var m :| m in t && ShowsAt(m, p, v.(prot := prot));
        assert Covers(m, p) && v == v.(prot := prot);
      }
    }
  }

  /** The mapping of pages 1 to 9, whose tail is unmapped with a length that wraps around: the pieces overlap. */
  lemma UnmapWraps(m: Mapping)
    requires m.startp == 1 && m.endp == 10 && !Untouchable(m.flags)
    ensures EndPage(0x5000, WRAP - 0x3000) == 2
    ensures TreeOk({m}) && !Disjoint(AllCut(Unmapping, {m}, {m}, 5, 2))
  {
    assert HitOk(m, 5, 2);
    CutsOk(Unmapping, {m}, {m}, 5, 2);
  }

  /** The same mapping, protected from page 5 on with the greatest length, or with none. */
  lemma ProtectWraps(m: Mapping, prot: nat)
    requires m.startp == 1 && m.endp == 10 && !Untouchable(m.flags)
    ensures RoundUp(WRAP - 1) == RoundUp(0) == 0
    ensures TreeOk({m}) && !TreeOk(AllCut(Protecting(prot), {m}, {m}, 5, 5))
  {
    assert HitOk(m, 5, 5);
    CutsOk(Protecting(prot), {m}, {m}, 5, 5);
  }

  // ----- bookkeeping of the loop

  /** The mapping has pages in the range that may be touched, or the whole of a range that ends before it starts. */
  ghost predicate AnyHit(t: Tree, s: nat, n: nat) {
    exists m {:trigger Hit(m, s, n)} :: m in t && Hit(m, s, n)
  }

  lemma MoveOver<T>(all: set<T>, todo: set<T>, x: T)
    requires todo <= all && x in todo
    ensures all - (todo - {x}) == (all - todo) + {x}
  {
  }

  /** At most one mapping reaches to both sides. */
  lemma OnlyOne(t: Tree, s: nat, n: nat, hit: Tree, m: Mapping)
    requires TreeOk(t) && n <= s && m in hit && hit == set x | x in t && Hit(x, s, n)
    ensures hit == {m}
  {
    forall x | x in hit ensures x == m {
      assert Apart(x, m);
    }
  }

  /** A call of the page map, in pages; a negative number of bytes wraps around. */
  datatype Call = Call(page: nat, pages: nat)

  function CallFor(m: Mapping, s: nat, n: nat): Call {
    Call(Max(s, m.startp), (Min(n, m.endp) + MAX_PAGES - Max(s, m.startp)) % MAX_PAGES)
  }

  predicate InCall(c: Call, p: nat) {
    c.page <= p < c.page + c.pages
  }

  ghost predicate Called(calls: seq<Call>, p: nat) {
    exists k {:trigger InCall(calls[k], p)} :: 0 <= k < |calls| && InCall(calls[k], p)
  }

  ghost predicate Touched(t: Tree, s: nat, n: nat, p: nat) {
    s <= p < n && exists m {:trigger Covers(m, p)} :: m in t && Covers(m, p) && !Untouchable(m.flags)
  }

  ghost predicate CalledFor(calls: seq<Call>, hit: Tree, s: nat, n: nat) {
    && |calls| == |hit| && s < MAX_PAGES
    && (s <= n ==> forall p: nat {:trigger Called(calls, p)} :: Called(calls, p) <==> Touched(hit, s, n, p))
    && (n < s ==> forall k {:trigger calls[k]} | 0 <= k < |calls| :: calls[k] == Call(s, MAX_PAGES - (s - n)))
  }

  lemma CallOneMore(calls: seq<Call>, hit: Tree, s: nat, n: nat, m: Mapping)
    requires CalledFor(calls, hit, s, n) && HitOk(m, s, n) && m !in hit && s < MAX_PAGES
    ensures CalledFor(calls + [CallFor(m, s, n)], hit + {m}, s, n)
  {
    var c := CallFor(m, s, n);
    if s <= n {
      forall p: nat ensures Called(calls + [c], p) <==> Touched(hit + {m}, s, n, p) {
        CalledAt(calls, hit, s, n, m, p);
      }
    }
  }

  lemma InCallIs(m: Mapping, s: nat, n: nat, p: nat)
    requires HitOk(m, s, n) && s <= n && s < MAX_PAGES
    ensures InCall(CallFor(m, s, n), p) <==> s <= p < n && Covers(m, p)
  {
  }

  lemma CalledAt(calls: seq<Call>, hit: Tree, s: nat, n: nat, m: Mapping, p: nat)
    requires CalledFor(calls, hit, s, n) && HitOk(m, s, n) && s <= n && s < MAX_PAGES
    ensures Called(calls + [CallFor(m, s, n)], p) <==> Touched(hit + {m}, s, n, p)
  {
    var c := CallFor(m, s, n);
    var all := calls + [c];
    InCallIs(m, s, n, p);
    if Called(all, p) {
      var k :| 0 <= k < |all| && InCall(all[k], p);
      assert k < |calls| ==> InCall(calls[k], p) && Called(calls, p);
    }
    if Touched(hit + {m}, s, n, p) {
      var x :| x in hit + {m} && Covers(x, p) && !Untouchable(x.flags);
      if x == m {
        assert InCall(all[|calls|], p);
      } else {
        assert Called(calls, p);
        var k :| 0 <= k < |calls| && InCall(calls[k], p);
        assert InCall(all[k], p);
      }
    }
  }

  lemma CallsAre(calls: seq<Call>, t: Tree, hit: Tree, s: nat, n: nat)
    requires TreeOk(t) && CalledFor(calls, hit, s, n) && hit == set m | m in t && Hit(m, s, n)
    ensures s <= n ==> forall p: nat {:trigger Called(calls, p)} :: Called(calls, p) <==> Touched(t, s, n, p)
    ensures n < s ==> calls == if AnyHit(t, s, n) then [Call(s, MAX_PAGES - (s - n))] else []
    ensures hit == {} <==> !AnyHit(t, s, n)
  {
    assert forall m {:trigger Hit(m, s, n)} | m in t && Hit(m, s, n) :: m in hit;
    if m :| m in hit {
      assert Hit(m, s, n);
      if n < s {
        OnlyOne(t, s, n, hit, m);
      }
    }
    forall p: nat | s <= n ensures Called(calls, p) <==> Touched(t, s, n, p) {
      if Touched(t, s, n, p) {
        var m :| m in t && Covers(m, p) && !Untouchable(m.flags);
        assert Hit(m, s, n);
      }
    }
  }

  /** What is left when the loop has ended. */
  ghost predicate Edited(kind: Kind, t: Tree, t': Tree, calls: seq<Call>, s: nat, n: nat) {
    && Behaves(kind, t, t', s, n) && s < MAX_PAGES
    && (Disjoint(t') <==> s <= n || !AnyHit(t, s, n))
    && (TreeOk(t') <==> Sound(kind, s, n) || !AnyHit(t, s, n))
    && (s <= n ==> forall p: nat {:trigger Called(calls, p)} :: Called(calls, p) <==> Touched(t, s, n, p))
    && (n < s ==> calls == if AnyHit(t, s, n) then [Call(s, MAX_PAGES - (s - n))] else [])
  }

  /** Of the mappings that the range hits, those in `todo` are still to be cut. */
  ghost predicate Halfway(kind: Kind, t: Tree, t': Tree, calls: seq<Call>, hit: Tree, todo: Tree, s: nat, n: nat) {
    && todo <= hit && hit == (set m | m in t && Hit(m, s, n)) && (n <= s ==> todo == {} || todo == hit)
    && Cutting(kind, t, hit - todo, s, n) && t' == AllCut(kind, t, hit - todo, s, n)
    && CalledFor(calls, hit - todo, s, n)
  }

  lemma HalfwayStart(kind: Kind, t: Tree, hit: Tree, s: nat, n: nat)
    requires TreeOk(t) && s < MAX_PAGES && (s <= n || kind == Unmapping) && hit == set m | m in t && Hit(m, s, n)
    ensures Halfway(kind, t, t, [], hit, hit, s, n)
  {
    assert hit - hit == {};
    assert AllCut(kind, t, {}, s, n) == t;
  }

  lemma EditDone(kind: Kind, t: Tree, t': Tree, hit: Tree, calls: seq<Call>, s: nat, n: nat)
    requires Halfway(kind, t, t', calls, hit, {}, s, n)
    ensures Edited(kind, t, t', calls, s, n)
  {
    assert hit - {} == hit;
    CutsOk(kind, t, hit, s, n);
    Finish(kind, t, hit, s, n);
    CallsAre(calls, t, hit, s, n);
  }

  lemma Finish(kind: Kind, t: Tree, hit: Tree, s: nat, n: nat)
    requires Cutting(kind, t, hit, s, n) && hit == set m | m in t && Hit(m, s, n)
    ensures Behaves(kind, t, AllCut(kind, t, hit, s, n), s, n)
  {
    forall p: nat, v: View
      ensures Shows(AllCut(kind, t, hit, s, n), p, v) <==> Expected(kind, t, s, n, p, v)
    {
      if Shows(AllCut(kind, t, hit, s, n), p, v) {
        CutsShowNoMore(kind, t, hit, s, n, p, v);
      }
      if Expected(kind, t, s, n, p, v) {
        CutsShowAll(kind, t, hit, s, n, p, v);
      }
    }
  }
}
