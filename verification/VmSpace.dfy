/** The address space of a process: its mappings, and its part of the page tables. */
module VmSpace {
  import opened Sizes
  import opened VmTree
  import opened VmPages
  import opened PtEntry
  import PtState
  import PtSteps
  import PageTables

  /** Panic is that of the kernel. */
  datatype Result = Fine | NotAligned | Panic

  /** What `handle_pfault` answers: whether the page is there now. */
  datatype FaultResult = Resolved | Unresolved | PanicOnFault

  class Space {
    const pmap: PageTables.Memory
    const root: Frame
    var tree: Tree
    var frames: Frames

    ghost predicate Valid()
      reads this, pmap
    {
      PtState.Ok(pmap.T()) && root in pmap.spaces && FramesOk(frames)
    }

    /** A process has nothing mapped at first, and nothing in the user half of its page map. */
    constructor (pmap: PageTables.Memory, root: Frame)
      requires PtState.Ok(pmap.T()) && root in pmap.spaces
      requires forall p: nat {:trigger PtState.Leaf(pmap.mem, root, p)} | p < USER_PAGES ::
                 PtState.Leaf(pmap.mem, root, p) == 0
      ensures Valid() && this.pmap == pmap && this.root == root && tree == {}
      ensures Backed(pmap.T(), root, tree, frames) && Enforced(pmap.T(), root, tree) && TreeOk(tree)
    {
      this.pmap, this.root, tree, frames := pmap, root, {}, map[];
    }

    // ----- unmapping and protecting

    /** The page map does its part for one mapping; it can fail only when it protects a page without a table. */
    method CallPageMap(kind: Kind, c: Call) returns (panicked: bool)
      requires Valid() && c.pages < MAX_PAGES
      modifies pmap
      ensures Valid() && PtSteps.SameTables(old(pmap.T()), pmap.T())
      ensures panicked ==> kind.Protecting? && !PtSteps.AllTables(old(pmap.mem), root, c.page, c.pages)
      ensures !panicked ==> PtSteps.Done(old(pmap.T()), pmap.T(), EditFor(kind), root, c.page, c.pages)
      ensures !panicked && kind.Protecting? ==> PtSteps.AllTables(old(pmap.mem), root, c.page, c.pages)
    {
      CallFits(c);
      var r;
      if kind == Unmapping {
        r := pmap.Unmap(root, c.page * PAGE_SIZE, c.pages * PAGE_SIZE);
      } else {
        ghost var k;
        r, k := pmap.Protect(root, c.page * PAGE_SIZE, c.pages * PAGE_SIZE, FlagsFor(kind.prot), WriteBack);
      }
      panicked := r != PageTables.Fine;
    }

    /** One mapping is erased, its pieces are put in, and the page map is called. */
    method Replace(kind: Kind, m: Mapping, s: nat, n: nat, ghost calls0: seq<Call>, ghost was: Tree, ghost hit: Tree,
                   ghost t: PtState.State)
      returns (panicked: bool, ghost calls: seq<Call>)
      requires Cutting(kind, was, hit, s, n) && tree == AllCut(kind, was, hit, s, n) && CalledFor(calls0, hit, s, n)
      requires m in was && m !in hit && HitOk(m, s, n) && (Sound(kind, s, n) || hit == {})
      requires Valid() && Followed(t, pmap.T(), root, kind, calls0)
      modifies this, pmap
      ensures Valid() && frames == old(frames)
      ensures panicked ==> kind.Protecting? && Missing(t, root, was, s, n)
      ensures !panicked ==> Cutting(kind, was, hit + {m}, s, n) && tree == AllCut(kind, was, hit + {m}, s, n)
      ensures !panicked ==> CalledFor(calls, hit + {m}, s, n) && Followed(t, pmap.T(), root, kind, calls)
    {
      CutOneMore(kind, was, hit, s, n, m);
      CallOneMore(calls0, hit, s, n, m);
      tree := Erase(tree, m);
      tree := tree + Cut(kind, m, s, n);
      ghost var before, c := pmap.T(), CallFor(m, s, n);
      panicked := CallPageMap(kind, CallFor(m, s, n));
      calls := calls0 + [c];
      if panicked {
        CallMisses(t, before, root, was, s, n, m);
      } else {
        FollowedMore(t, before, pmap.T(), root, kind, calls0, c);
      }
    }

    /** The body of the loop of both operations. */
    method EditOne(kind: Kind, m: Mapping, s: nat, n: nat, ghost calls0: seq<Call>, ghost was: Tree, ghost all: Tree,
                   ghost todo: Tree, ghost t: PtState.State)
      returns (panicked: bool, ghost calls: seq<Call>)
      requires Halfway(kind, was, tree, calls0, all, todo, s, n) && m in todo
      requires Valid() && Followed(t, pmap.T(), root, kind, calls0)
      modifies this, pmap
      ensures Valid() && frames == old(frames)
      ensures panicked ==> kind.Protecting? && Missing(t, root, was, s, n)
      ensures !panicked ==> Halfway(kind, was, tree, calls, all, todo - {m}, s, n)
      ensures !panicked ==> Followed(t, pmap.T(), root, kind, calls)
    {
      assert NonEmpty(m) && HitOk(m, s, n);
      if n <= s {
        OnlyOne(was, s, n, all, m);
      }
      MoveOver(all, todo, m);
      panicked, calls := Replace(kind, m, s, n, calls0, was, all - todo, t);
    }

    /** The loop of both operations, over the mappings that the range hits; the page map is called for each. */
    method Edit(kind: Kind, s: nat, n: nat) returns (panicked: bool, ghost calls: seq<Call>)
      requires Valid() && TreeOk(tree) && s < MAX_PAGES && (s <= n || kind == Unmapping)
      modifies this, pmap
      ensures Valid() && frames == old(frames)
      ensures panicked <==> kind.Protecting? && Missing(old(pmap.T()), root, old(tree), s, n)
      ensures !panicked ==> Edited(kind, old(tree), tree, calls, s, n)
      ensures !panicked ==> Sweeps(old(pmap.T()), pmap.T(), root, kind, calls)
    {
      ghost var was, t := tree, pmap.T();
      var overlapping := set m | m in tree && Hit(m, s, n);
      panicked, calls := false, [];
      var todo := overlapping;
      HalfwayStart(kind, was, overlapping, s, n);
      SweepsNothing(t, root, kind);
      while todo != {}
        invariant Halfway(kind, was, tree, calls, overlapping, todo, s, n) && frames == old(frames)
        invariant Valid() && Followed(t, pmap.T(), root, kind, calls)
        decreases |todo|
      {
        var m :| m in todo;
        panicked, calls := EditOne(kind, m, s, n, calls, was, overlapping, todo, t);
        if panicked {
          return;
        }
        todo := todo - {m};
      }
      EditDone(kind, was, tree, overlapping, calls, s, n);
      if kind.Protecting? {
        NotMissing(t, root, was, calls, s, n);
      }
    }

    /** `unmap`. When the end of the range does not fit 64 bits, it wraps around to before the start. */
    method Unmap(address: nat, length: nat) returns (r: Result, ghost calls: seq<Call>)
      requires Valid() && TreeOk(tree) && address < WRAP && length < WRAP
      modifies this, pmap
      ensures Valid() && frames == old(frames) && r != Panic
      ensures r == NotAligned <==> address % PAGE_SIZE != 0
      ensures r == NotAligned ==> tree == old(tree) && pmap.T() == old(pmap.T())
      ensures r == Fine ==> var s, n := address / PAGE_SIZE, EndPage(address, length);
                && Behaves(Unmapping, old(tree), tree, s, n)
                && (Behaves(Unmapping, old(tree), tree, s, PagesUpTo(address + length)) <==>
                      Fits(address + length) || Unaffected(Unmapping, old(tree), s, PagesUpTo(address + length)))
                && (TreeOk(tree) <==> s <= n || !AnyHit(old(tree), s, n))
                && (Fits(address + length) ==> s <= n == PagesUpTo(address + length))
                && Sweeps(old(pmap.T()), pmap.T(), root, Unmapping, calls)
                && (s <= n ==> CallsTouch(calls, old(tree), s, n))
                && (n < s ==> calls == if AnyHit(old(tree), s, n) then [Call(s, MAX_PAGES - (s - n))] else [])
      ensures Backed(old(pmap.T()), root, old(tree), frames) ==> Backed(pmap.T(), root, tree, frames)
      ensures Enforced(old(pmap.T()), root, old(tree)) ==> Enforced(pmap.T(), root, tree)
    {
      calls := [];
      if address % PAGE_SIZE != 0 {
        return NotAligned, [];
      }
      ghost var was, t := tree, pmap.T();
      EndFacts(address, length);
      var panicked;
      panicked, calls := Edit(Unmapping, address / PAGE_SIZE, EndPage(address, length));
      if !Fits(address + length) {
        FarMatters(Unmapping, was, tree, address / PAGE_SIZE, EndPage(address, length), PagesUpTo(address + length));
      }
      UnmapBacked(t, pmap.T(), root, was, tree, frames, calls, address / PAGE_SIZE, EndPage(address, length));
      r := Fine;
    }

    /** `protect`. It panics when there is no table for a page that it touches, as for a mapping that nobody has used
        yet. An empty range inside of a mapping leaves an empty mapping behind, and a length that cannot be rounded up
        in 64 bits makes the range empty. */
    method Protect(address: nat, length: nat, prot: nat) returns (r: Result, ghost calls: seq<Call>)
      requires Valid() && TreeOk(tree) && address < WRAP && length < WRAP
      modifies this, pmap
      ensures Valid() && frames == old(frames)
      ensures r == NotAligned <==> address % PAGE_SIZE != 0
      ensures r == NotAligned ==> tree == old(tree) && pmap.T() == old(pmap.T())
      ensures r != NotAligned ==>
                (r == Panic <==>
                  Missing(old(pmap.T()), root, old(tree), address / PAGE_SIZE, address / PAGE_SIZE + RoundUp(length)))
      ensures r == Fine ==> var s, n := address / PAGE_SIZE, address / PAGE_SIZE + RoundUp(length);
                && Behaves(Protecting(prot), old(tree), tree, s, n) && Disjoint(tree)
                && (Behaves(Protecting(prot), old(tree), tree, s, s + PagesUpTo(length)) <==>
                      Fits(length) || Unaffected(Protecting(prot), old(tree), s, s + PagesUpTo(length)))
                && (TreeOk(tree) <==> (0 < length && Fits(length)) || !AnyHit(old(tree), s, s))
                && (Fits(length) ==> n == s + PagesUpTo(length))
                && Sweeps(old(pmap.T()), pmap.T(), root, Protecting(prot), calls) && CallsTouch(calls, old(tree), s, n)
                && (Backed(old(pmap.T()), root, old(tree), frames) ==>
                      (Backed(pmap.T(), root, tree, frames) <==> Faulted(old(pmap.T()), root, old(tree), s, n)))
      ensures r == Fine && Low(old(tree)) && Enforced(old(pmap.T()), root, old(tree)) ==> Enforced(pmap.T(), root, tree)
    {
      calls := [];
      if address % PAGE_SIZE != 0 {
        return NotAligned, [];
      }
      ghost var was, t := tree, pmap.T();
      RoundFacts(length);
      var s := address / PAGE_SIZE;
      var panicked;
      panicked, calls := Edit(Protecting(prot), s, s + RoundUp(length));
      if panicked {
        return Panic, calls;
      }
      if !Fits(length) {
        FarMatters(Protecting(prot), was, tree, s, s, s + PagesUpTo(length));
      }
      ProtectAgrees(t, pmap.T(), root, was, tree, frames, calls, prot, s, s + RoundUp(length));
      r := Fine;
    }

    // ----- page faults

    /** The frame of an object page, which may be granted now; 0 is a refusal. */
    method GetPage(x: Page, granted: Word) returns (a: Word)
      requires FramesOk(frames) && (granted == 0 || FrameFits(granted))
      modifies `frames
      ensures FramesOk(frames) && a == FrameFor(old(frames), x, granted)
      ensures if a == 0 then frames == old(frames) else frames == old(frames)[x := a]
      ensures x in old(frames) ==> frames == old(frames) && a != 0
      ensures a != 0 ==> FrameFits(a)
    {
      if x in frames {
        assert frames == frames[x := frames[x]] && FrameFits(frames[x]);
        return frames[x];
      }
      if granted != 0 {
        ghost var was := frames;
        frames := frames[x := granted];
        forall y | y in frames ensures FrameFits(frames[y]) {
          assert y != x ==> FrameFits(was[y]);
        }
      }
      a := granted;
    }

    /** The end of `handle_pfault`: a page that is there already cannot be what the fault was about. */
    method MapIn(page: nat, a: Word, prot: nat) returns (r: FaultResult)
      requires Valid()
      modifies pmap
      ensures Valid() && (r == Unresolved ==> pmap.T() == old(pmap.T()))
      ensures a != 0 ==> (r == Unresolved <==> Already(old(pmap.T()), root, page, a))
      ensures r == PanicOnFault ==> pmap.pool == {}
      ensures r == Resolved ==> PtSteps.Done(old(pmap.T()), pmap.T(), PtSteps.MapTo(a, ArchFor(prot)), root, page, 1)
    {
      CallFits(Call(page, 1));
      if a != 0 {
        AddressThere(pmap.T(), root, page, a);
      }
      var there, addr := pmap.Translate(root, page * PAGE_SIZE);
      if there == PageTables.Fine && addr == a {
        return Unresolved;
      }
      var mapped := pmap.Map(root, page * PAGE_SIZE, a, PAGE_SIZE, FlagsFor(prot), WriteBack);
      r := if mapped == PageTables.Fine then Resolved else PanicOnFault;
    }

    /** The part of `handle_pfault` for a page that a mapping shows. */
    method Provide(page: nat, m: Mapping, granted: Word, ghost v: View) returns (r: FaultResult, ghost a: Word)
      requires Valid() && (granted == 0 || FrameFits(granted)) && ShowsAt(m, page, v) && Shows(tree, page, v)
      modifies this, pmap
      ensures Valid() && tree == old(tree) && a == FrameFor(old(frames), Page(v.obj, v.page), granted)
      ensures r == Unresolved <==> a == 0 || Already(old(pmap.T()), root, page, a)
      ensures r == PanicOnFault ==> pmap.pool == {}
      ensures r == Unresolved ==> pmap.T() == old(pmap.T()) && SameOrMore(old(frames), frames, Page(v.obj, v.page))
      ensures r == Resolved ==> Resolves(old(pmap.T()), pmap.T(), root, tree, old(frames), frames, page, v, a)
    {
      ghost var t, frames0 := pmap.T(), frames;
      var pg := GetPage(Page(m.obj, m.offsetp + (page - m.startp)), granted);
      a := pg;
      if pg == 0 {
        return Unresolved, a;
      }
      r := MapIn(page, pg, m.prot);
      if r == Resolved {
        FaultDone(t, pmap.T(), root, tree, frames0, frames, page, v, a);
      }
    }

    /** `handle_pfault` for a page that need not be copied: the frame of the object page goes into the page tables. */
    method Fault(page: nat, granted: Word) returns (r: FaultResult, ghost v: View, ghost a: Word)
      requires Valid() && TreeOk(tree) && Canonical(page) && (granted == 0 || FrameFits(granted))
      modifies this, pmap
      ensures Valid() && tree == old(tree)
      ensures r == Unresolved <==> Unhelpful(old(pmap.T()), root, tree, old(frames), page, granted)
      ensures r == PanicOnFault ==> pmap.pool == {}
      ensures r == Unresolved ==> pmap.T() == old(pmap.T())
      ensures r == Resolved ==> Resolves(old(pmap.T()), pmap.T(), root, tree, old(frames), frames, page, v, a)
      ensures r == Resolved ==> a == FrameFor(old(frames), Page(v.obj, v.page), granted)
      ensures r != PanicOnFault && Backed(old(pmap.T()), root, tree, old(frames)) ==>
              Backed(pmap.T(), root, tree, frames)
      ensures r != PanicOnFault && Enforced(old(pmap.T()), root, tree) ==> Enforced(pmap.T(), root, tree)
    {
      ghost var t, frames0 := pmap.T(), frames;
      if m :| m in tree && Covers(m, page) {
        v := View(m.obj, m.offsetp + (page - m.startp), m.prot, m.flags);
        assert ShowsAt(m, page, v) && Shows(tree, page, v);
        UnhelpfulIs(t, root, tree, frames, page, granted, v);
        r, a := Provide(page, m, granted, v);
        FaultAgrees(t, pmap.T(), root, tree, frames0, frames, page, v, a, r);
        return;
      }
      NothingShown(tree, page);
      r, v, a := Unresolved, View(0, 0, 0, 0), 0;
    }
  }

  /** The object has kept its frames, and may have got one for page x. */
  ghost predicate SameOrMore(frames: Frames, frames': Frames, x: Page) {
    frames' == frames || (x !in frames && x in frames' && frames' == frames[x := frames'[x]])
  }

  lemma FaultAgrees(t: PtState.State, t': PtState.State, s: Frame, tree: Tree, frames: Frames, frames': Frames,
                    page: nat, v: View, a: Word, r: FaultResult)
    requires TreeOk(tree) && Canonical(page)
    requires r == Unresolved ==> t' == t && SameOrMore(frames, frames', Page(v.obj, v.page))
    requires r == Resolved ==> Resolves(t, t', s, tree, frames, frames', page, v, a)
    ensures r != PanicOnFault && Backed(t, s, tree, frames) ==> Backed(t', s, tree, frames')
    ensures r != PanicOnFault && Enforced(t, s, tree) ==> Enforced(t', s, tree)
  {
    if r == Resolved {
      FaultBacked(t, t', s, tree, frames, frames', page, v, a);
    } else if r == Unresolved && frames' != frames {
      MoreFrames(t, s, tree, frames, frames', Page(v.obj, v.page), frames'[Page(v.obj, v.page)]);
    }
  }

  /** What an object gives for its page, which may be granted now. */
  function FrameFor(frames: Frames, x: Page, granted: Word): Word {
    if x in frames then frames[x] else granted
  }

  /** The page has been mapped to that frame before, at an address that `translate` lets pass. */
  ghost predicate Already(t: PtState.State, s: Frame, page: nat, a: Word) {
    GetAddr(PtState.Leaf(t.mem, s, page % PtState.PAGES)) == a && IsCanonical(a)
  }

  /** No mapping shows the page, or its object has no frame for it and gets none, or it is there already. */
  ghost predicate Unhelpful(t: PtState.State, s: Frame, tree: Tree, frames: Frames, page: nat, granted: Word) {
    forall v: View {:trigger Shows(tree, page, v)} | Shows(tree, page, v) ::
      var a := FrameFor(frames, Page(v.obj, v.page), granted); a == 0 || Already(t, s, page, a)
  }

  lemma UnhelpfulIs(t: PtState.State, s: Frame, tree: Tree, frames: Frames, page: nat, granted: Word, v: View)
    requires TreeOk(tree) && Shows(tree, page, v)
    ensures var a := FrameFor(frames, Page(v.obj, v.page), granted);
            Unhelpful(t, s, tree, frames, page, granted) <==> a == 0 || Already(t, s, page, a)
  {
    forall w: View | Shows(tree, page, w) ensures w == v {
      OneView(tree, page, v, w);
    }
  }

  /** An entry that is not there has address 0. */
  lemma AddressThere(t: PtState.State, s: Frame, page: nat, a: Word)
    requires a != 0
    ensures Already(t, s, page, a) <==>
            PtState.Walk(t.mem, s, 4, page % PtState.PAGES) != PtState.Nothing
            && GetAddr(PtState.Leaf(t.mem, s, page % PtState.PAGES)) == a && IsCanonical(a)
  {
    assert GetAddr(0) == 0;
  }

  lemma CallFits(c: Call)
    requires c.pages < MAX_PAGES
    ensures PageTables.Ends(c.pages * PAGE_SIZE) && PageTables.PagesIn(c.pages * PAGE_SIZE) == c.pages
    ensures c.page * PAGE_SIZE % 0x1000 == 0 && c.page * PAGE_SIZE / 0x1000 == c.page
  {
  }

  /** The page map has followed the calls. */
  ghost predicate Followed(t: PtState.State, t': PtState.State, s: Frame, kind: Kind, calls: seq<Call>) {
    PtState.Ok(t) && Sweeps(t, t', s, kind, calls) && (kind.Protecting? ==> NoneMissing(t, s, calls))
  }

  lemma FollowedMore(t: PtState.State, t': PtState.State, t'': PtState.State, s: Frame, kind: Kind, calls: seq<Call>,
                     c: Call)
    requires Followed(t, t', s, kind, calls) && PtState.Ok(t'') && PtSteps.SameTables(t', t'')
    requires PtSteps.Done(t', t'', EditFor(kind), s, c.page, c.pages)
    requires kind.Protecting? ==> PtSteps.AllTables(t'.mem, s, c.page, c.pages)
    ensures Followed(t, t'', s, kind, calls + [c])
  {
    SweepsMore(t, t', t'', s, kind, calls, c);
    if kind.Protecting? {
      NoneMissingMore(t, t', s, calls, c);
    }
  }

  lemma NotMissing(t: PtState.State, s: Frame, tree: Tree, calls: seq<Call>, a: nat, b: nat)
    requires NoneMissing(t, s, calls) && CallsTouch(calls, tree, a, b)
    ensures !Missing(t, s, tree, a, b)
  {
    forall p: nat | Touched(tree, a, b, p) ensures PtState.Walk(t.mem, s, 4, p % PtState.PAGES) != PtState.Nothing {
      assert Called(calls, p);
    }
  }

  lemma ProtectAgrees(t: PtState.State, t': PtState.State, s: Frame, tree: Tree, tree': Tree, frames: Frames,
                      calls: seq<Call>, prot: nat, a: nat, b: nat)
    requires Sweeps(t, t', s, Protecting(prot), calls) && Behaves(Protecting(prot), tree, tree', a, b)
    requires CallsTouch(calls, tree, a, b) && FramesOk(frames) && TreeOk(tree)
    ensures Backed(t, s, tree, frames) ==> (Backed(t', s, tree', frames) <==> Faulted(t, s, tree, a, b))
    ensures Low(tree) && Enforced(t, s, tree) ==> Enforced(t', s, tree')
  {
    if Backed(t, s, tree, frames) {
      ProtectBacked(t, t', s, tree, tree', frames, calls, prot, a, b);
    }
    if Low(tree) && Enforced(t, s, tree) {
      ProtectEnforced(t, t', s, tree, tree', calls, prot, a, b);
    }
  }

  /** An object that gets one more frame. */
  lemma MoreFrames(t: PtState.State, s: Frame, tree: Tree, frames: Frames, frames': Frames, x: Page, a: Word)
    requires frames' == frames[x := a] && (x in frames ==> frames' == frames)
    ensures Backed(t, s, tree, frames) ==> Backed(t, s, tree, frames')
  {
    forall p: nat, e: Word | Holds(tree, frames, p, e) ensures Holds(tree, frames', p, e) {
      var v: View :| Shows(tree, p, v) && Page(v.obj, v.page) in frames && GetAddr(e) == frames[Page(v.obj, v.page)];
    }
  }

  lemma FaultDone(t: PtState.State, t': PtState.State, s: Frame, tree: Tree, frames: Frames, frames': Frames, page: nat,
                  v: View, a: Word)
    requires PtSteps.Done(t, t', PtSteps.MapTo(a, ArchFor(v.prot)), s, page, 1) && s in t.spaces
    requires Shows(tree, page, v) && FrameFits(a) && frames' == frames[Page(v.obj, v.page) := a]
    requires Page(v.obj, v.page) in frames ==> frames' == frames
    ensures Resolves(t, t', s, tree, frames, frames', page, v, a)
  {
    forall w: nat | w < PtState.PAGES
      ensures PtState.Leaf(t'.mem, s, w) ==
              if w == page % PtState.PAGES then LeafEntry(a, ArchFor(v.prot)) else PtState.Leaf(t.mem, s, w)
    {
      MappedOnce(t, t', s, page, a, ArchFor(v.prot), w);
    }
  }

  lemma NothingShown(tree: Tree, page: nat)
    requires forall m | m in tree :: !Covers(m, page)
    ensures forall w: View {:trigger Shows(tree, page, w)} :: !Shows(tree, page, w)
  {
  }
}
