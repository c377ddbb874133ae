/** What the operations on the mappings of a process do to its page tables, and whether the two agree afterwards. */
module VmPages {
  import opened VmTree
  import opened PtEntry
  import opened PtState
  import PtSteps
  import PtSpaces
  import PtAccess

  /** The user half of an address space. */
  const USER_PAGES: nat := 0x8_0000_0000

  /** Page idx of an object. */
  datatype Page = Page(obj: nat, idx: int)

  /** The frames that the objects have for their pages. */
  type Frames = map<Page, Word>

  ghost predicate FrameFits(a: Word) {
    a != 0 && a & PA_MASK == a
  }

  ghost predicate FramesOk(frames: Frames) {
    forall x {:trigger frames[x]} | x in frames :: FrameFits(frames[x])
  }

  function FlagsFor(prot: nat): Pflags {
    Pflags(prot % 2 == 1, prot / 2 % 2 == 1, prot / 4 % 2 == 1, true, false)
  }

  function ArchFor(prot: nat): Word {
    ToArch(FlagsFor(prot), WriteBack)
  }

  /** What the page map is asked to do for a part of a mapping. */
  function EditFor(kind: Kind): PtSteps.Edit {
    match kind
    case Unmapping => PtSteps.Clear
    case Protecting(prot) => PtSteps.Edit.Protect(ArchFor(prot))
  }

  /** What becomes of an entry that is edited, however often. */
  function Swept(kind: Kind, e: Word): Word {
    match kind
    case Unmapping => 0
    case Protecting(prot) => Reflagged(e, ArchFor(prot))
  }

  lemma ReflaggedFor(e: Word, prot: nat)
    ensures GetAddr(Reflagged(e, ArchFor(prot))) == GetAddr(e) && GetFlags(Reflagged(e, ArchFor(prot))) == ArchFor(prot)
    ensures Reflagged(Reflagged(e, ArchFor(prot)), ArchFor(prot)) == Reflagged(e, ArchFor(prot))
    ensures Reflagged(e, ArchFor(prot)) != 0
  {
    ArchRoundTrip(FlagsFor(prot), WriteBack);
    ReflaggedKeepsAddr(e, ArchFor(prot));
    assert FromArch(0).0 != FlagsFor(prot);
    assert GetFlags(0) == 0;
  }

  // ----- the entries that are reached

  ghost predicate Reached(first: nat, n: nat, w: nat) {
    exists k: nat {:trigger PtSteps.Hits(first, k, w)} :: k < n && PtSteps.Hits(first, k, w)
  }

  lemma {:induction false} EditedIs(kind: Kind, first: nat, n: nat, w: nat, e: Word)
    ensures PtSteps.Edited(EditFor(kind), first, n, w, e) == if Reached(first, n, w) then Swept(kind, e) else e
  {
    if n != 0 {
      EditedIs(kind, first, n - 1, w, e);
      assert Reached(first, n, w) <==> Reached(first, n - 1, w) || PtSteps.Hits(first, n - 1, w);
      if kind.Protecting? {
        ReflaggedFor(e, kind.prot);
      }
    }
  }

  /** One of the calls was about a page with the entry of page w. */
  ghost predicate Aliased(calls: seq<Call>, w: nat) {
    exists p: nat {:trigger Called(calls, p)} :: Called(calls, p) && p % PAGES == w
  }

  lemma CalledMore(calls: seq<Call>, c: Call, p: nat)
    ensures Called(calls + [c], p) <==> Called(calls, p) || InCall(c, p)
  {
    var all := calls + [c];
    if Called(calls, p) {
      var k :| 0 <= k < |calls| && InCall(calls[k], p);
      assert InCall(all[k], p);
    }
    if InCall(c, p) {
      assert InCall(all[|calls|], p);
    }
    if Called(all, p) {
      var k :| 0 <= k < |all| && InCall(all[k], p);
      assert k < |calls| ==> InCall(calls[k], p);
    }
  }

  lemma AliasedMore(calls: seq<Call>, c: Call, w: nat)
    ensures Aliased(calls + [c], w) <==> Aliased(calls, w) || Reached(c.page, c.pages, w)
  {
    if Aliased(calls + [c], w) {
      var p: nat :| Called(calls + [c], p) && p % PAGES == w;
      CalledMore(calls, c, p);
      if !Called(calls, p) {
        assert PtSteps.Hits(c.page, p - c.page, w);
      }
    }
    if Aliased(calls, w) {
      var p: nat :| Called(calls, p) && p % PAGES == w;
      CalledMore(calls, c, p);
    }
    if Reached(c.page, c.pages, w) {
      var k: nat :| k < c.pages && PtSteps.Hits(c.page, k, w);
      CalledMore(calls, c, c.page + k);
    }
  }

  /** What the calls have done to the entries of all address spaces. */
  ghost predicate Sweeps(t: State, t': State, s: Frame, kind: Kind, calls: seq<Call>) {
    && Ok(t') && s in t.spaces && PtSteps.SameTables(t, t')
    && forall u: Frame, w: nat {:trigger Leaf(t'.mem, u, w)} | u in t.spaces && w < PAGES ::
         Leaf(t'.mem, u, w) ==
         if (u == s || Index(w, 4) >= 256) && Aliased(calls, w) then Swept(kind, Leaf(t.mem, u, w))
         else Leaf(t.mem, u, w)
  }

  lemma SweepsNothing(t: State, s: Frame, kind: Kind)
    requires Ok(t) && s in t.spaces
    ensures Sweeps(t, t, s, kind, [])
  {
  }

  lemma SweepsMore(t: State, t': State, t'': State, s: Frame, kind: Kind, calls: seq<Call>, c: Call)
    requires Sweeps(t, t', s, kind, calls) && Ok(t'') && PtSteps.SameTables(t', t'')
    requires PtSteps.Done(t', t'', EditFor(kind), s, c.page, c.pages)
    ensures Sweeps(t, t'', s, kind, calls + [c])
  {
    forall u: Frame, w: nat | u in t.spaces && w < PAGES
      ensures Leaf(t''.mem, u, w) ==
              if (u == s || Index(w, 4) >= 256) && Aliased(calls + [c], w) then Swept(kind, Leaf(t.mem, u, w))
              else Leaf(t.mem, u, w)
    {
      AliasedMore(calls, c, w);
      EditedIs(kind, c.page, c.pages, w, Leaf(t'.mem, u, w));
      if kind.Protecting? {
        ReflaggedFor(Leaf(t.mem, u, w), kind.prot);
      }
    }
  }

  // ----- missing tables

  /** A page that is to be touched has no table. */
  ghost predicate Missing(t: State, s: Frame, tree: Tree, a: nat, b: nat) {
    exists p: nat {:trigger Touched(tree, a, b, p)} :: Touched(tree, a, b, p) && Walk(t.mem, s, 4, p % PAGES) == Nothing
  }

  ghost predicate NoneMissing(t: State, s: Frame, calls: seq<Call>) {
    forall p: nat {:trigger Called(calls, p)} | Called(calls, p) :: Walk(t.mem, s, 4, p % PAGES) != Nothing
  }

  lemma NoneMissingMore(t: State, t': State, s: Frame, calls: seq<Call>, c: Call)
    requires Ok(t) && Ok(t') && PtSteps.SameTables(t, t') && s in t.spaces
    requires NoneMissing(t, s, calls) && PtSteps.AllTables(t'.mem, s, c.page, c.pages)
    ensures NoneMissing(t, s, calls + [c])
  {
    forall p: nat | Called(calls + [c], p) ensures Walk(t.mem, s, 4, p % PAGES) != Nothing {
      CalledMore(calls, c, p);
      if InCall(c, p) {
        assert PtSteps.HasTable(t'.mem, s, c.page, p - c.page);
        PtSteps.TablesKept(t, t', s, p % PAGES);
      }
    }
  }

  /** A call that fails is about a page without a table. */
  lemma CallMisses(t: State, t': State, s: Frame, tree: Tree, a: nat, b: nat, m: Mapping)
    requires Ok(t) && Ok(t') && PtSteps.SameTables(t, t') && s in t.spaces
    requires m in tree && HitOk(m, a, b) && a <= b && a < MAX_PAGES
    requires var c := CallFor(m, a, b); !PtSteps.AllTables(t'.mem, s, c.page, c.pages)
    ensures Missing(t, s, tree, a, b)
  {
    var c := CallFor(m, a, b);
    var j: nat :| j < c.pages && !PtSteps.HasTable(t'.mem, s, c.page, j);
    InCallIs(m, a, b, c.page + j);
    assert Covers(m, c.page + j) && Touched(tree, a, b, c.page + j);
    PtSteps.TablesKept(t, t', s, (c.page + j) % PAGES);
  }

  /** A process with a new address space and one mapping, of pages 1 to 9 say, that it has not used yet: protecting page
      5 meets no table. */
  lemma FreshMissing(t: State, s: Frame, m: Mapping)
    requires PtSpaces.CanOpen(t, s) && m.startp <= 5 < m.endp && !Untouchable(m.flags)
    ensures RoundUp(0x1000) == 1 && Missing(PtSpaces.Opened(t, s), s, {m}, 5, 6)
  {
    var t' := PtSpaces.Opened(t, s);
    PtSpaces.OpenFacts(t, s);
    PtSpaces.OpenKeepsOk(t, s);
    assert Covers(m, 5) && Touched({m}, 5, 6, 5);
    assert Shifted(5, 0) == 5 && Shifted(5, 1) == 0 && Shifted(5, 2) == 0 && Shifted(5, 3) == 0;
    assert LeafRole(t', s, 5) == Role(s, 1, 0);
    LeafIs(t', s, 5);
  }

  // ----- whether the page tables agree with the mappings

  /** The entry holds the frame of the object page that the mappings show at page p. */
  ghost predicate Holds(tree: Tree, frames: Frames, p: nat, e: Word) {
    exists v: View {:trigger Shows(tree, p, v)} ::
      Shows(tree, p, v) && Page(v.obj, v.page) in frames && GetAddr(e) == frames[Page(v.obj, v.page)]
  }

  /** Whatever an address space has in its user half is a page that the mappings show there. */
  ghost predicate Backed(t: State, s: Frame, tree: Tree, frames: Frames) {
    forall p: nat {:trigger Leaf(t.mem, s, p)} | p < USER_PAGES && Leaf(t.mem, s, p) != 0 ::
      Holds(tree, frames, p, Leaf(t.mem, s, p))
  }

  /** The entry has the flags of the protection that the mappings show at page p. */
  ghost predicate Obeys(tree: Tree, p: nat, e: Word) {
    forall v: View {:trigger Shows(tree, p, v)} | Shows(tree, p, v) :: GetFlags(e) == ArchFor(v.prot)
  }

  ghost predicate Enforced(t: State, s: Frame, tree: Tree) {
    forall p: nat {:trigger Leaf(t.mem, s, p)} | p < USER_PAGES && Leaf(t.mem, s, p) != 0 ::
        Obeys(tree, p, Leaf(t.mem, s, p))
  }

  /** All touched pages of the user half have been faulted in. */
  ghost predicate Faulted(t: State, s: Frame, tree: Tree, a: nat, b: nat) {
    forall p: nat {:trigger Touched(tree, a, b, p)} | Touched(tree, a, b, p) && p % PAGES < USER_PAGES ::
      Leaf(t.mem, s, p % PAGES) != 0
  }

  /** No mapping lies above the user half. */
  ghost predicate Low(tree: Tree) {
    forall m {:trigger m in tree} | m in tree :: m.endp <= USER_PAGES
  }

  ghost predicate CallsTouch(calls: seq<Call>, tree: Tree, a: nat, b: nat) {
    forall p: nat {:trigger Called(calls, p)} :: Called(calls, p) <==> Touched(tree, a, b, p)
  }

  lemma ShownTouched(tree: Tree, a: nat, b: nat, p: nat, v: View)
    requires Shows(tree, p, v) && a <= p < b && !Untouchable(v.flags)
    ensures Touched(tree, a, b, p)
  {
    var m :| m in tree && ShowsAt(m, p, v);
    assert Covers(m, p);
  }

  lemma CalledAliased(calls: seq<Call>, p: nat)
    requires Called(calls, p) && p < PAGES
    ensures Aliased(calls, p)
  {
    assert p % PAGES == p;
  }

  /** A page that is not unmapped shows what it showed. */
  lemma StillShown(tree: Tree, tree': Tree, calls: seq<Call>, a: nat, b: nat, p: nat, v: View)
    requires Behaves(Unmapping, tree, tree', a, b) && (a <= b ==> CallsTouch(calls, tree, a, b))
    requires p < USER_PAGES && !Aliased(calls, p)
    ensures Shows(tree', p, v) <==> Shows(tree, p, v)
  {
    if Shows(tree, p, v) && a <= p < b && !Untouchable(v.flags) {
      ShownTouched(tree, a, b, p, v);
      CalledAliased(calls, p);
    }
  }

  /** Unmapping keeps the page tables and the mappings in agreement. */
  lemma UnmapBacked(t: State, t': State, s: Frame, tree: Tree, tree': Tree, frames: Frames, calls: seq<Call>, a: nat,
                    b: nat)
    requires Sweeps(t, t', s, Unmapping, calls) && Behaves(Unmapping, tree, tree', a, b)
    requires a <= b ==> CallsTouch(calls, tree, a, b)
    ensures Backed(t, s, tree, frames) ==> Backed(t', s, tree', frames)
    ensures Enforced(t, s, tree) ==> Enforced(t', s, tree')
  {
    forall p: nat | p < USER_PAGES && Leaf(t'.mem, s, p) != 0
      ensures Backed(t, s, tree, frames) ==> Holds(tree', frames, p, Leaf(t'.mem, s, p))
      ensures Enforced(t, s, tree) ==> Obeys(tree', p, Leaf(t'.mem, s, p))
    {
      assert !Aliased(calls, p) && Leaf(t'.mem, s, p) == Leaf(t.mem, s, p);
      forall v: View ensures Shows(tree', p, v) <==> Shows(tree, p, v) {
        StillShown(tree, tree', calls, a, b, p, v);
      }
    }
  }

  /** What a page shows after protecting. */
  function Reprotected(prot: nat, a: nat, b: nat, p: nat, v: View): View {
    if a <= p < b && !Untouchable(v.flags) then v.(prot := prot) else v
  }

  lemma ShownAfter(prot: nat, tree: Tree, tree': Tree, a: nat, b: nat, p: nat, v: View)
    requires Behaves(Protecting(prot), tree, tree', a, b) && Shows(tree, p, v)
    ensures Shows(tree', p, Reprotected(prot, a, b, p, v))
  {
    var v' := Reprotected(prot, a, b, p, v);
    assert v'.(prot := v.prot) == v;
    assert Expected(Protecting(prot), tree, a, b, p, v');
  }

  lemma HeldAfter(prot: nat, tree: Tree, tree': Tree, frames: Frames, a: nat, b: nat, p: nat, e: Word, e': Word)
    requires Behaves(Protecting(prot), tree, tree', a, b) && Holds(tree, frames, p, e) && GetAddr(e') == GetAddr(e)
    ensures Holds(tree', frames, p, e')
  {
    var v: View :| Shows(tree, p, v) && Page(v.obj, v.page) in frames && GetAddr(e) == frames[Page(v.obj, v.page)];
    ShownAfter(prot, tree, tree', a, b, p, v);
  }

  /** Protecting keeps them in agreement if and only if every page that it touches has been faulted in: any other page
      then shows frame 0. */
  lemma ProtectBacked(t: State, t': State, s: Frame, tree: Tree, tree': Tree, frames: Frames, calls: seq<Call>,
                      prot: nat, a: nat, b: nat)
    requires Sweeps(t, t', s, Protecting(prot), calls) && Behaves(Protecting(prot), tree, tree', a, b)
    requires CallsTouch(calls, tree, a, b) && FramesOk(frames) && Backed(t, s, tree, frames)
    ensures Backed(t', s, tree', frames) <==> Faulted(t, s, tree, a, b)
  {
    if Faulted(t, s, tree, a, b) {
      forall p: nat | p < USER_PAGES && Leaf(t'.mem, s, p) != 0 ensures Holds(tree', frames, p, Leaf(t'.mem, s, p)) {
        ReflaggedFor(Leaf(t.mem, s, p), prot);
        if Aliased(calls, p) {
          var q: nat :| Called(calls, q) && q % PAGES == p;
          assert Touched(tree, a, b, q);
        }
        HeldAfter(prot, tree, tree', frames, a, b, p, Leaf(t.mem, s, p), Leaf(t'.mem, s, p));
      }
    } else {
      var q: nat :| Touched(tree, a, b, q) && q % PAGES < USER_PAGES && Leaf(t.mem, s, q % PAGES) == 0;
      assert Called(calls, q) && Aliased(calls, q % PAGES);
      ReflaggedFor(0, prot);
      assert Leaf(t'.mem, s, q % PAGES) == Reflagged(0, ArchFor(prot));
      assert GetAddr(0) == 0;
    }
  }

  /** As long as no mapping lies above the user half, the page tables allow what the mappings say, and nothing else. */
  lemma ProtectEnforced(t: State, t': State, s: Frame, tree: Tree, tree': Tree, calls: seq<Call>, prot: nat, a: nat,
                        b: nat)
    requires Sweeps(t, t', s, Protecting(prot), calls) && Behaves(Protecting(prot), tree, tree', a, b)
    requires CallsTouch(calls, tree, a, b) && Low(tree) && TreeOk(tree) && Enforced(t, s, tree)
    ensures Enforced(t', s, tree')
  {
    forall p: nat | p < USER_PAGES && Leaf(t'.mem, s, p) != 0 ensures Obeys(tree', p, Leaf(t'.mem, s, p)) {
      forall v: View | Shows(tree', p, v) ensures GetFlags(Leaf(t'.mem, s, p)) == ArchFor(v.prot) {
        ObeysAfter(t, t', s, tree, tree', calls, prot, a, b, p, v);
      }
    }
  }

  /** Without mappings above the user half, no other page has the same entry. */
  lemma AliasedLow(tree: Tree, calls: seq<Call>, a: nat, b: nat, p: nat)
    requires CallsTouch(calls, tree, a, b) && Low(tree) && p < USER_PAGES
    ensures Aliased(calls, p) <==> Touched(tree, a, b, p)
  {
    if Aliased(calls, p) {
      var q: nat :| Called(calls, q) && q % PAGES == p;
      var m :| m in tree && Covers(m, q) && !Untouchable(m.flags) && a <= q < b;
    }
    if Touched(tree, a, b, p) {
      CalledAliased(calls, p);
    }
  }

  lemma ExpectedTouched(prot: nat, tree: Tree, a: nat, b: nat, p: nat, v: View)
    requires TreeOk(tree) && Touched(tree, a, b, p) && Expected(Protecting(prot), tree, a, b, p, v)
    ensures v.prot == prot
  {
    if Untouchable(v.flags) {
      var m :| m in tree && Covers(m, p) && !Untouchable(m.flags);
      var w := View(m.obj, m.offsetp + (p - m.startp), m.prot, m.flags);
      assert ShowsAt(m, p, w) && Shows(tree, p, w);
      OneView(tree, p, v, w);
    }
  }

  lemma ExpectedUntouched(prot: nat, tree: Tree, a: nat, b: nat, p: nat, v: View)
    requires Expected(Protecting(prot), tree, a, b, p, v)
    ensures Touched(tree, a, b, p) || Shows(tree, p, v)
  {
    if a <= p < b && !Untouchable(v.flags) {
      var prot0: nat :| Shows(tree, p, v.(prot := prot0));
      ShownTouched(tree, a, b, p, v.(prot := prot0));
    }
  }

  lemma ObeysAfter(t: State, t': State, s: Frame, tree: Tree, tree': Tree, calls: seq<Call>, prot: nat, a: nat, b: nat,
                   p: nat, v: View)
    requires Sweeps(t, t', s, Protecting(prot), calls) && Behaves(Protecting(prot), tree, tree', a, b)
    requires CallsTouch(calls, tree, a, b) && Low(tree) && TreeOk(tree) && Enforced(t, s, tree)
    requires p < USER_PAGES && Leaf(t'.mem, s, p) != 0 && Shows(tree', p, v)
    ensures GetFlags(Leaf(t'.mem, s, p)) == ArchFor(v.prot)
  {
    assert Expected(Protecting(prot), tree, a, b, p, v);
    AliasedLow(tree, calls, a, b, p);
    if Touched(tree, a, b, p) {
      ReflaggedFor(Leaf(t.mem, s, p), prot);
      ExpectedTouched(prot, tree, a, b, p, v);
    } else {
      ExpectedUntouched(prot, tree, a, b, p, v);
      assert Obeys(tree, p, Leaf(t.mem, s, p));
    }
  }

  /** What a user may do at a page that has been faulted in: read it if the protection says so (bit 0), and write or run
      it if it says that too (bits 1 and 2). Without the right to read, nothing is allowed. */
  lemma AccessIs(t: State, s: Frame, tree: Tree, p: nat, v: View, x: PtAccess.Access)
    requires Ok(t) && s in t.spaces && p < USER_PAGES && Shows(tree, p, v) && Enforced(t, s, tree) && x.user
    ensures Leaf(t.mem, s, p) == 0 ==> !PtAccess.Permits(t.mem, s, 4, p, x)
    ensures Leaf(t.mem, s, p) != 0 ==>
              (PtAccess.Permits(t.mem, s, 4, p, x) <==>
                v.prot % 2 == 1 && (x.write ==> v.prot / 2 % 2 == 1) && (x.exec ==> v.prot / 4 % 2 == 1))
  {
    PtAccess.PermitsIs(t, s, p, x);
    var e := Leaf(t.mem, s, p);
    if e != 0 {
      assert Obeys(tree, p, e);
      PtAccess.FlagsLet(e, FlagsFor(v.prot), WriteBack, x);
    }
  }

  // ----- a page fault

  /** The pages of the addresses that the processor translates. */
  predicate Canonical(p: nat) {
    p < USER_PAGES || MAX_PAGES - USER_PAGES <= p < MAX_PAGES
  }

  /** What the fault of a page has changed in its address space. */
  ghost predicate Resolves(t: State, t': State, s: Frame, tree: Tree, frames: Frames, frames': Frames, page: nat,
                           v: View, a: Word) {
    && Shows(tree, page, v) && FrameFits(a) && frames' == frames[Page(v.obj, v.page) := a]
    && (Page(v.obj, v.page) in frames ==> frames' == frames)
    && forall w: nat {:trigger Leaf(t'.mem, s, w)} | w < PAGES ::
         Leaf(t'.mem, s, w) == if w == page % PAGES then LeafEntry(a, ArchFor(v.prot)) else Leaf(t.mem, s, w)
  }

  lemma FaultBacked(t: State, t': State, s: Frame, tree: Tree, frames: Frames, frames': Frames, page: nat, v: View,
                    a: Word)
    requires TreeOk(tree) && Canonical(page) && Resolves(t, t', s, tree, frames, frames', page, v, a)
    ensures Backed(t, s, tree, frames) ==> Backed(t', s, tree, frames')
    ensures Enforced(t, s, tree) ==> Enforced(t', s, tree)
  {
    forall p: nat | p < USER_PAGES && Leaf(t'.mem, s, p) != 0
      ensures Backed(t, s, tree, frames) ==> Holds(tree, frames', p, Leaf(t'.mem, s, p))
      ensures Enforced(t, s, tree) ==> Obeys(tree, p, Leaf(t'.mem, s, p))
    {
      if p == page % PAGES {
        FaultedHere(tree, frames', p, v, a);
      } else {
        assert Leaf(t'.mem, s, p) == Leaf(t.mem, s, p);
      }
    }
  }

  lemma FaultedHere(tree: Tree, frames: Frames, p: nat, v: View, a: Word)
    requires TreeOk(tree) && Shows(tree, p, v) && FrameFits(a)
    requires Page(v.obj, v.page) in frames && frames[Page(v.obj, v.page)] == a
    ensures Holds(tree, frames, p, LeafEntry(a, ArchFor(v.prot))) && Obeys(tree, p, LeafEntry(a, ArchFor(v.prot)))
  {
    ArchRoundTrip(FlagsFor(v.prot), WriteBack);
    LeafEntryHolds(a, ArchFor(v.prot));
    forall w: View | Shows(tree, p, w) ensures w == v {
      OneView(tree, p, v, w);
    }
  }

  lemma MappedOnce(t: State, t': State, s: Frame, page: nat, a: Word, flags: Word, w: nat)
    requires s in t.spaces && PtSteps.Done(t, t', PtSteps.MapTo(a, flags), s, page, 1) && w < PAGES
    ensures Leaf(t'.mem, s, w) == if w == page % PAGES then LeafEntry(a, flags) else Leaf(t.mem, s, w)
  {
    var edit, e := PtSteps.MapTo(a, flags), Leaf(t.mem, s, w);
    assert PtSteps.PageAddr(a, 0) == a;
    assert PtSteps.Edited(edit, page, 0, w, e) == e;
  }

  // ----- other address spaces

  lemma LowIndex(p: nat)
    requires p < USER_PAGES
    ensures Index(p, 4) < 256
  {
    ShiftedSteps(p);
    assert Shifted(p, 3) == p / 512 / 512 / 512;
  }

  ghost predicate SameUser(t: State, t': State, u: Frame) {
    forall p: nat {:trigger Leaf(t'.mem, u, p)} | p < USER_PAGES :: Leaf(t'.mem, u, p) == Leaf(t.mem, u, p)
  }

  /** What is done to the mappings of one process leaves the page tables of the others in agreement with theirs. */
  lemma OthersAgree(t: State, t': State, s: Frame, u: Frame, kind: Kind, calls: seq<Call>, tree: Tree, frames: Frames)
    requires Sweeps(t, t', s, kind, calls) && u in t.spaces && u != s
    ensures SameUser(t, t', u)
    ensures Backed(t, u, tree, frames) ==> Backed(t', u, tree, frames)
    ensures Enforced(t, u, tree) ==> Enforced(t', u, tree)
  {
    forall p: nat | p < USER_PAGES ensures Leaf(t'.mem, u, p) == Leaf(t.mem, u, p) {
      LowIndex(p);
    }
  }
}
