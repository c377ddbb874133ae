/** The page maps of all address spaces, in the physical memory that they share. */
module PageTables {
  import opened PtEntry
  import opened PtState
  import opened PtSteps
  import opened PtSpaces
  import opened PtRun
  import PtFrames

  /** The index that `getpte` takes from an address is that of its page number. */
  lemma IndexAt(vaddr: nat)
    ensures (vaddr / 0x80_0000_0000) % 512 == Index(PageOf(vaddr), 4)
    ensures (vaddr / 0x4000_0000) % 512 == Index(PageOf(vaddr), 3)
    ensures (vaddr / 0x20_0000) % 512 == Index(PageOf(vaddr), 2)
    ensures (vaddr / 0x1000) % 512 == Index(PageOf(vaddr), 1)
  {
    var x, v := vaddr / 0x1000, PageOf(vaddr);
    var q := x / PAGES;
    assert x == q * PAGES + v;
    NineBits(x, q * 0x800_0000, v);
    NineBits(x / 512, q * 0x4_0000, v / 512);
    NineBits(x / 512 / 512, q * 512, v / 512 / 512);
    ShiftedSteps(v);
    Quotients(vaddr);
  }

  lemma NineBits(x: nat, q: nat, v: nat)
    requires x == q * 512 + v
    ensures x / 512 == q + v / 512 && x % 512 == v % 512
  {
  }

  lemma Quotients(a: nat)
    ensures a / 0x20_0000 == a / 0x1000 / 512 && a / 0x4000_0000 == a / 0x20_0000 / 512
    ensures a / 0x80_0000_0000 == a / 0x4000_0000 / 512
  {
  }

  function PageOf(vaddr: nat): (v: nat)
    ensures v < PAGES
  {
    (vaddr / 0x1000) % PAGES
  }

  lemma PageAfter(vaddr: nat, k: nat)
    requires vaddr % 0x1000 == 0
    ensures PageOf(vaddr + 0x1000 * k) == (vaddr / 0x1000 + k) % PAGES
  {
  }

  lemma WalkStops(t: State, s: Frame, v: nat, level: nat)
    requires Ok(t) && s in t.spaces && v < PAGES && 1 <= level < 4 && OnPath(t, s, v, level) !in t.slot
    ensures Walk(t.mem, s, 4, v) == Nothing
  {
    LeafIs(t, s, v);
    if LeafRole(t, s, v) in t.slot {
      PathClosed(t, s, v, level);
      assert false;
    }
  }

  lemma WalkStarts(t: State, s: Frame, v: nat)
    requires Ok(t) && s in t.spaces && v < PAGES
    ensures OnPath(t, s, v, 4) in t.slot && t.slot[OnPath(t, s, v, 4)] == s
  {
    TopPrefix(v);
    assert SpaceOk(t, s);
    assert OnPath(t, s, v, 4) == Role(s, 4, 0) && RoleOk(t, Role(s, 4, 0));
  }

  /** Unending is what a length behind the last page boundary of 64 bits leads to: the counter of the loop wraps around
      before it reaches the length. */
  datatype Outcome = Fine | NotAligned | InvalidEntry | Panic | Unending

  predicate Ends(length: nat) {
    length <= 0xFFFF_FFFF_FFFF_F000
  }

  /** A part of the kernel binary that is to be mapped. */
  datatype Segment = Segment(vaddr: nat, paddr: Word, size: nat, flags: Pflags)

  /** How far the counter comes before the pages of the address space are met again. */
  function OneLap(length: nat): nat {
    if Ends(length) then length else 0x1000 * PAGES
  }

  /** How many pages a length covers. */
  function PagesIn(length: nat): nat {
    (length + 0xFFF) / 0x1000
  }

  lemma PagesAre(length: nat, k: nat)
    ensures length <= 0x1000 * k < length + 0x1000 ==> k == PagesIn(length)
    ensures 0x1000 * k < length ==> k < PagesIn(length)
  {
  }

  function EditProtect(flags: Pflags, cache: Caching): Edit {
    Edit.Protect(ToArch(flags, cache))
  }

  /** The loop of `protect` after k pages. */
  ghost predicate Protecting(was: State, t: State, aflags: Word, s: Frame, first: nat, k: nat) {
    && Ok(t) && SameTables(was, t) && Done(was, t, Edit.Protect(aflags), s, first, k) && AllTables(was.mem, s, first, k)
  }

  lemma FramesShown(t: State, t': State, s: Frame, paddr: Word, flags: Pflags, cache: Caching, vaddr: nat, n: nat)
    requires s in t.spaces && Done(t, t', MapTo(paddr, ToArch(flags, cache)), s, vaddr / 0x1000, n)
    requires PageOf(vaddr) + n <= PAGES
    ensures PtFrames.Consecutive(t'.mem, s, PageOf(vaddr), n, paddr)
  {
    ArchRoundTrip(flags, cache);
    DoneAround(t, t', MapTo(paddr, ToArch(flags, cache)), s, vaddr / 0x1000, n);
    PtFrames.MappedFrames(t, t', s, paddr, ToArch(flags, cache), PageOf(vaddr), n);
  }

  /** What mapping a segment is, as an operation on the page map. */
  function SegmentOp(s: Frame, g: Segment): Op {
    Change(s, MapTo(g.paddr, ToArch(g.flags, WriteBack)), g.vaddr / 0x1000, PagesIn(g.size))
  }

  ghost predicate SegmentsMapped(s: Frame, segments: seq<Segment>, ops: seq<Op>) {
    && |ops| == |segments|
    && forall k {:trigger ops[k]} | 0 <= k < |ops| ::
         segments[k].vaddr % 0x1000 == 0 && ops[k] == SegmentOp(s, segments[k])
  }

  lemma SegmentsGrow(s: Frame, segments: seq<Segment>, ops: seq<Op>, g: Segment)
    requires SegmentsMapped(s, segments, ops) && g.vaddr % 0x1000 == 0
    ensures SegmentsMapped(s, segments + [g], ops + [SegmentOp(s, g)])
  {
  }

  lemma HistoryGrows(states: seq<State>, ops: seq<Op>, op: Op, t: State)
    requires History(states, ops) && Took(states[|ops|], op, t)
    ensures History(states + [t], ops + [op])
  {
    var states', ops' := states + [t], ops + [op];
    forall i: nat | i < |ops'| ensures TookAt(states', ops', i) {
      assert i < |ops| ==> TookAt(states, ops, i);
    }
  }

  /** `getlvl` without making a table. */
  function Follow(e: Word): Option {
    if Link(e) then Table(Target(e)) else Nothing
  }

  lemma FirstSpace(t: State)
    requires t.mem == map[t.kernel := EmptyTable()] && t.spaces == {t.kernel} && FrameOk(t.kernel)
             && t.kernel !in t.pool
    requires t.slot == map[Role(t.kernel, 4, 0) := t.kernel] && t.role == map[t.kernel := Role(t.kernel, 4, 0)]
    requires forall a {:trigger FrameOk(a)} | a in t.pool :: FrameOk(a)
    ensures Ok(t)
    ensures forall w: nat {:trigger Leaf(t.mem, t.kernel, w)} | w < PAGES :: Leaf(t.mem, t.kernel, w) == 0
  {
    assert !Link(0);
    forall w: nat | w < PAGES ensures Leaf(t.mem, t.kernel, w) == 0 {
      LeafIs(t, t.kernel, w);
    }
  }

  class Memory {
    var mem: map<Frame, seq<Word>>
    var pool: set<Frame>
    var kernel: Frame
    var spaces: set<Frame>
    ghost var slot: map<Role, Frame>
    ghost var role: map<Frame, Role>

    ghost function T(): State
      reads this
    {
      State(mem, pool, kernel, spaces, slot, role)
    }

    /** A zeroed page from the physical allocator, which panics when there is none. */
    method NewTable() returns (panicked: bool, a: Frame)
      modifies `mem, `pool
      ensures panicked ==> mem == old(mem) && pool == old(pool) == {}
      ensures !panicked ==> a in old(pool) && pool == old(pool) - {a} && mem == old(mem)[a := EmptyTable()]
    {
      if pool == {} {
        panicked, a := true, At(0);
      } else {
        a :| a in pool;
        panicked, pool, mem := false, pool - {a}, mem[a := EmptyTable()];
      }
    }

    /** Frees a table, which must not be free yet. */
    method FreeTable(a: Frame)
      requires a in mem
      modifies `mem, `pool
      ensures mem == old(mem) - {a} && pool == old(pool) + {a}
    {
      mem, pool := mem - {a}, pool + {a};
    }

    /** The table behind entry i of the table at a, which is made if `allocate` says so. */
    method GetLvl(a: Frame, i: nat, allocate: bool, ghost r: Role) returns (panicked: bool, next: Option)
      requires Ok(T()) && r in slot && slot[r] == a && r.level > 1 && i < 512
      modifies this
      ensures Ok(T()) && SameLeaves(old(T()), T()) && (!allocate || panicked ==> T() == old(T()))
      ensures panicked ==> allocate && pool == {}
      ensures !panicked ==> next == (if Child(T(), r, i) in slot then Table(slot[Child(T(), r, i)]) else Nothing)
      ensures !panicked && allocate ==> Child(T(), r, i) in slot
    {
      panicked := false;
      assert RoleOk(T(), r);
      assert TableOk(T(), a) && LinkOk(T(), r, i);
      if Link(mem[a][i]) {
        next := Table(Target(mem[a][i]));
        return;
      }
      if !allocate {
        return false, Nothing;
      }
      ghost var was := T();
      var b;
      panicked, b := NewTable();
      if panicked {
        return true, Nothing;
      }
      AddSame(was, r, i, b);
      AddFacts(was, r, i, b);
      mem := mem[a := mem[a][i := TableEntry(b)]];
      slot, role := slot[Child(was, r, i) := b], role[b := Child(was, r, i)];
      assert T() == Added(was, r, i, b);
      next := Table(b);
    }

    /** One step of `getpte`, from the table at a level to the next. */
    method Step(s: Frame, pml: Frame, i: nat, allocate: bool, ghost v: nat, ghost level: nat)
      returns (panicked: bool, next: Option)
      requires Ok(T()) && s in spaces && v < PAGES && 1 < level <= 4 && i == Index(v, level)
      requires OnPath(T(), s, v, level) in slot && slot[OnPath(T(), s, v, level)] == pml
      modifies this
      ensures Ok(T()) && SameLeaves(old(T()), T()) && (!allocate ==> T() == old(T()))
      ensures panicked ==> allocate && pool == {}
      ensures next == Nothing && !panicked ==> !allocate && Walk(mem, s, 4, v) == Nothing
      ensures next != Nothing && !panicked ==>
                OnPath(T(), s, v, level - 1) in slot && slot[OnPath(T(), s, v, level - 1)] == next.a
    {
      OnPathStep(T(), s, v, level);
      panicked, next := GetLvl(pml, i, allocate, OnPath(T(), s, v, level));
      if next == Nothing && !panicked {
        WalkStops(T(), s, v, level - 1);
      }
    }

    /** `getpte` for small pages: the table and the index of the entry for an address. */
    method GetPte(s: Frame, vaddr: nat, allocate: bool) returns (panicked: bool, at: Option, idx: nat)
      requires Ok(T()) && s in spaces
      modifies this
      ensures Ok(T()) && SameLeaves(old(T()), T()) && (!allocate ==> T() == old(T()))
      ensures panicked ==> allocate && pool == {}
      ensures !panicked ==> at == Walk(mem, s, 4, PageOf(vaddr)) && (at != Nothing ==> idx == PageOf(vaddr) % 512)
      ensures !panicked && allocate ==> at != Nothing
    {
      var pml := s;
      ghost var v, was := PageOf(vaddr), T();
      IndexAt(vaddr);
      WalkStarts(T(), s, v);
      var shift := 0x80_0000_0000;
      for i := 0 to 3
        invariant shift == if i == 0 then 0x80_0000_0000
                           else if i == 1 then 0x4000_0000
                           else if i == 2 then 0x20_0000
                           else 0x1000
        invariant Ok(T()) && SameLeaves(was, T()) && (!allocate ==> T() == was)
        invariant OnPath(T(), s, v, 4 - i) in slot && slot[OnPath(T(), s, v, 4 - i)] == pml
      {
        ghost var before := T();
        var next;
        panicked, next := Step(s, pml, (vaddr / shift) % 512, allocate, v, 4 - i);
        SameTransitive(was, before, T());
        if panicked {
          return true, Nothing, 0;
        }
        if next == Nothing {
          return false, Nothing, 0;
        }
        pml := next.a;
        shift := shift / 512;
      }
      LeafIs(T(), s, v);
      panicked, at, idx := false, Table(pml), (vaddr / shift) % 512;
    }

    /** Writes the entry that the walk has found for one more page of a range. */
    method Write(a: Frame, idx: nat, e: Word, ghost s: Frame, ghost vaddr: nat, ghost was: State, ghost before: State,
                 ghost edit: Edit, ghost k: nat)
      requires Ok(T()) && Ok(was) && s in was.spaces && vaddr % 0x1000 == 0
      requires Done(was, before, edit, s, vaddr / 0x1000, k) && SameLeaves(before, T())
      requires ghost var v := PageOf(vaddr + 0x1000 * k);
               Walk(mem, s, 4, v) == Table(a) && idx == v % 512 && e == Apply(edit, k, Leaf(mem, s, v))
      modifies `mem
      ensures Ok(T()) && Done(was, T(), edit, s, vaddr / 0x1000, k + 1) && mem.Keys == old(mem.Keys)
    {
      ghost var t, v := T(), PageOf(vaddr + 0x1000 * k);
      PageAfter(vaddr, k);
      LeafIs(t, s, v);
      mem := mem[a := mem[a][idx := e]];
      DoneStep(was, before, t, edit, s, vaddr / 0x1000, k, v);
      assert T() == Set(t, s, v, e);
    }

    /** The loop of `map` for page k. */
    method MapPage(s: Frame, page: nat, pa: Word, aflags: Word, ghost vaddr: nat, ghost was: State, ghost paddr: Word,
                   ghost k: nat)
      returns (panicked: bool)
      requires Ok(T()) && Ok(was) && s in was.spaces && vaddr % 0x1000 == 0
      requires page == vaddr + 0x1000 * k && pa == PageAddr(paddr, k)
      requires Done(was, T(), MapTo(paddr, aflags), s, vaddr / 0x1000, k)
      modifies this
      ensures Ok(T()) && (spaces, kernel) == old((spaces, kernel)) && (panicked ==> pool == {})
      ensures !panicked ==> Done(was, T(), MapTo(paddr, aflags), s, vaddr / 0x1000, k + 1)
    {
      ghost var before := T();
      var at, idx;
      panicked, at, idx := GetPte(s, page, true);
      if !panicked {
        Write(at.a, idx, LeafEntry(pa, aflags), s, vaddr, was, before, MapTo(paddr, aflags), k);
      }
    }

    /** The loop of `map`. */
    method MapPages(s: Frame, vaddr: nat, paddr: Word, length: nat, aflags: Word) returns (panicked: bool)
      requires Ok(T()) && s in spaces && vaddr % 0x1000 == 0
      modifies this
      ensures Ok(T()) && (spaces, kernel) == old((spaces, kernel)) && (panicked ==> pool == {})
      ensures !panicked ==> Done(old(T()), T(), MapTo(paddr, aflags), s, vaddr / 0x1000, PagesIn(length))
    {
      ghost var was, first, k := T(), vaddr / 0x1000, 0;
      var i, pa := 0, paddr;
      while i < length
        invariant i == 0x1000 * k && i < length + 0x1000 && pa == PageAddr(paddr, k)
        invariant Ok(T()) && Done(was, T(), MapTo(paddr, aflags), s, first, k)
        decreases length - i
      {
        panicked := MapPage(s, vaddr + i, pa, aflags, vaddr, was, paddr, k);
        if panicked {
          return;
        }
        i, k, pa := i + 0x1000, k + 1, pa + 0x1000;
      }
      PagesAre(length, k);
      panicked := false;
    }

    /** `map` for small pages. When it does not end, all tables are there after one lap, and none is made later. */
    method Map(s: Frame, vaddr: nat, paddr: Word, length: nat, flags: Pflags, cache: Caching) returns (r: Outcome)
      requires Ok(T()) && s in spaces
      modifies this
      ensures Ok(T()) && (spaces, kernel) == old((spaces, kernel)) && (r == NotAligned <==> vaddr % 0x1000 != 0)
              && r != InvalidEntry
      ensures if Ends(length) then r != Unending else r != Fine
      ensures r == NotAligned ==> T() == old(T())
      ensures r == Panic ==> pool == {}
      ensures r == Fine || r == Unending ==>
                Took(old(T()), Change(s, MapTo(paddr, ToArch(flags, cache)), vaddr / 0x1000, PagesIn(OneLap(length))),
                    T())
      ensures r == Fine && PageOf(vaddr) + PagesIn(length) <= PAGES ==>
                PtFrames.Consecutive(mem, s, PageOf(vaddr), PagesIn(length), paddr)
    {
      ghost var was := T();
      if vaddr % 0x1000 != 0 {
        return NotAligned;
      }
      var panicked := MapPages(s, vaddr, paddr, OneLap(length), ToArch(flags, cache));
      r := if panicked then Panic else if Ends(length) then Fine else Unending;
      if r == Fine && PageOf(vaddr) + PagesIn(length) <= PAGES {
        FramesShown(was, T(), s, paddr, flags, cache, vaddr, PagesIn(length));
      }
    }

    /** The loop of `unmap` for page k. */
    method UnmapPage(s: Frame, page: nat, ghost vaddr: nat, ghost was: State, ghost k: nat)
      requires Ok(T()) && Ok(was) && s in was.spaces && vaddr % 0x1000 == 0 && page == vaddr + 0x1000 * k
      requires Done(was, T(), Clear, s, vaddr / 0x1000, k)
      modifies this
      ensures Ok(T()) && Done(was, T(), Clear, s, vaddr / 0x1000, k + 1)
      ensures SameTables(old(T()), T())
    {
      ghost var before := T();
      var _, at, idx := GetPte(s, page, false);
      if at == Nothing {
        PageAfter(vaddr, k);
        DoneHole(was, before, s, vaddr / 0x1000, k, PageOf(page));
      } else {
        Write(at.a, idx, 0, s, vaddr, was, before, Clear, k);
      }
    }

    /** `unmap` for small pages; holes are no error. */
    method Unmap(s: Frame, vaddr: nat, length: nat) returns (r: Outcome)
      requires Ok(T()) && s in spaces
      modifies this
      ensures Ok(T()) && r == (if vaddr % 0x1000 != 0 then NotAligned else if Ends(length) then Fine else Unending)
      ensures r == NotAligned ==> T() == old(T())
      ensures r == Fine ==> Took(old(T()), Change(s, Clear, vaddr / 0x1000, PagesIn(length)), T())
      ensures SameTables(old(T()), T())
    {
      if vaddr % 0x1000 != 0 {
        return NotAligned;
      }
      if !Ends(length) {
        return Unending;
      }
      ghost var was, first, k := T(), vaddr / 0x1000, 0;
      var i := 0;
      while i < length
        invariant i == 0x1000 * k && i < length + 0x1000
        invariant Ok(T()) && Done(was, T(), Clear, s, first, k)
        invariant SameTables(was, T())
        decreases length - i
      {
        UnmapPage(s, vaddr + i, vaddr, was, k);
        i, k := i + 0x1000, k + 1;
      }
      PagesAre(length, k);
      r := Fine;
    }

    /** The loop of `protect` for page k. */
    method ProtectPage(s: Frame, page: nat, aflags: Word, ghost vaddr: nat, ghost was: State, ghost k: nat)
      returns (missing: bool)
      requires Ok(T()) && Ok(was) && s in was.spaces && vaddr % 0x1000 == 0 && page == vaddr + 0x1000 * k
      requires Done(was, T(), Edit.Protect(aflags), s, vaddr / 0x1000, k)
      modifies this
      ensures Ok(T()) && SameTables(old(T()), T()) && missing == !HasTable(old(mem), s, vaddr / 0x1000, k)
      ensures if missing then T() == old(T())
              else Done(was, T(), Edit.Protect(aflags), s, vaddr / 0x1000, k + 1)
    {
      ghost var before := T();
      PageAfter(vaddr, k);
      var _, at, idx := GetPte(s, page, false);
      missing := at == Nothing;
      if !missing {
        LeafIs(T(), s, PageOf(page));
        Write(at.a, idx, Reflagged(mem[at.a][idx], aflags), s, vaddr, was, before, Edit.Protect(aflags), k);
      }
    }

    /** One round of the loop of `protect`. */
    method ProtectNext(s: Frame, page: nat, aflags: Word, ghost vaddr: nat, ghost was: State, ghost k: nat)
      returns (missing: bool)
      requires Ok(was) && s in was.spaces && vaddr % 0x1000 == 0 && page == vaddr + 0x1000 * k
      requires Protecting(was, T(), aflags, s, vaddr / 0x1000, k)
      modifies this
      ensures if missing
              then Protecting(was, T(), aflags, s, vaddr / 0x1000, k) && !HasTable(was.mem, s, vaddr / 0x1000, k)
              else Protecting(was, T(), aflags, s, vaddr / 0x1000, k + 1)
    {
      TablesWalk(was, T(), s, vaddr / 0x1000, k);
      missing := ProtectPage(s, page, aflags, vaddr, was, k);
    }

    /** The loop of `protect`. */
    method ProtectPages(s: Frame, vaddr: nat, length: nat, aflags: Word) returns (missing: bool, ghost k: nat)
      requires Ok(T()) && s in spaces && vaddr % 0x1000 == 0
      modifies this
      ensures Protecting(old(T()), T(), aflags, s, vaddr / 0x1000, k)
      ensures if missing then k < PagesIn(length) && !HasTable(old(mem), s, vaddr / 0x1000, k) else k == PagesIn(length)
    {
      ghost var was := T();
      var i := 0;
      k := 0;
      while i < length
        invariant i == 0x1000 * k && i < length + 0x1000 && Protecting(was, T(), aflags, s, vaddr / 0x1000, k)
        decreases length - i
      {
        missing := ProtectNext(s, vaddr + i, aflags, vaddr, was, k);
        if missing {
          PagesAre(length, k);
          return;
        }
        i, k := i + 0x1000, k + 1;
      }
      PagesAre(length, k);
      missing := false;
    }

    /** `protect` for small pages; it stops at the first page whose table is missing, and does not end only when a whole
        lap finds none. A page that was never mapped gets the flags all the same once its table is there, and then shows
        the frame at physical address 0. */
    method Protect(s: Frame, vaddr: nat, length: nat, flags: Pflags, cache: Caching) returns (r: Outcome, ghost k: nat)
      requires Ok(T()) && s in spaces
      modifies this
      ensures Ok(T()) && (r == NotAligned <==> vaddr % 0x1000 != 0) && r != Panic
      ensures if Ends(length) then r != Unending else r != Fine
      ensures r == NotAligned ==> T() == old(T())
      ensures SameTables(old(T()), T())
      ensures r != NotAligned ==> Took(old(T()), Change(s, EditProtect(flags, cache), vaddr / 0x1000, k), T())
      ensures r != NotAligned ==>
                (r == InvalidEntry <==> !AllTables(old(mem), s, vaddr / 0x1000, PagesIn(OneLap(length))))
      ensures r != NotAligned ==> AllTables(old(mem), s, vaddr / 0x1000, k)
      ensures r == Fine || r == Unending ==> k == PagesIn(OneLap(length))
      ensures r == InvalidEntry ==> k < PagesIn(OneLap(length)) && !HasTable(old(mem), s, vaddr / 0x1000, k)
    {
      k := 0;
      if vaddr % 0x1000 != 0 {
        return NotAligned, k;
      }
      var missing;
      missing, k := ProtectPages(s, vaddr, OneLap(length), ToArch(flags, cache));
      r := if missing then InvalidEntry else if Ends(length) then Fine else Unending;
    }

    /** `translate` for small pages. A page that was never mapped translates to 0 once its table is there. */
    method Translate(s: Frame, vaddr: nat) returns (r: Outcome, addr: Word)
      requires Ok(T()) && s in spaces
      modifies this
      ensures T() == old(T())
      ensures r == if vaddr % 0x1000 != 0 then NotAligned
                   else if Walk(mem, s, 4, PageOf(vaddr)) == Nothing
                     || !IsCanonical(GetAddr(Leaf(mem, s, PageOf(vaddr))))
                   then InvalidEntry else Fine
      ensures r == Fine ==> addr == GetAddr(Leaf(mem, s, PageOf(vaddr)))
    {
      if vaddr % 0x1000 != 0 {
        return NotAligned, 0;
      }
      var _, at, idx := GetPte(s, vaddr, false);
      if at == Nothing {
        return InvalidEntry, 0;
      }
      LeafIs(T(), s, PageOf(vaddr));
      addr := GetAddr(mem[at.a][idx]);
      r := if IsCanonical(addr) then Fine else InvalidEntry;
    }

    // ----- address spaces

    /** The kernel's page map, with the first table from the allocator. */
    constructor (frames: set<Frame>, first: Frame)
      requires first in frames && forall a {:trigger FrameOk(a)} | a in frames :: FrameOk(a)
      ensures Ok(T()) && kernel == first && spaces == {first} && pool == frames - {first} && mem.Keys == {first}
      ensures forall w: nat {:trigger Leaf(mem, first, w)} | w < PAGES :: Leaf(mem, first, w) == 0
    {
      mem, pool, kernel, spaces := map[first := EmptyTable()], frames - {first}, first, {first};
      slot, role := map[Role(first, 4, 0) := first], map[first := Role(first, 4, 0)];
      new;
      FirstSpace(T());
    }

    /** The loop that gives every entry of the kernel half a table, before there are other address spaces. */
    method FillKernelHalf() returns (panicked: bool)
      requires Ok(T()) && spaces == {kernel}
      modifies this
      ensures Ok(T()) && SameLeaves(old(T()), T()) && (panicked ==> pool == {})
      ensures !panicked ==> HalfFilled(T(), 512)
    {
      for i := 256 to 512
        invariant Ok(T()) && SameLeaves(old(T()), T()) && HalfFilled(T(), i)
      {
        KernelRoot(T());
        var made;
        panicked, made := GetLvl(kernel, i, true, Role(kernel, 4, 0));
        if panicked {
          return;
        }
      }
      panicked := false;
    }

    /** The part of `vmm::init` that maps the kernel binary; a segment that cannot be mapped is a panic. */
    method MapKernel(segments: seq<Segment>) returns (panicked: bool, ghost states: seq<State>, ghost ops: seq<Op>)
      requires Booted(T())
      modifies this
      ensures !panicked ==> Booted(T()) && (spaces, kernel) == old((spaces, kernel))
      ensures !panicked ==> History(states, ops) && |ops| == |segments| && states[0] == old(T()) && states[|ops|] == T()
      ensures !panicked ==> SegmentsMapped(kernel, segments, ops)
    {
      states, ops := [T()], [];
      for k := 0 to |segments|
        invariant Booted(T()) && (spaces, kernel) == old((spaces, kernel))
        invariant |ops| == k && History(states, ops) && states[0] == old(T()) && states[k] == T()
        invariant SegmentsMapped(kernel, segments[..k], ops)
      {
        var g := segments[k];
        KernelRoot(T());
        ghost var was := T();
        var r := Map(kernel, g.vaddr, g.paddr, g.size, g.flags, WriteBack);
        if r != Fine {
          return true, states, ops;
        }
        StepBooted(was, SegmentOp(kernel, g), T());
        HistoryGrows(states, ops, SegmentOp(kernel, g), T());
        SegmentsGrow(kernel, segments[..k], ops, g);
        states, ops := states + [T()], ops + [SegmentOp(kernel, g)];
        assert segments[..k + 1] == segments[..k] + [g];
      }
      assert segments[..|segments|] == segments;
      panicked := false;
    }

    /** The page map of a new address space. */
    method Open() returns (panicked: bool, s: Frame)
      requires Booted(T())
      modifies this
      ensures panicked ==> T() == old(T()) && pool == {}
      ensures !panicked ==> Took(old(T()), Create(s), T()) && Booted(T())
    {
      ghost var was := T();
      panicked, s := NewTable();
      if panicked {
        return;
      }
      OpenFacts(was, s);
      KernelRoot(was);
      OpenKeepsOk(was, s);
      mem := mem[s := mem[s][..256] + mem[kernel][256..]];
      spaces := spaces + {s};
      slot, role := slot[Role(s, 4, 0) := s], role[s := Role(s, 4, 0)];
      assert T() == Opened(was, s);
    }

    /** The recursive part of the destructor; it never frees what the leaves of level 1 point to. */
    method FreeTree(ptr: Frame, start: nat, end: nat, level: nat, ghost t: State, ghost r: Role)
      requires start <= end <= 512
      requires level > 0 ==> Ok(t) && r in t.slot && t.slot[r] == ptr && r.level == level
      requires level > 0 ==> forall a | a in Branch(t, r, start, end) + {ptr} ::
                 a in mem && a in t.mem && mem[a] == t.mem[a]
      modifies `mem, `pool
      ensures level == 0 ==> mem == old(mem) && pool == old(pool)
      ensures level > 0 ==> mem == old(mem) - Branch(t, r, start, end) - {ptr}
      ensures level > 0 ==> pool == old(pool) + Branch(t, r, start, end) + {ptr}
      decreases level
    {
      if level == 0 {
        return;
      }
      TreeTop(t, r);
      BranchEmpty(t, r, start);
      for i := start to end
        invariant mem == old(mem) - Branch(t, r, start, i) && pool == old(pool) + Branch(t, r, start, i)
      {
        BranchesGrow(t, r, start, i, end);
        var lvl := Follow(mem[ptr][i]);
        if lvl != Nothing {
          FreeTree(lvl.a, 0, 512, level - 1, t, Child(t, r, i));
        }
      }
      FreeTable(ptr);
    }

    /** `~pagemap`: every table of the user half is freed once, and nothing else. */
    method Close(s: Frame)
      requires Ok(T()) && s in spaces && s != kernel
      modifies this
      ensures Ok(T()) && Took(old(T()), Destroy(s), T())
    {
      ghost var was := T();
      WholeTree(was, s);
      OwnedPresent(was, s);
      CloseKeepsOk(was, s);
      FreeTree(s, 0, 256, 4, was, Role(s, 4, 0));
      spaces := spaces - {s};
      slot, role := Closed(was, s).slot, Closed(was, s).role;
      assert mem == Closed(was, s).mem && pool == Closed(was, s).pool;
    }
  }
}
