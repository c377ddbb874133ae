/** What the processor makes of the page tables: which accesses it lets through, and how it caches them. */
module PtAccess {
  import opened PtEntry
  import opened PtState

  /** Besides reading. */
  datatype Access = Access(write: bool, exec: bool, user: bool)

  /** One entry lets an access through: bit 0 is set, bit 1 for a write, bit 2 for user code, and bit 63 is clear for
      fetching an instruction. */
  predicate Lets(e: Word, x: Access) {
    && e & 0x1 != 0
    && (x.write ==> e & 0x2 != 0)
    && (x.user ==> e & 0x4 != 0)
    && (x.exec ==> e & 0x8000_0000_0000_0000 == 0)
  }

  /** The entries on the way to page v all let it through, from table a of a level down. */
  ghost predicate Permits(mem: map<Frame, seq<Word>>, a: Frame, level: nat, v: nat, x: Access)
    requires level > 0
    decreases level
  {
    && a in mem && |mem[a]| == 512
    && var e := mem[a][Index(v, level)]; Lets(e, x) && (level == 1 || Permits(mem, Target(e), level - 1, v, x))
  }

  lemma TableEntryLets(a: Frame, x: Access)
    requires FrameOk(a)
    ensures Lets(TableEntry(a), x) && !Lets(0, x)
  {
    EntryBits(a.addr);
  }

  lemma EntryBits(addr: Word)
    requires addr & PA_MASK == addr
    ensures var e := ((0 & !PA_MASK) | (addr & PA_MASK)) | NEW_TABLE_FLAGS;
            e & 0x1 != 0 && e & 0x2 != 0 && e & 0x4 != 0 && e & 0x8000_0000_0000_0000 == 0
  {
  }

  lemma {:induction false} PermitsFrom(t: State, s: Frame, v: nat, level: nat, x: Access)
    requires Ok(t) && 1 <= level <= 4 && OnPath(t, s, v, level) in t.slot
    ensures Permits(t.mem, t.slot[OnPath(t, s, v, level)], level, v, x) <==>
            LeafRole(t, s, v) in t.slot && t.slot[LeafRole(t, s, v)] in t.mem
            && |t.mem[t.slot[LeafRole(t, s, v)]]| == 512 && Lets(t.mem[t.slot[LeafRole(t, s, v)]][v % 512], x)
    decreases level
  {
    var r := OnPath(t, s, v, level);
    assert RoleOk(t, r);
    assert TableOk(t, t.slot[r]);
    if level == 1 {
      assert Index(v, 1) == v % 512;
    } else {
      OnPathStep(t, s, v, level);
      assert LinkOk(t, r, Index(v, level));
      var c := OnPath(t, s, v, level - 1);
      if c in t.slot {
        assert RoleOk(t, c);
        assert TableOk(t, t.slot[c]);
        TableEntryLets(t.slot[c], x);
        PermitsFrom(t, s, v, level - 1, x);
      } else {
        TableEntryLets(t.slot[r], x);
        if LeafRole(t, s, v) in t.slot {
          PathClosed(t, s, v, level - 1);
        }
      }
    }
  }

  /** The tables above let everything through, so that the leaf alone decides. */
  lemma PermitsIs(t: State, s: Frame, v: nat, x: Access)
    requires Ok(t) && s in t.spaces && v < PAGES
    ensures Permits(t.mem, s, 4, v, x) <==> Lets(Leaf(t.mem, s, v), x)
  {
    TopPrefix(v);
    assert SpaceOk(t, s);
    assert OnPath(t, s, v, 4) == Role(s, 4, 0) && RoleOk(t, Role(s, 4, 0));
    PermitsFrom(t, s, v, 4, x);
    LeafIs(t, s, v);
    assert !Lets(0, x);
  }

  /** Which accesses an entry with certain flags lets through. */
  lemma FlagsLet(e: Word, flags: Pflags, cache: Caching, x: Access)
    requires GetFlags(e) == ToArch(flags, cache)
    ensures Lets(e, x) <==>
            flags.read && (x.write ==> flags.write) && (x.user ==> flags.user) && (x.exec ==> flags.exec)
  {
    var f := GetFlags(e);
    FlagBits(e);
    ArchBits(flags, cache);
  }

  lemma FlagBits(e: Word)
    ensures e & 0x1 == (e & !PA_MASK) & 0x1 && e & 0x2 == (e & !PA_MASK) & 0x2 && e & 0x4 == (e & !PA_MASK) & 0x4
    ensures e & 0x8000_0000_0000_0000 == (e & !PA_MASK) & 0x8000_0000_0000_0000
  {
  }

  lemma ArchBits(flags: Pflags, cache: Caching)
    ensures var w := ToArch(flags, cache);
            && (w & 0x1 != 0 <==> flags.read) && (w & 0x2 != 0 <==> flags.write) && (w & 0x4 != 0 <==> flags.user)
            && (w & 0x8000_0000_0000_0000 == 0 <==> flags.exec)
  {
  }

  // ----- caching

  /** The register 0x277, as it is written at the start: one byte for each memory type that an entry can select. */
  const BOOT_PAT: Word := 0x0105_0007_0406

  /** The byte that bits 7, 4 and 3 of an entry select. */
  function Selected(e: Word): Word {
    var low := if e & 0x10 == 0 then (if e & 0x8 == 0 then BOOT_PAT else BOOT_PAT >> 8)
               else if e & 0x8 == 0 then BOOT_PAT >> 16 else BOOT_PAT >> 24;
    var high := if e & 0x10 == 0 then (if e & 0x8 == 0 then BOOT_PAT >> 32 else BOOT_PAT >> 40)
                else if e & 0x8 == 0 then BOOT_PAT >> 48 else BOOT_PAT >> 56;
    (if e & 0x80 == 0 then low else high) & 0xFF
  }

  /** How the processor codes the memory types. */
  function MemoryType(cache: Caching): Word {
    match cache
    case UncacheableStrong => 0
    case Device => 0
    case WriteCombining => 1
    case WriteThrough => 4
    case WriteProtected => 5
    case WriteBack => 6
    case Uncacheable => 7
  }

  /** A page is cached as it was asked for. */
  lemma CachedAs(flags: Pflags, cache: Caching)
    ensures Selected(ToArch(flags, cache)) == MemoryType(cache)
  {
    var w := ToArch(flags, cache);
    CacheBits(flags, cache);
  }

  lemma CacheBits(flags: Pflags, cache: Caching)
    ensures var w := ToArch(flags, cache);
            && (w & 0x80 != 0 <==> cache.WriteProtected? || cache.WriteCombining?)
            && (w & 0x10 != 0 <==> cache.Uncacheable? || cache.UncacheableStrong? || cache.Device?)
            && (w & 0x8 != 0 <==> cache in {UncacheableStrong, Device, WriteThrough, WriteCombining})
  {
  }
}
