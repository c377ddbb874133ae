/** Page-table entries of x86-64 and the accessor that changes them. */
module PtEntry {

  type Word = bv64

  /** A page frame, by its physical address. */
  datatype Frame = At(addr: Word)

  const PA_MASK: Word := 0x000F_FFFF_FFFF_F000
  const PRESENT: Word := 0x1
  const NEW_TABLE_FLAGS: Word := 0x7

  // ----- the accessor

  function ClearFlags(e: Word): Word { e & PA_MASK }

  function SetFlags(e: Word, flags: Word): Word { e | flags }

  function GetFlags(e: Word): Word { e & !PA_MASK }

  function SetAddr(e: Word, paddr: Word): Word { (e & !PA_MASK) | (paddr & PA_MASK) }

  function GetAddr(e: Word): Word { e & PA_MASK }

  function IsCanonical(addr: Word): bool {
    addr < 0x0000_8000_0000_0000 || addr >= 0xFFFF_8000_0000_0000
  }

  /** `getlvl` takes the entry for a table. */
  predicate Link(e: Word) {
    e & PRESENT == PRESENT && IsCanonical(GetAddr(e))
  }

  function Target(e: Word): Frame { At(GetAddr(e)) }

  // ----- what the callers build with it

  /** Where the allocator finds frames. */
  predicate FrameOk(a: Frame) {
    a.addr & PA_MASK == a.addr && a.addr < 0x0000_8000_0000_0000
  }

  function TableEntry(a: Frame): Word {
    SetFlags(SetAddr(0, a.addr), NEW_TABLE_FLAGS)
  }

  function LeafEntry(paddr: Word, flags: Word): Word {
    SetFlags(SetAddr(0, paddr), flags)
  }

  function Reflagged(e: Word, flags: Word): Word {
    SetFlags(ClearFlags(e), flags)
  }

  lemma TableEntryLinks(a: Frame)
    requires FrameOk(a)
    ensures Link(TableEntry(a)) && Target(TableEntry(a)) == a
  {
    TableEntryAddr(a);
    TableEntryPresent(a);
    LinkIs(TableEntry(a), a);
  }

  lemma TableEntryAddr(a: Frame)
    requires a.addr & PA_MASK == a.addr
    ensures GetAddr(TableEntry(a)) == a.addr
  {
  }

  lemma TableEntryPresent(a: Frame)
    ensures TableEntry(a) & PRESENT == PRESENT
  {
  }

  lemma LinkIs(e: Word, a: Frame)
    requires e & PA_MASK == a.addr && e & PRESENT == PRESENT && FrameOk(a)
    ensures Link(e) && Target(e) == a
  {
  }

  lemma LeafEntryHolds(paddr: Word, flags: Word)
    requires flags & PA_MASK == 0
    ensures GetAddr(LeafEntry(paddr, flags)) == paddr & PA_MASK && GetFlags(LeafEntry(paddr, flags)) == flags
  {
  }

  lemma ReflaggedKeepsAddr(e: Word, flags: Word)
    requires flags & PA_MASK == 0
    ensures GetAddr(Reflagged(e, flags)) == GetAddr(e) && GetFlags(Reflagged(e, flags)) == flags
    ensures Reflagged(Reflagged(e, flags), flags) == Reflagged(e, flags)
  {
  }

  // ----- flags

  datatype Pflags = Pflags(read: bool, write: bool, exec: bool, user: bool, global: bool)

  datatype Caching =
    | Uncacheable | UncacheableStrong | WriteThrough | WriteProtected | WriteCombining | WriteBack | Device

  function Bit(on: bool, flag: Word): Word { if on then flag else 0 }

  /** `to_arch` for small pages. */
  function ToArch(flags: Pflags, cache: Caching): Word {
    Bit(flags.read, 0x1) | Bit(flags.write, 0x2) | Bit(flags.user, 0x4) | Bit(flags.global, 0x100)
    | Bit(!flags.exec, 0x8000_0000_0000_0000)
    | match cache
      case Uncacheable => 0x10
      case UncacheableStrong => 0x18
      case Device => 0x18
      case WriteThrough => 0x8
      case WriteProtected => 0x80
      case WriteCombining => 0x88
      case WriteBack => 0
  }

  /** `from_arch` for small pages. */
  function FromArch(flags: Word): (Pflags, Caching) {
    var pat, pcd, pwt := flags & 0x80 != 0, flags & 0x10 != 0, flags & 0x8 != 0;
    (Pflags(flags & 0x1 != 0, flags & 0x2 != 0, flags & 0x8000_0000_0000_0000 == 0,
            flags & 0x4 != 0, flags & 0x100 != 0),
     if !pat && !pcd && pwt then WriteThrough
     else if !pat && pcd && !pwt then Uncacheable
     else if !pat && pcd && pwt then UncacheableStrong
     else if pat && !pcd && !pwt then WriteProtected
     else if pat && !pcd && pwt then WriteCombining
     else WriteBack)
  }

  /** Flags and caching survive the entry, with device memory read back as strongly uncacheable; the flag bits do
      not touch the address. */
  lemma ArchRoundTrip(flags: Pflags, cache: Caching)
    ensures ToArch(flags, cache) & PA_MASK == 0
    ensures FromArch(ToArch(flags, cache)) == (flags, if cache == Device then UncacheableStrong else cache)
  {
    var w := ToArch(flags, cache);
    assert w & 0x1 != 0 <==> flags.read;
    assert w & 0x2 != 0 <==> flags.write;
    assert w & 0x4 != 0 <==> flags.user;
    assert w & 0x100 != 0 <==> flags.global;
    assert w & 0x8000_0000_0000_0000 == 0 <==> flags.exec;
  }
}
