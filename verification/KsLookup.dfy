/** The two symbol lookups of the kernel over the tables of the compressor: by name, a binary search in
    `kallsyms_seqs_of_names`, and by address, one in `kallsyms_offsets`. */
module KsLookup {
  import opened Bytes
  import opened KsTokens
  import opened KsTables
  import opened KsDecode

  // ----- the order of names

  /** `strcmp` and `string_view::compare`: the sign says which name comes first. */
  function Compare(a: seq<Byte>, b: seq<Byte>): int {
    if a == [] && b == [] then 0
    else if a == [] then -1
    else if b == [] then 1
    else if a[0] != b[0] then a[0] - b[0]
    else Compare(a[1..], b[1..])
  }

  lemma {:induction false} CompareSigns(a: seq<Byte>, b: seq<Byte>)
    ensures Compare(a, b) == 0 <==> a == b
    ensures Compare(a, b) < 0 <==> Compare(b, a) > 0
  {
    if a != [] && b != [] && a[0] == b[0] {
      CompareSigns(a[1..], b[1..]);
      assert a == [a[0]] + a[1..] && b == [b[0]] + b[1..];
    }
  }

  lemma {:induction false} CompareTransitive(a: seq<Byte>, b: seq<Byte>, c: seq<Byte>)
    requires Compare(a, b) <= 0 && Compare(b, c) <= 0
    ensures Compare(a, c) <= 0
    ensures Compare(a, b) < 0 || Compare(b, c) < 0 ==> Compare(a, c) < 0
  {
    if a != [] && b != [] && c != [] && a[0] == b[0] == c[0] {
      CompareTransitive(a[1..], b[1..], c[1..]);
    }
  }

  // ----- the tables belong to a list of symbols

  /** The symbols as they were read: the type character and the name, and the address. */
  datatype Symbol = Symbol(typed: seq<Byte>, addr: nat) {
    function Name(): seq<Byte> { if typed == [] then [] else typed[1..] }
  }

  ghost predicate SymbolOk(s: Symbol, limit: nat) {
    s.typed != [] && |s.typed| <= limit && 0 !in s.Name()
  }

  /** Symbol k of the tables. */
  ghost predicate Entry(img: Image, t: Table, all: seq<seq<Byte>>, syms: seq<Symbol>, k: nat)
    requires TableOk(t) && k < |all| == |syms| == |img.offsets|
  {
    Expand(t, all[k]) == syms[k].typed && img.base + img.offsets[k] == syms[k].addr
  }

  ghost predicate AddrOrder(a: Symbol, b: Symbol) {
    a.addr <= b.addr
  }

  ghost predicate Ascending(syms: seq<Symbol>) {
    forall j, k {:trigger AddrOrder(syms[j], syms[k])} | 0 <= j < k < |syms| :: AddrOrder(syms[j], syms[k])
  }

  /** What `write_src` emits for the symbols, whose names are at most limit - 1 characters long. */
  ghost predicate Emitted(img: Image, t: Table, all: seq<seq<Byte>>, syms: seq<Symbol>, limit: nat) {
    && Encodes(img, t, all) && |all| == |syms| == |img.offsets| < 0x100_0000
    && (forall k {:trigger syms[k]} | 0 <= k < |syms| :: SymbolOk(syms[k], limit) && Entry(img, t, all, syms, k))
    && Ascending(syms)
  }

  /** `compare_names`, as a weak order. */
  ghost predicate NameOrder(a: Symbol, b: Symbol) {
    Compare(a.Name(), b.Name()) < 0 || (a.Name() == b.Name() && a.addr <= b.addr)
  }

  /** `order` lists all symbols by name; symbol k is at rank[k]. */
  ghost predicate ByName(syms: seq<Symbol>, order: seq<nat>, rank: seq<nat>) {
    && |order| == |rank| == |syms|
    && (forall i {:trigger order[i]} | 0 <= i < |order| :: order[i] < |syms|)
    && (forall k {:trigger rank[k]} | 0 <= k < |rank| :: rank[k] < |order| && order[rank[k]] == k)
    && (forall i, j {:trigger NameOrder(syms[order[i]], syms[order[j]])} | 0 <= i < j < |order| ::
          NameOrder(syms[order[i]], syms[order[j]]))
  }

  ghost predicate SeqsOf(seqs: seq<Byte>, order: seq<nat>) {
    |seqs| == 3 * |order| && forall i: nat {:trigger SeqAt(seqs, i, order[i])} | i < |order| :: SeqAt(seqs, i, order[i])
  }

  /** The last loop of `write_src`, over the symbols that `sort_symbols_by_name` has put in order. */
  method WriteSeqs(order: seq<nat>) returns (seqs: seq<Byte>)
    requires forall i {:trigger order[i]} | 0 <= i < |order| :: order[i] < 0x100_0000
    ensures SeqsOf(seqs, order)
  {
    seqs := [];
    for i := 0 to |order|
      invariant |seqs| == 3 * i
      invariant forall j: nat {:trigger SeqAt(seqs, j, order[j])} | j < i :: SeqAt(seqs, j, order[j])
    {
      ghost var was := seqs;
      seqs := seqs + [(order[i] / 65536) % 256, (order[i] / 256) % 256, order[i] % 256];
      forall j: nat {:trigger SeqAt(seqs, j, order[j])} | j <= i ensures SeqAt(seqs, j, order[j]) {
        if j < i {
          assert SeqAt(was, j, order[j]);
          SliceLeft(was, SeqBytes(order[i]), 3 * j, 3 * j + 3);
        } else {
          SliceRight(was, SeqBytes(order[i]));
        }
      }
    }
  }

  // ----- names in buffers

  /** What the name in the buffer is, for any buffer with room for a character: the name, as far as it fits. */
  lemma NameInBuffer(buf: seq<Byte>, was: seq<Byte>, max: nat, limit: nat, s: Symbol)
    requires SymbolOk(s, limit) && 0 < max <= |was| && Expanded(buf, was, max, s.typed)
    ensures CString(buf, 0) == if |s.Name()| < max then s.Name() else s.Name()[..max - 1]
  {
    var n := if |s.Name()| < max then |s.Name()| else max - 1;
    var name := s.Name()[..n];
    assert buf == name + [0] + was[n + 1..];
    assert buf[0..n] == name && buf[n] == 0;
    CStringIs(buf, 0, name);
  }

  /** `expand_symbol(sym_offset(sym_seq(i)), namebuf)` and the comparison with what is then in namebuf. */
  method CompareAt(img: Image, i: nat, name: seq<Byte>, limit: nat,
                   ghost t: Table, ghost all: seq<seq<Byte>>, ghost syms: seq<Symbol>, ghost order: seq<nat>)
    returns (ret: int)
    requires Emitted(img, t, all, syms, limit) && SeqsOf(img.seqs, order) && i < |order| && order[i] < |syms|
    ensures ret == Compare(name, syms[order[i]].Name())
  {
    var namebuf := new Byte[limit];
    ghost var was := namebuf[..];
    assert SeqAt(img.seqs, i, order[i]);
    var n := SymSeq(img, i, order[i]);
    assert SymbolOk(syms[n], limit) && Entry(img, t, all, syms, n);
    var off := SymOffset(img, n, t, all);
    ExpandName(img, off, namebuf, limit, t, all, n);
    NameInBuffer(namebuf[..], was, limit, limit, syms[n]);
    ret := Compare(name, CString(namebuf[..], 0));
  }

  // ----- by name

  /** Absent is the result -1; OutOfBounds is a read behind the tables, at an index of at least 2^31 - 1. */
  datatype Lookup = Found(addr: nat) | Absent | OutOfBounds

  /** `lookup(name)` finds the lowest address of the symbols of that name; the search leaves the tables when,
      and only when, the name comes before all symbols. */
  ghost predicate Answers(syms: seq<Symbol>, name: seq<Byte>, r: Lookup) {
    match r
    case Found(a) =>
      && (exists k :: 0 <= k < |syms| && syms[k].Name() == name && syms[k].addr == a)
      && (forall k {:trigger syms[k]} | 0 <= k < |syms| && syms[k].Name() == name :: a <= syms[k].addr)
    case Absent =>
      && (forall k {:trigger syms[k]} | 0 <= k < |syms| :: syms[k].Name() != name)
      && (exists k :: 0 <= k < |syms| && Compare(syms[k].Name(), name) < 0)
    case OutOfBounds =>
      forall k {:trigger syms[k]} | 0 <= k < |syms| :: Compare(name, syms[k].Name()) < 0
  }

  /** The entries of `order` before low are smaller than name, and those from high on are larger. */
  ghost predicate Narrowed(syms: seq<Symbol>, order: seq<nat>, name: seq<Byte>, low: nat, high: nat)
    requires forall i {:trigger order[i]} | 0 <= i < |order| :: order[i] < |syms|
  {
    && (forall i {:trigger order[i]} | 0 <= i < |order| && i < low :: Compare(name, syms[order[i]].Name()) > 0)
    && (forall i {:trigger order[i]} | high <= i < |order| :: Compare(name, syms[order[i]].Name()) < 0)
  }

  lemma NarrowLow(syms: seq<Symbol>, order: seq<nat>, rank: seq<nat>, name: seq<Byte>, low: nat, high: nat, mid: nat)
    requires ByName(syms, order, rank) && Narrowed(syms, order, name, low, high)
    requires mid < |order| && Compare(name, syms[order[mid]].Name()) > 0
    ensures Narrowed(syms, order, name, mid + 1, high)
  {
    forall i {:trigger order[i]} | 0 <= i < |order| && i < mid + 1
      ensures Compare(name, syms[order[i]].Name()) > 0
    {
      if i < mid {
        assert NameOrder(syms[order[i]], syms[order[mid]]);
        CompareSigns(syms[order[i]].Name(), syms[order[mid]].Name());
        Between(syms[order[i]].Name(), syms[order[mid]].Name(), name);
      }
    }
  }

  lemma NarrowHigh(syms: seq<Symbol>, order: seq<nat>, rank: seq<nat>, name: seq<Byte>, low: nat, high: nat, mid: nat)
    requires ByName(syms, order, rank) && Narrowed(syms, order, name, low, high)
    requires mid < |order| && Compare(name, syms[order[mid]].Name()) < 0
    ensures Narrowed(syms, order, name, low, mid)
  {
    forall i {:trigger order[i]} | mid <= i < |order|
      ensures Compare(name, syms[order[i]].Name()) < 0
    {
      if mid < i {
        assert NameOrder(syms[order[mid]], syms[order[i]]);
        CompareSigns(syms[order[mid]].Name(), syms[order[i]].Name());
        CompareTransitive(name, syms[order[mid]].Name(), syms[order[i]].Name());
      }
    }
  }

  lemma Between(a: seq<Byte>, b: seq<Byte>, c: seq<Byte>)
    requires Compare(a, b) <= 0 && Compare(c, b) > 0
    ensures Compare(c, a) > 0
  {
    CompareSigns(b, c);
    CompareTransitive(a, b, c);
    CompareSigns(a, c);
  }

  /** `kallsyms_num_syms - 1`, in 32 bits. */
  function Last(count: nat): (r: nat)
    requires count < 0x1_0000_0000
    ensures if count == 0 then r == 0xFFFF_FFFF else r == count - 1
  {
    (count - 1) % 0x1_0000_0000
  }

  /** The binary search: the index of an entry of that name, or nothing when the interval became empty. */
  method SearchName(img: Image, name: seq<Byte>, limit: nat, ghost t: Table, ghost all: seq<seq<Byte>>,
                    ghost syms: seq<Symbol>, ghost order: seq<nat>, ghost rank: seq<nat>)
    returns (outside: bool, found: bool, mid: nat)
    requires Emitted(img, t, all, syms, limit) && SeqsOf(img.seqs, order) && ByName(syms, order, rank)
    ensures outside ==> Narrowed(syms, order, name, 0, 0)
    ensures !outside && found ==> mid < |order| && syms[order[mid]].Name() == name
    ensures !outside && !found ==> exists low | 0 < low <= |order| :: Narrowed(syms, order, name, low, low)
  {
    var low: nat, high: nat := 0, Last(img.count);
    assert |order| == img.count;
    outside, found, mid := false, false, 0;
    while low <= high
      invariant Narrowed(syms, order, name, low, high + 1) && low <= |order|
      invariant high < |order| || (low == 0 && high >= 0xFFFF_FFFF && Narrowed(syms, order, name, 0, 0))
      invariant low <= high + 1
      decreases high + 1 - low
    {
      mid := low + (high - low) / 2;
      if mid >= img.count {
        outside := true;
        return;
      }
      var ret := CompareAt(img, mid, name, limit, t, all, syms, order);
      if ret > 0 {
        NarrowLow(syms, order, rank, name, low, high + 1, mid);
        low := mid + 1;
      } else if ret < 0 {
        NarrowHigh(syms, order, rank, name, low, high + 1, mid);
        if mid == 0 {
          // mid - 1 wraps around; the next index is 2^63 - 1
          outside := true;
          return;
        }
        high := mid - 1;
      } else {
        CompareSigns(name, syms[order[mid]].Name());
        found := true;
        return;
      }
    }
    assert Narrowed(syms, order, name, low, low);
  }

  method LookupName(img: Image, name: seq<Byte>, limit: nat, ghost t: Table, ghost all: seq<seq<Byte>>,
                    ghost syms: seq<Symbol>, ghost order: seq<nat>, ghost rank: seq<nat>)
    returns (r: Lookup)
    requires Emitted(img, t, all, syms, limit) && SeqsOf(img.seqs, order) && ByName(syms, order, rank)
    ensures Answers(syms, name, r)
    ensures r.OutOfBounds? <==> forall k {:trigger syms[k]} | 0 <= k < |syms| :: Compare(name, syms[k].Name()) < 0
  {
    var outside, found, mid := SearchName(img, name, limit, t, all, syms, order, rank);
    if outside || !found {
      r := if outside then OutOfBounds else Absent;
      NoneOfThatName(syms, order, rank, name, r);
      return;
    }
    var low: nat := mid;
    while low > 0
      invariant low <= mid && syms[order[low]].Name() == name
    {
      var ret := CompareAt(img, low - 1, name, limit, t, all, syms, order);
      CompareSigns(name, syms[order[low - 1]].Name());
      if ret != 0 {
        break;
      }
      low := low - 1;
    }
    assert SeqAt(img.seqs, low, order[low]);
    var n := SymSeq(img, low, order[low]);
    SymAddr(img, t, all, syms, limit, n);
    r := Found(img.base + img.offsets[n]);
    FirstIsLowest(syms, order, rank, name, low);
  }

  lemma NoneOfThatName(syms: seq<Symbol>, order: seq<nat>, rank: seq<nat>, name: seq<Byte>, r: Lookup)
    requires ByName(syms, order, rank)
    requires r == OutOfBounds ==> Narrowed(syms, order, name, 0, 0)
    requires r == Absent ==> exists low | 0 < low <= |order| :: Narrowed(syms, order, name, low, low)
    requires !r.Found?
    ensures Answers(syms, name, r)
    ensures r.OutOfBounds? <==> forall k {:trigger syms[k]} | 0 <= k < |syms| :: Compare(name, syms[k].Name()) < 0
  {
    CompareSigns(name, name);
    if r == OutOfBounds {
      forall k | 0 <= k < |syms| ensures Compare(name, syms[k].Name()) < 0 {
        assert order[rank[k]] == k;
      }
    } else {
      var low :| 0 < low <= |order| && Narrowed(syms, order, name, low, low);
      forall k | 0 <= k < |syms| ensures syms[k].Name() != name {
        assert order[rank[k]] == k;
      }
      CompareSigns(syms[order[0]].Name(), name);
    }
  }

  lemma FirstIsLowest(syms: seq<Symbol>, order: seq<nat>, rank: seq<nat>, name: seq<Byte>, low: nat)
    requires ByName(syms, order, rank) && low < |order| && syms[order[low]].Name() == name
    requires low > 0 ==> syms[order[low - 1]].Name() != name
    ensures Answers(syms, name, Found(syms[order[low]].addr))
    ensures exists k :: 0 <= k < |syms| && Compare(name, syms[k].Name()) >= 0
  {
    CompareSigns(name, name);
    var a := syms[order[low]];
    forall k {:trigger syms[k]} | 0 <= k < |syms| && syms[k].Name() == name ensures a.addr <= syms[k].addr {
      assert order[rank[k]] == k;
      if low > 0 {
        var b := syms[order[low - 1]];
        assert NameOrder(b, a);
        assert rank[k] < low - 1 ==> NameOrder(syms[order[rank[k]]], b);
        CompareSigns(b.Name(), name);
        CompareSigns(name, b.Name());
        assert rank[k] >= low;
      }
      assert rank[k] > low ==> NameOrder(a, syms[order[rank[k]]]);
    }
  }

  /** The only symbol is b, and a is looked up: neither an address nor -1 is an answer. */
  lemma BeforeAll(addr: nat, r: Lookup)
    requires Answers([Symbol([84, 98], addr)], [97], r)
    ensures r == OutOfBounds
  {
    var syms := [Symbol([84, 98], addr)];
    assert syms[0].Name() == [98];
    assert Compare([97], syms[0].Name()) < 0 && Compare(syms[0].Name(), [97]) > 0;
  }

  // ----- by address

  /** Symbol low is the first of those at the greatest address up to addr, or of those at the lowest address. */
  ghost predicate Nearest(syms: seq<Symbol>, addr: nat, low: nat) {
    && low < |syms|
    && (low > 0 ==> syms[low].addr <= addr)
    && (forall k {:trigger syms[k]} | 0 <= k < |syms| ::
          && (k < low ==> syms[k].addr < syms[low].addr)
          && (low <= k ==> syms[k].addr == syms[low].addr || syms[k].addr > addr))
  }

  ghost predicate Bracketed(syms: seq<Symbol>, addr: nat, low: nat, high: nat) {
    && low < high <= |syms|
    && (low > 0 ==> syms[low].addr <= addr)
    && (high < |syms| ==> addr < syms[high].addr)
  }

  lemma BracketIsNearest(syms: seq<Symbol>, addr: nat, last: nat, low: nat)
    requires Ascending(syms) && Bracketed(syms, addr, last, last + 1) && low <= last
    requires syms[low].addr == syms[last].addr && (low > 0 ==> syms[low - 1].addr != syms[low].addr)
    ensures Nearest(syms, addr, low)
  {
    forall k {:trigger syms[k]} | 0 <= k < |syms|
      ensures k < low ==> syms[k].addr < syms[low].addr
      ensures low <= k ==> syms[k].addr == syms[low].addr || syms[k].addr > addr
    {
      assert low > 0 ==> AddrOrder(syms[low - 1], syms[low]);
      assert k < low - 1 ==> AddrOrder(syms[k], syms[low - 1]);
      assert low < k ==> AddrOrder(syms[low], syms[k]);
      assert k < last ==> AddrOrder(syms[k], syms[last]);
      assert last + 1 < k ==> AddrOrder(syms[last + 1], syms[k]);
    }
  }

  /** The binary search of `lookup(addr)`. */
  method BisectAddr(img: Image, addr: nat, ghost t: Table, ghost all: seq<seq<Byte>>, ghost syms: seq<Symbol>,
                    ghost limit: nat) returns (low: nat)
    requires Emitted(img, t, all, syms, limit) && syms != []
    ensures Bracketed(syms, addr, low, low + 1)
  {
    low := 0;
    var high: nat := img.count;
    while high - low > 1
      invariant Bracketed(syms, addr, low, high)
    {
      var mid := low + (high - low) / 2;
      SymAddr(img, t, all, syms, limit, mid);
      if img.base + img.offsets[mid] <= addr {
        low := mid;
      } else {
        high := mid;
      }
    }
  }

  /** And its way back to the first symbol at that address. */
  method SearchAddr(img: Image, addr: nat, ghost t: Table, ghost all: seq<seq<Byte>>, ghost syms: seq<Symbol>,
                    ghost limit: nat) returns (low: nat)
    requires Emitted(img, t, all, syms, limit) && syms != []
    ensures Nearest(syms, addr, low)
  {
    low := BisectAddr(img, addr, t, all, syms, limit);
    ghost var last := low;
    while low > 0 && img.offsets[low - 1] == img.offsets[low]
      invariant low <= last < |syms| && syms[low].addr == syms[last].addr
    {
      SameOffset(img, t, all, syms, limit, low);
      low := low - 1;
    }
    if low > 0 {
      SameOffset(img, t, all, syms, limit, low);
    }
    BracketIsNearest(syms, addr, last, low);
  }

  lemma SameOffset(img: Image, t: Table, all: seq<seq<Byte>>, syms: seq<Symbol>, limit: nat, k: nat)
    requires Emitted(img, t, all, syms, limit) && 0 < k < |syms|
    ensures img.offsets[k - 1] == img.offsets[k] <==> syms[k - 1].addr == syms[k].addr
  {
    SymAddr(img, t, all, syms, limit, k - 1);
    SymAddr(img, t, all, syms, limit, k);
  }

  /** `sym_addr` */
  lemma SymAddr(img: Image, t: Table, all: seq<seq<Byte>>, syms: seq<Symbol>, limit: nat, k: nat)
    requires Emitted(img, t, all, syms, limit) && k < |syms|
    ensures img.base + img.offsets[k] == syms[k].addr && Expand(t, all[k]) == syms[k].typed
  {
    assert SymbolOk(syms[k], limit) && Entry(img, t, all, syms, k);
  }

  /** OutOfTables is a read of `kallsyms_offsets` without any entry. */
  datatype AddrLookup = Unknown | Offset(offset: nat) | OutOfTables

  /** The address of the next symbol behind those at the address of symbol low, or 0. */
  method SymbolEnd(img: Image, low: nat, ghost t: Table, ghost all: seq<seq<Byte>>, ghost syms: seq<Symbol>,
                   ghost limit: nat) returns (end: nat)
    requires Emitted(img, t, all, syms, limit) && low < |syms|
    requires forall k {:trigger syms[k]} | 0 <= k < low :: syms[k].addr <= syms[low].addr
    ensures end == 0 <==> forall k {:trigger syms[k]} | 0 <= k < |syms| :: syms[k].addr <= syms[low].addr
  {
    SymAddr(img, t, all, syms, limit, low);
    var start := img.base + img.offsets[low];
    end := 0;
    for i := low + 1 to img.count
      invariant end == 0
      invariant forall k {:trigger syms[k]} | 0 <= k < i :: syms[k].addr <= start
    {
      SymAddr(img, t, all, syms, limit, i);
      if img.base + img.offsets[i] > start {
        end := img.base + img.offsets[i];
        break;
      }
    }
  }

  /** `lookup(addr)`: the distance to the nearest symbol, whose name goes to namebuf, unless no symbol follows. */
  method LookupAddr(img: Image, addr: nat, inKernel: bool, namebuf: array<Byte>, limit: nat,
                    ghost t: Table, ghost all: seq<seq<Byte>>, ghost syms: seq<Symbol>)
    returns (r: AddrLookup, ghost low: nat)
    requires Emitted(img, t, all, syms, limit)
    modifies namebuf
    ensures !inKernel ==> r == Unknown
    ensures r == OutOfTables <==> inKernel && syms == []
    ensures inKernel && syms != [] ==> Nearest(syms, addr, low)
    ensures inKernel && syms != [] ==>
              (r == Unknown <==> forall k {:trigger syms[k]} | 0 <= k < |syms| :: syms[k].addr <= syms[low].addr)
    ensures !r.Offset? ==> namebuf[..] == old(namebuf[..])
    ensures r.Offset? ==> r.offset == (addr - syms[low].addr) % 0x1_0000_0000_0000_0000
    ensures r.Offset? ==> Expanded(namebuf[..], old(namebuf[..]),
                                   if namebuf.Length < limit then namebuf.Length else limit, syms[low].typed)
  {
    if !inKernel {
      return Unknown, 0;
    }
    if img.count == 0 {
      return OutOfTables, 0;
    }
    var at := SearchAddr(img, addr, t, all, syms, limit);
    low := at;
    SymAddr(img, t, all, syms, limit, at);
    var start := img.base + img.offsets[at];
    var end := SymbolEnd(img, at, t, all, syms, limit);
    if end == 0 {
      return Unknown, low;
    }
    var off := SymOffset(img, at, t, all);
    ExpandName(img, off, namebuf, limit, t, all, at);
    r := Offset((addr - start) % 0x1_0000_0000_0000_0000);
  }
}
