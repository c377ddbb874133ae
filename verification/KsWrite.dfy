/** The compressor from the sorted symbols to the finished tables: `record_relative_base`, `optimize_token_table`
    and `write_src`. */
module KsWrite {
  import opened Bytes
  import opened KsTokens
  import opened KsTables
  import opened KsCompress
  import opened KsLookup

  ghost function Typed(syms: seq<Symbol>): (r: seq<seq<Byte>>)
    ensures |r| == |syms| && forall k {:trigger r[k]} | 0 <= k < |syms| :: r[k] == syms[k].typed
  {
    seq(|syms|, k requires 0 <= k < |syms| => syms[k].typed)
  }

  /** What the codes in the buffers are. */
  method Symbols(c: Compressor, ghost all: seq<seq<Byte>>) returns (r: seq<seq<Byte>>)
    requires c.Holds(all)
    ensures r == all
  {
    r := [];
    for k := 0 to |c.buffers|
      invariant r == all[..k]
    {
      assert HoldsSymbol(c.buffers[k][..], c.len[k], all[k]);
      r := r + [c.buffers[k][..c.len[k]]];
    }
  }

  /** The offset of an address fits 32 bits. */
  predicate InReach(base: nat, addr: nat) {
    base <= addr <= base + 0xFFFF_FFFF
  }

  /** `kallsyms_offsets`; it gives up on an address below the first, or 4 GiB or more above it. */
  method WriteOffsets(addrs: seq<nat>) returns (ok: bool, base: nat, offsets: seq<nat>)
    ensures ok <==> forall k {:trigger addrs[k]} | 0 <= k < |addrs| :: InReach(addrs[0], addrs[k])
    ensures ok ==> |offsets| == |addrs| && forall k {:trigger offsets[k]} | 0 <= k < |addrs| ::
              base + offsets[k] == addrs[k]
  {
    base := if addrs == [] then 0 else addrs[0];
    offsets := [];
    for k := 0 to |addrs|
      invariant |offsets| == k
      invariant forall j {:trigger addrs[j]} | 0 <= j < k :: InReach(addrs[0], addrs[j])
      invariant forall j {:trigger offsets[j]} | 0 <= j < k :: base + offsets[j] == addrs[j]
    {
      var offset := addrs[k] - base;
      if offset < 0 || offset > 0xFFFF_FFFF {
        return false, base, [];
      }
      offsets := offsets + [offset];
    }
    ok := true;
  }

  /** The symbols as `read_map` and `sort_symbols` leave them. */
  ghost predicate Sorted(syms: seq<Symbol>, addrs: seq<nat>, limit: nat) {
    && |addrs| == |syms| < 0x100_0000 && limit <= 0x3FFF
    && (forall k {:trigger syms[k]} | 0 <= k < |syms| :: SymbolOk(syms[k], limit) && addrs[k] == syms[k].addr)
    && Ascending(syms)
  }

  lemma CompressedIsShort(c: Compressor, all: seq<seq<Byte>>, syms: seq<Symbol>, addrs: seq<nat>, limit: nat)
    requires Sorted(syms, addrs, limit) && c.Compressed(all, Typed(syms), -1)
    ensures Short(all)
    ensures forall k {:trigger all[k]} | 0 <= k < |all| :: Expand(c.bestTable, all[k]) == syms[k].typed
  {
    forall k {:trigger all[k]} | 0 <= k < |all|
      ensures Fits(all[k]) && Expand(c.bestTable, all[k]) == syms[k].typed
    {
      assert Typed(syms)[k] == syms[k].typed && SymbolOk(syms[k], limit);
    }
  }

  lemma SameAddrs(syms: seq<Symbol>, addrs: seq<nat>, limit: nat)
    requires Sorted(syms, addrs, limit)
    ensures forall k {:trigger addrs[k]} | 0 <= k < |addrs| :: addrs[k] == syms[k].addr
  {
    forall k {:trigger addrs[k]} | 0 <= k < |addrs| ensures addrs[k] == syms[k].addr {
      assert SymbolOk(syms[k], limit);
    }
  }

  /** `write_src`, with the table as `sort_symbols_by_name` orders it in `order`. */
  method WriteSrc(c: Compressor, addrs: seq<nat>, order: seq<nat>, limit: nat,
                  ghost all: seq<seq<Byte>>, ghost syms: seq<Symbol>)
    returns (ok: bool, fits: bool, img: Image)
    requires Sorted(syms, addrs, limit) && forall i {:trigger order[i]} | 0 <= i < |order| :: order[i] < |syms|
    requires c.Holds(all) && c.Compressed(all, Typed(syms), -1)
    ensures ok <==> forall k {:trigger addrs[k]} | 0 <= k < |addrs| :: InReach(addrs[0], addrs[k])
    ensures TableOk(c.bestTable) && (fits <==> ShortTexts(c.bestTable))
    ensures ok ==> (fits <==> Emitted(img, c.bestTable, all, syms, limit)) && SeqsOf(img.seqs, order)
  {
    CompressedIsShort(c, all, syms, addrs, limit);
    SameAddrs(syms, addrs, limit);
    var codes := Symbols(c, all);
    var named, names, markers := WriteNames(codes);
    var tokens, index;
    tokens, index, fits := WriteTokens(c.bestTable);
    IndexIs(c.bestTable, index);
    var inRange, base, offsets := WriteOffsets(addrs);
    var seqs := WriteSeqs(order);
    ok := named && inRange;
    img := Image(|codes|, names, markers, tokens, index, offsets, base, seqs);
    if ok && fits {
      assert Encodes(img, c.bestTable, all);
      forall k {:trigger syms[k]} | 0 <= k < |syms|
        ensures SymbolOk(syms[k], limit) && Entry(img, c.bestTable, all, syms, k)
      {
        assert Expand(c.bestTable, all[k]) == syms[k].typed && base + offsets[k] == addrs[k];
      }
    }
  }

  /** From the sorted symbols in their buffers to the tables: whatever tokens it picks, the tables belong to the
      symbols, so that the kernel's lookups answer for them. */
  method Generate(c: Compressor, addrs: seq<nat>, order: seq<nat>, limit: nat, ghost syms: seq<Symbol>)
    returns (ok: bool, fits: bool, img: Image, ghost all: seq<seq<Byte>>)
    requires Sorted(syms, addrs, limit) && forall k {:trigger syms[k]} | 0 <= k < |syms| :: 0 !in syms[k].typed
    requires c.Holds(Typed(syms)) && forall i {:trigger order[i]} | 0 <= i < |order| :: order[i] < |syms|
    requires |c.profit| == 0x10000 && forall t | 0 <= t < 0x10000 :: c.profit[t] == 0
    requires |c.bestTable| == 256 && forall b: Byte :: c.bestTable[b] == []
    modifies c`profit, c`len, c`bestTable, c.buffers
    ensures ok <==> forall k {:trigger addrs[k]} | 0 <= k < |addrs| :: InReach(addrs[0], addrs[k])
    ensures TableOk(c.bestTable) && (fits <==> ShortTexts(c.bestTable))
    ensures ok ==> (fits <==> Emitted(img, c.bestTable, all, syms, limit)) && SeqsOf(img.seqs, order)
  {
    all := c.OptimizeTokenTable(Typed(syms));
    ok, fits, img := WriteSrc(c, addrs, order, limit, all, syms);
  }

  /** The compressor and the kernel together: with the tables as they were generated, looking up a name gives the
      lowest address of the symbols of that name. */
  method GenerateAndLookup(c: Compressor, addrs: seq<nat>, order: seq<nat>, limit: nat, name: seq<Byte>,
                           ghost syms: seq<Symbol>, ghost rank: seq<nat>)
    returns (ok: bool, fits: bool, r: Lookup)
    requires Sorted(syms, addrs, limit) && forall k {:trigger syms[k]} | 0 <= k < |syms| :: 0 !in syms[k].typed
    requires c.Holds(Typed(syms)) && ByName(syms, order, rank)
    requires |c.profit| == 0x10000 && forall t | 0 <= t < 0x10000 :: c.profit[t] == 0
    requires |c.bestTable| == 256 && forall b: Byte :: c.bestTable[b] == []
    modifies c`profit, c`len, c`bestTable, c.buffers
    ensures ok <==> forall k {:trigger addrs[k]} | 0 <= k < |addrs| :: InReach(addrs[0], addrs[k])
    ensures TableOk(c.bestTable) && (fits <==> ShortTexts(c.bestTable))
    ensures ok && fits ==> Answers(syms, name, r)
  {
    var img;
    ghost var all;
    ok, fits, img, all := Generate(c, addrs, order, limit, syms);
    r := Absent;
    if ok && fits {
      r := LookupName(img, name, limit, c.bestTable, all, syms, order, rank);
    }
  }
}
