/** `pmm::allocator`: the buddy allocator of physical pages. */
module Pmm {
  import opened Sizes
  import opened Dyadic
  import opened PmmLists
  import opened PmmTiles
  import opened PmmState
  import opened PmmComplete

  /** The greatest order that fits into size bytes and to which base is aligned, or -1 when base is not even page
      aligned. */
  method ChunkOrder(base: nat, size: nat) returns (o: int)
    requires size >= PAGE_SIZE
    ensures o < 0 <==> base % PAGE_SIZE != 0
    ensures o >= 0 ==> o <= MAX_ORDER && Pow2(o) <= size / PAGE_SIZE && Aligned(base / PAGE_SIZE, o)
    ensures forall j: nat | 0 <= o < j <= MAX_ORDER && Pow2(j) <= size / PAGE_SIZE :: !Aligned(base / PAGE_SIZE, j)
  {
    var sorder := FloorOrder(size / PAGE_SIZE);
    ghost var f, n := base / PAGE_SIZE, size / PAGE_SIZE;
    o := if sorder < MAX_ORDER then sorder else MAX_ORDER;
    ghost var top: nat := o;
    Pow2Monotone(o, sorder);
    ChunkTest(base, o);
    while o >= 0 && base % (PAGE_SIZE * Pow2(o)) != 0
      invariant -1 <= o <= top && (o >= 0 ==> Pow2(o) <= n && BlockAligned(base, o))
      invariant forall j: nat | o < j <= top :: !(base % PAGE_SIZE == 0 && Aligned(f, j))
    {
      if o > 0 {
        Pow2Monotone(o - 1, o);
        ChunkTest(base, o - 1);
      }
      o := o - 1;
    }
    forall j: nat | 0 <= o < j <= MAX_ORDER && Pow2(j) <= n ensures !Aligned(f, j) {
      NotAbove(n, sorder, top, j);
    }
    assert Aligned(f, 0);
  }

  /** A block above the greatest order that was tried does not fit. */
  lemma NotAbove(n: nat, sorder: nat, top: nat, j: nat)
    requires n < 2 * Pow2(sorder) && Pow2(j) <= n && j <= MAX_ORDER
    requires top == if sorder < MAX_ORDER then sorder else MAX_ORDER
    ensures j <= top
  {
    var next := sorder + 1;
    assert Pow2(next) == 2 * Pow2(sorder);
    if j >= next {
      Pow2Monotone(next, j);
    }
  }

  /** The loop test says whether a block of order o may start at base. */
  ghost predicate BlockAligned(base: nat, o: nat) {
    base % (PAGE_SIZE * Pow2(o)) == 0 <==> base % PAGE_SIZE == 0 && Aligned(base / PAGE_SIZE, o)
  }

  lemma ChunkTest(base: nat, o: nat)
    ensures BlockAligned(base, o)
  {
    if base % PAGE_SIZE == 0 {
      FrameAligned(base / PAGE_SIZE, o);
    } else if base % (PAGE_SIZE * Pow2(o)) == 0 {
      PagesOfBlock(base, o);
    }
  }

  lemma Advance(base: nat, size: nat, p: nat)
    requires p <= size / PAGE_SIZE
    ensures PAGE_SIZE * p <= size
    ensures (base + PAGE_SIZE * p) / PAGE_SIZE == base / PAGE_SIZE + p
    ensures (base + PAGE_SIZE * p) % PAGE_SIZE == base % PAGE_SIZE
    ensures base / PAGE_SIZE + p <= (base + size) / PAGE_SIZE
  {
  }

  class Allocator {
    // the addresses this allocator manages
    const start: nat
    const end: nat
    // list heads
    var lists: seq<nat>
    // the list nodes, which live in the first bytes of free pages, by frame number
    var prev: seq<nat>
    var next: seq<nat>
    // the page database, by frame number
    var nextPaddr: seq<nat>
    var order: seq<nat>
    var used: seq<bool>

    ghost var stacks: Stacks
    ghost var tiling: Tiling

    ghost function L(): Lists
      reads `lists, `prev, `next
    {
      Lists(lists, prev, next)
    }

    ghost function P(): Pages
      reads `nextPaddr, `order, `used
    {
      Pages(nextPaddr, order, used)
    }

    ghost function M(): State
      reads this
    {
      State(L(), stacks, P(), tiling)
    }

    ghost predicate Valid()
      reads this
    {
      Ok(M())
    }

    method Put(k: nat, pg: nat)
      requires k < |lists| && pg < |prev| == |next| && lists[k] < |prev|
      modifies `lists, `prev, `next
      ensures L() == Pushed(old(L()), k, pg)
    {
      next := next[pg := lists[k]];
      prev := prev[pg := 0];
      if lists[k] != 0 {
        prev := prev[lists[k] := pg];
      }
      lists := lists[k := pg];
    }

    /** Takes the head off list k. */
    method Rem(k: nat) returns (ret: nat)
      requires k < |lists| && lists[k] < |prev| == |next| && next[lists[k]] < |prev| && prev[lists[k]] == 0
      modifies `lists, `prev
      ensures ret == old(lists[k]) && L() == Unlinked(old(L()), k, ret)
    {
      ret := lists[k];
      lists := lists[k := next[lists[k]]];
      if lists[k] != 0 {
        prev := prev[lists[k] := 0];
      }
    }

    /** Takes pg out of list k, wherever it is. */
    method Unlink(k: nat, pg: nat)
      requires k < |lists| && pg < |prev| == |next| && next[pg] < |prev| && prev[pg] < |prev|
      modifies `lists, `prev, `next
      ensures L() == Unlinked(old(L()), k, pg)
    {
      if prev[pg] != 0 {
        next := next[prev[pg] := next[pg]];
      } else {
        lists := lists[k := next[pg]];
      }
      if next[pg] != 0 {
        prev := prev[next[pg] := prev[pg]];
      }
    }

    /** The head of list k + 1 becomes two blocks of list k. */
    method SplitOne(k: nat)
      requires Valid() && k + 1 < ORDERS && lists[k + 1] != 0
      modifies this
      ensures Valid() && Same(old(M()), M()) && lists[k] != 0
    {
      ghost var m := M();
      SplitReadyLists(m, k);
      SplitReady(m, lists[k + 1], k);
      var pg := Rem(k + 1);
      var buddy := pg + Pow2(k);
      assert !used[pg] && !used[buddy];
      order := order[pg := k];
      order := order[buddy := k];
      nextPaddr := nextPaddr[buddy := nextPaddr[pg]];
      nextPaddr := nextPaddr[pg := buddy];
      Put(k, pg);
      Put(k, buddy);
      stacks := Push(Push(Drop(m.s, pg), k, pg), k, buddy);
      tiling := Rehead(tiling, buddy, buddy + Pow2(k), buddy);
      SplitKeepsOk(m, M(), pg, k, buddy);
    }

    /** Splits the smallest free block above the target order until the target list has blocks; does nothing when
        there is no such block. */
    method SplitTo(target: nat)
      requires Valid() && target < MAX_ORDER
      modifies this
      ensures Valid() && Same(old(M()), M())
      ensures lists[target] == 0 ==>
                M() == old(M()) && forall j | target < j < ORDERS :: lists[j] == 0
    {
      var current := target + 1;
      while lists[current] == 0
        invariant target < current < ORDERS && M() == old(M())
        invariant forall j | target < j < current :: lists[j] == 0
        decreases ORDERS - current
      {
        current := current + 1;
        if current > MAX_ORDER {
          return;
        }
      }
      while current > target
        invariant target <= current < ORDERS && Valid() && Same(old(M()), M()) && lists[current] != 0
      {
        ghost var m := M();
        SplitOne(current - 1);
        current := current - 1;
        SameTransitive(old(M()), m, M());
      }
    }

    /** curr of list k and the buddy after it become one block of list k + 1. */
    method MergeOne(curr: nat, k: nat)
      requires CanMerge(M(), curr, k) && Quiescent(M(), k)
      modifies this
      ensures Valid() && Same(old(M()), M()) && Quiescent(M(), k)
      ensures |stacks.list[k]| == |old(stacks.list[k])| - 2
      ensures forall j | k + 1 < j < ORDERS :: stacks.list[j] == old(stacks.list[j])
    {
      ghost var m := M();
      MergeReady(m, curr, k);
      var buddy := nextPaddr[curr];
      MergeReadyLists(m, curr, k, buddy);
      Unlink(k, curr);
      Unlink(k, buddy);
      order := order[curr := k + 1];
      nextPaddr := nextPaddr[curr := nextPaddr[buddy]];
      Put(k + 1, curr);
      stacks := Push(Drop(Drop(m.s, curr), buddy), k + 1, curr);
      tiling := Rehead(tiling, buddy, buddy + Pow2(k), curr);
      MergeListsOk(m, M(), curr, k, buddy);
      MergeKeepsOk(m, M(), curr, k, buddy);
      MergeKeepsQuiescent(m, M(), curr, k, buddy);
    }

    /** The inner loop of the scan: on to the next block whose record says that it is a left half with a block
        behind it, or to the end of the list. */
    method NextLeftHalf(k: nat, start: nat) returns (curr: nat)
      requires ScanAt(M(), k, start)
      ensures ScanTo(M(), k, curr)
      ensures curr != 0 ==>
                && stacks.rank[curr] <= stacks.rank[start] && nextPaddr[curr] != 0 && curr % Pow2(k + 1) == 0
    {
      curr := start;
      while nextPaddr[curr] == 0 || curr % Pow2(k + 1) != 0
        invariant ScanAt(M(), k, curr) && stacks.rank[curr] <= stacks.rank[start]
        decreases stacks.rank[curr]
      {
        ScanTest(M(), k, curr);
        ScanNext(M(), k, curr);
        curr := next[curr];
        if curr == 0 {
          return;
        }
      }
    }

    /** One round of `coalesce_to`: goes through list k, starting over after every merge, until no block of order k
        can merge. */
    method CoalesceOrder(k: nat)
      requires Valid() && k + 1 < ORDERS && Quiescent(M(), k)
      modifies this
      ensures Valid() && Same(old(M()), M()) && Quiescent(M(), k + 1)
      ensures forall j | k + 1 < j < ORDERS :: stacks.list[j] == old(stacks.list[j])
    {
      var curr: nat := lists[k];
      ScanStart(M(), k);
      while lists[k] != 0 && curr != 0
        invariant ScanTo(M(), k, curr) && Same(old(M()), M()) && Quiescent(M(), k)
        invariant forall j | k + 1 < j < ORDERS :: stacks.list[j] == old(stacks.list[j])
        invariant lists[k] == 0 ==> curr == 0
        decreases |stacks.list[k]|, if curr != 0 then 1 + stacks.rank[curr] else 0
      {
        curr := NextLeftHalf(k, curr);
        if curr != 0 {
          ScanTest(M(), k, curr);
          assert !used[curr] && order[curr] == k;
          if used[nextPaddr[curr]] || order[nextPaddr[curr]] != k {
            ScanNext(M(), k, curr);
            curr := next[curr];
          } else {
            ghost var m := M();
            MergeOne(curr, k);
            SameTransitive(old(M()), m, M());
            curr := lists[k];
            ScanStart(M(), k);
          }
        }
      }
      ScannedQuiescent(M(), k);
    }

    /** Merges free buddies of all orders below the target. */
    method CoalesceTo(goal: nat)
      requires Valid()
      modifies this
      ensures var target := if goal > MAX_ORDER then MAX_ORDER else goal;
              && Valid() && Same(old(M()), M()) && Quiescent(M(), target)
              && forall j | target < j < ORDERS :: stacks.list[j] == old(stacks.list[j])
    {
      if goal == 0 {
        return;
      }
      var target := if goal > MAX_ORDER then MAX_ORDER else goal;
      for k := 0 to target
        invariant Valid() && Same(old(M()), M()) && Quiescent(M(), k)
        invariant forall j | target < j < ORDERS :: stacks.list[j] == old(stacks.list[j])
      {
        ghost var m := M();
        CoalesceOrder(k);
        SameTransitive(old(M()), m, M());
      }
    }

    /** The `found` part of `alloc`. */
    method TakeHead(o: nat) returns (r: nat)
      requires Valid() && o < ORDERS && lists[o] != 0
      modifies this
      ensures Valid() && r != 0 && HandedOut(old(M()), M(), r, o)
    {
      ghost var m := M();
      TopListed(L(), stacks, o);
      NeighboursListed(L(), stacks, lists[o]);
      ListedIsFree(m, lists[o]);
      ListedRun(m, lists[o], o);
      r := Rem(o);
      assert !used[r] && order[r] == o;
      used := used[r := true];
      stacks := Drop(stacks, r);
      TakeKeepsOk(m, M(), r);
    }

    /** Hands out a naturally aligned block of the least power of two of at least npages pages, and fails exactly when
        no such run is free inside any chunk. When the size in bytes does not fit 64 bits, the block is too small. */
    method Alloc(npages: nat) returns (r: nat, size: nat)
      requires Valid()
      modifies this
      ensures Valid() && (r == 0 ==> size == 0) && (Asked(npages) == 0 ==> r == 0 && M() == old(M()))
      ensures Asked(npages) > 0 ==>
                var o := CeilOrder(Asked(npages));
              && (o > MAX_ORDER ==> r == 0 && M() == old(M()))
              && (o <= MAX_ORDER ==>
                    && (r != 0 <==> exists a: nat :: FreeRun(old(M()), a, o))
                    && (r != 0 ==> HandedOut(old(M()), M(), r, o) && size == PAGE_SIZE * Pow2(o))
                    && (npages <= Pow2(o) <==> npages * PAGE_SIZE < WRAP)
                    && (r == 0 ==> Same(old(M()), M())))
      ensures 0 < npages && npages * PAGE_SIZE < WRAP ==>
                && (r != 0 ==> npages * PAGE_SIZE <= size < 2 * (npages * PAGE_SIZE))
                && (0x8000 < npages ==> r == 0)
                && forall o: nat {:trigger Rounds(o, npages)} | Rounds(o, npages) ::
                     Granted(old(M()), M(), r, o, npages)
    {
      r, size := 0, 0;
      if 0 < npages && npages * PAGE_SIZE < WRAP {
        PlainAsk(npages);
      }
      if Asked(npages) == 0 {
        return;
      }
      var o := CeilOrder(Asked(npages));
      if o > MAX_ORDER {
        return;
      }
      AskedIs(npages, o);
      Refill(o);
      if lists[o] == 0 {
        return;
      }
      ghost var m := M();
      r := TakeHead(o);
      size := PAGE_SIZE * Pow2(o);
      SameThenHandedOut(old(M()), m, M(), r, o);
    }

    /** The part of `alloc` that runs when list o is empty: split a larger block, or else coalesce. */
    method Refill(o: nat)
      requires Valid() && o <= MAX_ORDER
      modifies this
      ensures Valid() && Same(old(M()), M())
      ensures lists[o] == 0 ==> forall a: nat :: !FreeRun(old(M()), a, o)
    {
      if lists[o] == 0 {
        if o == MAX_ORDER {
          CoalesceTo(MAX_ORDER);
        } else {
          SplitTo(o);
          if lists[o] == 0 && o != 0 {
            TopsEmpty(M());
            CoalesceTo(o);
          }
        }
        if lists[o] == 0 {
          TopsEmpty(M());
          NothingToHandOut(old(M()), M(), o);
        }
      }
    }

    /** Takes back a block that `Alloc` handed out for npages pages. */
    method Free(ptr: nat, npages: nat) returns (size: nat)
      requires Valid()
      requires Asked(npages) > 0 && CeilOrder(Asked(npages)) <= MAX_ORDER ==> Live(M(), ptr, CeilOrder(Asked(npages)))
      modifies this
      ensures Valid() && (Asked(npages) == 0 ==> size == 0 && M() == old(M()))
      ensures Asked(npages) > 0 ==>
                var o := CeilOrder(Asked(npages));
              && (o > MAX_ORDER ==> size == 0 && M() == old(M()))
              && (o <= MAX_ORDER ==> size == npages * PAGE_SIZE % WRAP && TakenBack(old(M()), M(), ptr, o))
      ensures 0 < npages && npages * PAGE_SIZE < WRAP ==>
                if 0x8000 < npages then size == 0 && M() == old(M())
                else size == npages * PAGE_SIZE
                     && forall o: nat {:trigger Rounds(o, npages)} | Rounds(o, npages) ::
                          TakenBack(old(M()), M(), ptr, o)
    {
      if 0 < npages && npages * PAGE_SIZE < WRAP {
        PlainAsk(npages);
      }
      if Asked(npages) == 0 {
        return 0;
      }
      var o := CeilOrder(Asked(npages));
      if o > MAX_ORDER {
        return 0;
      }
      GiveBack(ptr, o);
      return npages * PAGE_SIZE % WRAP;
    }

    /** The block goes back to its list; the checks before it hold. */
    method GiveBack(ptr: nat, o: nat)
      requires Valid() && o <= MAX_ORDER && Live(M(), ptr, o)
      modifies this
      ensures Valid() && TakenBack(old(M()), M(), ptr, o)
    {
      ghost var m := M();
      TopListed(L(), stacks, o);
      assert used[ptr] && order[ptr] == o;
      used := used[ptr := false];
      Put(o, ptr);
      stacks := Push(stacks, o, ptr);
      GiveKeepsOk(m, M(), ptr, o);
    }

    constructor (frames: nat, start: nat, end: nat)
      requires frames > 0
      ensures Valid() && this.start == start && this.end == end && |order| == frames
      ensures Vacant(tiling, 0, frames)
      ensures forall f :: !FreeAt(M(), f)
      ensures forall h, o :: !Live(M(), h, o)
    {
      this.start, this.end := start, end;
      lists := seq(ORDERS, _ => 0);
      prev, next := seq(frames, _ => 0), seq(frames, _ => 0);
      nextPaddr, order, used := seq(frames, _ => 0), seq(frames, _ => 0), seq(frames, _ => false);
      stacks := Stacks(seq(ORDERS, _ => []), seq(frames, _ => -1), seq(frames, _ => 0));
      tiling := Tiling(seq(frames, _ => 0), seq(frames, _ => 0), seq(frames, _ => 0));
    }

    /** The body of the loop of `add_range`: a chunk of 2^o frames at frame c. */
    method AddBlock(c: nat, o: nat)
      requires Valid() && 0 < c < |order| && o < ORDERS && Aligned(c, o) && Vacant(tiling, c, c + Pow2(o))
      modifies this
      ensures Valid() && SameLive(old(M()), M()) && ChunkAdded(old(tiling), tiling, c, o)
      ensures forall f {:trigger FreeAt(M(), f)} :: FreeAt(M(), f) <==> FreeAt(old(M()), f) || c <= f < c + Pow2(o)
    {
      ghost var m := M();
      VacantIsUnmanaged(m.p, m.t, c, c + Pow2(o));
      TopListed(L(), stacks, o);
      order := order[c := o];
      Put(o, c);
      stacks := Push(stacks, o, c);
      tiling := AddChunk(tiling, c, c + Pow2(o), o);
      GrowKeepsOk(m, M(), c, o);
    }

    /** Adds the whole pages of a range of fresh memory as chunks of the greatest possible orders, and returns how many
        bytes are left over. */
    method AddRange(base0: nat, size0: nat) returns (size: nat)
      requires Valid() && start >= PAGE_SIZE
      requires start <= base0 && base0 + size0 <= end && base0 % PAGE_SIZE == 0 ==>
                 Vacant(tiling, base0 / PAGE_SIZE, (base0 + size0) / PAGE_SIZE)
      modifies this
      ensures Valid() && SameLive(old(M()), M())
      ensures if base0 < start || end < base0 + size0 || base0 % PAGE_SIZE != 0 then
                size == size0 && SameFree(old(M()), M()) && SameChunks(old(M()), M())
              else
                && size == size0 % PAGE_SIZE
                && RangeAdded(old(M()), M(), base0 / PAGE_SIZE, (base0 + size0) / PAGE_SIZE,
                     (base0 + size0) / PAGE_SIZE)
    {
      size := size0;
      if base0 < start || base0 + size0 > end {
        return;
      }
      var base := base0;
      ghost var first, last := base0 / PAGE_SIZE, (base0 + size0) / PAGE_SIZE;
      while size >= PAGE_SIZE
        invariant Valid() && SameLive(old(M()), M())
        invariant base + size == base0 + size0 && base0 <= base && base % PAGE_SIZE == base0 % PAGE_SIZE
        invariant base0 % PAGE_SIZE != 0 ==> size == size0 && base == base0 && M() == old(M())
        invariant base0 % PAGE_SIZE == 0 ==> RangeAdded(old(M()), M(), first, base / PAGE_SIZE, last)
      {
        var o := ChunkOrder(base, size);
        if o < 0 {
          break;
        }
        Advance(base, size, Pow2(o));
        AddNext(base, size, o, old(M()), first, last);
        size := size - PAGE_SIZE * Pow2(o);
        base := base + PAGE_SIZE * Pow2(o);
      }
    }

    /** One round of it, with a chunk of the greatest possible order. */
    method AddNext(base: nat, size: nat, o: nat, ghost was: State, ghost first: nat, ghost last: nat)
      requires Valid() && SameLive(was, M()) && Vacant(was.t, first, last) && |was.t.span| == |was.t.chunk|
      requires 0 < PAGE_SIZE <= base && base % PAGE_SIZE == 0 && last == (base + size) / PAGE_SIZE
      requires RangeAdded(was, M(), first, base / PAGE_SIZE, last) && o <= MAX_ORDER && Pow2(o) <= size / PAGE_SIZE
      requires GreatestOrder(base / PAGE_SIZE, size / PAGE_SIZE, o) && Aligned(base / PAGE_SIZE, o)
      modifies this
      ensures Valid() && SameLive(was, M()) && RangeAdded(was, M(), first, base / PAGE_SIZE + Pow2(o), last)
    {
      FramesLeft(base, size);
      ghost var before := M();
      VacantRest(was, before, first, base / PAGE_SIZE, last, base / PAGE_SIZE + Pow2(o));
      AddBlock(base / PAGE_SIZE, o);
      RangeGrows(was, before, M(), first, base / PAGE_SIZE, last, o);
    }
  }

  /** The pages that a request comes down to, as its size in bytes has 64 bits. */
  function Asked(npages: nat): nat {
    npages * PAGE_SIZE % WRAP / PAGE_SIZE
  }

  /** The block is as large as was meant unless the size has wrapped around. */
  lemma AskedIs(npages: nat, o: nat)
    requires Asked(npages) > 0 && o == CeilOrder(Asked(npages)) <= MAX_ORDER
    ensures npages <= Pow2(o) <==> npages * PAGE_SIZE < WRAP
  {
    Pow2Monotone(o, MAX_ORDER);
    assert Pow2(8) == 256 && Pow2(MAX_ORDER) == 128 * Pow2(8);
  }

  /** 2^o pages are enough for n, and half as many are not. */
  predicate Rounds(o: nat, n: nat) {
    n <= Pow2(o) && (o > 0 ==> Pow2(o - 1) < n)
  }

  /** For n pages a block of order o is handed out if and only if there is a free run of that order. */
  ghost predicate Granted(m: State, m': State, r: nat, o: nat, n: nat) {
    && (n <= 0x8000 ==> (r != 0 <==> exists a: nat :: FreeRun(m, a, o)))
    && (r != 0 ==> HandedOut(m, m', r, o))
  }

  lemma RoundsOnce(o: nat, n: nat)
    requires n > 0
    ensures Rounds(o, n) <==> o == CeilOrder(n)
  {
    var c := CeilOrder(n);
    if Rounds(o, n) && o < c {
      Pow2Monotone(o, c - 1);
    }
    if Rounds(o, n) && c < o {
      Pow2Monotone(c, o - 1);
    }
  }

  /** What a request is when its size fits 64 bits. */
  lemma PlainAsk(n: nat)
    requires 0 < n && n * PAGE_SIZE < WRAP
    ensures Asked(n) == n && (CeilOrder(n) > MAX_ORDER <==> 0x8000 < n)
    ensures forall o: nat {:trigger Rounds(o, n)} :: Rounds(o, n) <==> o == CeilOrder(n)
    ensures n <= Pow2(CeilOrder(n)) < 2 * n
  {
    PlainSize(n);
    OrderFits(n, CeilOrder(n));
    forall o: nat ensures Rounds(o, n) <==> o == CeilOrder(n) {
      RoundsOnce(o, n);
    }
  }

  lemma PlainSize(n: nat)
    requires n * PAGE_SIZE < WRAP
    ensures Asked(n) == n
  {
  }

  lemma OrderFits(n: nat, c: nat)
    requires n > 0 && Rounds(c, n)
    ensures c > MAX_ORDER <==> 0x8000 < n
  {
    assert Pow2(8) == 256 && Pow2(MAX_ORDER) == 128 * Pow2(8);
    if c > MAX_ORDER {
      Pow2Monotone(MAX_ORDER, c - 1);
    } else {
      Pow2Monotone(c, MAX_ORDER);
    }
  }

  /** 2^52 + 1 pages come down to one. */
  lemma AskedWraps()
    ensures Asked(0x10_0000_0000_0001) == 1
  {
  }

  /** The chunks are those of before and one more. */
  ghost predicate ChunkAdded(t: Tiling, t': Tiling, c: nat, o: nat) {
    && c < |t.span| && t'.span == t.span[c := o] && |t'.chunk| == |t.chunk|
    && forall f {:trigger t'.chunk[f]} | 0 <= f < |t.chunk| :: t'.chunk[f] == if c <= f < c + Pow2(o) then c
                                                                              else t.chunk[f]
  }

  /** Of a range of frames that ends at e, those before x have become free chunks; chunks elsewhere are as they were. */
  ghost predicate RangeAdded(m: State, m': State, first: nat, x: nat, e: nat) {
    && |m'.t.chunk| == |m.t.chunk| && |m'.t.span| == |m.t.span| && first <= x <= e
    && (forall f {:trigger FreeAt(m', f)} :: FreeAt(m', f) <==> FreeAt(m, f) || first <= f < x)
    && (forall f {:trigger m'.t.chunk[f]} | 0 <= f < |m.t.chunk| && !(first <= f < x) :: m'.t.chunk[f] == m.t.chunk[f])
    && (forall f {:trigger m'.t.span[f]} | 0 <= f < |m.t.span| && !(first <= f < x) :: m'.t.span[f] == m.t.span[f])
    && forall f: nat {:trigger CutAt(m'.t, f, e)} | first <= f < x :: CutAt(m'.t, f, e)
  }

  lemma FramesLeft(base: nat, size: nat)
    requires base % PAGE_SIZE == 0
    ensures base / PAGE_SIZE + size / PAGE_SIZE == (base + size) / PAGE_SIZE
  {
  }

  lemma VacantRest(m: State, m': State, first: nat, x: nat, e: nat, y: nat)
    requires Vacant(m.t, first, e) && RangeAdded(m, m', first, x, e) && x <= y <= e
    ensures Vacant(m'.t, x, y)
  {
  }

  lemma RangeGrows(m: State, m': State, m'': State, first: nat, x: nat, e: nat, o: nat)
    requires RangeAdded(m, m', first, x, e) && Vacant(m.t, first, e) && |m.t.span| == |m.t.chunk|
    requires ChunkAdded(m'.t, m''.t, x, o) && 0 < x && GreatestOrder(x, e - x, o)
    requires forall f {:trigger FreeAt(m'', f)} :: FreeAt(m'', f) <==> FreeAt(m', f) || x <= f < x + Pow2(o)
    ensures RangeAdded(m, m'', first, x + Pow2(o), e)
  {
    var y := x + Pow2(o);
    forall f: nat | first <= f < y ensures CutAt(m''.t, f, e) {
      if f < x {
        assert CutAt(m'.t, f, e);
        CutStays(m'.t, m''.t, f, x, o, e);
      }
    }
    forall f ensures FreeAt(m'', f) <==> FreeAt(m, f) || first <= f < y {
      assert FreeAt(m', f) <==> FreeAt(m, f) || first <= f < x;
    }
  }

  lemma CutStays(t: Tiling, t': Tiling, f: nat, x: nat, o: nat, e: nat)
    requires CutAt(t, f, e) && f < x && ChunkAdded(t, t', x, o) && |t.span| == |t.chunk|
    ensures CutAt(t', f, e)
  {
    assert t'.chunk[f] == t.chunk[f] && t'.chunk[t.chunk[f]] == t.chunk[f];
  }

  /** Adding a range leaves every free run where it was. */
  lemma RunsStay(m: State, m': State, first: nat, e: nat, a: nat, k: nat)
    requires Ok(m) && Ok(m') && Vacant(m.t, first, e) && RangeAdded(m, m', first, e, e) && FreeRun(m, a, k)
    ensures FreeRun(m', a, k)
  {
    var d := m.t.chunk[a];
    assert FreeAt(m, a) && FreeAt(m', a);
    assert FrameOk(m.p, m.t, a);
    assert m'.t.chunk[a] == d && m'.t.chunk[d] == d && m'.t.span[d] == m.t.span[d];
    forall f | a <= f < a + Pow2(k) ensures FreeAt(m', f) {
      assert FreeAt(m, f);
    }
  }

  /** A multiple of a block size is a multiple of the page size. */
  lemma PagesOfBlock(base: nat, o: nat)
    requires base % (PAGE_SIZE * Pow2(o)) == 0
    ensures base % PAGE_SIZE == 0
  {
    var q := base / (PAGE_SIZE * Pow2(o));
    assert base == (PAGE_SIZE * Pow2(o)) * q;
    assert (PAGE_SIZE * Pow2(o)) * q == PAGE_SIZE * (Pow2(o) * q);
    MultipleMod(PAGE_SIZE, Pow2(o) * q);
  }
}
