/** Why an allocation that fails after coalescing really had to fail. */
module PmmComplete {
  import opened Dyadic
  import opened PmmLists
  import opened PmmTiles
  import opened PmmState
  import T = PmmTiles

  /** No two free buddies of an order below k are left. */
  ghost predicate Quiescent(m: State, k: nat)
    requires T.Sizes(m.p, m.t)
  {
    forall h {:trigger Mergeable(m.p, m.t, h, m.p.order[h])} |
      0 <= h < |m.p.order| && m.p.order[h] < k :: !Mergeable(m.p, m.t, h, m.p.order[h])
  }

  /** 2^k free frames, naturally aligned, inside one chunk as it was added. */
  ghost predicate FreeRun(m: State, a: nat, k: nat) {
    && T.Sizes(m.p, m.t) && Aligned(a, k) && 0 < a && a + Pow2(k) <= |m.t.block|
    && Base(m.t, m.t.chunk[a])
    && a + Pow2(k) <= m.t.chunk[a] + Pow2(m.t.span[m.t.chunk[a]])
    && forall f {:trigger FreeAt(m, f)} | a <= f < a + Pow2(k) :: FreeAt(m, f)
  }

  /** Without free buddies, one free block covers the whole of any free run. */
  lemma {:induction false} RunIsCovered(m: State, a: nat, j: nat, k: nat)
    requires Ok(m) && FreeRun(m, a, j) && Quiescent(m, k) && j <= k
    ensures Covers(m, a, j)
    decreases j
  {
    if j == 0 {
      assert FreeAt(m, a);
      assert FrameOk(m.p, m.t, a);
      assert BlockOk(m.p, m.t, m.t.block[a]);
    } else {
      HalfRuns(m, a, j);
      RunIsCovered(m, a, j - 1, k);
      RunIsCovered(m, a + Pow2(j - 1), j - 1, k);
      HalvesCover(m, a, j, k);
    }
  }

  /** When both halves are covered and the buddies could have been merged, the whole is covered. */
  lemma HalvesCover(m: State, a: nat, j: nat, k: nat)
    requires Ok(m) && FreeRun(m, a, j) && Quiescent(m, k) && 0 < j <= k
    requires Covers(m, a, j - 1) && Covers(m, a + Pow2(j - 1), j - 1)
    ensures Covers(m, a, j)
  {
    var h, mid := m.t.block[a], a + Pow2(j - 1);
    assert FreeAt(m, a);
    assert FrameOk(m.p, m.t, a);
    assert BlockOk(m.p, m.t, h);
    Halves(a, j - 1);
    HalfRuns(m, a, j);
    if m.p.order[h] >= j {
      Nested(h, m.p.order[h], a, j);
    } else {
      BuddiesMergeable(m, a, j);
    }
  }

  /** Two free blocks that cover the halves of a run, but not the run, are buddies that can be merged. */
  lemma BuddiesMergeable(m: State, a: nat, j: nat)
    requires Ok(m) && FreeRun(m, a, j) && 0 < j
    requires Covers(m, a, j - 1) && Covers(m, a + Pow2(j - 1), j - 1) && m.p.order[m.t.block[a]] < j
    ensures Mergeable(m.p, m.t, m.t.block[a], m.p.order[m.t.block[a]])
  {
    var mid := a + Pow2(j - 1);
    assert BlockOk(m.p, m.t, m.t.block[a]);
    HalfBlock(m, a, j);
    assert BlockOk(m.p, m.t, mid);
    OtherHalf(m, a, j);
  }

  /** The block at a is free and reaches over the 2^j frames from a on. */
  ghost predicate Covers(m: State, a: nat, j: nat)
    requires Ok(m)
  {
    && FreeAt(m, a) && Head(m.t, m.t.block[a]) && m.t.block[a] <= a
    && m.p.order[m.t.block[a]] < ORDERS
    && a + Pow2(j) <= m.t.block[a] + Pow2(m.p.order[m.t.block[a]])
  }

  lemma HalfRuns(m: State, a: nat, j: nat)
    requires Ok(m) && FreeRun(m, a, j) && j != 0
    ensures FreeRun(m, a, j - 1) && FreeRun(m, a + Pow2(j - 1), j - 1)
  {
    var mid := a + Pow2(j - 1);
    Halves(a, j - 1);
    assert FrameOk(m.p, m.t, a);
    assert FreeAt(m, a);
    assert BlockOk(m.p, m.t, m.t.block[a]);
    assert ChunkOk(m.t, m.t.chunk[a]);
    assert m.t.chunk[mid] == m.t.chunk[a];
    forall f | a <= f < a + Pow2(j - 1) ensures FreeAt(m, f) {
    }
    forall f | mid <= f < mid + Pow2(j - 1) ensures FreeAt(m, f) {
    }
  }

  /** A block that covers the left half of a run but not the run is the left half. */
  lemma HalfBlock(m: State, a: nat, j: nat)
    requires Ok(m) && FreeRun(m, a, j) && j != 0
    requires var h := m.t.block[a];
             && Head(m.t, h) && h <= a && m.p.order[h] < j && a + Pow2(j - 1) <= h + Pow2(m.p.order[h])
    ensures m.t.block[a] == a && m.p.order[a] == j - 1 && BlockOk(m.p, m.t, a) && !m.p.used[a]
    ensures Head(m.t, a + Pow2(j - 1)) && m.p.next[a] == a + Pow2(j - 1)
  {
    var h := m.t.block[a];
    Pow2Monotone(m.p.order[h], j - 1);
    assert BlockOk(m.p, m.t, h);
    assert FreeAt(m, a);
  }

  /** Then the block on its right is the right half. */
  lemma OtherHalf(m: State, a: nat, j: nat)
    requires Ok(m) && FreeRun(m, a, j) && j != 0 && Head(m.t, a + Pow2(j - 1))
    requires var mid := a + Pow2(j - 1); BlockOk(m.p, m.t, mid) && Pow2(j - 1) <= Pow2(m.p.order[mid])
    ensures m.p.order[a + Pow2(j - 1)] == j - 1 && !m.p.used[a + Pow2(j - 1)]
  {
    var mid := a + Pow2(j - 1);
    var o := m.p.order[mid];
    assert FreeAt(m, mid);
    if o >= j {
      AlignedSmaller(mid, j, o);
      Nested(a, j, mid, j);
    }
    if o < j - 1 {
      Pow2Monotone(o, j - 1);
    }
  }

  /** With no free buddies below k, a free run of 2^k frames exists exactly when a free list from k up has an item. */
  lemma RunNeedsBlock(m: State, k: nat)
    requires Ok(m) && Quiescent(m, k) && k < ORDERS
    ensures (exists a: nat :: FreeRun(m, a, k)) <==> exists j | k <= j < ORDERS :: m.s.list[j] != []
  {
    if a: nat :| FreeRun(m, a, k) {
      RunIsCovered(m, a, k, k);
      var h := m.t.block[a];
      FreeIsListed(m, h);
      assert Frame(m.l, m.s, h);
      if m.p.order[h] < k {
        Pow2Monotone(m.p.order[h], k);
      }
      assert m.s.list[m.p.order[h]] != [];
    }
    if j: nat :| k <= j < ORDERS && m.s.list[j] != [] {
      BlockGivesRun(m, j, k);
    }
  }

  /** The first 2^k frames of any free block of order at least k are a free run. */
  lemma BlockGivesRun(m: State, j: nat, k: nat)
    requires Ok(m) && k <= j < ORDERS && m.s.list[j] != []
    ensures FreeRun(m, m.s.list[j][0], k)
  {
    var h := m.s.list[j][0];
    assert Slot(m.s, j, 0);
    ListedIsFree(m, h);
    ListedRun(m, h, k);
  }

  lemma ListedRun(m: State, h: nat, k: nat)
    requires Ok(m) && Listed(m.s, h) && k <= m.s.home[h] && m.s.home[h] < ORDERS
    ensures FreeRun(m, h, k)
  {
    ListedIsFree(m, h);
    AlignedSmaller(h, k, m.s.home[h]);
    Pow2Monotone(k, m.s.home[h]);
    forall f | h <= f < h + Pow2(k) ensures FreeAt(m, f) {
      assert m.t.block[f] == h;
    }
  }

  /** A run is a matter of the free frames and the chunks alone. */
  lemma SameRuns(m: State, m': State, k: nat)
    requires Ok(m) && Ok(m') && SameFree(m, m') && SameChunks(m, m')
    ensures forall a: nat :: FreeRun(m, a, k) <==> FreeRun(m', a, k)
  {
    forall a: nat ensures FreeRun(m, a, k) <==> FreeRun(m', a, k) {
      if FreeRun(m, a, k) {
        assert forall f {:trigger FreeAt(m', f)} | a <= f < a + Pow2(k) :: FreeAt(m', f);
      }
      if FreeRun(m', a, k) {
        forall f | a <= f < a + Pow2(k) ensures FreeAt(m, f) {
          assert FreeAt(m', f);
        }
      }
    }
  }

  /** Merging at order k leaves the lower orders alone. */
  lemma MergeKeepsQuiescent(m: State, m': State, h: nat, k: nat, b: nat)
    requires Ok(m) && Merging(m.p, m'.p, m.t, m'.t, h, k, b) && Quiescent(m, k)
    ensures Quiescent(m', k)
  {
    forall g | 0 <= g < |m'.p.order| && m'.p.order[g] < k
      ensures !Mergeable(m'.p, m'.t, g, m'.p.order[g])
    {
      assert !Mergeable(m.p, m.t, g, m.p.order[g]);
      assert Head(m'.t, g) ==> Head(m.t, g);
    }
  }

  /** The blocks of list k above rank r cannot merge. */
  ghost predicate Scanned(m: State, k: nat, r: int)
    requires T.Sizes(m.p, m.t) && k < |m.s.list|
  {
    forall i {:trigger m.s.list[k][i]} | 0 <= i < |m.s.list[k]| && r < i :: !Mergeable(m.p, m.t, m.s.list[k][i], k)
  }

  lemma ScannedQuiescent(m: State, k: nat)
    requires Ok(m) && k < ORDERS && Quiescent(m, k) && Scanned(m, k, -1)
    ensures Quiescent(m, k + 1)
  {
    forall h | 0 <= h < |m.p.order| && m.p.order[h] < k + 1
      ensures !Mergeable(m.p, m.t, h, m.p.order[h])
    {
      if m.p.order[h] < k {
        assert !Mergeable(m.p, m.t, h, m.p.order[h]);
      } else if Head(m.t, h) && !m.p.used[h] {
        FreeIsListed(m, h);
        assert Frame(m.l, m.s, h);
      }
    }
  }

  /** The scan of list k has reached curr, and nothing above curr can merge. */
  ghost predicate ScanAt(m: State, k: nat, curr: nat) {
    && Ok(m) && k + 1 < ORDERS && Listed(m.s, curr) && m.s.home[curr] == k
    && curr < |m.s.rank| && curr < |m.p.next| && 0 <= m.s.rank[curr] && Scanned(m, k, m.s.rank[curr])
  }

  /** The scan of list k has reached curr, or the end if curr is null. */
  ghost predicate ScanTo(m: State, k: nat, curr: nat) {
    && Ok(m) && k + 1 < ORDERS
    && if curr == 0 then Scanned(m, k, -1) else ScanAt(m, k, curr)
  }

  /** Scanning list k begins at its head. */
  lemma ScanStart(m: State, k: nat)
    requires Ok(m) && k + 1 < ORDERS
    ensures ScanTo(m, k, m.l.top[k])
  {
    TopListed(m.l, m.s, k);
  }

  /** Scanning goes on past a block that cannot merge. */
  lemma ScanNext(m: State, k: nat, curr: nat)
    requires ScanAt(m, k, curr) && !Mergeable(m.p, m.t, curr, k)
    ensures curr < |m.l.next| && ScanTo(m, k, m.l.next[curr])
    ensures m.l.next[curr] != 0 ==> m.s.rank[m.l.next[curr]] < m.s.rank[curr]
  {
    NeighboursListed(m.l, m.s, curr);
  }

  /** What the scan finds out about curr decides whether it can merge. */
  lemma ScanTest(m: State, k: nat, curr: nat)
    requires ScanAt(m, k, curr)
    ensures !m.p.used[curr] && m.p.order[curr] == k && m.p.next[curr] < |m.p.next|
    ensures Mergeable(m.p, m.t, curr, k) <==>
              && m.p.next[curr] != 0 && curr % Pow2(k + 1) == 0
              && !m.p.used[m.p.next[curr]] && m.p.order[m.p.next[curr]] == k
    ensures Mergeable(m.p, m.t, curr, k) ==> CanMerge(m, curr, k)
  {
    ListedIsFree(m, curr);
    AlignedIsMod(curr, k + 1);
  }

  /** The free run of 2^o frames at h was handed out as one block, and nothing else changed. */
  ghost predicate HandedOut(m: State, m': State, h: nat, o: nat) {
    && FreeRun(m, h, o) && SameChunks(m, m')
    && (forall f {:trigger FreeAt(m', f)} :: FreeAt(m', f) <==> FreeAt(m, f) && !(h <= f < h + Pow2(o)))
    && (forall g, k {:trigger Live(m', g, k)} :: Live(m', g, k) <==> Live(m, g, k) || (g == h && k == o))
  }

  /** The block h of order o was given back, and nothing else changed. */
  ghost predicate TakenBack(m: State, m': State, h: nat, o: nat) {
    && SameChunks(m, m')
    && (forall f | h <= f < h + Pow2(o) :: !FreeAt(m, f))
    && (forall f {:trigger FreeAt(m', f)} :: FreeAt(m', f) <==> FreeAt(m, f) || h <= f < h + Pow2(o))
    && (forall g, k {:trigger Live(m', g, k)} :: Live(m', g, k) <==> Live(m, g, k) && g != h)
  }

  lemma SameThenHandedOut(a: State, b: State, c: State, h: nat, o: nat)
    requires Ok(a) && Ok(b) && Same(a, b) && HandedOut(b, c, h, o)
    ensures HandedOut(a, c, h, o)
  {
    SameRuns(a, b, o);
    assert FreeRun(a, h, o);
    forall f ensures FreeAt(c, f) <==> FreeAt(a, f) && !(h <= f < h + Pow2(o)) {
      assert FreeAt(b, f) <==> FreeAt(a, f);
    }
    forall g, k ensures Live(c, g, k) <==> Live(a, g, k) || (g == h && k == o) {
      assert Live(b, g, k) <==> Live(a, g, k);
    }
  }

  lemma TopsEmpty(m: State)
    requires Ok(m)
    ensures forall j | 0 <= j < ORDERS :: m.l.top[j] == 0 <==> m.s.list[j] == []
  {
    forall j | 0 <= j < ORDERS ensures m.l.top[j] == 0 <==> m.s.list[j] == [] {
      TopListed(m.l, m.s, j);
    }
  }

  /** When the lists from o up stay empty although no buddies are left, there was no run to hand out. */
  lemma NothingToHandOut(m: State, m': State, o: nat)
    requires Ok(m) && Ok(m') && Same(m, m') && Quiescent(m', o) && o < ORDERS
    requires forall j | o <= j < ORDERS :: m'.s.list[j] == []
    ensures forall a: nat :: !FreeRun(m, a, o)
  {
    RunNeedsBlock(m', o);
    SameRuns(m, m', o);
  }

  /** Blocks that are handed out are aligned, do not overlap and hold no free frame. */
  lemma LiveDisjoint(m: State, g: nat, i: nat, h: nat, j: nat)
    requires Ok(m) && Live(m, g, i) && Live(m, h, j) && g < h
    ensures Aligned(g, i) && g + Pow2(i) <= h
    ensures forall f | g <= f < g + Pow2(i) :: !FreeAt(m, f)
  {
    assert BlockOk(m.p, m.t, g);
    assert m.t.block[h] == h;
    forall f | g <= f < g + Pow2(i) ensures !FreeAt(m, f) {
      assert m.t.block[f] == g;
    }
  }
}
