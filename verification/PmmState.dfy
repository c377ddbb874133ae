/** The allocator's whole state, and its elementary steps: splitting a free block, merging two buddies, handing a
    block out, taking it back and adding a chunk.  Every step keeps the state consistent. */
module PmmState {
  import opened Dyadic
  import opened PmmLists
  import T = PmmTiles
  import opened PmmTiles

  datatype State = State(l: Lists, s: Stacks, p: Pages, t: Tiling)

  /** A frame is in a free list exactly when it heads a free block, and then in the list of the block's order. */
  ghost predicate AgreeAt(s: Stacks, p: Pages, t: Tiling, f: nat)
    requires f < |s.home| == |p.used| == |p.order|
  {
    s.home[f] == if Head(t, f) && !p.used[f] then p.order[f] else -1
  }

  ghost predicate Ok(m: State) {
    && Linked(m.l, m.s) && Tiled(m.p, m.t) && |m.s.home| == |m.t.block|
    && forall f {:trigger AgreeAt(m.s, m.p, m.t, f)} | 0 <= f < |m.s.home| :: AgreeAt(m.s, m.p, m.t, f)
  }

  /** The memory a caller can see: which frames are free, and which blocks are handed out. */
  ghost predicate FreeAt(m: State, f: int) {
    T.Sizes(m.p, m.t) && FreeFrame(m.p, m.t, f)
  }

  ghost predicate Live(m: State, h: int, o: nat) {
    T.Sizes(m.p, m.t) && Head(m.t, h) && m.p.used[h] && m.p.order[h] == o
  }

  ghost predicate SameFree(m: State, m': State) {
    forall f {:trigger FreeAt(m', f)} :: FreeAt(m', f) <==> FreeAt(m, f)
  }

  ghost predicate SameLive(m: State, m': State) {
    forall h, o {:trigger Live(m', h, o)} :: Live(m', h, o) <==> Live(m, h, o)
  }

  ghost predicate SameChunks(m: State, m': State) {
    m'.t.chunk == m.t.chunk && m'.t.span == m.t.span
  }

  ghost predicate Same(m: State, m': State) {
    SameFree(m, m') && SameLive(m, m') && SameChunks(m, m')
  }

  lemma SameTransitive(a: State, b: State, c: State)
    requires Same(a, b) && Same(b, c)
    ensures Same(a, c)
  {
    forall f ensures FreeAt(c, f) <==> FreeAt(a, f) {
      assert FreeAt(c, f) <==> FreeAt(b, f);
    }
    forall h, o ensures Live(c, h, o) <==> Live(a, h, o) {
      assert Live(c, h, o) <==> Live(b, h, o);
    }
  }

  // ----- splitting

  ghost predicate CanSplit(m: State, h: nat, k: nat) {
    && Ok(m) && Listed(m.s, h) && m.s.home[h] == k + 1 < ORDERS
  }

  /** What a consistent state says about a listed frame. */
  lemma ListedIsFree(m: State, h: nat)
    requires Ok(m) && Listed(m.s, h)
    ensures Head(m.t, h) && !m.p.used[h] && m.p.order[h] == m.s.home[h] < ORDERS && BlockOk(m.p, m.t, h)
  {
    assert AgreeAt(m.s, m.p, m.t, h);
    assert Frame(m.l, m.s, h);
  }

  lemma FreeIsListed(m: State, h: nat)
    requires Ok(m) && Head(m.t, h) && !m.p.used[h]
    ensures Listed(m.s, h) && m.s.home[h] == m.p.order[h]
  {
    assert AgreeAt(m.s, m.p, m.t, h);
  }

  /** Lists after h left list k + 1 and h and b entered list k. */
  ghost predicate SplitLists(m: State, m': State, h: nat, k: nat, b: nat)
    requires CanSplit(m, h, k) && h != b && b < |m.s.home|
  {
    && Frame(m.l, m.s, h) && m.l.prev[h] < |m.l.prev| && m.l.next[h] < |m.l.prev|
    && var l1 := Unlinked(m.l, k + 1, h);
    && l1.top[k] < |l1.prev|
    && var l2 := Pushed(l1, k, h);
    && l2.top[k] < |l2.prev|
    && m'.l == Pushed(l2, k, b)
    && m'.s == Push(Push(Drop(m.s, h), k, h), k, b)
  }

  /** What the splitting code relies on in the lists, and in the page records. */
  lemma SplitReadyLists(m: State, k: nat)
    requires Ok(m) && k + 1 < ORDERS && m.l.top[k + 1] != 0
    ensures var h := m.l.top[k + 1];
            && CanSplit(m, h, k) && Frame(m.l, m.s, h) && h < |m.l.prev|
            && m.l.prev[h] == 0 && m.l.next[h] < |m.l.prev| && Unlinked(m.l, k + 1, h).top[k] < |m.l.prev|
  {
    var h := m.l.top[k + 1];
    TopListed(m.l, m.s, k + 1);
    NeighboursListed(m.l, m.s, h);
    DropKeepsLinked(m.l, m.s, h);
    TopListed(Unlinked(m.l, k + 1, h), Drop(m.s, h), k);
  }

  lemma SplitReady(m: State, h: nat, k: nat)
    requires CanSplit(m, h, k)
    ensures var b := h + Pow2(k);
            && T.Sizes(m.p, m.t) && b < |m.p.order| && b != h && !Listed(m.s, b)
            && Splitting(m.p, Split(m.p, h, k), m.t, Rehead(m.t, b, b + Pow2(k), b), h, k, b)
  {
    ListedIsFree(m, h);
    SplitFacts(m.p, m.t, h, k);
    assert AgreeAt(m.s, m.p, m.t, h + Pow2(k));
  }

  lemma SplitListsOk(m: State, m': State, h: nat, k: nat, b: nat)
    requires CanSplit(m, h, k) && h != b && 0 < b < |m.s.home| && !Listed(m.s, b)
    requires SplitLists(m, m', h, k, b)
    ensures Linked(m'.l, m'.s)
    ensures |m'.s.home| == |m.s.home| && m'.s.home == m.s.home[h := k][b := k]
  {
    DropKeepsLinked(m.l, m.s, h);
    var l1, s1 := Unlinked(m.l, k + 1, h), Drop(m.s, h);
    PushKeepsLinked(l1, s1, k, h);
    PushKeepsLinked(Pushed(l1, k, h), Push(s1, k, h), k, b);
    assert m'.s.home == m.s.home[h := -1][h := k][b := k];
  }

  lemma SplitKeepsOk(m: State, m': State, h: nat, k: nat, b: nat)
    requires CanSplit(m, h, k) && T.Sizes(m.p, m.t)
    requires Splitting(m.p, m'.p, m.t, m'.t, h, k, b) && SplitLists(m, m', h, k, b)
    ensures Ok(m') && Same(m, m')
  {
    ListedIsFree(m, h);
    assert AgreeAt(m.s, m.p, m.t, b);
    SplitKeepsTiled(m.p, m'.p, m.t, m'.t, h, k, b);
    SplitListsOk(m, m', h, k, b);
    forall f | 0 <= f < |m'.s.home| ensures AgreeAt(m'.s, m'.p, m'.t, f) {
      assert AgreeAt(m.s, m.p, m.t, f);
    }
    SplitSame(m, m', h, k, b);
  }

  lemma SplitSame(m: State, m': State, h: nat, k: nat, b: nat)
    requires Tiled(m.p, m.t) && Splitting(m.p, m'.p, m.t, m'.t, h, k, b)
    ensures Same(m, m')
  {
  }

  // ----- merging

  ghost predicate CanMerge(m: State, h: nat, k: nat) {
    && Ok(m) && Listed(m.s, h) && m.s.home[h] == k && k + 1 < ORDERS && Mergeable(m.p, m.t, h, k)
  }

  /** Lists after h and its buddy b left list k and h entered list k + 1. */
  ghost predicate MergeLists(m: State, m': State, h: nat, k: nat, b: nat)
    requires Linked(m.l, m.s) && k + 1 < ORDERS
    requires Listed(m.s, h) && m.s.home[h] == k && Listed(m.s, b) && m.s.home[b] == k && h != b
  {
    && Frame(m.l, m.s, h) && m.l.prev[h] < |m.l.prev| && m.l.next[h] < |m.l.prev|
    && var l1, s1 := Unlinked(m.l, k, h), Drop(m.s, h);
    && Linked(l1, s1) && Listed(s1, b) && s1.home[b] == k
    && Frame(l1, s1, b) && l1.prev[b] < |l1.prev| && l1.next[b] < |l1.prev|
    && var l2, s2 := Unlinked(l1, k, b), Drop(s1, b);
    && l2.top[k + 1] < |l2.prev|
    && m'.l == Pushed(l2, k + 1, h)
    && m'.s == Push(s2, k + 1, h)
  }

  /** What the merging code relies on. */
  lemma MergeReady(m: State, h: nat, k: nat)
    requires CanMerge(m, h, k)
    ensures var b := m.p.next[h];
            && Listed(m.s, b) && m.s.home[b] == k && h != b && b == h + Pow2(k)
            && Merging(m.p, Merge(m.p, h, k), m.t, Rehead(m.t, b, b + Pow2(k), h), h, k, b)
  {
    var b := m.p.next[h];
    MergeFacts(m.p, m.t, h, k);
    FreeIsListed(m, b);
  }

  lemma MergeReadyLists(m: State, h: nat, k: nat, b: nat)
    requires CanMerge(m, h, k) && Listed(m.s, b) && m.s.home[b] == k && h != b
    ensures Frame(m.l, m.s, h) && m.l.prev[h] < |m.l.prev| && m.l.next[h] < |m.l.prev|
    ensures var l1, s1 := Unlinked(m.l, k, h), Drop(m.s, h);
            && Linked(l1, s1) && Listed(s1, b) && s1.home[b] == k
            && Frame(l1, s1, b) && l1.prev[b] < |l1.prev| && l1.next[b] < |l1.prev|
            && Unlinked(l1, k, b).top[k + 1] < |l1.prev|
  {
    DropKeepsLinked(m.l, m.s, h);
    var l1, s1 := Unlinked(m.l, k, h), Drop(m.s, h);
    DropKeepsLinked(l1, s1, b);
    TopListed(Unlinked(l1, k, b), Drop(s1, b), k + 1);
  }

  lemma MergeListsOk(m: State, m': State, h: nat, k: nat, b: nat)
    requires CanMerge(m, h, k) && Listed(m.s, b) && m.s.home[b] == k && h != b && MergeLists(m, m', h, k, b)
    ensures Linked(m'.l, m'.s)
    ensures |m'.s.home| == |m.s.home| && m'.s.home == m.s.home[b := -1][h := k + 1]
    ensures |m'.s.list[k]| == |m.s.list[k]| - 2
    ensures forall j | 0 <= j < ORDERS && j != k && j != k + 1 :: m'.s.list[j] == m.s.list[j]
    ensures m'.s.list[k + 1] == m.s.list[k + 1] + [h]
  {
    DropKeepsLinked(m.l, m.s, h);
    var l1, s1 := Unlinked(m.l, k, h), Drop(m.s, h);
    DropKeepsLinked(l1, s1, b);
    PushKeepsLinked(Unlinked(l1, k, b), Drop(s1, b), k + 1, h);
    assert m'.s.home == m.s.home[h := -1][b := -1][h := k + 1];
  }

  lemma MergeKeepsOk(m: State, m': State, h: nat, k: nat, b: nat)
    requires CanMerge(m, h, k) && Listed(m.s, b) && m.s.home[b] == k && h != b
    requires Merging(m.p, m'.p, m.t, m'.t, h, k, b) && MergeLists(m, m', h, k, b)
    ensures Ok(m') && Same(m, m')
  {
    MergeKeepsTiled(m.p, m'.p, m.t, m'.t, h, k, b);
    MergeListsOk(m, m', h, k, b);
    forall f | 0 <= f < |m'.s.home| ensures AgreeAt(m'.s, m'.p, m'.t, f) {
      assert AgreeAt(m.s, m.p, m.t, f);
      assert m.t.block[f] == f ==> m'.t.block[f] == if f == b then h else f;
    }
    MergeSame(m, m', h, k, b);
  }

  lemma MergeSame(m: State, m': State, h: nat, k: nat, b: nat)
    requires Tiled(m.p, m.t) && Merging(m.p, m'.p, m.t, m'.t, h, k, b)
    ensures Same(m, m')
  {
  }

  // ----- handing out and taking back

  /** The listed block h leaves its list and is marked. */
  ghost predicate Taken(m: State, m': State, h: nat)
    requires Ok(m) && Listed(m.s, h)
  {
    && Frame(m.l, m.s, h) && m.l.prev[h] < |m.l.prev| && m.l.next[h] < |m.l.prev|
    && m'.l == Unlinked(m.l, m.s.home[h], h) && m'.s == Drop(m.s, h)
    && h < |m.p.used| && m'.p == m.p.(used := m.p.used[h := true]) && m'.t == m.t
  }

  lemma TakeKeepsOk(m: State, m': State, h: nat)
    requires Ok(m) && Listed(m.s, h) && Taken(m, m', h)
    ensures Ok(m') && SameChunks(m, m') && Head(m.t, h) && BlockOk(m.p, m.t, h)
    ensures forall f {:trigger FreeAt(m', f)} ::
              FreeAt(m', f) <==> FreeAt(m, f) && !(h <= f < h + Pow2(m.p.order[h]))
    ensures forall f | h <= f < h + Pow2(m.p.order[h]) :: FreeAt(m, f)
    ensures forall g, o {:trigger Live(m', g, o)} ::
              Live(m', g, o) <==> Live(m, g, o) || (g == h && o == m.p.order[h])
  {
    ListedIsFree(m, h);
    UseKeepsTiled(m.p, m.t, h, true);
    DropKeepsLinked(m.l, m.s, h);
    forall f | 0 <= f < |m'.s.home| ensures AgreeAt(m'.s, m'.p, m'.t, f) {
      assert AgreeAt(m.s, m.p, m.t, f);
    }
    forall f: int ensures FreeAt(m', f) <==> FreeAt(m, f) && !(h <= f < h + Pow2(m.p.order[h])) {
      assert 0 < f < |m.t.block| ==> FrameOk(m.p, m.t, f);
    }
  }

  /** The allocated block h is unmarked and enters list k. */
  ghost predicate Given(m: State, m': State, h: nat, k: nat)
    requires Ok(m) && k < ORDERS && h < |m.s.home|
  {
    && m.l.top[k] < |m.l.prev|
    && m'.l == Pushed(m.l, k, h) && m'.s == Push(m.s, k, h)
    && m'.p == m.p.(used := m.p.used[h := false]) && m'.t == m.t
  }

  lemma GiveKeepsOk(m: State, m': State, h: nat, k: nat)
    requires Ok(m) && Live(m, h, k) && k < ORDERS && Given(m, m', h, k)
    ensures Ok(m') && SameChunks(m, m') && BlockOk(m.p, m.t, h)
    ensures forall f {:trigger FreeAt(m', f)} ::
              FreeAt(m', f) <==> FreeAt(m, f) || h <= f < h + Pow2(k)
    ensures forall f | h <= f < h + Pow2(k) :: !FreeAt(m, f)
    ensures forall g, o {:trigger Live(m', g, o)} :: Live(m', g, o) <==> Live(m, g, o) && g != h
  {
    assert AgreeAt(m.s, m.p, m.t, h);
    UseKeepsTiled(m.p, m.t, h, false);
    PushKeepsLinked(m.l, m.s, k, h);
    assert BlockOk(m.p, m.t, h);
    forall f | 0 <= f < |m'.s.home| ensures AgreeAt(m'.s, m'.p, m'.t, f) {
      assert AgreeAt(m.s, m.p, m.t, f);
    }
    forall f: int ensures FreeAt(m', f) <==> FreeAt(m, f) || h <= f < h + Pow2(k) {
      assert 0 < f < |m.t.block| ==> FrameOk(m.p, m.t, f);
    }
  }

  // ----- adding a chunk

  ghost predicate Grown(m: State, m': State, c: nat, o: nat)
    requires Ok(m) && o < ORDERS && c < |m.s.home|
  {
    && m.l.top[o] < |m.l.prev|
    && m'.l == Pushed(m.l, o, c) && m'.s == Push(m.s, o, c)
    && m'.p == Added(m.p, c, o) && m'.t == AddChunk(m.t, c, c + Pow2(o), o)
  }

  lemma GrowKeepsOk(m: State, m': State, c: nat, o: nat)
    requires Ok(m) && 0 < c < |m.s.home| && o < ORDERS && Aligned(c, o) && Unmanaged(m.t, c, c + Pow2(o))
    requires Grown(m, m', c, o)
    ensures Ok(m') && SameLive(m, m') && Base(m'.t, c) && m'.t.span[c] == o
    ensures forall f {:trigger FreeAt(m', f)} :: FreeAt(m', f) <==> FreeAt(m, f) || c <= f < c + Pow2(o)
    ensures forall f {:trigger m'.t.block[f]} | 0 <= f < |m.t.block| && !(c <= f < c + Pow2(o)) ::
              m'.t.block[f] == m.t.block[f]
  {
    assert m.t.block[c] == 0;
    assert AgreeAt(m.s, m.p, m.t, c);
    assert FrameOk(m.p, m.t, c);
    AddKeepsTiled(m.p, m.t, c, o);
    PushKeepsLinked(m.l, m.s, o, c);
    forall f | 0 <= f < |m'.s.home| ensures AgreeAt(m'.s, m'.p, m'.t, f) {
      assert AgreeAt(m.s, m.p, m.t, f);
      assert c <= f < c + Pow2(o) ==> m.t.block[f] == 0;
    }
    forall f: int ensures FreeAt(m', f) <==> FreeAt(m, f) || c <= f < c + Pow2(o) {
      assert 0 < f < |m.t.block| ==> FrameOk(m.p, m.t, f);
      assert c <= f < c + Pow2(o) ==> m.t.block[f] == 0;
    }
    forall h, o' ensures Live(m', h, o') <==> Live(m, h, o') {
      assert c <= h < c + Pow2(o) ==> m.t.block[h] == 0;
      assert 0 < h < |m.t.block| ==> FrameOk(m.p, m.t, h);
    }
  }
}
