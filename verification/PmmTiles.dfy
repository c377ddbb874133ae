/** How the page database describes memory: every chunk that was added is tiled by naturally aligned blocks, and
    the records of a chunk's blocks chain up from left to right. */
module PmmTiles {
  import opened Dyadic

  const MAX_ORDER := 15

  /** The fields `next_paddr`, `order` and `allocated` of every page record, by frame number. */
  datatype Pages = Pages(next: seq<nat>, order: seq<nat>, used: seq<bool>)

  /** For every frame the head of the block and the base of the chunk that cover it, or 0; and the order of the
      chunk that starts at a frame. */
  datatype Tiling = Tiling(block: seq<nat>, chunk: seq<nat>, span: seq<nat>)

  ghost predicate Sizes(p: Pages, t: Tiling) {
    0 < |p.next| == |p.order| == |p.used| == |t.block| == |t.chunk| == |t.span|
  }

  ghost predicate Head(t: Tiling, h: int) {
    0 < h < |t.block| && t.block[h] == h
  }

  ghost predicate Base(t: Tiling, c: int) {
    0 < c < |t.chunk| && t.chunk[c] == c
  }

  /** Block h is alone on its frames. */
  ghost predicate Alone(t: Tiling, h: nat, e: nat) {
    e <= |t.block| && forall f {:trigger t.block[f]} | h <= f < e :: t.block[f] == h
  }

  /** A block: aligned, inside its chunk, and chained to the next block of the chunk. */
  ghost predicate Chained(p: Pages, t: Tiling, h: nat)
    requires Sizes(p, t) && Head(t, h)
  {
    var e := h + Pow2(p.order[h]);
    && p.order[h] <= MAX_ORDER && Aligned(h, p.order[h])
    && Base(t, t.chunk[h]) && t.span[t.chunk[h]] <= MAX_ORDER
    && t.chunk[h] <= h && e <= t.chunk[h] + Pow2(t.span[t.chunk[h]])
    && (if e == t.chunk[h] + Pow2(t.span[t.chunk[h]]) then p.next[h] == 0
        else Head(t, e) && t.chunk[e] == t.chunk[h] && p.next[h] == e)
  }

  ghost predicate BlockOk(p: Pages, t: Tiling, h: nat)
    requires Sizes(p, t) && Head(t, h)
  {
    Chained(p, t, h) && Alone(t, h, h + Pow2(p.order[h]))
  }

  ghost predicate ChunkOk(t: Tiling, c: nat)
    requires |t.block| == |t.chunk| == |t.span| && Base(t, c)
  {
    && t.span[c] <= MAX_ORDER && Aligned(c, t.span[c]) && c + Pow2(t.span[c]) <= |t.block|
    && forall f {:trigger t.chunk[f]} | c <= f < c + Pow2(t.span[c]) :: t.chunk[f] == c
  }

  /** A frame is covered by a block of its chunk, and only block heads are ever marked as allocated. */
  ghost predicate FrameOk(p: Pages, t: Tiling, f: nat)
    requires Sizes(p, t) && f < |t.block|
  {
    && (t.block[f] == 0 <==> t.chunk[f] == 0)
    && (t.block[f] == 0 ==> p.next[f] == 0)
    && (t.block[f] != f || f == 0 ==> !p.used[f])
    && (t.block[f] != 0 ==>
          && Head(t, t.block[f]) && Base(t, t.chunk[f]) && t.chunk[t.block[f]] == t.chunk[f]
          && t.block[f] <= f < t.block[f] + Pow2(p.order[t.block[f]]))
  }

  ghost predicate Tiled(p: Pages, t: Tiling) {
    && Sizes(p, t) && t.block[0] == 0
    && (forall f {:trigger FrameOk(p, t, f)} | 0 <= f < |t.block| :: FrameOk(p, t, f))
    && (forall h {:trigger BlockOk(p, t, h)} | Head(t, h) :: BlockOk(p, t, h))
    && (forall c {:trigger ChunkOk(t, c)} | Base(t, c) :: ChunkOk(t, c))
  }

  /** The frame belongs to a free block. */
  ghost predicate FreeFrame(p: Pages, t: Tiling, f: int)
    requires Sizes(p, t)
  {
    0 < f < |t.block| && 0 < t.block[f] < |p.used| && !p.used[t.block[f]]
  }

  // ----- splitting

  /** The free block h of order k + 1 becomes two of order k. */
  ghost function Split(p: Pages, h: nat, k: nat): Pages
    requires h + Pow2(k) < |p.next| == |p.order|
  {
    var b := h + Pow2(k);
    p.(next := p.next[b := p.next[h]][h := b], order := p.order[h := k][b := k])
  }

  /** The frames of the new block [b, e) get b as their head. */
  ghost predicate Reheaded(t: Tiling, t': Tiling, b: nat, e: nat, h: nat) {
    && t'.chunk == t.chunk && t'.span == t.span && |t'.block| == |t.block|
    && forall f {:trigger t'.block[f]} | 0 <= f < |t.block| :: t'.block[f] == if b <= f < e then h else t.block[f]
  }

  ghost function Rehead(t: Tiling, b: nat, e: nat, h: nat): (t': Tiling)
    ensures Reheaded(t, t', b, e, h)
  {
    t.(block := seq(|t.block|, f requires 0 <= f < |t.block| => if b <= f < e then h else t.block[f]))
  }

  /** h is split in the middle, at b. */
  ghost predicate Splitting(p: Pages, p': Pages, t: Tiling, t': Tiling, h: nat, k: nat, b: nat) {
    && Sizes(p, t) && Head(t, h) && BlockOk(p, t, h) && p.order[h] == k + 1 && !p.used[h]
    && b == h + Pow2(k) && b < |t.block| && t.block[b] == h && t.chunk[b] == t.chunk[h] && !p.used[b]
    && Aligned(h, k) && Aligned(b, k)
    && p' == Split(p, h, k) && Reheaded(t, t', b, b + Pow2(k), b)
  }

  lemma SplitFacts(p: Pages, t: Tiling, h: nat, k: nat)
    requires Tiled(p, t) && Head(t, h) && !p.used[h] && p.order[h] == k + 1
    ensures var b := h + Pow2(k);
            b < |p.next| && b != h && Splitting(p, Split(p, h, k), t, Rehead(t, b, b + Pow2(k), b), h, k, b)
  {
    assert BlockOk(p, t, h);
    SplitInside(p, t, h, k);
  }

  /** The middle of a block belongs to it. */
  lemma SplitInside(p: Pages, t: Tiling, h: nat, k: nat)
    requires Tiled(p, t) && Head(t, h) && p.order[h] == k + 1
    ensures var b := h + Pow2(k);
            && b < |t.block| && b != h && t.block[b] == h && t.chunk[b] == t.chunk[h] && !p.used[b]
            && Aligned(h, k) && Aligned(b, k)
  {
    var b := h + Pow2(k);
    assert BlockOk(p, t, h);
    Halves(h, k);
    assert b < h + Pow2(k + 1) <= |t.block|;
    assert t.block[b] == h;
    assert FrameOk(p, t, b);
  }

  lemma SplitKeepsTiled(p: Pages, p': Pages, t: Tiling, t': Tiling, h: nat, k: nat, b: nat)
    requires Tiled(p, t) && Splitting(p, p', t, t', h, k, b)
    ensures Tiled(p', t') && Head(t', h) && Head(t', b)
  {
    SplitFrames(p, p', t, t', h, k, b);
    SplitBlocks(p, p', t, t', h, k, b);
    forall c | Base(t', c) ensures ChunkOk(t', c) {
      assert ChunkOk(t, c);
    }
  }

  lemma SplitFrames(p: Pages, p': Pages, t: Tiling, t': Tiling, h: nat, k: nat, b: nat)
    requires Tiled(p, t) && Splitting(p, p', t, t', h, k, b)
    ensures forall f {:trigger FrameOk(p', t', f)} | 0 <= f < |t'.block| :: FrameOk(p', t', f)
  {
    forall f | 0 <= f < |t'.block| ensures FrameOk(p', t', f) {
      assert FrameOk(p, t, f);
      SplitFrame(p, p', t, t', h, k, b, f);
    }
  }

  lemma SplitBlocks(p: Pages, p': Pages, t: Tiling, t': Tiling, h: nat, k: nat, b: nat)
    requires Tiled(p, t) && Splitting(p, p', t, t', h, k, b)
    ensures forall g {:trigger BlockOk(p', t', g)} | Head(t', g) :: BlockOk(p', t', g)
  {
    SplitLeft(p, p', t, t', h, k, b);
    SplitRight(p, p', t, t', h, k, b);
    forall g | Head(t', g) && g != h && g != b ensures BlockOk(p', t', g) {
      assert BlockOk(p, t, g);
      SplitOther(p, p', t, t', h, k, b, g);
    }
  }

  lemma SplitOther(p: Pages, p': Pages, t: Tiling, t': Tiling, h: nat, k: nat, b: nat, g: nat)
    requires Splitting(p, p', t, t', h, k, b) && Head(t, g) && BlockOk(p, t, g) && g != h && g != b
    ensures Head(t', g) && BlockOk(p', t', g)
  {
    SplitChained(p, p', t, t', h, k, b, g);
    SplitAlone(p, p', t, t', h, k, b, g);
  }

  lemma SplitFrame(p: Pages, p': Pages, t: Tiling, t': Tiling, h: nat, k: nat, b: nat, f: nat)
    requires Splitting(p, p', t, t', h, k, b) && f < |t.block| && FrameOk(p, t, f)
    ensures FrameOk(p', t', f)
  {
    assert t.block[f] != h ==> t'.block[f] == t.block[f];
  }

  lemma SplitLeft(p: Pages, p': Pages, t: Tiling, t': Tiling, h: nat, k: nat, b: nat)
    requires Splitting(p, p', t, t', h, k, b)
    ensures Head(t', h) && Head(t', b) && BlockOk(p', t', h)
  {
    assert t'.block[h] == h && t'.block[b] == b && p'.order[h] == k && p'.next[h] == b;
    assert b < h + Pow2(k + 1);
  }

  lemma SplitRight(p: Pages, p': Pages, t: Tiling, t': Tiling, h: nat, k: nat, b: nat)
    requires Splitting(p, p', t, t', h, k, b)
    ensures Head(t', b) && BlockOk(p', t', b)
  {
    var e := h + Pow2(k + 1);
    assert b + Pow2(k) == e;
    assert t'.block[b] == b && p'.order[b] == k && p'.next[b] == p.next[h];
    assert e < |t.block| ==> t'.block[e] == t.block[e];
  }

  lemma SplitChained(p: Pages, p': Pages, t: Tiling, t': Tiling, h: nat, k: nat, b: nat, g: nat)
    requires Splitting(p, p', t, t', h, k, b) && Head(t, g) && Chained(p, t, g) && g != h && g != b
    ensures Head(t', g) && Chained(p', t', g)
  {
    SplitElsewhere(p, p', t, t', h, k, b, g);
    var e := g + Pow2(p.order[g]);
    if e < |t.block| && t.block[e] == e {
      SplitElsewhere(p, p', t, t', h, k, b, e);
    }
    ChainedSame(p, p', t, t', g);
  }

  lemma SplitElsewhere(p: Pages, p': Pages, t: Tiling, t': Tiling, h: nat, k: nat, b: nat, g: nat)
    requires Splitting(p, p', t, t', h, k, b) && g < |t.block| && t.block[g] == g && g != b
    ensures Sizes(p', t') && |t'.block| == |t.block| && t'.block[g] == g
    ensures g != h ==> p'.order[g] == p.order[g] && p'.next[g] == p.next[g]
    ensures t'.chunk == t.chunk && t'.span == t.span
  {
    assert forall f {:trigger t.block[f]} | b <= f < b + Pow2(k) :: t.block[f] == h;
  }

  lemma SplitAlone(p: Pages, p': Pages, t: Tiling, t': Tiling, h: nat, k: nat, b: nat, g: nat)
    requires Splitting(p, p', t, t', h, k, b) && Head(t, g) && BlockOk(p, t, g) && g != h && g != b
    ensures Alone(t', g, g + Pow2(p'.order[g]))
  {
    forall f | g <= f < g + Pow2(p.order[g]) ensures t'.block[f] == g {
      assert t.block[f] == g;
    }
  }

  // ----- merging

  /** The block h of order k takes over the next block, its buddy. */
  ghost function Merge(p: Pages, h: nat, k: nat): Pages
    requires h < |p.next| == |p.order| && p.next[h] < |p.next|
  {
    p.(next := p.next[h := p.next[p.next[h]]], order := p.order[h := k + 1])
  }

  /** The record of h allows the merging loop to try it: it is a left half and not the last block of its chunk. */
  ghost predicate LeftHalf(p: Pages, h: nat, k: nat)
    requires h < |p.next|
  {
    p.next[h] != 0 && Aligned(h, k + 1)
  }

  /** The free block h of order k can merge with its buddy. */
  ghost predicate Mergeable(p: Pages, t: Tiling, h: nat, k: nat)
    requires Sizes(p, t)
  {
    && Head(t, h) && !p.used[h] && p.order[h] == k && LeftHalf(p, h, k)
    && p.next[h] < |p.next| && !p.used[p.next[h]] && p.order[p.next[h]] == k
  }

  ghost predicate Merging(p: Pages, p': Pages, t: Tiling, t': Tiling, h: nat, k: nat, b: nat) {
    && Sizes(p, t) && Mergeable(p, t, h, k) && BlockOk(p, t, h) && k < MAX_ORDER && b == p.next[h]
    && b == h + Pow2(k) && Head(t, b) && BlockOk(p, t, b) && t.chunk[b] == t.chunk[h]
    && p' == Merge(p, h, k) && Reheaded(t, t', b, b + Pow2(k), h)
  }

  lemma MergeFacts(p: Pages, t: Tiling, h: nat, k: nat)
    requires Tiled(p, t) && Mergeable(p, t, h, k) && k < MAX_ORDER
    ensures var b := p.next[h]; Merging(p, Merge(p, h, k), t, Rehead(t, b, b + Pow2(k), h), h, k, b)
  {
    assert BlockOk(p, t, h);
    assert BlockOk(p, t, p.next[h]);
  }

  lemma MergeKeepsTiled(p: Pages, p': Pages, t: Tiling, t': Tiling, h: nat, k: nat, b: nat)
    requires Tiled(p, t) && Merging(p, p', t, t', h, k, b)
    ensures Tiled(p', t') && Head(t', h) && !Head(t', b)
  {
    MergeFrames(p, p', t, t', h, k, b);
    MergeBlocks(p, p', t, t', h, k, b);
    forall c | Base(t', c) ensures ChunkOk(t', c) {
      assert ChunkOk(t, c);
    }
  }

  lemma MergeFrames(p: Pages, p': Pages, t: Tiling, t': Tiling, h: nat, k: nat, b: nat)
    requires Tiled(p, t) && Merging(p, p', t, t', h, k, b)
    ensures forall f {:trigger FrameOk(p', t', f)} | 0 <= f < |t'.block| :: FrameOk(p', t', f)
  {
    forall f | 0 <= f < |t'.block| ensures FrameOk(p', t', f) {
      assert FrameOk(p, t, f);
      MergeFrame(p, p', t, t', h, k, b, f);
    }
  }

  lemma MergeFrame(p: Pages, p': Pages, t: Tiling, t': Tiling, h: nat, k: nat, b: nat, f: nat)
    requires Merging(p, p', t, t', h, k, b) && f < |t.block| && FrameOk(p, t, f)
    ensures FrameOk(p', t', f)
  {
    assert t.block[h] == h && t'.block[h] == h && Pow2(k + 1) == 2 * Pow2(k);
    assert t.block[f] == b <==> b <= f < b + Pow2(k);
    assert b <= f < b + Pow2(k) ==> t'.block[f] == h;
  }

  lemma MergeBlocks(p: Pages, p': Pages, t: Tiling, t': Tiling, h: nat, k: nat, b: nat)
    requires Tiled(p, t) && Merging(p, p', t, t', h, k, b)
    ensures forall g {:trigger BlockOk(p', t', g)} | Head(t', g) :: BlockOk(p', t', g)
  {
    MergeWhole(p, p', t, t', h, k, b);
    forall g | Head(t', g) && g != h ensures BlockOk(p', t', g) {
      assert t'.block[g] == g && g != b;
      assert BlockOk(p, t, g);
      MergeChained(p, p', t, t', h, k, b, g);
      MergeAlone(p, p', t, t', h, k, b, g);
    }
  }

  lemma MergeWhole(p: Pages, p': Pages, t: Tiling, t': Tiling, h: nat, k: nat, b: nat)
    requires Merging(p, p', t, t', h, k, b)
    ensures Head(t', h) && BlockOk(p', t', h)
  {
    var e := b + Pow2(k);
    assert h + Pow2(k + 1) == e;
    assert t'.block[h] == h && p'.order[h] == k + 1 && p'.next[h] == p.next[b];
    assert e < |t.block| ==> t'.block[e] == t.block[e];
    forall f | h <= f < e ensures t'.block[f] == h {
      assert f < b ==> t.block[f] == h;
    }
  }

  lemma MergeChained(p: Pages, p': Pages, t: Tiling, t': Tiling, h: nat, k: nat, b: nat, g: nat)
    requires Merging(p, p', t, t', h, k, b) && Head(t, g) && BlockOk(p, t, g) && g != h && g != b
    ensures Head(t', g) && Chained(p', t', g)
  {
    assert t.block[g] == g && t'.block[g] == g;
    var e := g + Pow2(p.order[g]);
    assert t.block[e - 1] == g && t.block[b - 1] == h;
    assert e != b;
    assert e < |t.block| && t.block[e] == e ==> t'.block[e] == e;
  }

  lemma MergeAlone(p: Pages, p': Pages, t: Tiling, t': Tiling, h: nat, k: nat, b: nat, g: nat)
    requires Merging(p, p', t, t', h, k, b) && Head(t, g) && BlockOk(p, t, g) && g != h && g != b
    ensures Alone(t', g, g + Pow2(p'.order[g]))
  {
    forall f | g <= f < g + Pow2(p.order[g]) ensures t'.block[f] == g {
      assert t.block[f] == g;
    }
  }

  // ----- allocating and freeing

  lemma UseKeepsTiled(p: Pages, t: Tiling, h: nat, u: bool)
    requires Tiled(p, t) && Head(t, h)
    ensures Tiled(p.(used := p.used[h := u]), t)
  {
    var p' := p.(used := p.used[h := u]);
    forall f | 0 <= f < |t.block| ensures FrameOk(p', t, f) {
      assert FrameOk(p, t, f);
    }
    forall g | Head(t, g) ensures BlockOk(p', t, g) {
      assert BlockOk(p, t, g);
    }
  }

  // ----- adding a chunk

  ghost predicate Unmanaged(t: Tiling, c: nat, e: nat) {
    c <= e <= |t.block| && forall f {:trigger t.block[f]} | c <= f < e :: t.block[f] == 0
  }

  /** The frames belong to no chunk, which comes to the same. */
  ghost predicate Vacant(t: Tiling, c: nat, e: nat) {
    c <= e <= |t.chunk| && forall f {:trigger t.chunk[f]} | c <= f < e :: t.chunk[f] == 0
  }

  lemma VacantIsUnmanaged(p: Pages, t: Tiling, c: nat, e: nat)
    requires Tiled(p, t) && Vacant(t, c, e)
    ensures Unmanaged(t, c, e)
  {
    forall f | c <= f < e ensures t.block[f] == 0 {
      assert FrameOk(p, t, f);
    }
  }

  /** o is the greatest order that the alignment of c and n frames from there on allow. */
  ghost predicate GreatestOrder(c: nat, n: nat, o: nat) {
    && o <= MAX_ORDER && Pow2(o) <= n && Aligned(c, o)
    && forall j: nat {:trigger Aligned(c, j)} | o < j <= MAX_ORDER && Pow2(j) <= n :: !Aligned(c, j)
  }

  /** Frame f lies in a chunk of the greatest possible order, cut out of a range that ends at e. */
  ghost predicate CutAt(t: Tiling, f: nat, e: nat) {
    && f < |t.chunk| && t.chunk[f] < |t.span| && Base(t, t.chunk[f]) && t.chunk[f] < e
    && GreatestOrder(t.chunk[f], e - t.chunk[f], t.span[t.chunk[f]])
    && t.chunk[f] <= f < t.chunk[f] + Pow2(t.span[t.chunk[f]]) <= e
  }

  ghost function Added(p: Pages, c: nat, o: nat): Pages
    requires c < |p.order|
  {
    p.(order := p.order[c := o])
  }

  ghost function AddChunk(t: Tiling, c: nat, e: nat, o: nat): (t': Tiling)
    requires c < |t.span| && |t.block| == |t.chunk|
    ensures t'.span == t.span[c := o] && |t'.chunk| == |t.chunk| == |t'.block|
    ensures forall f {:trigger t'.chunk[f]} | 0 <= f < |t.chunk| :: t'.chunk[f] == if c <= f < e then c else t.chunk[f]
    ensures forall f {:trigger t'.block[f]} | 0 <= f < |t.block| :: t'.block[f] == if c <= f < e then c else t.block[f]
  {
    Tiling(seq(|t.block|, f requires 0 <= f < |t.block| => if c <= f < e then c else t.block[f]),
           seq(|t.chunk|, f requires 0 <= f < |t.chunk| => if c <= f < e then c else t.chunk[f]),
           t.span[c := o])
  }

  lemma AddKeepsTiled(p: Pages, t: Tiling, c: nat, o: nat)
    requires Tiled(p, t) && 0 < c < |t.block| && o <= MAX_ORDER && Aligned(c, o) && Unmanaged(t, c, c + Pow2(o))
    ensures Tiled(Added(p, c, o), AddChunk(t, c, c + Pow2(o), o))
    ensures Head(AddChunk(t, c, c + Pow2(o), o), c)
  {
    var e := c + Pow2(o);
    var p', t' := Added(p, c, o), AddChunk(t, c, e, o);
    assert t.block[c] == 0;
    assert FrameOk(p, t, c);
    forall f | 0 <= f < |t.block| ensures FrameOk(p', t', f) {
      assert FrameOk(p, t, f);
      assert t.block[f] != 0 ==> FrameOk(p, t, t.chunk[f]);
      AddFrame(p, t, c, e, o, f);
    }
    forall g | Head(t', g) ensures BlockOk(p', t', g) {
      if g != c {
        assert t'.block[g] == g && t.block[g] == g;
        assert BlockOk(p, t, g);
        AddBlock(p, t, c, e, o, g);
      }
    }
    forall d | Base(t', d) ensures ChunkOk(t', d) {
      if d != c {
        assert ChunkOk(t, d);
        AddOtherChunk(p, t, c, e, o, d);
      }
    }
  }

  lemma AddFrame(p: Pages, t: Tiling, c: nat, e: nat, o: nat, f: nat)
    requires Sizes(p, t) && f < |t.block| && 0 < c < |t.block| && e == c + Pow2(o) && Unmanaged(t, c, e)
    requires FrameOk(p, t, f) && t.block[c] == 0 && FrameOk(p, t, c)
    requires t.block[f] != 0 ==> t.chunk[f] < |t.block| && (t.block[t.chunk[f]] == 0 <==> t.chunk[t.chunk[f]] == 0)
    ensures FrameOk(Added(p, c, o), AddChunk(t, c, e, o), f)
  {
    assert t.block[f] != 0 ==> !(c <= f < e) && !(c <= t.block[f] < e) && !(c <= t.chunk[f] < e);
  }

  lemma AddBlock(p: Pages, t: Tiling, c: nat, e: nat, o: nat, g: nat)
    requires Tiled(p, t) && 0 < c < |t.block| && e == c + Pow2(o) && Unmanaged(t, c, e)
    requires Head(t, g) && BlockOk(p, t, g)
    ensures var t' := AddChunk(t, c, e, o); Head(t', g) && BlockOk(Added(p, c, o), t', g)
  {
    AddAlone(p, t, c, e, o, g);
    AddChained(p, t, c, e, o, g);
  }

  lemma AddAlone(p: Pages, t: Tiling, c: nat, e: nat, o: nat, g: nat)
    requires Sizes(p, t) && 0 < c < |t.block| && e == c + Pow2(o) && Unmanaged(t, c, e)
    requires Head(t, g) && Alone(t, g, g + Pow2(p.order[g]))
    ensures g != c && Alone(AddChunk(t, c, e, o), g, g + Pow2(p.order[g]))
  {
    assert t.block[c] == 0 && t.block[g] == g;
    forall f | g <= f < g + Pow2(p.order[g]) ensures AddChunk(t, c, e, o).block[f] == g {
      assert t.block[f] == g;
    }
  }

  lemma AddChained(p: Pages, t: Tiling, c: nat, e: nat, o: nat, g: nat)
    requires Tiled(p, t) && 0 < c < |t.block| && e == c + Pow2(o) && Unmanaged(t, c, e)
    requires Head(t, g) && Chained(p, t, g) && g != c
    ensures var t' := AddChunk(t, c, e, o); Head(t', g) && Chained(Added(p, c, o), t', g)
  {
    var x, d := g + Pow2(p.order[g]), t.chunk[g];
    assert t.block[c] == 0 && t.block[g] == g;
    assert FrameOk(p, t, d) && t.block[d] != 0;
    assert x < |t.block| ==> FrameOk(p, t, x);
    ChainedSame(p, Added(p, c, o), t, AddChunk(t, c, e, o), g);
  }

  /** Whether a block is chained depends on its record, its chunk and the frame behind it. */
  lemma ChainedSame(p: Pages, p': Pages, t: Tiling, t': Tiling, g: nat)
    requires Sizes(p, t) && Sizes(p', t') && |t'.block| == |t.block| && Head(t, g) && Chained(p, t, g)
    requires p'.order[g] == p.order[g] && p'.next[g] == p.next[g] && t'.block[g] == g
    requires var d := t.chunk[g]; t'.chunk[g] == d && t'.chunk[d] == d && t'.span[d] == t.span[d]
    requires var x := g + Pow2(p.order[g]);
             x < |t.block| && t.block[x] == x ==> t'.block[x] == x && t'.chunk[x] == t.chunk[x]
    ensures Chained(p', t', g)
  {
  }

  lemma AddOtherChunk(p: Pages, t: Tiling, c: nat, e: nat, o: nat, d: nat)
    requires Tiled(p, t) && 0 < c < |t.block| && e == c + Pow2(o) && Unmanaged(t, c, e)
    requires Base(t, d) && ChunkOk(t, d)
    ensures var t' := AddChunk(t, c, e, o); Base(t', d) && ChunkOk(t', d)
  {
    var t' := AddChunk(t, c, e, o);
    assert FrameOk(p, t, d) && FrameOk(p, t, c) && t.block[c] == 0;
    forall f | d <= f < d + Pow2(t.span[d]) ensures t'.chunk[f] == d {
      assert t.chunk[f] == d && FrameOk(p, t, f);
    }
  }
}
