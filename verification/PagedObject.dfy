/** Memory objects: bytes in pages that come into being, zeroed, when they are first touched. */
module PagedObject {
  import opened Sizes
  import opened Bytes

  function Plus(a: nat, b: nat): nat {
    if a + b < WRAP then a + b else a + b - WRAP
  }

  /** How far k is behind `from`, going around from the last byte to the first. */
  function Behind(from: nat, k: nat): nat
    requires from < WRAP
  {
    if from <= k then k - from else k + WRAP - from
  }

  type Pages = map<nat, seq<Byte>>

  ghost predicate PageOk(pages: Pages, idx: nat) {
    idx in pages ==> |pages[idx]| == PAGE_SIZE
  }

  ghost predicate Ok(pages: Pages) {
    forall idx: nat {:trigger PageOk(pages, idx)} :: PageOk(pages, idx)
  }

  /** Byte k of the object; a page that is not there reads as zero. */
  ghost function At(pages: Pages, k: nat): Byte {
    if k / PAGE_SIZE in pages && |pages[k / PAGE_SIZE]| == PAGE_SIZE then pages[k / PAGE_SIZE][k % PAGE_SIZE] else 0
  }

  /** The |data| bytes from `from` on, going around, have been replaced, and no others. */
  ghost predicate Replaced(was: Pages, now: Pages, from: nat, data: seq<Byte>)
    requires from < WRAP
  {
    forall k: nat {:trigger At(now, k)} ::
      At(now, k) == if k < WRAP && Behind(from, k) < |data| then data[Behind(from, k)] else At(was, k)
  }

  /** Without going around, that is a range. */
  lemma ReplacedPlain(was: Pages, now: Pages, from: nat, data: seq<Byte>)
    requires from < WRAP && from + |data| <= WRAP && Replaced(was, now, from, data)
    ensures forall k: nat {:trigger At(now, k)} ::
              At(now, k) == if from <= k < from + |data| then data[k - from] else At(was, k)
  {
  }

  ghost predicate Same(was: Pages, now: Pages) {
    forall k: nat {:trigger At(now, k)} :: At(now, k) == At(was, k)
  }

  /** The part of a transfer that lies in one page. */
  function Chunk(at: nat, left: nat): (c: nat)
    requires left > 0
    ensures 0 < c <= left && at % PAGE_SIZE + c <= PAGE_SIZE
  {
    if PAGE_SIZE - at % PAGE_SIZE < left then PAGE_SIZE - at % PAGE_SIZE else left
  }

  lemma InPage(at: nat, c: nat, k: nat)
    requires at % PAGE_SIZE + c <= PAGE_SIZE
    ensures at <= k < at + c <==>
            k / PAGE_SIZE == at / PAGE_SIZE && at % PAGE_SIZE <= k % PAGE_SIZE < at % PAGE_SIZE + c
    ensures at <= k < at + c ==> k - at == k % PAGE_SIZE - at % PAGE_SIZE
  {
  }

  function Spliced(page: seq<Byte>, m: nat, data: seq<Byte>): (r: seq<Byte>)
    requires m + |data| <= |page|
    ensures |r| == |page|
    ensures forall j | 0 <= j < |page| :: r[j] == if m <= j < m + |data| then data[j - m] else page[j]
  {
    page[..m] + data + page[m + |data|..]
  }

  /** Writing into one page replaces those bytes of the object. */
  lemma SpliceReplaces(pages: Pages, at: nat, data: seq<Byte>)
    requires at < WRAP && Ok(pages) && at / PAGE_SIZE in pages && at % PAGE_SIZE + |data| <= PAGE_SIZE
    ensures PageOk(pages, at / PAGE_SIZE) && |pages[at / PAGE_SIZE]| == PAGE_SIZE
    ensures var p := pages[at / PAGE_SIZE := Spliced(pages[at / PAGE_SIZE], at % PAGE_SIZE, data)];
            Ok(p) && Replaced(pages, p, at, data)
  {
    assert PageOk(pages, at / PAGE_SIZE);
    var p := pages[at / PAGE_SIZE := Spliced(pages[at / PAGE_SIZE], at % PAGE_SIZE, data)];
    forall idx: nat ensures PageOk(p, idx) {
      assert PageOk(pages, idx);
    }
    PageEnd(at, |data|);
    forall k: nat
      ensures At(p, k) == if k < WRAP && Behind(at, k) < |data| then data[Behind(at, k)] else At(pages, k)
    {
      InPage(at, |data|, k);
    }
  }

  /** A part in one page does not go around. */
  lemma PageEnd(at: nat, c: nat)
    requires at < WRAP && at % PAGE_SIZE + c <= PAGE_SIZE
    ensures at + c <= WRAP
  {
    assert at == at / PAGE_SIZE * PAGE_SIZE + at % PAGE_SIZE;
    assert at / PAGE_SIZE <= WRAP / PAGE_SIZE - 1;
  }

  lemma ReplacedTwice(a: Pages, b: Pages, c: Pages, from: nat, x: seq<Byte>, y: seq<Byte>)
    requires from < WRAP && |x| < WRAP && |x| + |y| <= WRAP
    requires Replaced(a, b, from, x) && Replaced(b, c, Plus(from, |x|), y)
    ensures Replaced(a, c, from, x + y)
  {
    forall k: nat
      ensures At(c, k) == if k < WRAP && Behind(from, k) < |x + y| then (x + y)[Behind(from, k)] else At(a, k)
    {
      assert At(b, k) == if k < WRAP && Behind(from, k) < |x| then x[Behind(from, k)] else At(a, k);
    }
  }

  /** The bytes from `from` on, going around. */
  ghost function Range(pages: Pages, from: nat, n: nat): (r: seq<Byte>)
    ensures |r| == n && forall j {:trigger r[j]} | 0 <= j < n :: r[j] == At(pages, Plus(from, j))
  {
    seq(n, j requires 0 <= j < n => At(pages, Plus(from, j)))
  }

  lemma RangeInPage(pages: Pages, at: nat, c: nat)
    requires at < WRAP && Ok(pages) && at / PAGE_SIZE in pages && at % PAGE_SIZE + c <= PAGE_SIZE
    ensures PageOk(pages, at / PAGE_SIZE) && |pages[at / PAGE_SIZE]| == PAGE_SIZE
    ensures pages[at / PAGE_SIZE][at % PAGE_SIZE..at % PAGE_SIZE + c] == Range(pages, at, c)
  {
    assert PageOk(pages, at / PAGE_SIZE);
    PageEnd(at, c);
    forall j | 0 <= j < c
      ensures pages[at / PAGE_SIZE][at % PAGE_SIZE..at % PAGE_SIZE + c][j] == Range(pages, at, c)[j]
    {
      InPage(at, c, at + j);
    }
  }

  lemma RangeGrows(pages: Pages, from: nat, n: nat, c: nat)
    requires from < WRAP && n < WRAP && n + c <= WRAP
    ensures Range(pages, from, n) + Range(pages, Plus(from, n), c) == Range(pages, from, n + c)
  {
    var x, y := Range(pages, from, n) + Range(pages, Plus(from, n), c), Range(pages, from, n + c);
    forall j | 0 <= j < n + c ensures x[j] == y[j] {
      assert j >= n ==> Plus(Plus(from, n), j - n) == Plus(from, j);
    }
  }

  lemma ReadNothing(pages: Pages, from: nat, all: seq<Byte>)
    ensures all == Range(pages, from, 0) + all[0..]
  {
  }

  lemma RangeSame(was: Pages, now: Pages, from: nat, n: nat)
    requires Same(was, now)
    ensures Range(now, from, n) == Range(was, from, n)
  {
  }

  lemma Joined(was: seq<Byte>, now: seq<Byte>, head: seq<Byte>, chunk: seq<Byte>, all: seq<Byte>)
    requires |head| + |chunk| <= |all| && was == head + all[|head|..]
    requires now == was[..|head|] + chunk + was[|head| + |chunk|..]
    ensures now == (head + chunk) + all[|head| + |chunk|..]
  {
    assert was[..|head|] == head;
    assert was[|head| + |chunk|..] == all[|head|..][|chunk|..] == all[|head| + |chunk|..];
  }

  /** An object gets a page when it is first touched. Requests of a memory object are always granted, as the physical
      allocator panics instead; other objects grant so many of them as `supply` says. */
  class MemObject {
    const endless: bool
    var supply: nat
    var pages: Pages

    constructor (endless: bool, supply: nat)
      ensures Ok(pages) && this.endless == endless && forall k: nat {:trigger At(pages, k)} :: At(pages, k) == 0
    {
      pages := map[];
      this.endless, this.supply := endless, supply;
    }

    /** The page of byte k is not there and will not be granted. */
    ghost predicate Refuses(k: nat)
      reads this
    {
      !endless && supply == 0 && k / PAGE_SIZE !in pages
    }

    /** `get_page`: a page that is not there is requested, and comes zeroed. */
    method GetPage(idx: nat) returns (ok: bool)
      requires Ok(pages)
      modifies this
      ensures Ok(pages) && Same(old(pages), pages) && old(pages.Keys) <= pages.Keys
      ensures if ok then idx in pages else pages == old(pages) && !endless && supply == 0 && idx !in pages
    {
      if idx !in pages {
        if !endless && supply == 0 {
          return false;
        }
        ghost var was := pages;
        supply := if supply > 0 then supply - 1 else 0;
        pages := pages[idx := seq(PAGE_SIZE, _ => 0)];
        forall i: nat ensures PageOk(pages, i) {
          assert PageOk(was, i);
        }
      }
      ok := true;
    }

    /** The bytes of a part of the object that lies in one page. */
    method Fetch(at: nat, csize: nat, ghost was: Pages) returns (ok: bool, bytes: seq<Byte>)
      requires Ok(pages) && Same(was, pages) && at < WRAP && at % PAGE_SIZE + csize <= PAGE_SIZE
      modifies this
      ensures Ok(pages) && Same(was, pages)
      ensures if ok then bytes == Range(was, at, csize) else Refuses(at) && bytes == []
    {
      ok := GetPage(at / PAGE_SIZE);
      if !ok {
        return false, [];
      }
      RangeInPage(pages, at, csize);
      RangeSame(was, pages, at, csize);
      var m := at % PAGE_SIZE;
      bytes := pages[at / PAGE_SIZE][m..m + csize];
    }

    /** One page of a transfer into the object, after `before` has been transferred to `from` on. */
    method Store(at: nat, chunk: seq<Byte>, ghost was: Pages, ghost from: nat, ghost before: seq<Byte>)
      returns (ok: bool)
      requires from < WRAP && |before| < WRAP && |before| + |chunk| <= WRAP && at == Plus(from, |before|)
      requires Ok(pages) && Replaced(was, pages, from, before) && at % PAGE_SIZE + |chunk| <= PAGE_SIZE
      modifies this
      ensures Ok(pages) && Replaced(was, pages, from, if ok then before + chunk else before)
      ensures !ok ==> Refuses(at)
    {
      ghost var now := pages;
      ok := GetPage(at / PAGE_SIZE);
      if !ok {
        return;
      }
      SpliceReplaces(pages, at, chunk);
      pages := pages[at / PAGE_SIZE := Spliced(pages[at / PAGE_SIZE], at % PAGE_SIZE, chunk)];
      assert Replaced(now, pages, at, chunk);
      ReplacedTwice(was, now, pages, from, before, chunk);
    }

    /** The part of a read that lies in one page. */
    method ReadChunk(offset: nat, progress: nat, length: nat, buffer: array<Byte>, ghost was: Pages,
                     ghost all: seq<Byte>)
      returns (ok: bool, csize: nat)
      requires offset < WRAP && length < WRAP
      requires Ok(pages) && Same(was, pages) && progress < length <= buffer.Length == |all|
      requires buffer[..] == Range(was, offset, progress) + all[progress..]
      modifies this, buffer
      ensures Ok(pages) && Same(was, pages) && csize <= length - progress
      ensures buffer[..] == Range(was, offset, progress + csize) + all[progress + csize..]
      ensures if ok then csize > 0 else csize == 0 && Refuses(Plus(offset, progress))
    {
      csize := Chunk(Plus(offset, progress), length - progress);
      ghost var before, at := buffer[..], Plus(offset, progress);
      var bytes;
      ok, bytes := Fetch(Plus(offset, progress), csize, was);
      if !ok {
        csize := 0;
        return;
      }
      CopyIn(buffer, progress, bytes);
      assert before[..progress] == old(buffer[..progress])
        && before[progress + csize..] == old(buffer[progress + csize..]);
      Joined(before, buffer[..], Range(was, offset, progress), Range(was, at, csize), all);
      RangeGrows(was, offset, progress, csize);
    }

    /** `object::read`, into the first `length` bytes of the buffer. */
    method Read(offset: nat, buffer: array<Byte>, length: nat) returns (progress: nat)
      requires Ok(pages) && offset < WRAP && length < WRAP && length <= buffer.Length
      modifies this, buffer
      ensures Ok(pages) && Same(old(pages), pages) && progress <= length
      ensures buffer[..] == Range(old(pages), offset, progress) + old(buffer[..])[progress..]
      ensures progress < length ==> Refuses(Plus(offset, progress))
    {
      ghost var was, all := pages, buffer[..];
      progress := 0;
      ReadNothing(was, offset, all);
      while progress < length
        invariant progress <= length && Ok(pages) && Same(was, pages)
        invariant buffer[..] == Range(was, offset, progress) + all[progress..]
      {
        var ok, csize := ReadChunk(offset, progress, length, buffer, was, all);
        if !ok {
          break;
        }
        progress := progress + csize;
      }
    }

    /** `object::write` */
    method Write(offset: nat, data: seq<Byte>) returns (progress: nat)
      requires Ok(pages) && offset < WRAP && |data| < WRAP
      modifies this
      ensures Ok(pages) && progress <= |data| && Replaced(old(pages), pages, offset, data[..progress])
      ensures progress < |data| ==> Refuses(Plus(offset, progress))
    {
      ghost var was := pages;
      progress := 0;
      while progress < |data|
        invariant progress <= |data| && Ok(pages) && Replaced(was, pages, offset, data[..progress])
      {
        var at := Plus(offset, progress);
        var csize := Chunk(at, |data| - progress);
        var ok := Store(at, data[progress..progress + csize], was, offset, data[..progress]);
        if !ok {
          break;
        }
        assert data[..progress + csize] == data[..progress] + data[progress..progress + csize];
        progress := progress + csize;
      }
    }

    /** `object::clear` */
    method Clear(offset: nat, value: Byte, length: nat) returns (progress: nat)
      requires Ok(pages) && offset < WRAP && length < WRAP
      modifies this
      ensures Ok(pages) && progress <= length && Replaced(old(pages), pages, offset, Times(progress, value))
      ensures progress < length ==> Refuses(Plus(offset, progress))
    {
      ghost var was := pages;
      progress := 0;
      while progress < length
        invariant progress <= length && Ok(pages) && Replaced(was, pages, offset, Times(progress, value))
      {
        var at := Plus(offset, progress);
        var csize := Chunk(at, length - progress);
        var ok := Store(at, Times(csize, value), was, offset, Times(progress, value));
        if !ok {
          break;
        }
        assert Times(progress + csize, value) == Times(progress, value) + Times(csize, value);
        progress := progress + csize;
      }
    }

    /** The part of a copy that lies in one page. */
    method CopyChunk(other: MemObject, offset: nat, progress: nat, length: nat, ghost was: Pages, ghost theirs: Pages)
      returns (ok: bool, csize: nat)
      requires Ok(pages) && Ok(other.pages) && other != this && Same(was, pages)
      requires offset < WRAP && progress < length < WRAP
      requires Replaced(theirs, other.pages, offset, Range(was, offset, progress))
      modifies this, other
      ensures Ok(pages) && Same(was, pages) && Ok(other.pages) && csize <= length - progress
      ensures Replaced(theirs, other.pages, offset, Range(was, offset, progress + csize))
      ensures if ok then csize > 0
              else csize == 0 && (Refuses(Plus(offset, progress)) || other.Refuses(Plus(offset, progress)))
    {
      var at := Plus(offset, progress);
      csize := Chunk(at, length - progress);
      var bytes;
      ok, bytes := Fetch(at, csize, was);
      if ok {
        RangeGrows(was, offset, progress, csize);
        ok := other.Store(at, bytes, theirs, offset, Range(was, offset, progress));
      }
      if !ok {
        csize := 0;
      }
    }

    /** `object::copy_to` */
    method CopyTo(other: MemObject, offset: nat, length: nat) returns (progress: nat)
      requires Ok(pages) && Ok(other.pages) && other != this && offset < WRAP && length < WRAP
      modifies this, other
      ensures Ok(pages) && Same(old(pages), pages) && progress <= length
      ensures Ok(other.pages) && Replaced(old(other.pages), other.pages, offset, Range(old(pages), offset, progress))
      ensures progress < length ==> Refuses(Plus(offset, progress)) || other.Refuses(Plus(offset, progress))
    {
      ghost var was, theirs := pages, other.pages;
      progress := 0;
      while progress < length
        invariant progress <= length && Ok(pages) && Same(was, pages) && Ok(other.pages)
        invariant Replaced(theirs, other.pages, offset, Range(was, offset, progress))
      {
        var ok, csize := CopyChunk(other, offset, progress, length, was, theirs);
        if !ok {
          break;
        }
        progress := progress + csize;
      }
    }
  }

  function Times(n: nat, value: Byte): (s: seq<Byte>)
    ensures |s| == n && forall j | 0 <= j < n :: s[j] == value
  {
    seq(n, _ => value)
  }

  /** `memcpy` into a buffer. */
  method CopyIn(buffer: array<Byte>, at: nat, data: seq<Byte>)
    requires at + |data| <= buffer.Length
    modifies buffer
    ensures buffer[..] == old(buffer[..at]) + data + old(buffer[at + |data|..])
  {
    for j := 0 to |data|
      invariant buffer[..] == old(buffer[..at]) + data[..j] + old(buffer[at + j..])
    {
      ghost var was := buffer[..];
      buffer[at + j] := data[j];
      assert buffer[..] == was[at + j := data[j]];
      assert data[..j + 1] == data[..j] + [data[j]];
    }
  }
}
