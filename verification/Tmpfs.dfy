/** Files of tmpfs: their bytes live in a memory object, their size beside it. */
module Tmpfs {
  import opened Sizes
  import opened Bytes
  import opened PagedObject

  const BLOCK_SIZE: nat := 512

  // ----- a file as a plain sequence of bytes

  /** Writing behind the end leaves a gap of zeros, even when nothing is written there. */
  function Written(f: seq<Byte>, offset: nat, data: seq<Byte>): seq<Byte> {
    var padded := if |f| < offset then f + Zeros(offset - |f|) else f;
    padded[..offset] + data + if offset + |data| < |f| then f[offset + |data|..] else []
  }

  function Truncated(f: seq<Byte>, size: nat): seq<Byte> {
    if size <= |f| then f[..size] else f + Zeros(size - |f|)
  }

  /** What a read gets from an offset within the file. */
  function ReadFrom(f: seq<Byte>, offset: nat, n: nat): seq<Byte>
    requires offset <= |f|
  {
    if offset + n < |f| then f[offset..offset + n] else f[offset..]
  }

  /** A read gets what was asked for, as far as there is that much, in its order. */
  lemma ReadAt(f: seq<Byte>, offset: nat, n: nat)
    requires offset <= |f|
    ensures |ReadFrom(f, offset, n)| == if n <= |f| - offset then n else |f| - offset
    ensures forall k | 0 <= k < |ReadFrom(f, offset, n)| :: ReadFrom(f, offset, n)[k] == f[offset + k]
  {
  }

  /** Truncating keeps the bytes up to the new size, and appends zeros. */
  lemma TruncatedAt(f: seq<Byte>, size: nat)
    ensures |Truncated(f, size)| == size
    ensures forall k | 0 <= k < size :: Truncated(f, size)[k] == if k < |f| then f[k] else 0
  {
  }

  lemma ReadBack(f: seq<Byte>, offset: nat, data: seq<Byte>)
    ensures ReadFrom(Written(f, offset, data), offset, |data|) == data
  {
    var w := Written(f, offset, data);
    assert w[offset..offset + |data|] == data;
    assert offset + |data| == |w| ==> w[offset..] == data;
  }

  /** Elsewhere a write changes nothing but the gap, which reads as zeros. */
  lemma WriteFrame(f: seq<Byte>, offset: nat, data: seq<Byte>, k: nat)
    requires k < |Written(f, offset, data)| && !(offset <= k < offset + |data|)
    ensures Written(f, offset, data)[k] == if k < |f| then f[k] else 0
    ensures |Written(f, offset, data)| == if offset + |data| < |f| then |f| else offset + |data|
  {
  }

  /** What has been cut off does not come back. */
  lemma Regrown(f: seq<Byte>, small: nat, big: nat)
    requires small <= |f| && small <= big
    ensures Truncated(Truncated(f, small), big) == f[..small] + Zeros(big - small)
  {
    assert big == small ==> Zeros(0) == [];
  }

  // ----- the inode

  /** The bytes of the object are those of the file, and zeros behind it. */
  ghost predicate Shows(pages: Pages, f: seq<Byte>) {
    forall k: nat {:trigger At(pages, k)} :: At(pages, k) == if k < |f| then f[k] else 0
  }

  /** The object and the size are those of the file f. */
  ghost predicate Stores(pages: Pages, size: nat, f: seq<Byte>) {
    Shows(pages, f) && size == |f|
  }

  lemma ShowsWritten(was: Pages, now: Pages, f: seq<Byte>, offset: nat, data: seq<Byte>)
    requires offset < WRAP && offset + |data| < WRAP && Shows(was, f) && Replaced(was, now, offset, data)
    ensures Shows(now, Written(f, offset, data))
  {
    ReplacedPlain(was, now, offset, data);
    forall k: nat
      ensures At(now, k) == if k < |Written(f, offset, data)| then Written(f, offset, data)[k] else 0
    {
      assert At(was, k) == if k < |f| then f[k] else 0;
    }
  }

  lemma ShowsTruncated(was: Pages, now: Pages, f: seq<Byte>, size: nat)
    requires Shows(was, f) && size < WRAP && |f| < WRAP
    requires if size < |f| then Replaced(was, now, size, Zeros(|f| - size))
             else Replaced(was, now, |f|, Zeros(size - |f|))
    ensures Shows(now, Truncated(f, size))
  {
    if size < |f| {
      ReplacedPlain(was, now, size, Zeros(|f| - size));
    } else {
      ReplacedPlain(was, now, |f|, Zeros(size - |f|));
    }
    forall k: nat ensures At(now, k) == if k < |Truncated(f, size)| then Truncated(f, size)[k] else 0 {
      assert At(was, k) == if k < |f| then f[k] else 0;
    }
  }

  lemma ShowsRange(pages: Pages, f: seq<Byte>, offset: nat, n: nat)
    requires Shows(pages, f) && offset + n <= |f| < WRAP
    ensures Range(pages, offset, n) == f[offset..offset + n]
  {
  }

  /** `st_blocks`, rounded up in 64 bits. */
  function Blocks(size: nat): nat {
    (size + (BLOCK_SIZE - 1)) % WRAP / BLOCK_SIZE
  }

  /** The blocks hold the file, and not one of them too many, if and only if the sum fits 64 bits. */
  lemma BlocksHold(size: nat)
    requires 0 < size < WRAP
    ensures size <= 512 * Blocks(size) < size + 512 <==> size + 511 < WRAP
  {
    if size + 511 >= WRAP {
      assert (size + 511) % WRAP == size + 511 - WRAP;
    }
  }

  /** What comes of `size - ((offset + size) - st_size)`, in 64 bits; more than the buffer holds is an overrun. */
  datatype ReadResult = Count(n: nat) | Overrun

  /** How many bytes `ops::read` asks for. */
  function Asked(offset: nat, n: nat, size: nat): nat {
    var sum := (offset + n) % WRAP;
    if sum >= size then (n + WRAP - (sum - size)) % WRAP else n
  }

  /** From an offset in the file, without wrapping around, exactly what is left there; otherwise something else. */
  lemma AskedIs(offset: nat, n: nat, size: nat)
    requires offset < WRAP && n < WRAP && size < WRAP
    ensures offset + n < WRAP && offset <= size ==> Asked(offset, n, size) == if offset + n < size then n
                                                                              else size - offset
    ensures offset + n < WRAP && offset > size ==> Asked(offset, n, size) > n
    ensures offset + n >= WRAP ==>
              Asked(offset, n, size) == if n < WRAP - offset + size then n else WRAP - offset + size
  {
    if offset + n >= WRAP {
      assert (offset + n) % WRAP == offset + n - WRAP;
      if offset + n - WRAP >= size {
        assert n + WRAP - (offset + n - WRAP - size) == WRAP + (WRAP - offset + size);
      }
    } else if offset + n >= size {
      assert n + WRAP - (offset + n - size) == WRAP - offset + size;
    }
  }

  class Inode {
    const memory: MemObject
    var size: nat
    var blocks: nat
    ghost var contents: seq<Byte>

    ghost predicate Valid()
      reads this, memory
    {
      && memory.endless && Ok(memory.pages) && Shows(memory.pages, contents)
      && size == |contents| < WRAP && blocks == Blocks(size)
    }

    constructor ()
      ensures Valid() && contents == [] && fresh(memory)
    {
      memory := new MemObject(true, 0);
      size, blocks, contents := 0, 0, [];
    }

    /** `ops::read`. It reads the file if and only if the offset is not behind its end and the end of the range fits 64
        bits. Otherwise it asks for more than the buffer holds, or goes around to the first byte. */
    method Read(offset: nat, buffer: array<Byte>) returns (r: ReadResult)
      requires Valid() && offset < WRAP && buffer.Length < WRAP
      modifies memory, buffer
      ensures Valid() && contents == old(contents)
      ensures r == Overrun <==> |contents| < offset && offset + buffer.Length < WRAP
      ensures r == Overrun ==> buffer[..] == old(buffer[..])
      ensures offset <= |contents| && offset + buffer.Length < WRAP ==>
                var data := ReadFrom(contents, offset, buffer.Length);
                r == Count(|data|) && buffer[..] == data + old(buffer[..])[|data|..]
      ensures offset + buffer.Length >= WRAP ==>
                var n := if buffer.Length < WRAP - offset + |contents| then buffer.Length
                         else WRAP - offset + |contents|;
                && r == Count(n) && buffer[..] == Range(old(memory.pages), offset, n) + old(buffer[..])[n..]
                && n != (if offset <= |contents| then |contents| - offset else 0)
    {
      var n := buffer.Length;
      var sum := (offset + n) % WRAP;
      var count := n;
      if sum >= size {
        count := (n + WRAP - (sum - size)) % WRAP;
      }
      AskedIs(offset, n, size);
      assert count == Asked(offset, n, size);
      if count == 0 {
        return Count(0);
      }
      if count > n {
        return Overrun;
      }
      ghost var was := memory.pages;
      var progress := memory.Read(offset, buffer, count);
      assert progress == count;
      assert Shows(memory.pages, contents) by {
        forall k: nat ensures At(memory.pages, k) == if k < |contents| then contents[k] else 0 {
          assert At(memory.pages, k) == At(was, k);
        }
      }
      if offset <= |contents| && offset + n < WRAP {
        ShowsRange(was, contents, offset, count);
        assert ReadFrom(contents, offset, n) == contents[offset..offset + count];
      }
      r := Count(count);
    }

    /** `ops::write`. The file is written if and only if the end of the range fits 64 bits; otherwise the bytes go
        around to the first ones, and the size is that of the wrapped end or stays. */
    method Write(offset: nat, data: seq<Byte>) returns (n: nat)
      requires Valid() && offset < WRAP && |data| < WRAP
      modifies this, memory
      ensures n == |data| && Ok(memory.pages) && Replaced(old(memory.pages), memory.pages, offset, data)
      ensures offset + |data| < WRAP ==> Valid() && contents == Written(old(contents), offset, data)
      ensures offset + |data| >= WRAP ==>
                var sum := offset + |data| - WRAP; size == if sum >= old(size) then sum else old(size)
      ensures Stores(memory.pages, size, Written(old(contents), offset, data)) <==> offset + |data| < WRAP
    {
      ghost var was := memory.pages;
      var progress := memory.Write(offset, data);
      assert data[..progress] == data;
      n := |data|;
      var sum := Plus(offset, n);
      if sum >= size {
        size := sum;
        blocks := Blocks(sum);
      }
      if offset + n < WRAP {
        ShowsWritten(was, memory.pages, contents, offset, data);
        contents := Written(contents, offset, data);
      }
    }

    /** `ops::trunc` */
    method Truncate(n: nat)
      requires Valid() && n < WRAP
      modifies this, memory
      ensures Valid() && contents == Truncated(old(contents), n)
    {
      if n == size {
        assert Truncated(contents, n) == contents;
        return;
      }
      ghost var was := memory.pages;
      if n < size {
        var progress := memory.Clear(n, 0, size - n);
        assert Times(progress, 0) == Zeros(|contents| - n);
      } else {
        var progress := memory.Clear(size, 0, n - size);
        assert Times(progress, 0) == Zeros(n - |contents|);
      }
      ShowsTruncated(was, memory.pages, contents, n);
      size := n;
      blocks := Blocks(n);
      contents := Truncated(contents, n);
    }

    /** `ops::map`: a private mapping is a copy of the file as it is, a shared one is its memory itself. */
    method Map(private: bool) returns (m: MemObject)
      requires Valid()
      modifies memory
      ensures Valid() && contents == old(contents)
      ensures if private then fresh(m) && Ok(m.pages) && Shows(m.pages, contents) else m == memory
    {
      if !private {
        return memory;
      }
      m := new MemObject(true, 0);
      ghost var was, empty := memory.pages, m.pages;
      var progress := memory.CopyTo(m, 0, size);
      assert progress == size;
      forall k: nat ensures At(memory.pages, k) == if k < |contents| then contents[k] else 0 {
        assert At(memory.pages, k) == At(was, k);
      }
      ShowsRange(was, contents, 0, size);
      ReplacedPlain(empty, m.pages, 0, contents[0..size]);
      forall k: nat ensures At(m.pages, k) == if k < |contents| then contents[k] else 0 {
        assert At(empty, k) == 0;
      }
    }
  }

  // ----- where the file is missed

  /** Two bytes written at the last offset of all: the second one overwrites the first byte of the file, and the first
      one lies behind its end. */
  lemma WriteGoesAround(was: Pages, now: Pages, x: Byte, y: Byte, z: Byte)
    requires Shows(was, [x]) && Replaced(was, now, WRAP - 1, [y, z])
    ensures At(now, 0) == z && At(now, WRAP - 1) == y
    ensures y != 0 ==> forall f: seq<Byte> | |f| < WRAP :: !Shows(now, f)
  {
    assert Behind(WRAP - 1, 0) == 1 && Behind(WRAP - 1, WRAP - 1) == 0;
  }

  /** One byte read at offset 1 of an empty file: the length asked for is 2^64 - 1. */
  lemma ReadOverruns()
    ensures Asked(1, 1, 0) == WRAP - 1
  {
  }
}
