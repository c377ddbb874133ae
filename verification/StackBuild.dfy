/** Building the initial stack, downwards from its top, in a buffer of exactly the required size. */
module StackBuild {
  import opened Sizes
  import opened Bytes
  import opened StackImage

  function StringBytes(strings: seq<seq<Byte>>): nat {
    if strings == [] then 0 else StringBytes(strings[..|strings| - 1]) + |strings[|strings| - 1]| + 1
  }

  function AlignUp(n: nat): nat {
    (n + 15) / 16 * 16
  }

  const NUM_AUX: nat := 6

  function RequiredSize(argv: seq<seq<Byte>>, envp: seq<seq<Byte>>): nat {
    AlignUp(StringBytes(envp) + StringBytes(argv)) + (if (|argv| + |envp| + 1) % 2 == 1 then 8 else 0)
    + NUM_AUX * 16 + 8 + |envp| * 8 + 8 + |argv| * 8 + 8
  }

  lemma {:induction false} PackedSize(strings: seq<seq<Byte>>)
    ensures |Packed(strings)| == StringBytes(strings)
  {
    if strings != [] {
      PackedSize(strings[..|strings| - 1]);
    }
  }

  lemma {:induction false} BytesConcat(x: seq<seq<Byte>>, y: seq<seq<Byte>>)
    ensures StringBytes(x + y) == StringBytes(x) + StringBytes(y)
  {
    if y == [] {
      assert x + y == x;
    } else {
      BytesConcat(x, y[..|y| - 1]);
      assert (x + y)[..|x + y| - 1] == x + y[..|y| - 1];
    }
  }

  lemma SizeIsAligned(argv: seq<seq<Byte>>, envp: seq<seq<Byte>>)
    ensures RequiredSize(argv, envp) % 16 == 0
  {
    var n := |argv| + |envp|;
    assert n % 2 == 0 || n % 2 == 1;
  }

  /** The first j bytes of b have been copied over those from `start` on. */
  ghost function Partly(was: seq<Byte>, start: nat, b: seq<Byte>, j: nat): (r: seq<Byte>)
    requires j <= |b| && start + |b| <= |was|
    ensures |r| == |was|
  {
    was[..start] + b[..j] + was[start + j..]
  }

  lemma PartlyMore(was: seq<Byte>, start: nat, b: seq<Byte>, j: nat)
    requires j < |b| && start + |b| <= |was|
    ensures Partly(was, start, b, j)[start + j := b[j]] == Partly(was, start, b, j + 1)
  {
  }

  lemma WholeList(list: seq<nat>, words: seq<nat>)
    ensures list[|list|..] + words == words && list[0..] == list
  {
  }

  lemma OneOfList(list: seq<nat>, k: nat, words: seq<nat>)
    requires k < |list|
    ensures [list[k]] + (list[k + 1..] + words) == list[k..] + words
  {
  }

  class StackBuffer {
    const data: array<Byte>
    const stackSize: nat
    var offset: nat

    /** `sptr()`, as an index into the buffer. */
    function At(): int
      reads `offset
    {
      data.Length - (stackSize - offset)
    }

    predicate Valid()
      reads `offset
    {
      offset <= stackSize && data.Length <= stackSize && 0 <= At()
    }

    /** What has been put so far. */
    ghost function Contents(): seq<Byte>
      reads `offset, data
      requires Valid()
    {
      data[At()..]
    }

    /** The rest of the buffer is still zero. */
    ghost predicate Clean()
      reads `offset, data
      requires Valid()
    {
      forall j | 0 <= j < At() :: data[j] == 0
    }

    constructor (size: nat, stackSize: nat)
      requires size <= stackSize
      ensures Valid() && Clean() && Contents() == [] && fresh(data) && data.Length == size
      ensures this.stackSize == stackSize && offset == stackSize
    {
      data := new Byte[size](_ => 0);
      this.stackSize := stackSize;
      offset := stackSize;
    }

    /** Moves down and copies bytes there. */
    method Put(b: seq<Byte>)
      requires Valid() && Clean() && |b| <= At()
      modifies `offset, data
      ensures Valid() && Clean() && Contents() == b + old(Contents()) && offset == old(offset) - |b|
    {
      ghost var was, n := data[..], At();
      offset := offset - |b|;
      var start := At();
      for j := 0 to |b|
        invariant offset == old(offset) - |b| && data[..] == Partly(was, start, b, j)
      {
        PartlyMore(was, start, b, j);
        ghost var before := data[..];
        data[start + j] := b[j];
        assert data[..] == before[start + j := b[j]];
      }
      assert data[..][start..] == b + was[n..];
      assert forall j | 0 <= j < start :: data[j] == data[..][j] == was[j];
    }

    method PutWord(v: nat, ghost front: seq<Byte>, ghost words: seq<nat>, ghost tail: seq<Byte>)
      returns (ghost front': seq<Byte>)
      requires Valid() && Clean() && 8 <= At() && v < WRAP
      requires Contents() == front + tail && Words(front, words)
      modifies `offset, data
      ensures Valid() && Clean() && offset == old(offset) - 8
      ensures Contents() == front' + tail && Words(front', [v] + words)
    {
      var w := LittleEndian(v, 8);
      WordBack(v);
      PushWord(w, v, front, words);
      front' := w + front;
      Put(w);
      assert w + (front + tail) == front' + tail;
    }

    /** One string, and the pointer to it. */
    method PutString(strings: seq<seq<Byte>>, k: nat, bottom: nat, ghost before: seq<seq<Byte>>) returns (pointer: nat)
      requires Valid() && Clean() && k < |strings| && |strings[k]| + 1 <= At()
      requires Contents() == Packed(before + strings[..k])
      modifies `offset, data
      ensures Valid() && Clean() && Contents() == Packed(before + strings[..k + 1])
              && offset == old(offset) - |strings[k]| - 1
      ensures pointer == Pointer(before + strings, bottom + stackSize, |before| + k)
    {
      PackedStep(before, strings, k);
      Put(strings[k] + [0]);
      assert |Contents()| == stackSize - offset;
      PointerIs(before, strings, k, bottom + stackSize, stackSize - offset);
      pointer := bottom + offset;
    }

    /** What one of the loops over strings has done after k of them. */
    ghost predicate StringsPut(strings: seq<seq<Byte>>, k: nat, bottom: nat, before: seq<seq<Byte>>,
                               pointers: seq<nat>, top: nat)
      reads `offset, data
    {
      && k <= |strings| && Valid() && Clean() && offset + StringBytes(strings[..k]) == top
      && Contents() == Packed(before + strings[..k])
      && PointersTo(pointers, before + strings, bottom + stackSize, |before|, k)
    }

    method PutNext(strings: seq<seq<Byte>>, k: nat, bottom: nat, pointers0: seq<nat>, ghost before: seq<seq<Byte>>,
                   ghost top: nat)
      returns (pointers: seq<nat>)
      requires StringsPut(strings, k, bottom, before, pointers0, top) && k < |strings|
      requires StringBytes(strings) <= data.Length - (stackSize - top)
      modifies `offset, data
      ensures StringsPut(strings, k + 1, bottom, before, pointers, top)
    {
      StringStep(strings, k);
      var p := PutString(strings, k, bottom, before);
      PointersGrow(pointers0, before + strings, bottom + stackSize, |before|, k, p);
      pointers := pointers0 + [p];
    }

    /** One of the loops over strings; `before` has been put by the one before. */
    method PutStrings(strings: seq<seq<Byte>>, bottom: nat, ghost before: seq<seq<Byte>>) returns (pointers: seq<nat>)
      requires Valid() && Clean() && Contents() == Packed(before) && StringBytes(strings) <= At()
      modifies `offset, data
      ensures Valid() && Clean() && Contents() == Packed(before + strings)
              && offset == old(offset) - StringBytes(strings)
      ensures pointers == Pointers(before + strings, bottom + stackSize, |before|, |strings|)
    {
      pointers := [];
      ghost var top := offset;
      assert before + strings[..0] == before;
      for k := 0 to |strings|
        invariant StringsPut(strings, k, bottom, before, pointers, top)
      {
        pointers := PutNext(strings, k, bottom, pointers, before, top);
      }
      assert strings[..|strings|] == strings;
      PointersAre(before + strings, bottom + stackSize, |before|, |strings|, pointers);
    }

    /** The padding down to a multiple of 16 bytes; it stays zero. */
    method Align()
      requires Valid() && Clean() && stackSize % 16 == 0 && AlignUp(stackSize - offset) <= data.Length
      modifies `offset
      ensures Valid() && Clean() && offset % 16 == 0 && stackSize - offset == AlignUp(stackSize - old(offset))
      ensures Contents() == Zeros(old(offset) - offset) + old(Contents())
    {
      ghost var n := At();
      AlignDownUp(stackSize, offset);
      offset := offset / 16 * 16;
      assert forall j | At() <= j < n :: data[j] == 0;
    }

    /** The words of one of the loops over pointers, the last first. */
    method PutWords(list: seq<nat>, ghost front0: seq<Byte>, ghost words: seq<nat>, ghost tail: seq<Byte>)
      returns (ghost front: seq<Byte>)
      requires Valid() && Clean() && 8 * |list| <= At() && forall j: nat {:trigger list[j]} | j < |list| ::
                 list[j] < WRAP
      requires Contents() == front0 + tail && Words(front0, words)
      modifies `offset, data
      ensures Valid() && Clean() && offset == old(offset) - 8 * |list|
      ensures Contents() == front + tail && Words(front, list + words)
    {
      front := front0;
      var k: nat := |list|;
      WholeList(list, words);
      while k > 0
        invariant k <= |list| && Valid() && Clean() && offset == old(offset) - 8 * (|list| - k)
        invariant Contents() == front + tail && Words(front, list[k..] + words)
      {
        k := k - 1;
        front := PutWord(list[k], front, list[k + 1..] + words, tail);
        OneOfList(list, k, words);
      }
    }

    /** The auxiliary vector from its last entry on, each with its type below its value. */
    method PutAux(aux: seq<Aux>, ghost front0: seq<Byte>, ghost words: seq<nat>, ghost tail: seq<Byte>)
      returns (ghost front: seq<Byte>)
      requires Valid() && Clean() && 16 * |aux| <= At() && forall j: nat {:trigger aux[j]} | j < |aux| ::
                 AuxFits(aux[j])
      requires Contents() == front0 + tail && Words(front0, words)
      modifies `offset, data
      ensures Valid() && Clean() && offset == old(offset) - 16 * |aux|
      ensures Contents() == front + tail && Words(front, AuxWords(aux) + words)
    {
      front := front0;
      var k := |aux|;
      assert AuxWords(aux[k..]) + words == words;
      while k > 0
        invariant k <= |aux| && Valid() && Clean() && offset == old(offset) - 16 * (|aux| - k)
        invariant Contents() == front + tail && Words(front, AuxWords(aux[k..]) + words)
      {
        k := k - 1;
        ghost var rest := AuxWords(aux[k + 1..]) + words;
        assert AuxFits(aux[k]);
        front := PutWord(aux[k].value, front, rest, tail);
        front := PutWord(aux[k].kind, front, [aux[k].value] + rest, tail);
        AuxStep(aux, k, words);
      }
      assert aux[0..] == aux;
    }
  }

  ghost predicate PointersTo(p: seq<nat>, strings: seq<seq<Byte>>, top: nat, from: nat, n: nat) {
    from + n <= |strings| && |p| == n && forall j: nat {:trigger p[j]} | j < n ::
        p[j] == Pointer(strings, top, from + j)
  }

  lemma PointersGrow(p: seq<nat>, strings: seq<seq<Byte>>, top: nat, from: nat, n: nat, x: nat)
    requires PointersTo(p, strings, top, from, n) && from + n < |strings| && x == Pointer(strings, top, from + n)
    ensures PointersTo(p + [x], strings, top, from, n + 1)
  {
  }

  lemma StringStep(strings: seq<seq<Byte>>, k: nat)
    requires k < |strings|
    ensures StringBytes(strings[..k + 1]) == StringBytes(strings[..k]) + |strings[k]| + 1 <= StringBytes(strings)
  {
    assert strings[..k + 1][..k] == strings[..k];
    assert strings == strings[..k + 1] + strings[k + 1..];
    BytesConcat(strings[..k + 1], strings[k + 1..]);
  }

  lemma PackedStep(before: seq<seq<Byte>>, strings: seq<seq<Byte>>, k: nat)
    requires k < |strings|
    ensures Packed(before + strings[..k + 1]) == strings[k] + [0] + Packed(before + strings[..k])
  {
    var s := before + strings[..k + 1];
    assert s[..|s| - 1] == before + strings[..k] && s[|s| - 1] == strings[k];
  }

  lemma PointerIs(before: seq<seq<Byte>>, strings: seq<seq<Byte>>, k: nat, top: nat, used: nat)
    requires k < |strings| && used == |Packed(before + strings[..k + 1])| <= top
    ensures Pointer(before + strings, top, |before| + k) == top - used
  {
    assert (before + strings)[..|before| + k + 1] == before + strings[..k + 1];
  }

  lemma {:induction false} PointersAre(strings: seq<seq<Byte>>, top: nat, from: nat, n: nat, p: seq<nat>)
    requires PointersTo(p, strings, top, from, n)
    ensures p == Pointers(strings, top, from, n)
    decreases n
  {
    if n != 0 {
      forall j: nat {:trigger p[1..][j]} | j < n - 1 ensures p[1..][j] == Pointer(strings, top, from + 1 + j) {
        assert p[1..][j] == p[j + 1];
      }
      PointersAre(strings, top, from + 1, n - 1, p[1..]);
      assert p == [p[0]] + p[1..];
    }
  }

  predicate AuxFits(a: Aux) {
    a.kind < WRAP && a.value < WRAP
  }

  lemma AuxStep(aux: seq<Aux>, k: nat, words: seq<nat>)
    requires k < |aux|
    ensures [aux[k].kind] + ([aux[k].value] + (AuxWords(aux[k + 1..]) + words)) == AuxWords(aux[k..]) + words
  {
    assert aux[k..][1..] == aux[k + 1..];
  }

  lemma {:induction false} PointersFit(strings: seq<seq<Byte>>, top: nat, from: nat, n: nat)
    requires from + n <= |strings|
    ensures forall j: nat {:trigger Pointers(strings, top, from, n)[j]} | j < n ::
              Pointers(strings, top, from, n)[j] <= top
    decreases n
  {
    if n != 0 {
      PointersFit(strings, top, from + 1, n - 1);
    }
  }

  /** More strings below do not move those above. */
  lemma {:induction false} PointersExtend(x: seq<seq<Byte>>, y: seq<seq<Byte>>, top: nat, from: nat, n: nat)
    requires from + n <= |x|
    ensures Pointers(x + y, top, from, n) == Pointers(x, top, from, n)
    decreases n
  {
    if n != 0 {
      assert (x + y)[..from + 1] == x[..from + 1];
      PointersExtend(x, y, top, from + 1, n - 1);
    }
  }

  lemma FirstPointers(x: seq<seq<Byte>>, y: seq<seq<Byte>>, top: nat)
    ensures [] + x == x && Pointers([] + x, top, 0, |x|) == Pointers(x + y, top, 0, |x|)
  {
    assert [] + x == x;
    PointersExtend(x, y, top, 0, |x|);
  }

  lemma AlignedDifference(top: nat, n: nat)
    requires top % 16 == 0 && n % 16 == 0 && n <= top
    ensures (top - n) % 16 == 0
  {
    assert top - n == 16 * (top / 16 - n / 16);
  }

  lemma Assoc(x0: seq<nat>, x1: seq<nat>, x2: seq<nat>, x3: seq<nat>, x4: seq<nat>, x5: seq<nat>, x6: seq<nat>)
    ensures x0 + (x1 + (x2 + (x3 + (x4 + (x5 + x6))))) == x0 + x1 + x2 + x3 + x4 + x5 + x6
  {
  }

  /** Aligning the offset down aligns what is above it up. */
  lemma AlignDownUp(stackSize: nat, offset: nat)
    requires stackSize % 16 == 0 && offset <= stackSize
    ensures stackSize - offset / 16 * 16 == AlignUp(stackSize - offset)
  {
    var q, r := offset / 16, offset % 16;
    var n := stackSize / 16;
    assert stackSize - offset + 15 == 16 * (n - q) + (15 - r);
  }

  /** The auxiliary vector that the loader gives to a program, upwards; AT_NULL ends it. */
  function Auxv(entry: nat, phdr: nat, phent: nat, phnum: nat): seq<Aux> {
    [Aux(23, 0), Aux(9, entry), Aux(5, phnum), Aux(4, phent), Aux(3, phdr), Aux(0, 0)]
  }

  /** What a program finds for a type: the value of the first entry with it, or 0. */
  function ValueOf(aux: seq<Aux>, kind: nat): nat {
    if aux == [] || aux[0].kind == 0 then 0
    else if aux[0].kind == kind then aux[0].value
    else ValueOf(aux[1..], kind)
  }

  /** The entry point is found under type 9, and the program headers, their size and their number under 3, 4 and 5. */
  lemma AuxvTells(entry: nat, phdr: nat, phent: nat, phnum: nat)
    ensures var aux := Auxv(entry, phdr, phent, phnum);
            && ValueOf(aux, 9) == entry && ValueOf(aux, 3) == phdr
            && ValueOf(aux, 4) == phent && ValueOf(aux, 5) == phnum && ValueOf(aux, 23) == 0
  {
    var aux := Auxv(entry, phdr, phent, phnum);
    assert aux[1..][1..] == aux[2..] && aux[2..][1..] == aux[3..] && aux[3..][1..] == aux[4..];
    forall kind: nat | kind in {3, 4, 5, 9} ensures ValueOf(aux, kind) == ValueOf(aux[1..], kind) {
    }
    forall kind: nat | kind in {3, 4, 5} ensures ValueOf(aux[1..], kind) == ValueOf(aux[2..], kind) {
    }
    forall kind: nat | kind in {3, 4} ensures ValueOf(aux[2..], kind) == ValueOf(aux[3..], kind) {
    }
    assert ValueOf(aux[3..], 3) == ValueOf(aux[4..], 3);
  }

  lemma AuxvOk(entry: nat, phdr: nat, phent: nat, phnum: nat)
    requires entry < WRAP && phdr < WRAP && phent < WRAP && phnum < WRAP
    ensures var aux := Auxv(entry, phdr, phent, phnum);
            |aux| == NUM_AUX && AuxOk(aux) && forall j: nat {:trigger aux[j]} | j < |aux| :: AuxFits(aux[j])
  {
    var aux := Auxv(entry, phdr, phent, phnum);
    assert aux[5..] == [Aux(0, 0)] && AuxOk(aux[5..]);
    assert aux[4..][1..] == aux[5..] && AuxOk(aux[4..]);
    assert aux[3..][1..] == aux[4..] && AuxOk(aux[3..]);
    assert aux[2..][1..] == aux[3..] && AuxOk(aux[2..]);
    assert aux[1..][1..] == aux[2..] && AuxOk(aux[1..]);
  }

  /** The stack of a program, with its top at address top, and the stack pointer. The buffer is used up exactly, and
      reading upwards from the stack pointer gives everything back. */
  method Build(argv: seq<seq<Byte>>, envp: seq<seq<Byte>>, entry: nat, phdr: nat, phent: nat, phnum: nat, top: nat,
               stackSize: nat)
    returns (data: array<Byte>, sp: nat)
    requires RequiredSize(argv, envp) <= stackSize < top < WRAP && stackSize % 16 == 0 && top % 16 == 0
    requires entry < WRAP && phdr < WRAP && phent < WRAP && phnum < WRAP
    requires forall j: nat {:trigger NulFree(argv[j])} | j < |argv| :: NulFree(argv[j])
    requires forall j: nat {:trigger NulFree(envp[j])} | j < |envp| :: NulFree(envp[j])
    ensures data.Length == RequiredSize(argv, envp) && sp == top - data.Length && sp % 16 == 0
    ensures WordAt(data[..], 0) == |argv|
    ensures StringsAt(data[..], sp, 8) == argv && WordAt(data[..], 8 * (1 + |argv|)) == 0
    ensures StringsAt(data[..], sp, 8 * (2 + |argv|)) == envp && WordAt(data[..], 8 * (2 + |argv| + |envp|)) == 0
    ensures AuxAt(data[..], 8 * (3 + |argv| + |envp|)) == Auxv(entry, phdr, phent, phnum)
    ensures var found := AuxAt(data[..], 8 * (3 + |argv| + |envp|));
            && ValueOf(found, 9) == entry && ValueOf(found, 3) == phdr
            && ValueOf(found, 4) == phent && ValueOf(found, 5) == phnum && ValueOf(found, 23) == 0
  {
    var aux := Auxv(entry, phdr, phent, phnum);
    AuxvOk(entry, phdr, phent, phnum);
    AuxvTells(entry, phdr, phent, phnum);
    data, sp := BuildWith(argv, envp, aux, top, stackSize);
  }

  /** The same for any auxiliary vector of that length. */
  method BuildWith(argv: seq<seq<Byte>>, envp: seq<seq<Byte>>, aux: seq<Aux>, top: nat, stackSize: nat)
    returns (data: array<Byte>, sp: nat)
    requires RequiredSize(argv, envp) <= stackSize < top < WRAP && stackSize % 16 == 0 && top % 16 == 0
    requires |aux| == NUM_AUX && AuxOk(aux) && forall j: nat {:trigger aux[j]} | j < |aux| :: AuxFits(aux[j])
    requires forall j: nat {:trigger NulFree(argv[j])} | j < |argv| :: NulFree(argv[j])
    requires forall j: nat {:trigger NulFree(envp[j])} | j < |envp| :: NulFree(envp[j])
    ensures data.Length == RequiredSize(argv, envp) && sp == top - data.Length && sp % 16 == 0
    ensures Reads(data[..], sp, argv, envp, aux)
  {
    ghost var front, words;
    data, sp, front, words := Fill(argv, envp, aux, top, stackSize);
    SizeIsAligned(argv, envp);
    AlignedDifference(top, data.Length);
    RoundTrip(data[..], front, words, argv, envp, aux, sp);
  }

  /** The strings, and the padding below them. */
  method FillStrings(argv: seq<seq<Byte>>, envp: seq<seq<Byte>>, top: nat, stackSize: nat)
    returns (b: StackBuffer, argPointers: seq<nat>, envPointers: seq<nat>, ghost pad: seq<Byte>)
    requires RequiredSize(argv, envp) <= stackSize < top < WRAP && stackSize % 16 == 0
    ensures fresh(b) && fresh(b.data) && b.Valid() && b.Clean() && b.stackSize == stackSize
    ensures b.data.Length == RequiredSize(argv, envp)
            && b.At() == 8 * (3 + |argv| + |envp| + 2 * NUM_AUX + |Filler(argv, envp)|)
    ensures b.Contents() == pad + Packed(envp + argv)
    ensures argPointers == Pointers(envp + argv, top, |envp|, |argv|)
    ensures envPointers == Pointers(envp + argv, top, 0, |envp|)
  {
    b := new StackBuffer(RequiredSize(argv, envp), stackSize);
    envPointers, argPointers := FillBoth(b, argv, envp, top);
    ghost var was := b.offset;
    b.Align();
    pad := Zeros(was - b.offset);
  }

  method FillBoth(b: StackBuffer, argv: seq<seq<Byte>>, envp: seq<seq<Byte>>, top: nat)
    returns (envPointers: seq<nat>, argPointers: seq<nat>)
    requires b.Valid() && b.Clean() && b.Contents() == [] && b.stackSize < top
    requires StringBytes(envp) + StringBytes(argv) <= b.At()
    modifies b`offset, b.data
    ensures b.Valid() && b.Clean() && b.Contents() == Packed(envp + argv)
    ensures b.offset == old(b.offset) - StringBytes(envp) - StringBytes(argv)
    ensures argPointers == Pointers(envp + argv, top, |envp|, |argv|)
    ensures envPointers == Pointers(envp + argv, top, 0, |envp|)
  {
    envPointers := b.PutStrings(envp, top - b.stackSize, []);
    FirstPointers(envp, argv, top);
    argPointers := b.PutStrings(argv, top - b.stackSize, envp);
  }

  /** The words below the strings, from the filler down to the argument count. */
  method FillWords(b: StackBuffer, argc: nat, oneMore: bool, argPointers: seq<nat>, envPointers: seq<nat>,
                   aux: seq<Aux>)
    returns (ghost front: seq<Byte>)
    requires b.Valid() && b.Clean() && argc < WRAP && |aux| == NUM_AUX
    requires b.At() == 8 * (3 + |argPointers| + |envPointers| + 2 * |aux| + if oneMore then 1 else 0)
    requires forall j: nat {:trigger argPointers[j]} | j < |argPointers| :: argPointers[j] < WRAP
    requires forall j: nat {:trigger envPointers[j]} | j < |envPointers| :: envPointers[j] < WRAP
    requires forall j: nat {:trigger aux[j]} | j < |aux| :: AuxFits(aux[j])
    modifies b`offset, b.data
    ensures b.Valid() && b.At() == 0 && b.Contents() == front + old(b.Contents())
    ensures Words(front, [argc] + (argPointers + ([0] + (envPointers + ([0] +
                    (AuxWords(aux) + if oneMore then [0] else []))))))
  {
    ghost var tail, words := b.Contents(), [];
    front := [];
    if oneMore {
      front := b.PutWord(0, front, words, tail);
      assert [0] + words == [0];
      words := [0];
    }
    front := b.PutAux(aux, front, words, tail);
    words := AuxWords(aux) + words;
    front := b.PutWord(0, front, words, tail);
    words := [0] + words;
    front := b.PutWords(envPointers, front, words, tail);
    words := envPointers + words;
    front := b.PutWord(0, front, words, tail);
    words := [0] + words;
    front := b.PutWords(argPointers, front, words, tail);
    words := argPointers + words;
    front := b.PutWord(argc, front, words, tail);
  }

  method Fill(argv: seq<seq<Byte>>, envp: seq<seq<Byte>>, aux: seq<Aux>, top: nat, stackSize: nat)
    returns (data: array<Byte>, sp: nat, ghost front: seq<Byte>, ghost words: seq<nat>)
    requires RequiredSize(argv, envp) <= stackSize < top < WRAP && stackSize % 16 == 0
    requires |aux| == NUM_AUX && forall j: nat {:trigger aux[j]} | j < |aux| :: AuxFits(aux[j])
    ensures fresh(data) && data.Length == RequiredSize(argv, envp) && sp == top - data.Length
    ensures Stack(data[..], front, words, envp + argv, sp)
    ensures WordsOf(words, envp + argv, top, |argv|, |envp|, aux)
  {
    var b, argPointers, envPointers;
    ghost var pad;
    b, argPointers, envPointers, pad := FillStrings(argv, envp, top, stackSize);
    PointersFit(envp + argv, top, 0, |envp|);
    PointersFit(envp + argv, top, |envp|, |argv|);
    front := FillWords(b, |argv|, (|argv| + |envp| + 1) % 2 == 1, argPointers, envPointers, aux);
    words := StackWords(argv, envp, aux, top);
    Assoc([|argv|], argPointers, [0], envPointers, [0], AuxWords(aux), Filler(argv, envp));
    WordsParts(argv, envp, aux, top);
    data, sp := b.data, top - stackSize + b.offset;
    StackShape(data[..], front, pad, words, envp + argv, sp);
  }

  lemma StackShape(mem: seq<Byte>, front: seq<Byte>, pad: seq<Byte>, words: seq<nat>, strings: seq<seq<Byte>>,
                   base: nat)
    requires base > 0 && Words(front, words) && mem == front + (pad + Packed(strings))
    ensures Stack(mem, front, words, strings, base)
  {
  }
}
