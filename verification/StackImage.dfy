/** The initial stack of a process: what a program finds there, and what the kernel puts there. */
module StackImage {
  import opened Sizes
  import opened Bytes

  // ----- 64-bit words in memory, little-endian

  function Power(n: nat): (p: nat)
    ensures p > 0
  {
    if n == 0 then 1 else 256 * Power(n - 1)
  }

  function LittleEndian(v: nat, n: nat): (s: seq<Byte>)
    ensures |s| == n
  {
    if n == 0 then [] else [v % 256] + LittleEndian(v / 256, n - 1)
  }

  function Value(s: seq<Byte>): nat {
    if s == [] then 0 else s[0] + 256 * Value(s[1..])
  }

  lemma {:induction false} ValueBack(v: nat, n: nat)
    requires v < Power(n)
    ensures Value(LittleEndian(v, n)) == v
  {
    if n != 0 {
      assert v / 256 < Power(n - 1);
      ValueBack(v / 256, n - 1);
    }
  }

  lemma WordBack(v: nat)
    requires v < WRAP
    ensures Value(LittleEndian(v, 8)) == v
  {
    assert Power(4) == 0x1_0000_0000;
    assert Power(8) == 256 * (256 * (256 * (256 * Power(4))));
    ValueBack(v, 8);
  }

  // ----- reading a stack from the stack pointer upwards

  function WordAt(mem: seq<Byte>, at: nat): nat {
    if at + 8 <= |mem| then Value(mem[at..at + 8]) else 0
  }

  /** The strings that the pointers from `at` on point to, up to the null pointer; the memory begins at address base. */
  function StringsAt(mem: seq<Byte>, base: nat, at: nat): seq<seq<Byte>>
    decreases |mem| - at
  {
    var p := WordAt(mem, at);
    if at >= |mem| || p < base || p - base > |mem| then []
    else [CString(mem, p - base)] + StringsAt(mem, base, at + 8)
  }

  datatype Aux = Aux(kind: nat, value: nat)

  /** The auxiliary vector from `at` on, up to and with the entry of type AT_NULL. */
  function AuxAt(mem: seq<Byte>, at: nat): seq<Aux>
    decreases |mem| - at
  {
    if at >= |mem| then []
    else
      var a := Aux(WordAt(mem, at), WordAt(mem, at + 8));
      if a.kind == 0 then [a] else [a] + AuxAt(mem, at + 16)
  }

  // ----- what is put there

  /** The memory holds these words and nothing else. */
  ghost predicate Words(mem: seq<Byte>, words: seq<nat>) {
    |mem| == 8 * |words| && forall k: nat {:trigger words[k]} | k < |words| :: WordAt(mem, 8 * k) == words[k]
  }

  lemma PushWord(w: seq<Byte>, v: nat, mem: seq<Byte>, words: seq<nat>)
    requires |w| == 8 && Value(w) == v && Words(mem, words)
    ensures Words(w + mem, [v] + words)
  {
    var all := w + mem;
    forall k: nat {:trigger ([v] + words)[k]} | k < |words| + 1 ensures WordAt(all, 8 * k) == ([v] + words)[k] {
      if k == 0 {
        assert all[0..8] == w;
      } else {
        assert all[8 * k..8 * k + 8] == mem[8 * (k - 1)..8 * (k - 1) + 8];
        assert words[k - 1] == ([v] + words)[k];
      }
    }
  }

  lemma WordsInFront(mem: seq<Byte>, words: seq<nat>, rest: seq<Byte>, k: nat)
    requires Words(mem, words) && k < |words|
    ensures WordAt(mem + rest, 8 * k) == words[k]
  {
    assert (mem + rest)[8 * k..8 * k + 8] == mem[8 * k..8 * k + 8];
  }

  /** The strings, each with its NUL, the first at the highest address. */
  function Packed(strings: seq<seq<Byte>>): seq<Byte> {
    if strings == [] then []
    else strings[|strings| - 1] + [0] + Packed(strings[..|strings| - 1])
  }

  /** How far below the end string k begins. */
  function Depth(strings: seq<seq<Byte>>, k: nat): nat
    requires k < |strings|
  {
    |Packed(strings[..k + 1])|
  }

  lemma {:induction false} PackedEnds(strings: seq<seq<Byte>>, n: nat)
    requires n <= |strings|
    ensures |Packed(strings[..n])| <= |Packed(strings)|
    ensures Packed(strings)[|Packed(strings)| - |Packed(strings[..n])|..] == Packed(strings[..n])
  {
    if n == |strings| {
      assert strings[..n] == strings;
    } else {
      var shorter := strings[..|strings| - 1];
      PackedEnds(shorter, n);
      assert shorter[..n] == strings[..n];
      assert Packed(strings) == (strings[|strings| - 1] + [0]) + Packed(shorter);
    }
  }

  predicate NulFree(s: seq<Byte>) {
    0 !in s
  }

  /** From a depth on, the memory begins with that string. */
  lemma PackedAt(front: seq<Byte>, strings: seq<seq<Byte>>, k: nat)
    requires k < |strings|
    ensures var mem := front + Packed(strings);
            && Depth(strings, k) <= |mem|
            && mem[|mem| - Depth(strings, k)..] == strings[k] + [0] + Packed(strings[..k])
  {
    var mem, some := front + Packed(strings), strings[..k + 1];
    PackedEnds(strings, k + 1);
    assert some[..k] == strings[..k];
    assert mem[|mem| - Depth(strings, k)..] == Packed(some);
  }

  lemma StringFirst(mem: seq<Byte>, n: nat, s: seq<Byte>, rest: seq<Byte>)
    requires n <= |mem| && mem[n..] == s + [0] + rest && NulFree(s)
    ensures CString(mem, n) == s
  {
    assert mem[n..n + |s|] == mem[n..][..|s|] == s;
    assert mem[n + |s|] == mem[n..][|s|] == 0;
    CStringIs(mem, n, s);
  }

  /** Reading a C string at a depth below the end gives that string, whatever lies below the strings. */
  lemma StringThere(front: seq<Byte>, strings: seq<seq<Byte>>, k: nat)
    requires k < |strings| && NulFree(strings[k])
    ensures var mem := front + Packed(strings);
            Depth(strings, k) <= |mem| && CString(mem, |mem| - Depth(strings, k)) == strings[k]
  {
    var mem := front + Packed(strings);
    PackedAt(front, strings, k);
    StringFirst(mem, |mem| - Depth(strings, k), strings[k], Packed(strings[..k]));
  }

  function Pointer(strings: seq<seq<Byte>>, top: nat, k: nat): nat
    requires k < |strings|
  {
    if Depth(strings, k) <= top then top - Depth(strings, k) else 0
  }

  /** Pointers to n strings from number `from` on, for an end of the stack at address top. */
  function Pointers(strings: seq<seq<Byte>>, top: nat, from: nat, n: nat): (r: seq<nat>)
    requires from + n <= |strings|
    ensures |r| == n
    decreases n
  {
    if n == 0 then [] else [Pointer(strings, top, from)] + Pointers(strings, top, from + 1, n - 1)
  }

  /** The auxiliary vector upwards. */
  function AuxWords(aux: seq<Aux>): (r: seq<nat>)
    ensures |r| == 2 * |aux|
  {
    if aux == [] then [] else [aux[0].kind, aux[0].value] + AuxWords(aux[1..])
  }

  /** The auxiliary vector ends with its only entry of type AT_NULL. */
  predicate AuxOk(aux: seq<Aux>) {
    aux != [] && (aux[0].kind == 0 <==> |aux| == 1) && (|aux| > 1 ==> AuxOk(aux[1..]))
  }

  /** From the argument count up to the word that fills the last pair. */
  function StackWords(argv: seq<seq<Byte>>, envp: seq<seq<Byte>>, aux: seq<Aux>, top: nat): (r: seq<nat>)
    ensures |r| == 3 + |argv| + |envp| + 2 * |aux| + |Filler(argv, envp)|
  {
    [|argv|] + Pointers(envp + argv, top, |envp|, |argv|) + [0] + Pointers(envp + argv, top, 0, |envp|) + [0]
    + AuxWords(aux) + Filler(argv, envp)
  }

  function Filler(argv: seq<seq<Byte>>, envp: seq<seq<Byte>>): seq<nat> {
    if (|argv| + |envp| + 1) % 2 == 1 then [0] else []
  }

  // ----- the round trip

  /** The memory of a stack whose words are `front`, with strings at its end, as seen from its lower end at address
      base. */
  ghost predicate Stack(mem: seq<Byte>, front: seq<Byte>, words: seq<nat>, strings: seq<seq<Byte>>, base: nat) {
    && base > 0 && Words(front, words) && |front| <= |mem| && front == mem[..|front|]
    && |Packed(strings)| <= |mem| && mem[|mem| - |Packed(strings)|..] == Packed(strings)
  }

  ghost predicate Seen(mem: seq<Byte>, words: seq<nat>) {
    8 * |words| <= |mem| && forall k: nat {:trigger words[k]} | k < |words| :: WordAt(mem, 8 * k) == words[k]
  }

  lemma FrontSeen(mem: seq<Byte>, front: seq<Byte>, words: seq<nat>)
    requires Words(front, words) && |front| <= |mem| && front == mem[..|front|]
    ensures Seen(mem, words)
  {
    assert mem == front + mem[|front|..];
    forall k: nat {:trigger words[k]} | k < |words| ensures WordAt(mem, 8 * k) == words[k] {
      WordsInFront(front, words, mem[|front|..], k);
    }
  }

  ghost predicate StringsEnd(mem: seq<Byte>, strings: seq<seq<Byte>>) {
    && |Packed(strings)| <= |mem| && mem[|mem| - |Packed(strings)|..] == Packed(strings)
    && forall j: nat {:trigger NulFree(strings[j])} | j < |strings| :: NulFree(strings[j])
  }

  lemma OneString(mem: seq<Byte>, strings: seq<seq<Byte>>, base: nat, at: nat, k: nat)
    requires StringsEnd(mem, strings) && k < |strings| && at < |mem| && base > 0
    requires WordAt(mem, at) == Pointer(strings, base + |mem|, k)
    ensures StringsAt(mem, base, at) == [strings[k]] + StringsAt(mem, base, at + 8)
  {
    var low := mem[..|mem| - |Packed(strings)|];
    assert mem == low + Packed(strings);
    assert NulFree(strings[k]);
    StringThere(low, strings, k);
  }

  lemma NoString(mem: seq<Byte>, base: nat, at: nat)
    requires base > 0 && WordAt(mem, at) == 0
    ensures StringsAt(mem, base, at) == []
  {
  }

  lemma SliceStep<T>(w: seq<T>, i: nat, n: nat, k: nat)
    requires 0 < k <= n && i + n <= |w|
    ensures w[i..i + n][k..] == w[i + k..i + n] && w[i] == w[i..i + n][0] && w[i + k - 1] == w[i..i + n][k - 1]
    ensures k == 1 ==> w[i..i + n] == [w[i]] + w[i + 1..i + n]
  {
  }

  lemma PointersStep(words: seq<nat>, strings: seq<seq<Byte>>, top: nat, i: nat, from: nat, n: nat)
    requires 0 < n && i + n <= |words| && from + n <= |strings|
    requires words[i..i + n] == Pointers(strings, top, from, n)
    ensures words[i] == Pointer(strings, top, from)
    ensures words[i + 1..(i + 1) + (n - 1)] == Pointers(strings, top, from + 1, n - 1)
  {
    SliceStep(words, i, n, 1);
  }

  lemma {:induction false} StringsRead(mem: seq<Byte>, words: seq<nat>, strings: seq<seq<Byte>>, base: nat,
                                       i: nat, from: nat, n: nat)
    requires Seen(mem, words) && StringsEnd(mem, strings) && base > 0 && i + n < |words| && from + n <= |strings|
    requires words[i..i + n] == Pointers(strings, base + |mem|, from, n) && words[i + n] == 0
    ensures StringsAt(mem, base, 8 * i) == strings[from..from + n]
    decreases n
  {
    if n != 0 {
      PointersStep(words, strings, base + |mem|, i, from, n);
      assert WordAt(mem, 8 * i) == words[i];
      OneString(mem, strings, base, 8 * i, from);
      StringsRead(mem, words, strings, base, i + 1, from + 1, n - 1);
      SliceStep(strings, from, n, 1);
    } else {
      assert WordAt(mem, 8 * i) == words[i];
      NoString(mem, base, 8 * i);
    }
  }

  lemma {:induction false} AuxRead(mem: seq<Byte>, words: seq<nat>, i: nat, aux: seq<Aux>)
    requires Seen(mem, words) && AuxOk(aux)
    requires i + 2 * |aux| <= |words| && words[i..i + 2 * |aux|] == AuxWords(aux)
    ensures AuxAt(mem, 8 * i) == aux
    decreases |aux|
  {
    var n := 2 * |aux|;
    SliceStep(words, i, n, 1);
    SliceStep(words, i, n, 2);
    assert words[i] == aux[0].kind && words[i + 1] == aux[0].value by {
      assert words[i..i + n][1] == AuxWords(aux)[1];
    }
    if |aux| > 1 {
      AuxRead(mem, words, i + 2, aux[1..]);
    }
  }

  /** From the stack pointer upwards: the count, the arguments and a null pointer, the environment and a null pointer,
      and the auxiliary vector. */
  ghost predicate Reads(mem: seq<Byte>, base: nat, argv: seq<seq<Byte>>, envp: seq<seq<Byte>>, aux: seq<Aux>) {
    && WordAt(mem, 0) == |argv|
    && StringsAt(mem, base, 8) == argv && WordAt(mem, 8 * (1 + |argv|)) == 0
    && StringsAt(mem, base, 8 * (2 + |argv|)) == envp && WordAt(mem, 8 * (2 + |argv| + |envp|)) == 0
    && AuxAt(mem, 8 * (3 + |argv| + |envp|)) == aux
  }

  lemma RoundTrip(mem: seq<Byte>, front: seq<Byte>, words: seq<nat>, argv: seq<seq<Byte>>, envp: seq<seq<Byte>>,
                  aux: seq<Aux>, base: nat)
    requires Stack(mem, front, words, envp + argv, base) && AuxOk(aux)
    requires WordsOf(words, envp + argv, base + |mem|, |argv|, |envp|, aux)
    requires forall j: nat {:trigger NulFree(argv[j])} | j < |argv| :: NulFree(argv[j])
    requires forall j: nat {:trigger NulFree(envp[j])} | j < |envp| :: NulFree(envp[j])
    ensures Reads(mem, base, argv, envp, aux)
  {
    BothSeen(mem, front, words, argv, envp, base);
    ReadAll(mem, words, envp + argv, base, |argv|, |envp|, aux);
    ConcatSlices(envp, argv);
  }

  lemma BothSeen(mem: seq<Byte>, front: seq<Byte>, words: seq<nat>, argv: seq<seq<Byte>>, envp: seq<seq<Byte>>,
                 base: nat)
    requires Stack(mem, front, words, envp + argv, base)
    requires forall j: nat {:trigger NulFree(argv[j])} | j < |argv| :: NulFree(argv[j])
    requires forall j: nat {:trigger NulFree(envp[j])} | j < |envp| :: NulFree(envp[j])
    ensures Seen(mem, words) && StringsEnd(mem, envp + argv)
  {
    FrontSeen(mem, front, words);
    BothNulFree(argv, envp);
  }

  lemma ConcatSlices<T>(x: seq<T>, y: seq<T>)
    ensures (x + y)[|x|..|x| + |y|] == y && (x + y)[0..0 + |x|] == x
  {
  }

  lemma BothNulFree(argv: seq<seq<Byte>>, envp: seq<seq<Byte>>)
    requires forall j: nat {:trigger NulFree(argv[j])} | j < |argv| :: NulFree(argv[j])
    requires forall j: nat {:trigger NulFree(envp[j])} | j < |envp| :: NulFree(envp[j])
    ensures forall j: nat {:trigger NulFree((envp + argv)[j])} | j < |envp + argv| :: NulFree((envp + argv)[j])
  {
    forall j: nat | j < |envp + argv| ensures NulFree((envp + argv)[j]) {
      if j < |envp| {
        assert NulFree(envp[j]);
      } else {
        assert NulFree(argv[j - |envp|]);
      }
    }
  }

  /** The words lead to the strings and the auxiliary vector. */
  ghost predicate WordsOf(w: seq<nat>, strings: seq<seq<Byte>>, top: nat, a: nat, e: nat, aux: seq<Aux>) {
    && a + e == |strings| && |w| >= 3 + a + e + 2 * |aux|
    && w[0] == a && w[1..1 + a] == Pointers(strings, top, e, a) && w[1 + a] == 0
    && w[2 + a..2 + a + e] == Pointers(strings, top, 0, e) && w[2 + a + e] == 0
    && w[3 + a + e..3 + a + e + 2 * |aux|] == AuxWords(aux)
  }

  lemma ReadArgs(mem: seq<Byte>, words: seq<nat>, strings: seq<seq<Byte>>, base: nat, a: nat, e: nat, aux: seq<Aux>)
    requires Seen(mem, words) && StringsEnd(mem, strings) && base > 0
    requires WordsOf(words, strings, base + |mem|, a, e, aux)
    ensures StringsAt(mem, base, 8) == strings[e..e + a]
  {
    StringsRead(mem, words, strings, base, 1, e, a);
  }

  lemma ReadEnv(mem: seq<Byte>, words: seq<nat>, strings: seq<seq<Byte>>, base: nat, a: nat, e: nat, aux: seq<Aux>)
    requires Seen(mem, words) && StringsEnd(mem, strings) && base > 0
    requires WordsOf(words, strings, base + |mem|, a, e, aux)
    ensures StringsAt(mem, base, 8 * (2 + a)) == strings[0..0 + e]
  {
    StringsRead(mem, words, strings, base, 2 + a, 0, e);
  }

  lemma ReadAux(mem: seq<Byte>, words: seq<nat>, strings: seq<seq<Byte>>, base: nat, a: nat, e: nat, aux: seq<Aux>)
    requires Seen(mem, words) && AuxOk(aux) && WordsOf(words, strings, base + |mem|, a, e, aux)
    ensures WordAt(mem, 0) == a && AuxAt(mem, 8 * (3 + a + e)) == aux
  {
    assert WordAt(mem, 8 * 0) == words[0];
    AuxRead(mem, words, 3 + a + e, aux);
  }

  lemma ReadNulls(mem: seq<Byte>, words: seq<nat>, strings: seq<seq<Byte>>, base: nat, a: nat, e: nat, aux: seq<Aux>)
    requires Seen(mem, words) && WordsOf(words, strings, base + |mem|, a, e, aux)
    ensures WordAt(mem, 8 * (1 + a)) == 0 && WordAt(mem, 8 * (2 + a + e)) == 0
  {
    assert WordAt(mem, 8 * (1 + a)) == words[1 + a];
    assert WordAt(mem, 8 * (2 + a + e)) == words[2 + a + e];
  }

  lemma ReadAll(mem: seq<Byte>, words: seq<nat>, strings: seq<seq<Byte>>, base: nat, a: nat, e: nat, aux: seq<Aux>)
    requires Seen(mem, words) && StringsEnd(mem, strings) && base > 0 && AuxOk(aux)
    requires WordsOf(words, strings, base + |mem|, a, e, aux)
    ensures Reads(mem, base, strings[e..e + a], strings[0..0 + e], aux)
  {
    ReadNulls(mem, words, strings, base, a, e, aux);
    ReadArgs(mem, words, strings, base, a, e, aux);
    ReadEnv(mem, words, strings, base, a, e, aux);
    ReadAux(mem, words, strings, base, a, e, aux);
  }

  lemma WordsParts(argv: seq<seq<Byte>>, envp: seq<seq<Byte>>, aux: seq<Aux>, top: nat)
    ensures WordsOf(StackWords(argv, envp, aux, top), envp + argv, top, |argv|, |envp|, aux)
  {
    var a, e := |argv|, |envp|;
    Parts([a], Pointers(envp + argv, top, e, a), [0], Pointers(envp + argv, top, 0, e), [0], AuxWords(aux),
        Filler(argv, envp));
  }

  lemma Parts(x0: seq<nat>, x1: seq<nat>, x2: seq<nat>, x3: seq<nat>, x4: seq<nat>, x5: seq<nat>, x6: seq<nat>)
    requires |x0| == |x2| == |x4| == 1
    ensures var w, a, e, n := x0 + x1 + x2 + x3 + x4 + x5 + x6, |x1|, |x3|, |x5|;
            && |w| >= 3 + a + e + n && w[0] == x0[0] && w[1..1 + a] == x1 && w[1 + a] == x2[0]
            && w[2 + a..2 + a + e] == x3 && w[2 + a + e] == x4[0] && w[3 + a + e..3 + a + e + n] == x5
  {
  }
}
