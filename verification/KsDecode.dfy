/** The kernel's readers of the symbol tables: `sym_seq`, `sym_offset` and `expand_symbol`. */
module KsDecode {
  import opened Bytes
  import opened KsTokens
  import opened KsTables

  /** The three big-endian bytes of entry idx of `kallsyms_seqs_of_names`. */
  function SeqBytes(n: nat): seq<Byte> {
    [(n / 65536) % 256, (n / 256) % 256, n % 256]
  }

  /** Entry idx of `kallsyms_seqs_of_names` is v. */
  ghost predicate SeqAt(seqs: seq<Byte>, idx: nat, v: nat) {
    3 * idx + 3 <= |seqs| && seqs[3 * idx..3 * idx + 3] == SeqBytes(v) && v < 0x100_0000
  }

  method SymSeq(img: Image, idx: nat, ghost v: nat) returns (n: nat)
    requires SeqAt(img.seqs, idx, v)
    ensures n == v
  {
    n := 0;
    ghost var b := img.seqs[3 * idx..3 * idx + 3];
    for i := 0 to 3
      invariant i == 0 ==> n == 0
      invariant i == 1 ==> n == b[0] as nat
      invariant i == 2 ==> n == (b[0] as nat) * 256 + b[1] as nat
      invariant i == 3 ==> n == ((b[0] as nat) * 256 + b[1] as nat) * 256 + b[2] as nat
    {
      n := n * 256 + img.seqs[3 * idx + i] as nat;
    }
  }

  /** The record of s stands at o. */
  ghost predicate At(names: seq<Byte>, o: nat, s: seq<Byte>) {
    && Fits(s) && o + |Record(s)| <= |names|
    && names[o..o + |Record(s)|] == Record(s)
  }

  lemma SymbolAt(img: Image, t: Table, all: seq<seq<Byte>>, n: nat)
    requires Encodes(img, t, all) && n < |all|
    ensures At(img.names, Offset(all, n), all[n])
    ensures Offset(all, n + 1) == Offset(all, n) + |Record(all[n])|
  {
    JoinAt(Records(all), n, |all|);
    assert RecordOf(Records(all)[n], all[n]);
    var s := all[n];
    assert Fits(s);
  }

  /** What the readers take for the length of the symbol at o, and where its codes begin. */
  function Length(names: seq<Byte>, o: nat): (r: (nat, nat))
    requires o + 1 < |names|
  {
    var b: nat := names[o] as nat;
    if b >= 128 then (b % 128 + (names[o + 1] as nat) * 128, o + 2) else (b, o + 1)
  }

  lemma LengthAt(names: seq<Byte>, o: nat, s: seq<Byte>)
    requires At(names, o, s)
    ensures o + 1 < |names| && Length(names, o).0 == |s| && Length(names, o).1 + |s| == o + |Record(s)| <= |names|
    ensures names[Length(names, o).1..Length(names, o).1 + |s|] == s
  {
    var r := Record(s);
    var q := names[o..o + |r|];
    assert names[o] == q[0] && names[o + 1] == q[1];
    var h := |r| - |s|;
    assert r[h..] == s;
    assert names[o + h..o + |r|] == q[h..];
  }

  lemma MarkerBefore(pos: nat, n: nat)
    requires pos < n
    ensures pos / 256 < (n + 255) / 256 && 256 * (pos / 256) + pos % 256 == pos
  {
  }

  lemma MarkerAt(img: Image, t: Table, all: seq<seq<Byte>>, pos: nat)
    requires Encodes(img, t, all) && pos < |all|
    ensures 256 * (pos / 256) + pos % 256 == pos
    ensures pos / 256 < |img.markers| && img.markers[pos / 256] == Offset(all, 256 * (pos / 256))
  {
    MarkerBefore(pos, |all|);
  }

  /** `sym_offset`: from the marker before symbol pos over the symbols in between. */
  method SymOffset(img: Image, pos: nat, ghost t: Table, ghost all: seq<seq<Byte>>) returns (off: nat)
    requires Encodes(img, t, all) && pos < |all|
    ensures off == Offset(all, pos)
  {
    MarkerAt(img, t, all, pos);
    off := SkipSymbols(img, img.markers[pos / 256], pos % 256, t, all, 256 * (pos / 256));
  }

  method SkipSymbols(img: Image, start: nat, n: nat, ghost t: Table, ghost all: seq<seq<Byte>>, ghost first: nat)
    returns (off: nat)
    requires Encodes(img, t, all) && first + n < |all| && start == Offset(all, first)
    ensures off == Offset(all, first + n)
  {
    off := start;
    for i := 0 to n
      invariant off == Offset(all, first + i)
    {
      off := SkipOne(img, off, t, all, first + i);
    }
  }

  method SkipOne(img: Image, off: nat, ghost t: Table, ghost all: seq<seq<Byte>>, ghost k: nat) returns (next: nat)
    requires Encodes(img, t, all) && k < |all| && off == Offset(all, k)
    ensures next == Offset(all, k + 1)
  {
    SymbolAt(img, t, all, k);
    next := SkipSymbol(img.names, off, all[k]);
  }

  method SkipSymbol(names: seq<Byte>, off: nat, ghost s: seq<Byte>) returns (next: nat)
    requires At(names, off, s)
    ensures next == off + |Record(s)|
  {
    LengthAt(names, off, s);
    var len: nat := names[off] as nat;
    if len >= 128 {
      len := len % 128 + (names[off + 1] as nat) * 128 + 1;
    }
    next := off + len + 1;
  }

  /** What `expand_symbol` leaves in a buffer of which it may use `max` bytes: the text without its first
      character, as far as it fits, and a NUL; the rest is as before. */
  ghost predicate Expanded(buf: seq<Byte>, was: seq<Byte>, max: nat, text: seq<Byte>) {
    var name := if text == [] then [] else text[1..];
    var n := if |name| < max then |name| else max - 1;
    && |buf| == |was| && max <= |buf|
    && if max == 0 then buf == was else buf == name[..n] + [0] + was[n + 1..]
  }

  /** The state of the copying loop after the characters `text` came out of the tokens: `left` bytes of the buffer
      may still be used. */
  ghost predicate Copied(buf: seq<Byte>, was: seq<Byte>, max: nat, text: seq<Byte>, result: nat) {
    && |buf| == |was| && max <= |buf|
    && result == (if text == [] then 0 else |text| - 1) && (result == 0 || result < max)
    && (text != [] ==> buf[..result] == text[1..]) && buf[result..] == was[result..]
  }

  /** Ending the loop, because everything is copied or because only the byte for the NUL is left. */
  lemma CopyEnds(buf: seq<Byte>, was: seq<Byte>, max: nat, done: seq<Byte>, rest: seq<Byte>, result: nat)
    requires Copied(buf, was, max, done, result) && (rest == [] || (done != [] && max - result <= 1))
    ensures max != 0 ==> result < max
    ensures Expanded(if max - result > 0 then buf[result := 0] else buf, was, max, done + rest)
  {
    var text := done + rest;
    var name := if text == [] then [] else text[1..];
    var n := if |name| < max then |name| else max - 1;
    if max != 0 {
      assert n == result;
      assert name[..n] == buf[..result] by {
        assert done != [] ==> text[1..][..n] == done[1..];
      }
      assert buf[result := 0] == buf[..result] + [0] + buf[result..][1..];
      assert was[result..][1..] == was[n + 1..];
    } else {
      assert buf == buf[result..] && was == was[result..];
    }
  }

  lemma CopyStep(buf: seq<Byte>, was: seq<Byte>, max: nat, done: seq<Byte>, c: Byte, result: nat)
    requires Copied(buf, was, max, done, result) && done != [] && max - result > 1
    ensures Copied(buf[result := c], was, max, done + [c], result + 1)
  {
    assert (done + [c])[1..] == done[1..] + [c];
    assert buf[result := c][result + 1..] == buf[result..][1..] == was[result..][1..] == was[result + 1..];
  }

  /** The text of code c in the token table. */
  lemma TokenAt(img: Image, t: Table, all: seq<seq<Byte>>, c: Byte)
    requires Encodes(img, t, all)
    ensures img.index[c] + |Code(t, c)| < |img.tokens|
    ensures img.tokens[img.index[c]..img.index[c] + |Code(t, c)|] == Code(t, c)
    ensures img.tokens[img.index[c] + |Code(t, c)|] == 0
  {
    JoinAt(Texts(t), c, |Texts(t)|);
    TextIsCode(t, c);
    assert TextOf(t, Texts(t)[c], c);
    NulBehind(img.tokens, img.index[c], Code(t, c));
  }

  lemma NulBehind(total: seq<Byte>, o: nat, w: seq<Byte>)
    requires o + |w| + 1 <= |total| && total[o..o + |w| + 1] == w + [0]
    ensures total[o..o + |w|] == w && total[o + |w|] == 0
  {
    var q := total[o..o + |w| + 1];
    assert q[..|w|] == w && q[|w|] == 0;
    assert total[o..o + |w|] == q[..|w|];
  }

  /** Where the codes of the symbol at off begin, and how many they are. */
  method Header(names: seq<Byte>, off: nat, ghost s: seq<Byte>) returns (data: nat, len: nat)
    requires At(names, off, s)
    ensures data + len <= |names| && names[data..data + len] == s
  {
    LengthAt(names, off, s);
    data, len := off + 1, names[off] as nat;
    if len >= 128 {
      len := len % 128 + (names[data] as nat) * 128;
      data := data + 1;
    }
  }

  /** `expand_symbol`: the name of the symbol at an offset, without the type character, into namebuf. */
  method ExpandName(img: Image, off: nat, namebuf: array<Byte>, limit: nat,
                    ghost t: Table, ghost all: seq<seq<Byte>>, ghost k: nat)
    requires Encodes(img, t, all) && k < |all| && off == Offset(all, k)
    modifies namebuf
    ensures Expanded(namebuf[..], old(namebuf[..]), if namebuf.Length < limit then namebuf.Length else limit,
                     Expand(t, all[k]))
  {
    SymbolAt(img, t, all, k);
    var data, len := Header(img.names, off, all[k]);
    CopyTokens(img, data, len, namebuf, if namebuf.Length < limit then namebuf.Length else limit, t, all, k);
  }

  lemma TokenExpands(t: Table, s: seq<Byte>, j: nat)
    requires TableOk(t) && j < |s|
    ensures Expand(t, s[..j + 1]) == Expand(t, s[..j]) + Code(t, s[j])
    ensures Expand(t, s) == Expand(t, s[..j]) + Code(t, s[j]) + Expand(t, s[j + 1..])
  {
    assert s[..j + 1] == s[..j] + [s[j]] && s == s[..j + 1] + s[j + 1..];
    ExpandConcat(t, s[..j], [s[j]]);
    ExpandConcat(t, s[..j + 1], s[j + 1..]);
    OneCode(t, s[j]);
  }

  /** One character goes to the buffer. */
  method PutChar(namebuf: array<Byte>, c: Byte, result: nat, ghost max: nat, ghost was: seq<Byte>,
                 ghost done: seq<Byte>)
    requires Copied(namebuf[..], was, max, done, result) && done != [] && max - result > 1
    modifies namebuf
    ensures Copied(namebuf[..], was, max, done + [c], result + 1)
  {
    ghost var buf := namebuf[..];
    CopyStep(buf, was, max, done, c, result);
    namebuf[result] := c;
    assert namebuf[..] == buf[result := c];
  }

  lemma Prefix(done: seq<Byte>, w: seq<Byte>, used: nat)
    requires used < |w|
    ensures done + w[..used + 1] == done + w[..used] + [w[used]]
  {
  }

  lemma TokenByte(tokens: seq<Byte>, p: nat, w: seq<Byte>, j: nat)
    requires p + |w| < |tokens| && tokens[p..p + |w|] == w && j < |w|
    ensures tokens[p + j] == w[j]
  {
    assert tokens[p..p + |w|][j] == w[j];
  }

  /** The inner loop of `expand_symbol` copies the text w of one token, and stops early when the buffer is full;
      `used` characters have then been copied. */
  method CopyToken(tokens: seq<Byte>, tptr0: nat, namebuf: array<Byte>, max: nat, result0: nat, skipped0: bool,
                   ghost done: seq<Byte>, ghost w: seq<Byte>, ghost was: seq<Byte>)
    returns (result: nat, skipped: bool, full: bool, ghost used: nat)
    requires tptr0 + |w| < |tokens| && tokens[tptr0..tptr0 + |w|] == w && tokens[tptr0 + |w|] == 0
    requires forall j | 0 <= j < |w| :: w[j] != 0
    requires (skipped0 <==> done != []) && Copied(namebuf[..], was, max, done, result0)
    modifies namebuf
    ensures used <= |w| && (skipped <==> done + w[..used] != [])
    ensures Copied(namebuf[..], was, max, done + w[..used], result)
    ensures if full then skipped && max - result <= 1 else used == |w|
  {
    result, skipped, full, used := result0, skipped0, false, 0;
    var tptr := tptr0;
    if w != [] {
      TokenByte(tokens, tptr0, w, 0);
    }
    assert done + w[..0] == done;
    while tokens[tptr] != 0
      invariant used <= |w| && tptr == tptr0 + used && (skipped <==> done + w[..used] != [])
      invariant Copied(namebuf[..], was, max, done + w[..used], result)
      invariant used < |w| ==> tokens[tptr] == w[used]
      decreases |w| - used
    {
      Prefix(done, w, used);
      if skipped {
        if max - result <= 1 {
          full := true;
          return;
        }
        PutChar(namebuf, tokens[tptr], result, max, was, done + w[..used]);
        result := result + 1;
      } else {
        skipped := true;
      }
      tptr, used := tptr + 1, used + 1;
      if used < |w| {
        TokenByte(tokens, tptr0, w, used);
      }
    }
  }

  /** Before byte j of the symbol s, `done` has come out of the tokens, and `rest` is still to come. */
  ghost predicate Halfway(t: Table, s: seq<Byte>, j: nat, done: seq<Byte>, rest: seq<Byte>)
    requires TableOk(t)
  {
    j <= |s| && done == Expand(t, s[..j]) && rest == Expand(t, s[j..])
  }

  lemma HalfwayStep(t: Table, s: seq<Byte>, j: nat, done: seq<Byte>, rest: seq<Byte>)
    requires TableOk(t) && j < |s| && Halfway(t, s, j, done, rest)
    ensures rest == Code(t, s[j]) + Expand(t, s[j + 1..])
    ensures Halfway(t, s, j + 1, done + Code(t, s[j]), Expand(t, s[j + 1..]))
  {
    TokenExpands(t, s, j);
    assert s[j..][0] == s[j] && s[j..][1..] == s[j + 1..];
  }

  /** The copying loop of `expand_symbol`; it stops with `done` copied and `rest` left over. */
  method CopyAll(img: Image, data: nat, len: nat, namebuf: array<Byte>, max: nat,
                 ghost t: Table, ghost all: seq<seq<Byte>>, ghost k: nat)
    returns (result: nat, ghost done: seq<Byte>, ghost rest: seq<Byte>)
    requires Encodes(img, t, all) && k < |all| && max <= namebuf.Length
    requires data + len <= |img.names| && img.names[data..data + len] == all[k]
    modifies namebuf
    ensures Copied(namebuf[..], old(namebuf[..]), max, done, result) && done + rest == Expand(t, all[k])
    ensures rest == [] || (done != [] && max - result <= 1)
  {
    ghost var was, s := namebuf[..], all[k];
    var skipped, full, j := false, false, 0;
    result, done, rest := 0, [], Expand(t, s);
    assert s[0..] == s;
    while j < len && !full
      invariant j <= len && done + rest == Expand(t, s)
      invariant (skipped <==> done != []) && Copied(namebuf[..], was, max, done, result)
      invariant if full then done != [] && max - result <= 1 else Halfway(t, s, j, done, rest)
      decreases len - j, !full
    {
      ghost var w, used := Code(t, s[j]), 0;
      assert s[j] == img.names[data..data + len][j] == img.names[data + j];
      TokenAt(img, t, all, s[j]);
      HalfwayStep(t, s, j, done, rest);
      result, skipped, full, used := CopyToken(img.tokens, img.index[img.names[data + j]], namebuf, max, result,
                                               skipped, done, w, was);
      Regroup(done, w, used, Expand(t, s[j + 1..]));
      done, rest := done + w[..used], w[used..] + Expand(t, s[j + 1..]);
      j := j + 1;
    }
  }

  lemma Regroup(done: seq<Byte>, w: seq<Byte>, used: nat, later: seq<Byte>)
    requires used <= |w|
    ensures done + w[..used] + (w[used..] + later) == done + (w + later)
    ensures used == |w| ==> w[..used] == w && w[used..] + later == later
  {
  }

  method CopyTokens(img: Image, data: nat, len: nat, namebuf: array<Byte>, max: nat,
                    ghost t: Table, ghost all: seq<seq<Byte>>, ghost k: nat)
    requires Encodes(img, t, all) && k < |all| && max <= namebuf.Length
    requires data + len <= |img.names| && img.names[data..data + len] == all[k]
    modifies namebuf
    ensures Expanded(namebuf[..], old(namebuf[..]), max, Expand(t, all[k]))
  {
    ghost var was := namebuf[..];
    var result;
    ghost var done, rest;
    result, done, rest := CopyAll(img, data, len, namebuf, max, t, all, k);
    CopyEnds(namebuf[..], was, max, done, rest, result);
    if max - result > 0 {
      ghost var buf := namebuf[..];
      namebuf[result] := 0;
      assert namebuf[..] == buf[result := 0];
    }
  }
}
