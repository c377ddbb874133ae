/** The tables that the compressor writes (`write_src`), as byte sequences. */
module KsTables {
  import opened Bytes
  import opened KsTokens

  /** One symbol: its length as one or two ULEB128 bytes, and its codes. */
  function Record(s: seq<Byte>): (r: seq<Byte>)
    ensures |r| == |s| + if |s| <= 0x7F then 1 else 2
  {
    if |s| <= 0x7F then [|s|] + s else [|s| % 128 + 128, (|s| / 128) % 128] + s
  }

  predicate Fits(s: seq<Byte>) {
    0 < |s| <= 0x3FFF
  }

  ghost predicate Short(all: seq<seq<Byte>>) {
    forall k {:trigger all[k]} | 0 <= k < |all| :: Fits(all[k])
  }

  /** The first n parts, one behind the other. */
  ghost function Join(parts: seq<seq<Byte>>, n: nat): seq<Byte>
    requires n <= |parts|
  {
    if n == 0 then [] else Join(parts, n - 1) + parts[n - 1]
  }

  /** Part n begins where the parts before it end, whatever follows. */
  lemma {:induction false} JoinAt(parts: seq<seq<Byte>>, n: nat, m: nat)
    requires n < m <= |parts|
    ensures |Join(parts, n)| + |parts[n]| <= |Join(parts, m)|
    ensures Join(parts, m)[|Join(parts, n)|..|Join(parts, n)| + |parts[n]|] == parts[n]
    decreases m
  {
    if n < m - 1 {
      JoinAt(parts, n, m - 1);
      SliceLeft(Join(parts, m - 1), parts[m - 1], |Join(parts, n)|, |Join(parts, n)| + |parts[n]|);
    } else {
      SliceRight(Join(parts, n), parts[n]);
    }
  }

  lemma SliceLeft(x: seq<Byte>, y: seq<Byte>, a: nat, b: nat)
    requires a <= b <= |x|
    ensures (x + y)[a..b] == x[a..b]
  {
  }

  lemma SliceRight(x: seq<Byte>, y: seq<Byte>)
    ensures (x + y)[|x|..|x| + |y|] == y
  {
  }

  ghost predicate RecordOf(p: seq<Byte>, s: seq<Byte>) {
    p == Record(s)
  }

  ghost predicate RecordsOf(parts: seq<seq<Byte>>, all: seq<seq<Byte>>) {
    |parts| == |all| && forall k {:trigger RecordOf(parts[k], all[k])} | 0 <= k < |all| :: RecordOf(parts[k], all[k])
  }

  ghost function Records(all: seq<seq<Byte>>): (r: seq<seq<Byte>>)
    ensures |r| == |all|
  {
    var parts := seq(|all|, k requires 0 <= k < |all| => Record(all[k]));
    assert RecordsOf(parts, all);
    var r :| RecordsOf(r, all);
    r
  }

  /** The stream of the first n symbols, and where symbol n begins. */
  ghost function Stream(all: seq<seq<Byte>>, n: nat): seq<Byte>
    requires n <= |all|
  {
    Join(Records(all), n)
  }

  ghost function Offset(all: seq<seq<Byte>>, n: nat): nat
    requires n <= |all|
  {
    |Stream(all, n)|
  }

  /** The text of a token. */
  ghost function Text(t: Table, c: nat): seq<Byte>
    requires TableOk(t) && c < 256
  {
    Expand(t, t[c])
  }

  lemma TextIsCode(t: Table, c: Byte)
    requires TableOk(t)
    ensures Text(t, c) == Code(t, c)
  {
    assert EntryOk(t, c);
    if Literal(t, c) {
      OneCode(t, c);
    } else if |t[c]| == 2 {
      assert t[c] == [t[c][0]] + [t[c][1]];
      ExpandConcat(t, [t[c][0]], [t[c][1]]);
      OneCode(t, t[c][0]);
      OneCode(t, t[c][1]);
    }
  }

  lemma OneCode(t: Table, c: Byte)
    requires TableOk(t)
    ensures Expand(t, [c]) == Code(t, c)
  {
    assert [c][1..] == [] && Code(t, c) + [] == Code(t, c);
  }

  /** The texts of all codes, each with a NUL behind it. */
  ghost predicate TextOf(t: Table, p: seq<Byte>, c: nat)
    requires TableOk(t) && c < 256
  {
    p == Text(t, c) + [0]
  }

  ghost predicate TextsOf(t: Table, parts: seq<seq<Byte>>)
    requires TableOk(t)
  {
    |parts| == 256 && forall c: nat {:trigger TextOf(t, parts[c], c)} | c < 256 :: TextOf(t, parts[c], c)
  }

  ghost function Texts(t: Table): (r: seq<seq<Byte>>)
    requires TableOk(t)
    ensures |r| == 256
  {
    var parts := seq(256, c requires 0 <= c < 256 => Text(t, c) + [0]);
    assert TextsOf(t, parts);
    var r :| TextsOf(t, r);
    r
  }

  /** The tables as they end up in the kernel image. */
  datatype Image = Image(
    count: nat, names: seq<Byte>, markers: seq<nat>, tokens: seq<Byte>, index: seq<nat>,
    offsets: seq<nat>, base: nat, seqs: seq<Byte>)

  /** The image was written from the compressed symbols `all` and the token table t. */
  ghost predicate Encodes(img: Image, t: Table, all: seq<seq<Byte>>) {
    && TableOk(t) && Short(all) && img.count == |all|
    && img.names == Stream(all, |all|)
    && Marked(all, img.markers, |all|)
    && img.tokens == Join(Texts(t), |Texts(t)|)
    && |img.index| == 256
    && (forall c {:trigger img.index[c]} | 0 <= c < 256 :: img.index[c] == |Join(Texts(t), c)|)
  }

  method WriteRecord(s: seq<Byte>) returns (bytes: seq<Byte>)
    ensures bytes == Record(s)
  {
    if |s| <= 0x7F {
      bytes := [|s|];
    } else {
      bytes := [|s| % 128 + 128, (|s| / 128) % 128];
    }
    bytes := bytes + s;
  }

  /** Where the markers are, when the first n symbols have been written. */
  ghost predicate Marked(all: seq<seq<Byte>>, markers: seq<nat>, n: nat) {
    && n <= |all| && 256 * |markers| < n + 256 && n <= 256 * |markers|
    && forall m: nat {:trigger markers[m]} | m < |markers| :: 256 * m <= |all| && markers[m] == Offset(all, 256 * m)
  }

  lemma MarkCount(n: nat, c: nat)
    requires 256 * c < n + 256 && n <= 256 * c && n % 256 == 0
    ensures n == 256 * c
  {
    assert n == 256 * (n / 256);
  }

  lemma MarkHere(all: seq<seq<Byte>>, markers: seq<nat>, n: nat)
    requires n < |all| && Marked(all, markers, n) && n == 256 * |markers|
    ensures Marked(all, markers + [Offset(all, n)], n + 1)
  {
  }

  lemma MarkLater(all: seq<seq<Byte>>, markers: seq<nat>, n: nat)
    requires n < |all| && Marked(all, markers, n) && n % 256 != 0
    ensures Marked(all, markers, n + 1)
  {
    assert n != 256 * |markers|;
  }

  /** Every 256th symbol gets a marker. */
  method Mark(markers0: seq<nat>, i: nat, off: nat, ghost all: seq<seq<Byte>>) returns (markers: seq<nat>)
    requires i < |all| && Marked(all, markers0, i) && off == Offset(all, i)
    ensures Marked(all, markers, i + 1)
  {
    markers := markers0;
    if i % 256 == 0 {
      MarkCount(i, |markers|);
      MarkHere(all, markers, i);
      markers := markers + [off];
    } else {
      MarkLater(all, markers, i);
    }
  }

  /** The loop of `write_src` that writes the names; it gives up on a symbol that is empty or too long. */
  method WriteNames(all: seq<seq<Byte>>) returns (ok: bool, names: seq<Byte>, markers: seq<nat>)
    ensures ok <==> Short(all)
    ensures ok ==> names == Stream(all, |all|) && Marked(all, markers, |all|)
  {
    names, markers := [], [];
    var off := 0;
    for i := 0 to |all|
      invariant forall k {:trigger all[k]} | 0 <= k < i :: Fits(all[k])
      invariant names == Stream(all, i) && off == |names| && Marked(all, markers, i)
    {
      markers := Mark(markers, i, off, all);
      if !Fits(all[i]) {
        return false, [], [];
      }
      var bytes := WriteRecord(all[i]);
      assert RecordOf(Records(all)[i], all[i]);
      names := names + bytes;
      off := off + |bytes|;
    }
    ok := true;
  }

  /** Every token begins within the first 64 KiB of the token table, so that 16 bits hold where. */
  ghost predicate ShortTexts(t: Table)
    requires TableOk(t)
  {
    |Join(Texts(t), 255)| < 0x1_0000
  }

  lemma {:induction false} JoinGrows(parts: seq<seq<Byte>>, n: nat, m: nat)
    requires n <= m <= |parts|
    ensures |Join(parts, n)| <= |Join(parts, m)|
    decreases m
  {
    if n < m {
      JoinGrows(parts, n, m - 1);
    }
  }

  /** Cut to 16 bits, the beginnings are right if and only if the last one is. */
  lemma IndexIs(t: Table, index: seq<nat>)
    requires TableOk(t) && |index| == 256
    requires forall c {:trigger index[c]} | 0 <= c < 256 :: index[c] == |Join(Texts(t), c)| % 0x1_0000
    ensures ShortTexts(t) <==> forall c {:trigger index[c]} | 0 <= c < 256 :: index[c] == |Join(Texts(t), c)|
  {
    assert index[255] == |Join(Texts(t), 255)| % 0x1_0000;
    forall c | 0 <= c < 256 && ShortTexts(t) ensures index[c] == |Join(Texts(t), c)| {
      JoinGrows(Texts(t), c, 255);
    }
  }

  /** Tokens each of which doubles the one before, from code 255 on. */
  ghost predicate Doubling(t: Table) {
    |t| == 256 && t[255] == [255] && forall c {:trigger t[c]} | 238 <= c < 255 :: t[c] == [c + 1, c + 1]
  }

  lemma {:induction false} DoubleLength(t: Table, k: nat, power: nat)
    requires TableOk(t) && Doubling(t) && k <= 17 && power == Twice(k)
    ensures |Code(t, 255 - k)| == power
  {
    if k != 0 {
      DoubleLength(t, k - 1, Twice(k - 1));
      assert t[255 - k] == [256 - k, 256 - k];
    }
  }

  function Twice(k: nat): nat {
    if k == 0 then 1 else 2 * Twice(k - 1)
  }

  /** The seventeenth of them has 2^17 characters. */
  lemma TextsTooLong(t: Table)
    requires TableOk(t) && Doubling(t)
    ensures !ShortTexts(t)
  {
    assert Twice(8) == 256 && Twice(17) == 512 * Twice(8);
    DoubleLength(t, 17, Twice(17));
    TextIsCode(t, 238);
    assert TextOf(t, Texts(t)[238], 238);
    JoinAt(Texts(t), 238, 255);
  }

  /** The loop that writes the token table: `expand_symbol` of every entry, and where its text begins, in 16 bits. */
  method WriteTokens(t: Table) returns (tokens: seq<Byte>, index: seq<nat>, fits: bool)
    requires TableOk(t)
    ensures tokens == Join(Texts(t), |Texts(t)|) && |index| == 256
    ensures forall c {:trigger index[c]} | 0 <= c < 256 :: index[c] == |Join(Texts(t), c)| % 0x1_0000
    ensures fits <==> ShortTexts(t)
  {
    tokens, index, fits := [], [], true;
    for c := 0 to 256
      invariant tokens == Join(Texts(t), c) && |index| == c
      invariant forall d {:trigger index[d]} | 0 <= d < c :: index[d] == |Join(Texts(t), d)| % 0x1_0000
      invariant c > 0 ==> (fits <==> |Join(Texts(t), c - 1)| < 0x1_0000)
    {
      index := index + [|tokens| % 0x1_0000];
      fits := |tokens| < 0x1_0000;
      var text := ExpandSymbol(t, t[c]);
      tokens := tokens + (text + [0]);
      assert TextOf(t, Texts(t)[c], c);
    }
  }

  /** The compressor's own recursive `expand_symbol`. */
  method ExpandSymbol(t: Table, data: seq<Byte>) returns (result: seq<Byte>)
    requires TableOk(t)
    requires forall j {:trigger data[j]} | 0 <= j < |data| :: EntryOk(t, data[j])
    ensures result == Expand(t, data)
    decreases Depth(t, data)
  {
    result := [];
    for j := 0 to |data|
      invariant result == Expand(t, data[..j])
    {
      var c := data[j];
      assert data[..j + 1] == data[..j] + [c] && [c][1..] == [];
      ExpandConcat(t, data[..j], [c]);
      TextIsCode(t, c);
      if |t[c]| == 1 && t[c][0] == c {
        result := result + [c];
      } else {
        DepthSmaller(t, data, j);
        var text := ExpandSymbol(t, t[c]);
        result := result + text;
      }
    }
    assert data[..|data|] == data;
  }

  /** How deep the tokens of s can nest. */
  ghost function Depth(t: Table, s: seq<Byte>): nat
    requires |t| == 256
  {
    if s == [] then 0
    else
      var d := if Literal(t, s[0]) then 0 else 256 - s[0] as int;
      var e := Depth(t, s[1..]);
      if d < e then e else d
  }

  lemma {:induction false} DepthCovers(t: Table, s: seq<Byte>, j: nat)
    requires |t| == 256 && j < |s| && !Literal(t, s[j])
    ensures Depth(t, s) >= 256 - s[j] as int
  {
    if j != 0 {
      DepthCovers(t, s[1..], j - 1);
    }
  }

  lemma DepthSmaller(t: Table, s: seq<Byte>, j: nat)
    requires TableOk(t) && j < |s| && !Literal(t, s[j])
    ensures Depth(t, t[s[j]]) < Depth(t, s)
  {
    var c := s[j];
    assert EntryOk(t, c);
    DepthCovers(t, s, j);
    if |t[c]| == 2 {
      var x, y := t[c][0], t[c][1];
      assert t[c] == [x, y];
      DepthPair(t, x, y);
      assert Literal(t, x) || x > c;
      assert Literal(t, y) || y > c;
    }
  }

  lemma DepthPair(t: Table, x: Byte, y: Byte)
    requires |t| == 256
    ensures Depth(t, [x, y]) <= if Literal(t, x) && Literal(t, y) then 0
                                else if Literal(t, y) || (!Literal(t, x) && x < y) then 256 - x else 256 - y
  {
    assert [x, y][1..] == [y] && [y][1..] == [];
    assert Depth(t, [y]) == if Literal(t, y) then 0 else 256 - y;
  }
}
