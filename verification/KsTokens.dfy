/** The token table of the symbol compressor: what a compressed symbol stands for, and what replacing a pair by a
    new code does to it. */
module KsTokens {
  import opened Bytes

  /** Entry c is `best_table[c]` cut to `best_table_len[c]`: empty for an unused code, [c] for a character that
      occurs in the symbols, and a pair of codes for a token. */
  type Table = seq<seq<Byte>>

  predicate Literal(t: Table, c: Byte)
    requires |t| == 256
  {
    t[c] == [c]
  }

  /** Both codes of a token are in use, and a token among them was assigned before, that is from a higher code. */
  ghost predicate EntryOk(t: Table, c: Byte)
    requires |t| == 256
  {
    || t[c] == [] || Literal(t, c)
    || (|t[c]| == 2 && forall k {:trigger t[c][k]} | 0 <= k < 2 ::
          Literal(t, t[c][k]) || (|t[t[c][k]]| == 2 && t[c][k] > c))
  }

  ghost predicate TableOk(t: Table) {
    && |t| == 256
    && (forall c: Byte {:trigger EntryOk(t, c)} :: EntryOk(t, c))
    && t[0] != [0]
  }

  /** Codes in use. */
  ghost predicate Known(t: Table, s: seq<Byte>) {
    |t| == 256 && forall j {:trigger s[j]} | 0 <= j < |s| :: t[s[j]] != []
  }

  ghost function Code(t: Table, c: Byte): (s: seq<Byte>)
    requires TableOk(t)
    ensures forall j | 0 <= j < |s| :: s[j] != 0
    decreases if Literal(t, c) then 0 else 256 - c
  {
    assert EntryOk(t, c);
    if Literal(t, c) then [c]
    else if t[c] == [] then []
    else Code(t, t[c][0]) + Code(t, t[c][1])
  }

  /** The characters a sequence of codes stands for. */
  ghost function Expand(t: Table, s: seq<Byte>): (r: seq<Byte>)
    requires TableOk(t)
    ensures forall j | 0 <= j < |r| :: r[j] != 0
  {
    if s == [] then [] else Code(t, s[0]) + Expand(t, s[1..])
  }

  lemma {:induction false} ExpandConcat(t: Table, a: seq<Byte>, b: seq<Byte>)
    requires TableOk(t)
    ensures Expand(t, a + b) == Expand(t, a) + Expand(t, b)
  {
    if a == [] {
      assert a + b == b;
    } else {
      ExpandConcat(t, a[1..], b);
      assert (a + b)[1..] == a[1..] + b;
    }
  }

  /** A new token leaves the meaning of the codes in use alone. */
  lemma {:induction false} NewTokenKeepsCode(t: Table, i: Byte, a: Byte, b: Byte, c: Byte)
    requires TableOk(t) && TableOk(t[i := [a, b]]) && t[i] == [] && t[c] != []
    ensures Code(t[i := [a, b]], c) == Code(t, c)
    decreases if Literal(t, c) then 0 else 256 - c
  {
    assert EntryOk(t, c);
    if !Literal(t, c) {
      NewTokenKeepsCode(t, i, a, b, t[c][0]);
      NewTokenKeepsCode(t, i, a, b, t[c][1]);
    }
  }

  lemma {:induction false} NewTokenKeepsExpand(t: Table, i: Byte, a: Byte, b: Byte, s: seq<Byte>)
    requires TableOk(t) && TableOk(t[i := [a, b]]) && t[i] == [] && Known(t, s)
    ensures Expand(t[i := [a, b]], s) == Expand(t, s)
  {
    if s != [] {
      NewTokenKeepsCode(t, i, a, b, s[0]);
      NewTokenKeepsExpand(t, i, a, b, s[1..]);
    }
  }

  /** A token can be assigned to the free code i when both its codes are in use and all tokens lie above i. */
  lemma NewTokenOk(t: Table, i: Byte, a: Byte, b: Byte)
    requires TableOk(t) && t[i] == [] && t[a] != [] && t[b] != []
    requires forall c: Byte {:trigger t[c]} :: |t[c]| == 2 ==> c > i
    ensures TableOk(t[i := [a, b]])
  {
    var t' := t[i := [a, b]];
    assert EntryOk(t, a) && EntryOk(t, b);
    forall c: Byte ensures EntryOk(t', c) {
      assert EntryOk(t, c);
    }
  }

  // ----- replacing a pair

  /** Scanning from the left, every pair a, b becomes the code i. */
  function Replace(s: seq<Byte>, a: Byte, b: Byte, i: Byte): seq<Byte> {
    if |s| < 2 then s
    else if s[0] == a && s[1] == b then [i] + Replace(s[2..], a, b, i)
    else [s[0]] + Replace(s[1..], a, b, i)
  }

  ghost predicate NoPair(s: seq<Byte>, a: Byte, b: Byte) {
    forall j {:trigger s[j]} | 0 <= j < |s| - 1 :: !(s[j] == a && s[j + 1] == b)
  }

  lemma {:induction false} ReplaceNothing(s: seq<Byte>, a: Byte, b: Byte, i: Byte)
    requires NoPair(s, a, b)
    ensures Replace(s, a, b, i) == s
  {
    if |s| >= 2 {
      assert NoPair(s[1..], a, b) by {
        forall j | 0 <= j < |s[1..]| - 1 ensures !(s[1..][j] == a && s[1..][j + 1] == b) {
          assert s[1..][j] == s[j + 1];
        }
      }
      ReplaceNothing(s[1..], a, b, i);
      assert s == [s[0]] + s[1..];
    }
  }

  lemma NoPairTail(s: seq<Byte>, a: Byte, b: Byte, k: nat)
    requires 0 < k < |s| && NoPair(s[..k + 1], a, b)
    ensures NoPair(s[1..][..k], a, b) && !(s[0] == a && s[1] == b)
  {
    assert s[..k + 1][0] == s[0] && s[..k + 1][1] == s[1];
    forall j | 0 <= j < k - 1 ensures !(s[1..][..k][j] == a && s[1..][..k][j + 1] == b) {
      assert s[..k + 1][j + 1] == s[1..][..k][j];
      assert s[..k + 1][j + 2] == s[1..][..k][j + 1];
    }
  }

  /** The first pair is at k. */
  lemma {:induction false} ReplaceFirst(s: seq<Byte>, a: Byte, b: Byte, i: Byte, k: nat)
    requires k + 1 < |s| && s[k] == a && s[k + 1] == b && NoPair(s[..k + 1], a, b)
    ensures Replace(s, a, b, i) == s[..k] + [i] + Replace(s[k + 2..], a, b, i)
  {
    if k != 0 {
      var t, rest := s[1..], Replace(s[k + 2..], a, b, i);
      NoPairTail(s, a, b, k);
      ReplaceFirst(t, a, b, i, k - 1);
      assert t[k + 1..] == s[k + 2..];
      assert s[..k] == [s[0]] + t[..k - 1];
      assert Replace(s, a, b, i) == [s[0]] + Replace(t, a, b, i);
      assert [s[0]] + (t[..k - 1] + [i] + rest) == s[..k] + [i] + rest;
    }
  }

  /** Replacing preserves what the symbol stands for. */
  lemma {:induction false} ReplaceKeepsMeaning(t: Table, s: seq<Byte>, a: Byte, b: Byte, i: Byte)
    requires TableOk(t) && TableOk(t[i := [a, b]]) && t[i] == [] && Known(t, s) && t[a] != [] && t[b] != []
    ensures Expand(t[i := [a, b]], Replace(s, a, b, i)) == Expand(t, s)
  {
    var t' := t[i := [a, b]];
    if |s| < 2 {
      NewTokenKeepsExpand(t, i, a, b, s);
    } else if s[0] == a && s[1] == b {
      ReplaceKeepsMeaning(t, s[2..], a, b, i);
      ExpandConcat(t', [i], Replace(s[2..], a, b, i));
      NewTokenKeepsCode(t, i, a, b, a);
      NewTokenKeepsCode(t, i, a, b, b);
      assert Expand(t', [i]) == Code(t', i) == Code(t, a) + Code(t, b);
      assert s[1..][1..] == s[2..];
    } else {
      ReplaceKeepsMeaning(t, s[1..], a, b, i);
      NewTokenKeepsCode(t, i, a, b, s[0]);
      assert ([s[0]] + Replace(s[1..], a, b, i))[1..] == Replace(s[1..], a, b, i);
    }
  }

  /** No pair is left, and every code is an old one or the new one. */
  lemma {:induction false} ReplaceLeavesNoPair(s: seq<Byte>, a: Byte, b: Byte, i: Byte)
    requires i != a && i != b
    ensures NoPair(Replace(s, a, b, i), a, b)
    ensures s != [] ==> Replace(s, a, b, i) != [] && Replace(s, a, b, i)[0] in {i, s[0]}
    ensures forall c | c in Replace(s, a, b, i) :: c == i || c in s
    ensures |Replace(s, a, b, i)| <= |s|
  {
    if |s| < 2 {
    } else if s[0] == a && s[1] == b {
      ReplaceLeavesNoPair(s[2..], a, b, i);
      PrependNoPair(i, Replace(s[2..], a, b, i), a, b);
    } else {
      ReplaceLeavesNoPair(s[1..], a, b, i);
      PrependNoPair(s[0], Replace(s[1..], a, b, i), a, b);
    }
  }

  lemma PrependNoPair(c: Byte, s: seq<Byte>, a: Byte, b: Byte)
    requires NoPair(s, a, b) && (s == [] || !(c == a && s[0] == b))
    ensures NoPair([c] + s, a, b)
  {
    forall j | 0 <= j < |s| ensures !(([c] + s)[j] == a && ([c] + s)[j + 1] == b) {
      assert j > 0 ==> ([c] + s)[j] == s[j - 1];
    }
  }
}
