/** `find_token` and the body of `compress_symbols`: replacing a pair inside one symbol's buffer. */
module KsInPlace {
  import opened Bytes
  import opened KsTokens

  /** The first place of the pair a, b in the `size` bytes from `from`, or -1. */
  method FindToken(sym: array<Byte>, from: nat, size: nat, a: Byte, b: Byte) returns (k: int)
    requires from + size <= sym.Length
    ensures k == -1 || (from <= k < from + size - 1 && sym[k] == a && sym[k + 1] == b)
    ensures forall j | from <= j < (if k == -1 then from + size - 1 else k) :: !(sym[j] == a && sym[j + 1] == b)
  {
    var i := 0;
    while i < size - 1
      invariant 0 <= i && (i == 0 || i <= size - 1)
      invariant forall j | from <= j < from + i :: !(sym[j] == a && sym[j + 1] == b)
    {
      if sym[from + i] == a && sym[from + i + 1] == b {
        return from + i;
      }
      i := i + 1;
    }
    return -1;
  }

  /** `memmove` of n bytes one place down, to `to`. */
  method MoveDown(sym: array<Byte>, to: nat, n: nat)
    requires to + n < sym.Length
    modifies sym
    ensures forall j | 0 <= j < sym.Length ::
              sym[j] == if to <= j < to + n then old(sym[j + 1]) else old(sym[j])
  {
    for i := 0 to n
      invariant forall j | 0 <= j < sym.Length ::
                  sym[j] == if to <= j < to + i then old(sym[j + 1]) else old(sym[j])
    {
      sym[to + i] := sym[to + i + 1];
    }
  }

  /** The rest from p of a symbol of length len, in a buffer that is zero behind it. */
  ghost predicate ZeroFrom(s: seq<Byte>, len: nat) {
    len < |s| && forall j | len <= j < |s| :: s[j] == 0
  }

  /** A pair of nonzero codes is never found in the zeros behind the symbol. */
  lemma FoundInside(s: seq<Byte>, p: nat, len: nat, k: int, a: Byte, b: Byte)
    requires ZeroFrom(s, len) && p <= len && a != 0 && b != 0
    requires p <= k < |s| - 1 && s[k] == a && s[k + 1] == b
    requires forall j | p <= j < k :: !(s[j] == a && s[j + 1] == b)
    ensures k + 1 < len
    ensures forall i: Byte :: Replace(s[p..len], a, b, i) == s[p..k] + [i] + Replace(s[k + 2..len], a, b, i)
  {
    var q := s[p..len];
    assert NoPair(q[..k - p + 1], a, b) by {
      var r := q[..k - p + 1];
      forall j | 0 <= j < |r| - 1 ensures !(r[j] == a && r[j + 1] == b) {
        assert r[j] == s[p + j] && r[j + 1] == s[p + j + 1];
      }
    }
    forall i: Byte ensures Replace(q, a, b, i) == s[p..k] + [i] + Replace(s[k + 2..len], a, b, i) {
      ReplaceFirst(q, a, b, i, k - p);
      assert q[..k - p] == s[p..k] && q[k - p + 2..] == s[k + 2..len];
    }
  }

  lemma NothingFound(s: seq<Byte>, p: nat, len: nat, end: nat, a: Byte, b: Byte, i: Byte)
    requires p <= len <= end <= |s|
    requires forall j | p <= j < end - 1 :: !(s[j] == a && s[j + 1] == b)
    ensures Replace(s[p..len], a, b, i) == s[p..len]
  {
    var q := s[p..len];
    assert NoPair(q, a, b) by {
      forall j | 0 <= j < |q| - 1 ensures !(q[j] == a && q[j + 1] == b) {
        assert q[j] == s[p + j] && q[j + 1] == s[p + j + 1];
      }
    }
    ReplaceNothing(q, a, b, i);
  }

  /** One replacement at k, and the move of the rest. */
  lemma ReplacedOnce(s: seq<Byte>, s': seq<Byte>, p: nat, len: nat, end: nat, k: nat, a: Byte, b: Byte, i: Byte)
    requires ZeroFrom(s, len) && |s'| == |s| && p <= k && k + 1 < len <= end < |s|
    requires forall j {:trigger s'[j]} | 0 <= j < |s| ::
               s'[j] == if j == k then i else if k + 1 <= j < end then s[j + 1] else s[j]
    requires Replace(s[p..len], a, b, i) == s[p..k] + [i] + Replace(s[k + 2..len], a, b, i)
    ensures ZeroFrom(s', len - 1)
    ensures s[..p] + Replace(s[p..len], a, b, i) == s'[..k + 1] + Replace(s'[k + 1..len - 1], a, b, i)
  {
    assert s'[k + 1..len - 1] == s[k + 2..len];
    assert s'[..k + 1] == s[..p] + s[p..k] + [i];
  }

  /** What is done from p on, followed by what is still to be replaced. */
  ghost function Mixed(s: seq<Byte>, p: nat, len: nat, a: Byte, b: Byte, i: Byte): seq<Byte>
    requires p <= len <= |s|
  {
    s[..p] + Replace(s[p..len], a, b, i)
  }

  /** One round: the pair at k becomes i, and the next `size` bytes move down. */
  method ReplaceAt(sym: array<Byte>, ghost p: nat, ghost len: nat, k: nat, size: nat, a: Byte, b: Byte, i: Byte)
    requires ZeroFrom(sym[..], len) && p <= k < len <= k + 1 + size < sym.Length && a != 0 && b != 0
    requires sym[k] == a && sym[k + 1] == b && forall j | p <= j < k :: !(sym[j] == a && sym[j + 1] == b)
    modifies sym
    ensures k + 1 <= len - 1 && ZeroFrom(sym[..], len - 1)
    ensures Mixed(sym[..], k + 1, len - 1, a, b, i) == old(Mixed(sym[..], p, len, a, b, i))
  {
    ghost var s := sym[..];
    FoundInside(s, p, len, k, a, b);
    sym[k] := i;
    MoveDown(sym, k + 1, size);
    ReplacedOnce(s, sym[..], p, len, k + 1 + size, k, a, b, i);
  }

  /** Replaces the pair a, b by the code i everywhere in the symbol of length len0.  The scanned size shrinks by
      one byte too little at every replacement, so the scan runs into the zeros behind the symbol. */
  method ReplaceInPlace(sym: array<Byte>, len0: nat, a: Byte, b: Byte, i: Byte, first: nat) returns (len: nat)
    requires ZeroFrom(sym[..], len0) && a != 0 && b != 0
    requires first < len0 - 1 && sym[first] == a && sym[first + 1] == b
    requires forall j | 0 <= j < first :: !(sym[j] == a && sym[j + 1] == b)
    modifies sym
    ensures len <= len0 && ZeroFrom(sym[..], len)
    ensures sym[..len] == Replace(old(sym[..len0]), a, b, i)
  {
    ghost var goal := Mixed(sym[..], 0, len0, a, b, i);
    assert goal == Replace(sym[..len0], a, b, i) by {
      assert sym[..][0..len0] == sym[..len0];
    }
    len := len0;
    var size, p1: nat, p2: int := len0, 0, first;
    while p2 != -1
      invariant p1 <= len <= len0 && p1 + size == len0 && ZeroFrom(sym[..], len)
      invariant Mixed(sym[..], p1, len, a, b, i) == goal
      invariant p2 != -1 ==> p1 <= p2 < p1 + size - 1 && sym[p2] == a && sym[p2 + 1] == b
      invariant forall j | p1 <= j < (if p2 == -1 then p1 + size - 1 else p2) :: !(sym[j] == a && sym[j + 1] == b)
      decreases size, p2
    {
      size := size - (p2 + 1 - p1);
      ReplaceAt(sym, p1, len, p2, size, a, b, i);
      p1 := p2 + 1;
      len := len - 1;
      p2 := if size < 2 then -1 else 0;
      if p2 != -1 {
        p2 := FindToken(sym, p1, size, a, b);
      }
    }
    NothingFound(sym[..], p1, len, p1 + size, a, b, i);
    assert sym[..len] == sym[..][..p1] + sym[..][p1..len];
  }
}
