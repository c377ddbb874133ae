/** `optimize_token_table`: byte-pair compression of all symbols, with the pair counts kept up to date. */
module KsCompress {
  import opened Bytes
  import opened KsTokens
  import opened KsInPlace

  // ----- pair counts

  function PairIndex(a: Byte, b: Byte): nat {
    a + 256 * b
  }

  /** How often the pair with index t occurs in s. */
  ghost function Count(s: seq<Byte>, t: nat): nat {
    if |s| < 2 then 0
    else Count(s[..|s| - 1], t) + if PairIndex(s[|s| - 2], s[|s| - 1]) == t then 1 else 0
  }

  lemma CountStep(s: seq<Byte>, n: nat)
    requires 1 <= n < |s|
    ensures forall t :: Count(s[..n + 1], t) ==
                        Count(s[..n], t) + if PairIndex(s[n - 1], s[n]) == t then 1 else 0
  {
    assert s[..n + 1][..n] == s[..n];
  }

  ghost function Total(all: seq<seq<Byte>>, t: nat): nat {
    if all == [] then 0 else Total(all[..|all| - 1], t) + Count(all[|all| - 1], t)
  }

  lemma {:induction false} CountMember(s: seq<Byte>, t: nat)
    requires Count(s, t) > 0
    ensures exists j :: 0 <= j < |s| - 1 && PairIndex(s[j], s[j + 1]) == t
  {
    var n := |s|;
    if PairIndex(s[n - 2], s[n - 1]) != t {
      CountMember(s[..n - 1], t);
      var j :| 0 <= j < |s[..n - 1]| - 1 && PairIndex(s[..n - 1][j], s[..n - 1][j + 1]) == t;
      assert PairIndex(s[j], s[j + 1]) == t;
    }
  }

  lemma {:induction false} TotalMember(all: seq<seq<Byte>>, t: nat)
    requires Total(all, t) > 0
    ensures exists k :: 0 <= k < |all| && Count(all[k], t) > 0
  {
    var n := |all|;
    if Count(all[n - 1], t) == 0 {
      TotalMember(all[..n - 1], t);
      var k :| 0 <= k < |all[..n - 1]| && Count(all[..n - 1][k], t) > 0;
      assert Count(all[k], t) > 0;
    }
  }

  lemma {:induction false} TotalUpdate(all: seq<seq<Byte>>, k: nat, s: seq<Byte>, t: nat)
    requires k < |all|
    ensures Total(all[k := s], t) == Total(all, t) - Count(all[k], t) + Count(s, t)
  {
    var n := |all|;
    if k < n - 1 {
      TotalUpdate(all[..n - 1], k, s, t);
      assert all[k := s][..n - 1] == all[..n - 1][k := s];
    } else {
      assert all[k := s][..n - 1] == all[..n - 1];
    }
  }

  /** The pair of codes with index t. */
  lemma PairOfIndex(t: nat)
    requires t < 0x10000
    ensures t % 256 < 256 && t / 256 < 256 && PairIndex(t % 256, t / 256) == t
    ensures forall a: Byte, b: Byte :: PairIndex(a, b) == t ==> a == t % 256 && b == t / 256
  {
  }

  // ----- the symbol table

  /** A buffer that holds the symbol s of length n. */
  ghost predicate HoldsSymbol(bytes: seq<Byte>, n: nat, s: seq<Byte>) {
    ZeroFrom(bytes, n) && bytes[..n] == s
  }

  class Compressor {
    var profit: seq<int>
    var buffers: seq<array<Byte>>
    var len: seq<nat>
    var bestTable: Table

    /** `all` lists the symbols in their buffers, which are zero behind them. */
    ghost predicate Holds(all: seq<seq<Byte>>)
      reads `buffers, `len, buffers
    {
      && |all| == |buffers| == |len|
      && (forall i, j | 0 <= i < j < |buffers| :: buffers[i] != buffers[j])
      && forall k {:trigger all[k]} | 0 <= k < |all| :: HoldsSymbol(buffers[k][..], len[k], all[k])
    }

    ghost predicate Counted(all: seq<seq<Byte>>)
      reads `profit
    {
      |profit| == 0x10000 && forall t {:trigger profit[t]} | 0 <= t < 0x10000 :: profit[t] == Total(all, t)
    }

    /** Adds the pairs of symbol k to the counts. */
    method LearnSymbol(k: nat)
      requires k < |buffers| == |len| && len[k] <= buffers[k].Length && |profit| == 0x10000
      modifies `profit
      ensures |profit| == 0x10000
      ensures forall t {:trigger profit[t]} | 0 <= t < 0x10000 ::
                profit[t] == old(profit[t]) + Count(buffers[k][..len[k]], t)
    {
      ghost var s, was := buffers[k][..len[k]], profit;
      var i := 0;
      var n: int := len[k];
      ghost var seen := s[..if n == 0 then 0 else 1];
      assert forall t :: Count(seen, t) == 0;
      while i < n - 1
        invariant 0 <= i && (i == 0 || i <= n - 1) && seen == s[..if n == 0 then 0 else i + 1]
        invariant |profit| == 0x10000
        invariant forall t {:trigger profit[t]} | 0 <= t < 0x10000 ::
                    profit[t] == was[t] + Count(seen, t)
      {
        var t := PairIndex(buffers[k][i], buffers[k][i + 1]);
        CountStep(s, i + 1);
        seen := s[..i + 2];
        profit := profit[t := profit[t] + 1];
        i := i + 1;
      }
      assert s == seen;
    }

    /** Takes the pairs of symbol k out of the counts. */
    method ForgetSymbol(k: nat)
      requires k < |buffers| == |len| && len[k] <= buffers[k].Length && |profit| == 0x10000
      modifies `profit
      ensures |profit| == 0x10000
      ensures forall t {:trigger profit[t]} | 0 <= t < 0x10000 ::
                profit[t] == old(profit[t]) - Count(buffers[k][..len[k]], t)
    {
      ghost var s, was := buffers[k][..len[k]], profit;
      var i := 0;
      var n: int := len[k];
      ghost var seen := s[..if n == 0 then 0 else 1];
      assert forall t :: Count(seen, t) == 0;
      while i < n - 1
        invariant 0 <= i && (i == 0 || i <= n - 1) && seen == s[..if n == 0 then 0 else i + 1]
        invariant |profit| == 0x10000
        invariant forall t {:trigger profit[t]} | 0 <= t < 0x10000 ::
                    profit[t] == was[t] - Count(seen, t)
      {
        var t := PairIndex(buffers[k][i], buffers[k][i + 1]);
        CountStep(s, i + 1);
        seen := s[..i + 2];
        profit := profit[t := profit[t] - 1];
        i := i + 1;
      }
      assert s == seen;
    }

    /** The loop body of `compress_symbols`. */
    method CompressSymbol(k: nat, a: Byte, b: Byte, idx: Byte, ghost all: seq<seq<Byte>>)
      requires Holds(all) && Counted(all) && k < |buffers| && a != 0 && b != 0
      modifies `profit, `len, buffers[k]
      ensures Holds(all[k := Replace(all[k], a, b, idx)]) && Counted(all[k := Replace(all[k], a, b, idx)])
      ensures buffers == old(buffers)
    {
      ghost var s := all[k];
      var first := FindToken(buffers[k], 0, len[k], a, b);
      if first == -1 {
        NothingFound(buffers[k][..], 0, len[k], len[k], a, b, idx);
        assert buffers[k][..][0..len[k]] == s && all[k := s] == all;
        return;
      }
      ForgetSymbol(k);
      var n := ReplaceInPlace(buffers[k], len[k], a, b, idx, first);
      len := len[k := n];
      LearnSymbol(k);
      forall t | 0 <= t < 0x10000 ensures profit[t] == Total(all[k := Replace(s, a, b, idx)], t) {
        TotalUpdate(all, k, Replace(s, a, b, idx), t);
      }
    }

    /** `compress_symbols`: replaces the pair a, b by the code idx in every symbol. */
    method CompressSymbols(a: Byte, b: Byte, idx: Byte, ghost all: seq<seq<Byte>>)
      requires Holds(all) && Counted(all) && a != 0 && b != 0
      modifies `profit, `len, buffers
      ensures Holds(ReplaceAll(all, |all|, a, b, idx)) && Counted(ReplaceAll(all, |all|, a, b, idx))
      ensures buffers == old(buffers)
    {
      assert ReplaceAll(all, 0, a, b, idx) == all;
      for k := 0 to |buffers|
        invariant buffers == old(buffers)
        invariant Holds(ReplaceAll(all, k, a, b, idx)) && Counted(ReplaceAll(all, k, a, b, idx))
      {
        ghost var now := ReplaceAll(all, k, a, b, idx);
        CompressSymbol(k, a, b, idx, now);
        assert now[k := Replace(now[k], a, b, idx)] == ReplaceAll(all, k + 1, a, b, idx);
      }
    }

    /** The pair with the highest count, and the first one among equals. */
    method FindBestToken() returns (best: nat)
      requires |profit| == 0x10000 && forall t | 0 <= t < 0x10000 :: profit[t] >= 0
      ensures best < 0x10000
      ensures forall t | 0 <= t < 0x10000 :: profit[t] <= profit[best] && (t < best ==> profit[t] < profit[best])
    {
      var bestProfit := -10000;
      best := 0;
      for i := 0 to 0x10000
        invariant best < 0x10000 && (i > 0 ==> best < i && bestProfit == profit[best])
        invariant i == 0 ==> bestProfit == -10000
        invariant forall t | 0 <= t < i :: profit[t] <= bestProfit && (t < best ==> profit[t] < bestProfit)
      {
        if profit[i] > bestProfit {
          best := i;
          bestProfit := profit[i];
        }
      }
    }

    /** Every symbol still stands for its name, and the tokens so far lie above `limit`. */
    ghost predicate Compressed(all: seq<seq<Byte>>, names: seq<seq<Byte>>, limit: int)
      reads `bestTable
    {
      && |all| == |names| && TableOk(bestTable)
      && (forall c: Byte {:trigger bestTable[c]} :: |bestTable[c]| == 2 ==> c > limit)
      && (forall k {:trigger all[k]} | 0 <= k < |all| ::
            && Known(bestTable, all[k]) && Expand(bestTable, all[k]) == names[k]
            && |all[k]| <= |names[k]| && (names[k] != [] ==> all[k] != []))
    }

    method FindMostFrequent(ghost all: seq<seq<Byte>>) returns (best: nat)
      requires Counted(all)
      ensures MostFrequent(all, best) && best < |profit| && profit[best] == Total(all, best)
    {
      best := FindBestToken();
      forall t | 0 <= t < 0x10000
        ensures Total(all, t) <= Total(all, best) && (t < best ==> Total(all, t) < Total(all, best))
      {
        assert profit[t] == Total(all, t);
      }
    }

    /** Code i becomes a token for a pair that occurs, which is replaced by it everywhere. */
    method Assign(i: Byte, best: nat, ghost all0: seq<seq<Byte>>, ghost names: seq<seq<Byte>>)
      returns (ghost all: seq<seq<Byte>>)
      requires Holds(all0) && Counted(all0) && Compressed(all0, names, i) && bestTable[i] == []
      requires best < 0x10000 && Total(all0, best) > 0
      modifies `profit, `len, `bestTable, buffers
      ensures best % 256 < 256 && best / 256 < 256 && all == ReplaceAll(all0, |all0|, best % 256, best / 256, i)
      ensures Holds(all) && Counted(all) && Compressed(all, names, i - 1) && buffers == old(buffers)
      ensures bestTable == old(bestTable)[i := [best % 256, best / 256]]
    {
      PairOfIndex(best);
      var a: Byte, b: Byte := best % 256, best / 256;
      CodesInUse(bestTable, all0, best, i);
      NewTokenOk(bestTable, i, a, b);
      ghost var table := bestTable;
      bestTable := bestTable[i := [a, b]];
      CompressSymbols(a, b, i, all0);
      ReplaceAllKeeps(table, all0, a, b, i);
      all := ReplaceAll(all0, |all0|, a, b, i);
    }

    /** `optimize_result`: assigns the unused codes, from 255 down, to the most frequent pairs, until there is no such
        code or no pair any more. */
    method OptimizeResult(ghost all0: seq<seq<Byte>>, ghost names: seq<seq<Byte>>) returns (ghost all: seq<seq<Byte>>)
      requires Holds(all0) && Counted(all0) && Compressed(all0, names, 255)
      modifies `profit, `len, `bestTable, buffers
      ensures Holds(all) && Counted(all) && Compressed(all, names, -1) && buffers == old(buffers)
      ensures Greedy(old(bestTable), all0, 255, bestTable, all)
      ensures NoPairs(all) || forall c: Byte {:trigger bestTable[c]} :: bestTable[c] != []
    {
      all := all0;
      ghost var table0 := bestTable;
      var i := 255;
      while i >= 0
        invariant -1 <= i <= 255 && buffers == old(buffers)
        invariant Holds(all) && Counted(all) && Compressed(all, names, i)
        invariant LeadsTo(table0, all0, 255, bestTable, all, i)
        invariant forall c: Byte {:trigger bestTable[c]} | c > i :: bestTable[c] != []
      {
        if bestTable[i] == [] {
          var best := FindMostFrequent(all);
          if profit[best] == 0 {
            NothingLeft(all, best);
            GreedyEnds(table0, all0, bestTable, all, i, best);
            return;
          }
          GreedyReplaces(table0, all0, bestTable, all, i, best);
          all := Assign(i, best, all, names);
        } else {
          GreedySkips(table0, all0, bestTable, all, i);
        }
        i := i - 1;
      }
      assert Greedy(bestTable, all, -1, bestTable, all);
    }

    /** `build_initial_token_table` */
    method BuildInitialTokenTable(ghost all: seq<seq<Byte>>)
      requires Holds(all) && |profit| == 0x10000 && forall t | 0 <= t < 0x10000 :: profit[t] == 0
      modifies `profit
      ensures Counted(all)
    {
      for k := 0 to |buffers|
        invariant Counted(all[..k])
      {
        assert HoldsSymbol(buffers[k][..], len[k], all[k]);
        LearnSymbol(k);
        assert all[..k + 1][..k] == all[..k] && buffers[k][..len[k]] == all[k];
      }
      assert all[..|all|] == all;
    }

    /** `insert_real_symbols_in_table`: a code for every character that occurs. */
    method InsertRealSymbols(ghost all: seq<seq<Byte>>)
      requires Holds(all) && |bestTable| == 256 && forall c: Byte :: bestTable[c] == []
      modifies `bestTable
      ensures |bestTable| == 256
      ensures forall c: Byte {:trigger bestTable[c]} ::
                bestTable[c] == if exists k :: 0 <= k < |all| && c in all[k] then [c] else []
    {
      for k := 0 to |buffers|
        invariant |bestTable| == 256
        invariant forall c: Byte {:trigger bestTable[c]} ::
                    bestTable[c] == if exists j :: 0 <= j < k && c in all[j] then [c] else []
      {
        ghost var was := bestTable;
        for j := 0 to len[k]
          invariant |bestTable| == 256
          invariant forall c: Byte {:trigger bestTable[c]} ::
                      bestTable[c] == if c in all[k][..j] then [c] else was[c]
        {
          var c := buffers[k][j];
          assert c == all[k][j] && all[k][..j + 1] == all[k][..j] + [c];
          bestTable := bestTable[c := [c]];
        }
        assert all[k][..len[k]] == all[k];
      }
    }

    /** `optimize_token_table`: afterwards every symbol's codes stand for its name. */
    method OptimizeTokenTable(ghost names: seq<seq<Byte>>) returns (ghost all: seq<seq<Byte>>)
      requires Holds(names) && forall k | 0 <= k < |names| :: 0 !in names[k]
      requires |profit| == 0x10000 && forall t | 0 <= t < 0x10000 :: profit[t] == 0
      requires |bestTable| == 256 && forall c: Byte :: bestTable[c] == []
      modifies `profit, `len, `bestTable, buffers
      ensures Holds(all) && Counted(all) && Compressed(all, names, -1) && buffers == old(buffers)
      ensures NoPairs(all) || forall c: Byte {:trigger bestTable[c]} :: bestTable[c] != []
    {
      BuildInitialTokenTable(names);
      InsertRealSymbols(names);
      LiteralsCompressed(bestTable, names);
      all := OptimizeResult(names, names);
    }
  }

  // ----- which tokens are chosen

  /** The pair that occurs most often, and the first one among equals. */
  ghost predicate MostFrequent(all: seq<seq<Byte>>, best: nat) {
    && best < 0x10000
    && forall t {:trigger Total(all, t)} | 0 <= t < 0x10000 ::
         Total(all, t) <= Total(all, best) && (t < best ==> Total(all, t) < Total(all, best))
  }

  /** From table t and the symbols `all` one comes to t' and all': the unused codes from i down are assigned, each to
      the pair that is most frequent then, as long as there is one. */
  ghost predicate Greedy(t: Table, all: seq<seq<Byte>>, i: int, t': Table, all': seq<seq<Byte>>)
    decreases i + 1
  {
    if i < 0 || i >= |t| || i >= 256 then t' == t && all' == all
    else if t[i] != [] then Greedy(t, all, i - 1, t', all')
    else exists best: nat {:trigger MostFrequent(all, best)} ::
        && MostFrequent(all, best)
        && if Total(all, best) == 0 then t' == t && all' == all
           else Greedy(t[i := [best % 256, best / 256]], ReplaceAll(all, |all|, best % 256, best / 256, i), i - 1, t',
               all')
  }

  /** Wherever one comes to from the second state, one comes to from the first. */
  ghost predicate LeadsTo(t0: Table, all0: seq<seq<Byte>>, i0: int, t: Table, all: seq<seq<Byte>>, i: int) {
    forall t': Table, all': seq<seq<Byte>> {:trigger Greedy(t, all, i, t', all')} | Greedy(t, all, i, t', all') ::
      Greedy(t0, all0, i0, t', all')
  }

  lemma GreedySkips(t0: Table, all0: seq<seq<Byte>>, t: Table, all: seq<seq<Byte>>, i: int)
    requires LeadsTo(t0, all0, 255, t, all, i) && 0 <= i < 256 == |t| && t[i] != []
    ensures LeadsTo(t0, all0, 255, t, all, i - 1)
  {
    forall t': Table, all': seq<seq<Byte>> | Greedy(t, all, i - 1, t', all') ensures Greedy(t0, all0, 255, t', all') {
      assert Greedy(t, all, i, t', all');
    }
  }

  lemma GreedyReplaces(t0: Table, all0: seq<seq<Byte>>, t: Table, all: seq<seq<Byte>>, i: int, best: nat)
    requires LeadsTo(t0, all0, 255, t, all, i) && 0 <= i < 256 == |t| && t[i] == []
    requires MostFrequent(all, best) && Total(all, best) != 0
    ensures LeadsTo(t0, all0, 255, t[i := [best % 256, best / 256]],
                    ReplaceAll(all, |all|, best % 256, best / 256, i), i - 1)
  {
    var u, rest := t[i := [best % 256, best / 256]], ReplaceAll(all, |all|, best % 256, best / 256, i);
    forall t': Table, all': seq<seq<Byte>> | Greedy(u, rest, i - 1, t', all') ensures Greedy(t0, all0, 255, t', all') {
      assert Greedy(t, all, i, t', all');
    }
  }

  lemma GreedyEnds(t0: Table, all0: seq<seq<Byte>>, t: Table, all: seq<seq<Byte>>, i: int, best: nat)
    requires LeadsTo(t0, all0, 255, t, all, i) && 0 <= i < 256 == |t| && t[i] == []
    requires MostFrequent(all, best) && Total(all, best) == 0
    ensures Greedy(t0, all0, 255, t, all)
  {
    assert Greedy(t, all, i, t, all);
  }

  /** No symbol has two codes any more. */
  ghost predicate NoPairs(all: seq<seq<Byte>>) {
    forall k {:trigger all[k]} | 0 <= k < |all| :: |all[k]| <= 1
  }

  lemma NothingLeft(all: seq<seq<Byte>>, best: nat)
    requires MostFrequent(all, best) && Total(all, best) == 0
    ensures NoPairs(all)
  {
    forall k | 0 <= k < |all| ensures |all[k]| <= 1 {
      if |all[k]| >= 2 {
        var t := PairIndex(all[k][|all[k]| - 2], all[k][|all[k]| - 1]);
        TotalCovers(all, k, t);
      }
    }
  }

  lemma {:induction false} TotalCovers(all: seq<seq<Byte>>, k: nat, t: nat)
    requires k < |all|
    ensures Total(all, t) >= Count(all[k], t)
  {
    if k < |all| - 1 {
      TotalCovers(all[..|all| - 1], k, t);
    }
  }

  /** The first n symbols with the pair replaced. */
  ghost function ReplaceAll(all: seq<seq<Byte>>, n: nat, a: Byte, b: Byte, i: Byte): seq<seq<Byte>>
    requires n <= |all|
  {
    seq(|all|, k requires 0 <= k < |all| => if k < n then Replace(all[k], a, b, i) else all[k])
  }

  /** A pair that occurs consists of codes in use, and 0 is not one of them while it has not been assigned. */
  lemma CodesInUse(t: Table, all: seq<seq<Byte>>, best: nat, limit: nat)
    requires TableOk(t) && best < 0x10000 && Total(all, best) > 0
    requires forall c: Byte {:trigger t[c]} :: |t[c]| == 2 ==> c > limit
    requires forall k {:trigger all[k]} | 0 <= k < |all| :: Known(t, all[k])
    ensures t[best % 256] != [] && t[best / 256] != [] && best % 256 != 0 && best / 256 != 0
  {
    TotalMember(all, best);
    var k :| 0 <= k < |all| && Count(all[k], best) > 0;
    CountMember(all[k], best);
    var j :| 0 <= j < |all[k]| - 1 && PairIndex(all[k][j], all[k][j + 1]) == best;
    PairOfIndex(best);
    assert EntryOk(t, 0);
  }

  lemma ReplaceAllKeeps(t: Table, all: seq<seq<Byte>>, a: Byte, b: Byte, i: Byte)
    requires TableOk(t) && TableOk(t[i := [a, b]]) && t[i] == [] && t[a] != [] && t[b] != []
    requires forall k {:trigger all[k]} | 0 <= k < |all| :: Known(t, all[k])
    ensures var all' := ReplaceAll(all, |all|, a, b, i);
            forall k {:trigger all'[k]} | 0 <= k < |all| ::
              && Known(t[i := [a, b]], all'[k]) && Expand(t[i := [a, b]], all'[k]) == Expand(t, all[k])
              && |all'[k]| <= |all[k]| && (all[k] != [] ==> all'[k] != [])
  {
    var all' := ReplaceAll(all, |all|, a, b, i);
    forall k | 0 <= k < |all|
      ensures Known(t[i := [a, b]], all'[k]) && Expand(t[i := [a, b]], all'[k]) == Expand(t, all[k])
      ensures |all'[k]| <= |all[k]| && (all[k] != [] ==> all'[k] != [])
    {
      ReplaceKeepsMeaning(t, all[k], a, b, i);
      ReplaceLeavesNoPair(all[k], a, b, i);
      forall j | 0 <= j < |all'[k]| ensures t[i := [a, b]][all'[k][j]] != [] {
        assert all'[k][j] in all'[k];
      }
    }
  }

  lemma {:induction false} LiteralsExpand(t: Table, s: seq<Byte>)
    requires TableOk(t) && forall j | 0 <= j < |s| :: Literal(t, s[j])
    ensures Expand(t, s) == s
  {
    if s != [] {
      LiteralsExpand(t, s[1..]);
    }
  }

  lemma LiteralsCompressed(t: Table, names: seq<seq<Byte>>)
    requires |t| == 256 && forall k | 0 <= k < |names| :: 0 !in names[k]
    requires forall c: Byte {:trigger t[c]} :: t[c] == if exists k :: 0 <= k < |names| && c in names[k] then [c] else []
    ensures TableOk(t)
    ensures forall k {:trigger names[k]} | 0 <= k < |names| :: Known(t, names[k]) && Expand(t, names[k]) == names[k]
  {
    forall c: Byte ensures EntryOk(t, c) {
      assert t[c] == [c] || t[c] == [];
    }
    forall k | 0 <= k < |names| ensures Known(t, names[k]) && Expand(t, names[k]) == names[k] {
      forall j | 0 <= j < |names[k]| ensures Literal(t, names[k][j]) {
        assert names[k][j] in names[k];
      }
      LiteralsExpand(t, names[k]);
    }
  }
}
