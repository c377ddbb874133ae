/** The initialisation graph: engines activate their nodes in dependency order. */
module InitGraph {
  import opened FiniteSets

  // ----- edges

  /** How often v occurs in a list of successors from index k on. */
  function Mult(list: seq<nat>, k: nat, v: nat): nat
    decreases |list| - k
  {
    if k >= |list| then 0 else (if list[k] == v then 1 else 0) + Mult(list, k + 1, v)
  }

  /** Each node has counted down so many of its edges, in the order in which they were made; the others are open. Into
      v, this is the number of open edges from the first n nodes. */
  function Incoming(out: seq<seq<nat>>, fired: seq<nat>, v: nat, n: nat): nat
    requires n <= |out| == |fired|
  {
    if n == 0 then 0 else Incoming(out, fired, v, n - 1) + Mult(out[n - 1], fired[n - 1], v)
  }

  predicate Open(out: seq<seq<nat>>, fired: seq<nat>, u: nat, v: nat) {
    u < |out| == |fired| && fired[u] <= |out[u]| && v in out[u][fired[u]..]
  }

  /** A node that is not done has counted down no edge, and one that is done has counted down those that it had then;
      edges made later stay open. */
  ghost predicate FiredOk(out: seq<seq<nat>>, done: seq<bool>, fired: seq<nat>, u: nat) {
    u < |out| == |done| == |fired| && fired[u] <= |out[u]| && (!done[u] ==> fired[u] == 0)
  }

  ghost predicate AllFired(out: seq<seq<nat>>, done: seq<bool>, fired: seq<nat>) {
    |out| == |done| == |fired| && forall u: nat {:trigger FiredOk(out, done, fired, u)} | u < |out| ::
        FiredOk(out, done, fired, u)
  }

  lemma {:induction false} MultZero(list: seq<nat>, k: nat, v: nat)
    requires k <= |list|
    ensures Mult(list, k, v) == 0 <==> v !in list[k..]
    decreases |list| - k
  {
    if k < |list| {
      MultZero(list, k + 1, v);
      assert list[k..] == [list[k]] + list[k + 1..];
    }
  }

  lemma {:induction false} MultAppend(list: seq<nat>, k: nat, w: nat, v: nat)
    requires k <= |list|
    ensures Mult(list + [w], k, v) == Mult(list, k, v) + if w == v then 1 else 0
    decreases |list| - k
  {
    if k < |list| {
      MultAppend(list, k + 1, w, v);
    } else {
      assert Mult(list + [w], k + 1, v) == 0;
    }
  }

  lemma {:induction false} IncomingZero(out: seq<seq<nat>>, done: seq<bool>, fired: seq<nat>, v: nat, n: nat)
    requires n <= |out| && AllFired(out, done, fired)
    ensures Incoming(out, fired, v, n) == 0 <==> forall u: nat {:trigger Open(out, fired, u, v)} | u < n ::
              !Open(out, fired, u, v)
  {
    if n != 0 {
      IncomingZero(out, done, fired, v, n - 1);
      assert FiredOk(out, done, fired, n - 1);
      MultZero(out[n - 1], fired[n - 1], v);
      assert Incoming(out, fired, v, n) == 0 ==> !Open(out, fired, n - 1, v);
      if Incoming(out, fired, v, n) != 0 && Incoming(out, fired, v, n - 1) == 0 {
        assert Open(out, fired, n - 1, v);
      }
    }
  }

  /** Finishing node c takes its edges away. */
  lemma {:induction false} IncomingDrops(out: seq<seq<nat>>, fired: seq<nat>, c: nat, v: nat, n: nat)
    requires n <= |out| == |fired| && c < |out| && fired[c] == 0
    ensures Incoming(out, fired, v, n) == Incoming(out, fired[c := |out[c]|], v, n) + if c < n then Mult(out[c], 0, v)
                                                                                      else 0
  {
    if n != 0 {
      IncomingDrops(out, fired, c, v, n - 1);
    }
  }

  /** A new edge counts for its target. */
  lemma {:induction false} IncomingGrows(out: seq<seq<nat>>, fired: seq<nat>, u: nat, w: nat, v: nat, n: nat)
    requires n <= |out| == |fired| && u < |out| && fired[u] <= |out[u]|
    ensures Incoming(out[u := out[u] + [w]], fired, v, n) == Incoming(out, fired, v, n) + if u < n && w == v then 1
                                                                                          else 0
  {
    if n != 0 {
      IncomingGrows(out, fired, u, w, v, n - 1);
      MultAppend(out[u], fired[u], w, v);
    }
  }

  function Undone(done: seq<bool>, n: nat): nat
    requires n <= |done|
  {
    if n == 0 then 0 else Undone(done, n - 1) + if done[n - 1] then 0 else 1
  }

  lemma {:induction false} UndoneDrops(done: seq<bool>, c: nat, n: nat)
    requires n <= |done| && c < |done| && !done[c]
    ensures Undone(done[c := true], n) == Undone(done, n) - if c < n then 1 else 0
  {
    if n != 0 {
      UndoneDrops(done, c, n - 1);
    }
  }

  // ----- what a run achieves

  /** `log` lists nodes of an engine that were not done before, each once, and each behind all those with an open edge
      to it. */
  ghost predicate InOrder(out: seq<seq<nat>>, mine: set<nat>, done: seq<bool>, fired: seq<nat>, log: seq<nat>) {
    && |done| == |out|
    && (forall i {:trigger log[i]} | 0 <= i < |log| :: log[i] < |out| && log[i] in mine && !done[log[i]])
    && (forall i, j | 0 <= i < j < |log| :: log[i] != log[j])
    && forall i: nat, u: nat {:trigger Open(out, fired, u, log[i])} | i < |log| && Open(out, fired, u, log[i]) ::
         u in log[..i]
  }

  /** After the run: done are those of before and those in the log, which have counted down all their edges. */
  ghost predicate After(out: seq<seq<nat>>, before: seq<bool>, fired0: seq<nat>, log: seq<nat>, done: seq<bool>,
                        fired: seq<nat>) {
    && |done| == |before| == |out| == |fired0| == |fired|
    && (forall v: nat {:trigger done[v]} | v < |done| :: done[v] <==> before[v] || v in log)
    && forall v: nat {:trigger fired[v]} | v < |done| :: fired[v] == if v in log then |out[v]| else fired0[v]
  }

  /** An open edge leads to every node of the engine that is not done. */
  ghost predicate Exhausted(out: seq<seq<nat>>, mine: set<nat>, done: seq<bool>, fired: seq<nat>) {
    && |done| == |out|
    && forall v: nat {:trigger done[v]} | v < |out| && v in mine && !done[v] :: exists u: nat :: Open(out, fired, u, v)
  }

  /** Going back from path[0] along open edges, only through undone nodes of the engine, until a node comes again, or
      one is done already or belongs to another engine. */
  ghost predicate Stuck(out: seq<seq<nat>>, mine: set<nat>, done: seq<bool>, fired: seq<nat>, path: seq<nat>) {
    && |done| == |out| && path != []
    && (forall i {:trigger path[i]} | 0 <= i < |path| ::
         path[i] < |out| && (i < |path| - 1 || i == 0 ==> !done[path[i]]))
    && (forall i: nat {:trigger Link(out, fired, path, i)} | i + 1 < |path| :: Link(out, fired, path, i))
    && (path[|path| - 1] in mine && !done[path[|path| - 1]] ==> path[|path| - 1] in path[..|path| - 1])
  }

  predicate Link(out: seq<seq<nat>>, fired: seq<nat>, path: seq<nat>, i: nat) {
    i + 1 < |path| && Open(out, fired, path[i + 1], path[i])
  }

  /** Nothing on such a path is ever activated. */
  lemma {:induction false} StuckStays(out: seq<seq<nat>>, mine: set<nat>, done: seq<bool>, fired: seq<nat>,
                                      log: seq<nat>, path: seq<nat>, n: nat)
    requires InOrder(out, mine, done, fired, log) && Stuck(out, mine, done, fired, path) && n <= |log|
    ensures forall i {:trigger path[i]} | 0 <= i < |path| :: path[i] !in log[..n]
  {
    if n != 0 {
      StuckStays(out, mine, done, fired, log, path, n - 1);
      forall i {:trigger path[i]} | 0 <= i < |path| ensures path[i] != log[n - 1] {
        if path[i] in mine && !done[path[i]] {
          var k := if i < |path| - 1 then i else (var j :| 0 <= j < |path| - 1 && path[j] == path[i]; j);
          assert Link(out, fired, path, k);
          assert path[k + 1] !in log[..n - 1];
          assert !Open(out, fired, path[k + 1], log[n - 1]);
        }
      }
      assert log[..n] == log[..n - 1] + [log[n - 1]];
    }
  }

  /** From an undone node, going back long enough ends outside the engine, at a node that is done, or in a circle. */
  lemma GoBack(out: seq<seq<nat>>, mine: set<nat>, done: seq<bool>, fired: seq<nat>, path: seq<nat>)
    returns (r: seq<nat>)
    requires Exhausted(out, mine, done, fired) && path != []
    requires forall i {:trigger path[i]} | 0 <= i < |path| :: path[i] < |out| && !done[path[i]]
    requires forall i: nat {:trigger Link(out, fired, path, i)} | i + 1 < |path| :: Link(out, fired, path, i)
    requires forall i, j | 0 <= i < j < |path| :: path[i] != path[j]
    ensures Stuck(out, mine, done, fired, r) && r[0] == path[0]
    decreases |out| - |path|
  {
    var v := path[|path| - 1];
    if v !in mine {
      r := path;
      return;
    }
    assert !done[v];
    var u: nat :| Open(out, fired, u, v);
    var longer := path + [u];
    forall i: nat {:trigger Link(out, fired, longer, i)} | i + 1 < |longer| ensures Link(out, fired, longer, i) {
      assert i + 1 < |path| ==> Link(out, fired, path, i);
    }
    if u in path || done[u] {
      r := longer;
      assert longer[..|longer| - 1] == path;
    } else {
      DistinctFits(longer, |out|);
      r := GoBack(out, mine, done, fired, longer);
    }
  }

  lemma DistinctFits(path: seq<nat>, n: nat)
    requires forall i {:trigger path[i]} | 0 <= i < |path| :: path[i] < n
    requires forall i, j | 0 <= i < j < |path| :: path[i] != path[j]
    ensures |path| <= n
  {
    SizeOfPath(path);
    Bounded(set i: nat | i < |path| :: path[i], n);
  }

  lemma {:induction false} SizeOfPath(path: seq<nat>)
    requires forall i, j | 0 <= i < j < |path| :: path[i] != path[j]
    ensures |set i: nat | i < |path| :: path[i]| == |path|
  {
    if path != [] {
      var p := path[..|path| - 1];
      SizeOfPath(p);
      assert (set i: nat | i < |path| :: path[i]) == (set i: nat | i < |p| :: p[i]) + {path[|path| - 1]};
    }
  }

  /** On or behind a circle, or behind an undone node of another engine, or behind an edge made too late. */
  ghost predicate Unreachable(out: seq<seq<nat>>, mine: set<nat>, done: seq<bool>, fired: seq<nat>, v: nat) {
    exists path :: Stuck(out, mine, done, fired, path) && path[0] == v
  }

  /** An edge that is open after the run was so before it, from a node that the run did not activate. */
  lemma OpenBefore(out: seq<seq<nat>>, before: seq<bool>, fired0: seq<nat>, log: seq<nat>, done: seq<bool>,
                   fired: seq<nat>, u: nat, v: nat)
    requires After(out, before, fired0, log, done, fired) && Open(out, fired, u, v)
    ensures u !in log && Open(out, fired0, u, v)
  {
  }

  /** Exactly these nodes are left over. */
  lemma LeftOver(out: seq<seq<nat>>, mine: set<nat>, before: seq<bool>, fired0: seq<nat>, log: seq<nat>,
                 done: seq<bool>, fired: seq<nat>, v: nat)
    requires InOrder(out, mine, before, fired0, log) && After(out, before, fired0, log, done, fired)
    requires Exhausted(out, mine, done, fired) && v < |out| && v in mine
    ensures !done[v] <==> Unreachable(out, mine, before, fired0, v)
  {
    if !done[v] {
      var path := GoBack(out, mine, done, fired, [v]);
      var last := |path| - 1;
      forall i: nat {:trigger Link(out, fired0, path, i)} | i + 1 < |path|
        ensures Link(out, fired0, path, i) && path[i + 1] !in log {
        assert Link(out, fired, path, i);
        OpenBefore(out, before, fired0, log, done, fired, path[i + 1], path[i]);
      }
      forall i {:trigger path[i]} | 0 <= i < |path| && (i < last || i == 0) ensures !before[path[i]] {
        assert !done[path[i]];
      }
      if last > 0 {
        assert Link(out, fired0, path, last - 1);
        assert done[path[last]] <==> before[path[last]];
      }
      assert Stuck(out, mine, before, fired0, path);
    }
    forall path | Stuck(out, mine, before, fired0, path) && path[0] == v ensures !done[v] {
      StuckStays(out, mine, before, fired0, log, path, |log|);
      assert log[..|log|] == log;
    }
  }

  /** An edge from a node that was activated before it was made: its target is never activated. */
  lemma LateEdge(out: seq<seq<nat>>, mine: set<nat>, done: seq<bool>, fired: seq<nat>, u: nat, v: nat)
    requires Open(out, fired, u, v) && |done| == |out| && done[u] && v < |out| && !done[v]
    ensures Unreachable(out, mine, done, fired, v)
  {
    assert Link(out, fired, [v, u], 0);
    assert Stuck(out, mine, done, fired, [v, u]);
  }
}
