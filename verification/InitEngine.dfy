/** The engines that run the initialisation graph. */
module InitEngine {
  import opened InitGraph

  class Engines {
    var owner: seq<nat>
    var nodes: seq<seq<nat>>
    var out: seq<seq<nat>>
    var wanted: seq<bool>
    var done: seq<bool>
    var unsatisfied: seq<nat>
    var pending: seq<nat>
    ghost var fired: seq<nat>

    ghost function Mine(e: nat): set<nat>
      reads `nodes
      requires e < |nodes|
    {
      set v | v in nodes[e]
    }

    ghost predicate NodeOk(v: nat)
      reads `owner, `nodes, `out
    {
      && v < |owner| && v < |out| && owner[v] < |nodes| && v in nodes[owner[v]]
      && forall k {:trigger out[v][k]} | 0 <= k < |out[v]| :: out[v][k] < |out|
    }

    /** The nodes of an engine, in the order in which they were made. */
    ghost predicate ListOk(e: nat)
      reads `owner, `nodes
    {
      && e < |nodes|
      && (forall k {:trigger nodes[e][k]} | 0 <= k < |nodes[e]| :: nodes[e][k] < |owner| && owner[nodes[e][k]] == e)
      && forall j, k | 0 <= j < k < |nodes[e]| :: nodes[e][j] < nodes[e][k]
    }

    ghost predicate Shape()
      reads `owner, `nodes, `out, `wanted, `done, `unsatisfied
    {
      && |owner| == |out| == |wanted| == |done| == |unsatisfied|
      && (forall v: nat {:trigger NodeOk(v)} | v < |out| :: NodeOk(v))
      && forall e: nat {:trigger ListOk(e)} | e < |nodes| :: ListOk(e)
    }

    /** `unsatisfied` counts the open edges. */
    ghost predicate CountOk(v: nat)
      reads `out, `fired, `unsatisfied
    {
      v < |unsatisfied| && |out| == |fired| && unsatisfied[v] == Incoming(out, fired, v, |out|)
    }

    ghost predicate Counted()
      reads `out, `done, `unsatisfied, `fired
    {
      && |unsatisfied| == |out| && AllFired(out, done, fired)
      && forall v: nat {:trigger CountOk(v)} | v < |out| :: CountOk(v)
    }

    /** Between runs: nothing is pending, and whatever was wanted is done. */
    ghost predicate Ready()
      reads this
    {
      Shape() && Counted() && pending == [] && forall v: nat {:trigger wanted[v]} | v < |wanted| ::
          wanted[v] ==> done[v]
    }

    constructor (engines: nat)
      ensures Ready() && |nodes| == engines && out == []
    {
      owner, nodes, out, wanted, done, unsatisfied, pending := [], seq(engines, _ => []), [], [], [], [], [];
      fired := [];
    }

    /** `realise_node` */
    method RealiseNode(e: nat) returns (v: nat)
      requires Ready() && e < |nodes|
      modifies this
      ensures Ready() && v == |old(out)| && out == old(out) + [[]] && done == old(done) + [false]
              && fired == old(fired) + [0]
      ensures |nodes| == |old(nodes)| && owner == old(owner) + [e]
    {
      v := |out|;
      forall u: nat | u < v ensures Incoming(out + [[]], fired + [0], u, v + 1) == unsatisfied[u] {
        assert CountOk(u);
        IncomingSame(out, fired, u, v);
      }
      forall u: nat, k: nat {:trigger out[u][k]} | u < |out| && k < |out[u]| ensures out[u][k] < v {
        assert NodeOk(u);
      }
      NewNode(out, done, fired, v);
      assert forall u: nat | u < v :: NodeOk(u);
      assert forall f: nat | f < |nodes| :: ListOk(f);
      owner, nodes := owner + [e], nodes[e := nodes[e] + [v]];
      FiredGrows(out, done, fired);
      out, wanted, done, unsatisfied := out + [[]], wanted + [false], done + [false], unsatisfied + [0];
      fired := fired + [0];
      forall u: nat {:trigger NodeOk(u)} | u < |out| ensures NodeOk(u) {
        assert u < v ==> old(NodeOk(u));
      }
      forall f: nat {:trigger ListOk(f)} | f < |nodes| ensures ListOk(f) {
        assert old(ListOk(f));
      }
    }

    /** `realise_edge`. From a node that has been activated already, the edge stays open for ever. */
    method RealiseEdge(u: nat, v: nat)
      requires Ready() && u < |out| && v < |out|
      modifies `out, `unsatisfied
      ensures Ready() && out == old(out)[u := old(out)[u] + [v]] && Open(out, fired, u, v)
    {
      forall w: nat | w < |out|
        ensures Incoming(out[u := out[u] + [v]], fired, w, |out|) == unsatisfied[w] + if w == v then 1 else 0
      {
        assert CountOk(w) && FiredOk(out, done, fired, u);
        IncomingGrows(out, fired, u, v, w, |out|);
      }
      assert NodeOk(u);
      EdgeGrows(out, done, fired, u, v);
      out, unsatisfied := out[u := out[u] + [v]], unsatisfied[v := unsatisfied[v] + 1];
      forall w: nat {:trigger NodeOk(w)} | w < |out| ensures NodeOk(w) {
        assert old(NodeOk(w));
      }
      assert forall e: nat | e < |nodes| :: old(ListOk(e)) ==> ListOk(e);
    }

    // ----- a run

    /** During a run of the engine with the nodes `mine`: what is in the queue. */
    ghost predicate Queued(v: nat)
      reads `wanted, `done, `unsatisfied, `pending
    {
      && v < |wanted| == |done| == |unsatisfied|
      && multiset(pending)[v] == if wanted[v] && !done[v] && unsatisfied[v] == 0 then 1 else 0
    }

    ghost predicate QueueOk()
      reads `wanted, `done, `unsatisfied, `pending
    {
      && |wanted| == |done| == |unsatisfied|
      && (forall v: nat {:trigger Queued(v)} | v < |wanted| :: Queued(v))
      && forall k {:trigger pending[k]} | 0 <= k < |pending| :: pending[k] < |wanted|
    }

    ghost predicate WantedOk(mine: set<nat>)
      reads `wanted, `done
    {
      |wanted| == |done| && forall v: nat {:trigger wanted[v]} | v < |wanted| ::
        if v in mine then wanted[v] else wanted[v] ==> done[v]
    }

    /** The first loop of `run`. */
    method Want(e: nat)
      requires Ready() && e < |nodes|
      modifies `wanted
      ensures Shape() && WantedOk(Mine(e)) && |wanted| == |old(wanted)|
    {
      assert ListOk(e);
      for k := 0 to |nodes[e]|
        invariant |wanted| == |old(wanted)|
        invariant forall v: nat {:trigger wanted[v]} | v < |wanted| ::
                    wanted[v] == (old(wanted)[v] || v in nodes[e][..k])
      {
        assert nodes[e][..k + 1] == nodes[e][..k] + [nodes[e][k]];
        wanted := wanted[nodes[e][k] := true];
      }
      assert nodes[e][..|nodes[e]|] == nodes[e];
      assert forall v: nat | v < |out| :: old(NodeOk(v)) ==> NodeOk(v);
      assert forall f: nat | f < |nodes| :: old(ListOk(f)) ==> ListOk(f);
    }

    /** The second loop: the nodes that wait for nothing. */
    method Start(e: nat)
      requires Shape() && Counted() && pending == [] && e < |nodes| && WantedOk(Mine(e))
      modifies `pending
      ensures QueueOk()
    {
      assert ListOk(e);
      for k := 0 to |nodes[e]|
        invariant forall j {:trigger pending[j]} | 0 <= j < |pending| :: pending[j] < |wanted|
        invariant forall v: nat {:trigger multiset(pending)[v]} | v < |wanted| ::
                    multiset(pending)[v] == if v in nodes[e][..k] && !done[v] && unsatisfied[v] == 0 then 1 else 0
      {
        var v := nodes[e][k];
        assert nodes[e][..k + 1] == nodes[e][..k] + [v];
        assert v in Mine(e) && wanted[v];
        if !wanted[v] || done[v] {
          continue;
        }
        if unsatisfied[v] == 0 {
          pending := pending + [v];
        }
      }
      assert nodes[e][..|nodes[e]|] == nodes[e];
      forall v: nat | v < |wanted| ensures Queued(v) {
        assert v in Mine(e) <==> v in nodes[e];
      }
    }

    /** The edges of a node that has just been activated. */
    method Release(current: nat)
      requires Shape() && current < |out| && QueueOk() && AllFired(out, done, fired)
      requires forall v: nat {:trigger unsatisfied[v]} | v < |out| ::
                 unsatisfied[v] == Incoming(out, fired, v, |out|) + Mult(out[current], 0, v)
      modifies `unsatisfied, `pending
      ensures Shape() && Counted() && QueueOk()
    {
      assert NodeOk(current);
      for k := 0 to |out[current]|
        invariant |unsatisfied| == |out| && QueueOk()
        invariant forall v: nat {:trigger unsatisfied[v]} | v < |out| ::
                    unsatisfied[v] == Incoming(out, fired, v, |out|) + Mult(out[current], k, v)
      {
        var successor := out[current][k];
        assert unsatisfied[successor] != 0;
        ghost var was := pending;
        assert Queued(successor);
        label before:
        unsatisfied := unsatisfied[successor := unsatisfied[successor] - 1];
        if wanted[successor] && !done[successor] && unsatisfied[successor] == 0 {
          pending := pending + [successor];
        }
        forall v: nat | v < |wanted| ensures Queued(v) {
          assert old@before(Queued(v));
        }
      }
      forall v: nat | v < |out| ensures CountOk(v) {
        assert unsatisfied[v] == Incoming(out, fired, v, |out|);
      }
      assert forall v: nat | v < |out| :: old(NodeOk(v)) ==> NodeOk(v);
      assert forall e: nat | e < |nodes| :: old(ListOk(e)) ==> ListOk(e);
    }

    /** The body of the main loop. */
    method Activate(ghost mine: set<nat>, ghost before: seq<bool>, ghost fired0: seq<nat>, log: seq<nat>)
      returns (log': seq<nat>)
      requires Shape() && Counted() && QueueOk() && WantedOk(mine) && pending != []
      requires InOrder(out, mine, before, fired0, log) && After(out, before, fired0, log, done, fired)
      modifies `done, `unsatisfied, `pending, `fired
      ensures Shape() && Counted() && QueueOk() && WantedOk(mine)
      ensures InOrder(out, mine, before, fired0, log') && After(out, before, fired0, log', done, fired)
      ensures Undone(done, |done|) < Undone(old(done), |old(done)|)
    {
      var current := pending[0];
      assert pending == [current] + pending[1..] && multiset(pending)[current] >= 1;
      assert Queued(current);
      assert wanted[current] && !done[current];
      assert CountOk(current);
      assert FiredOk(out, done, fired, current);
      IncomingZero(out, done, fired, current, |out|);
      log' := log + [current];
      OrderGrows(out, mine, before, fired0, log, done, fired, current);
      UndoneDrops(done, current, |done|);
      forall v: nat | v < |out|
        ensures unsatisfied[v] == Incoming(out, fired[current := |out[current]|], v, |out|) + Mult(out[current], 0, v)
      {
        assert CountOk(v);
        IncomingDrops(out, fired, current, v, |out|);
      }
      FiredNow(out, done, fired, current);
      pending := pending[1..];
      done := done[current := true];
      fired := fired[current := |out[current]|];
      forall v: nat | v < |wanted| ensures Queued(v) {
        assert old(Queued(v));
      }
      assert forall v: nat | v < |out| :: old(NodeOk(v)) ==> NodeOk(v);
      assert forall e: nat | e < |nodes| :: old(ListOk(e)) ==> ListOk(e);
      Release(current);
    }

    /** `run`: the nodes that were activated, in order, and those that it reports as unreached; if there are any, the
        kernel panics. */
    method Run(e: nat) returns (log: seq<nat>, unreached: seq<nat>)
      requires Ready() && e < |nodes|
      modifies `wanted, `done, `unsatisfied, `pending, `fired
      ensures Shape() && Counted() && Mine(e) == old(Mine(e))
      ensures InOrder(out, Mine(e), old(done), old(fired), log)
      ensures After(out, old(done), old(fired), log, done, fired) && Exhausted(out, Mine(e), done, fired)
      ensures forall v: nat :: v in unreached <==>
                v in Mine(e) && v < |out| && Unreachable(out, Mine(e), old(done), old(fired), v)
      ensures unreached == [] ==> Ready()
    {
      ghost var mine, before, fired0 := Mine(e), done, fired;
      assert forall v: nat | v < |out| :: CountOk(v);
      Want(e);
      assert forall v: nat | v < |out| :: old(CountOk(v)) ==> CountOk(v);
      Start(e);
      log := [];
      while pending != []
        invariant Shape() && Counted() && QueueOk() && WantedOk(mine)
        invariant InOrder(out, mine, before, fired0, log) && After(out, before, fired0, log, done, fired)
        decreases Undone(done, |done|)
      {
        log := Activate(mine, before, fired0, log);
      }
      unreached := [];
      for k := 0 to |nodes[e]|
        invariant forall v :: v in unreached <==> v in nodes[e][..k] && v < |done| && !done[v]
      {
        var v := nodes[e][k];
        assert ListOk(e) && nodes[e][..k + 1] == nodes[e][..k] + [v];
        assert v in mine && wanted[v];
        if !wanted[v] || done[v] {
          continue;
        }
        unreached := unreached + [v];
      }
      assert ListOk(e) && nodes[e][..|nodes[e]|] == nodes[e];
      forall v: nat {:trigger done[v]} | v < |out| && v in mine && !done[v]
        ensures exists u: nat :: Open(out, fired, u, v)
      {
        assert wanted[v] && Queued(v) && CountOk(v);
        IncomingZero(out, done, fired, v, |out|);
      }
      forall v: nat ensures v in unreached <==> v in mine && v < |out| && Unreachable(out, mine, before, fired0, v) {
        if v < |out| && v in mine {
          LeftOver(out, mine, before, fired0, log, done, fired, v);
        }
      }
    }
  }

  lemma {:induction false} IncomingSame(out: seq<seq<nat>>, fired: seq<nat>, v: nat, n: nat)
    requires n <= |out| == |fired|
    ensures Incoming(out + [[]], fired + [0], v, n) == Incoming(out, fired, v, n)
    ensures n == |out| ==> Incoming(out + [[]], fired + [0], v, n + 1) == Incoming(out, fired, v, n)
  {
    if n != 0 {
      IncomingSame(out, fired, v, n - 1);
    }
    if n == |out| {
      assert Mult([], 0, v) == 0;
    }
  }

  lemma FiredGrows(out: seq<seq<nat>>, done: seq<bool>, fired: seq<nat>)
    requires AllFired(out, done, fired)
    ensures AllFired(out + [[]], done + [false], fired + [0])
  {
    forall u: nat | u < |out| + 1 ensures FiredOk(out + [[]], done + [false], fired + [0], u) {
      assert u < |out| ==> FiredOk(out, done, fired, u);
    }
  }

  lemma EdgeGrows(out: seq<seq<nat>>, done: seq<bool>, fired: seq<nat>, u: nat, v: nat)
    requires AllFired(out, done, fired) && u < |out|
    ensures AllFired(out[u := out[u] + [v]], done, fired) && Open(out[u := out[u] + [v]], fired, u, v)
  {
    var out' := out[u := out[u] + [v]];
    forall w: nat | w < |out| ensures FiredOk(out', done, fired, w) {
      assert FiredOk(out, done, fired, w);
    }
    assert FiredOk(out, done, fired, u) && out'[u][fired[u]..][|out[u]| - fired[u]] == v;
  }

  lemma FiredNow(out: seq<seq<nat>>, done: seq<bool>, fired: seq<nat>, c: nat)
    requires AllFired(out, done, fired) && c < |out|
    ensures AllFired(out, done[c := true], fired[c := |out[c]|])
  {
    var done', fired' := done[c := true], fired[c := |out[c]|];
    forall u: nat | u < |out| ensures FiredOk(out, done', fired', u) {
      assert FiredOk(out, done, fired, u);
    }
  }

  /** Nothing leads to a new node, as all edges lead to older ones. */
  lemma NewNode(out: seq<seq<nat>>, done: seq<bool>, fired: seq<nat>, v: nat)
    requires AllFired(out, done, fired) && v == |out|
    requires forall u: nat, k: nat {:trigger out[u][k]} | u < |out| && k < |out[u]| :: out[u][k] < v
    ensures Incoming(out + [[]], fired + [0], v, v + 1) == 0
  {
    FiredGrows(out, done, fired);
    IncomingZero(out + [[]], done + [false], fired + [0], v, v + 1);
  }

  lemma OrderGrows(out: seq<seq<nat>>, mine: set<nat>, before: seq<bool>, fired0: seq<nat>, log: seq<nat>,
                   done: seq<bool>, fired: seq<nat>, c: nat)
    requires InOrder(out, mine, before, fired0, log) && After(out, before, fired0, log, done, fired)
    requires c < |out| && c in mine && !done[c]
    requires forall u: nat {:trigger Open(out, fired, u, c)} | u < |out| :: !Open(out, fired, u, c)
    ensures InOrder(out, mine, before, fired0, log + [c])
    ensures After(out, before, fired0, log + [c], done[c := true], fired[c := |out[c]|])
  {
    var log' := log + [c];
    forall i: nat, u: nat {:trigger Open(out, fired0, u, log'[i])} | i < |log'| && Open(out, fired0, u, log'[i])
      ensures u in log'[..i]
    {
      if i < |log| {
        assert log'[..i] == log[..i] && Open(out, fired0, u, log[i]);
      } else {
        assert log'[..i] == log && !Open(out, fired, u, c);
      }
    }
  }
}
