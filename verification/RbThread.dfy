/** The successor/predecessor thread, the cached head and the order of the keys, on the in-order walk. */
module RbThread {
  import opened RbEdit
  import opened RbShape

  ghost predicate Within(q: seq<nat>, n: nat) {
    forall i | 0 <= i < |q| :: 0 < q[i] < n
  }

  /** q has no item twice: `pos` tells where each one is. */
  ghost predicate Ranked(q: seq<nat>, pos: seq<int>) {
    Within(q, |pos|) && forall i | 0 <= i < |q| :: pos[q[i]] == i
  }

  ghost function Item(q: seq<nat>, i: int): nat {
    if 0 <= i < |q| then q[i] else 0
  }

  /** Following `link` from an item of q leads `step` positions on, and to nil past the ends. */
  ghost predicate Runs(q: seq<nat>, link: seq<nat>, step: int)
    requires Within(q, |link|)
  {
    forall i {:trigger link[q[i]]} | 0 <= i < |q| :: link[q[i]] == Item(q, i + step)
  }

  /** The thread runs through q in both directions, and `head` is where it starts. */
  ghost predicate Threaded(q: seq<nat>, successor: seq<nat>, predecessor: seq<nat>, head: nat) {
    && |successor| == |predecessor|
    && Within(q, |successor|)
    && Runs(q, successor, 1)
    && Runs(q, predecessor, -1)
    && head == Item(q, 0)
  }

  ghost predicate Sorted(q: seq<nat>, key: seq<int>) {
    && Within(q, |key|)
    && forall i, j {:trigger key[q[i]], key[q[j]]} | 0 <= i < j < |q| :: key[q[i]] <= key[q[j]]
  }

  /** Where an item of key k belongs: behind every item whose key is not greater. */
  function Place(q: seq<nat>, key: seq<int>, k: int): (p: nat)
    requires Within(q, |key|)
    ensures p <= |q|
    ensures forall i | 0 <= i < p :: key[q[i]] <= k
    ensures p < |q| ==> key[q[p]] > k
  {
    PlaceFrom(q, key, k, 0)
  }

  function PlaceFrom(q: seq<nat>, key: seq<int>, k: int, from: nat): (p: nat)
    requires Within(q, |key|) && from <= |q|
    ensures from <= p <= |q|
    ensures forall i | from <= i < p :: key[q[i]] <= k
    ensures p < |q| ==> key[q[p]] > k
    decreases |q| - from
  {
    if from == |q| || key[q[from]] > k then from else PlaceFrom(q, key, k, from + 1)
  }

  lemma PlaceSorted(q: seq<nat>, key: seq<int>, k: int)
    requires Sorted(q, key)
    ensures forall i | 0 <= i < |q| :: i < Place(q, key, k) <==> key[q[i]] <= k
  {
  }

  ghost predicate InsertedAt(q: seq<nat>, q': seq<nat>, p: nat, z: nat) {
    && |q'| == |q| + 1 && p <= |q|
    && forall i {:trigger q'[i]} | 0 <= i < |q'| :: q'[i] == if i < p then q[i] else if i == p then z else q[i - 1]
  }

  ghost predicate DeletedAt(q: seq<nat>, q': seq<nat>, p: nat) {
    && |q'| == |q| - 1 && p < |q|
    && forall i {:trigger q'[i]} | 0 <= i < |q'| :: q'[i] == if i < p then q[i] else q[i + 1]
  }

  lemma InsertWithin(q: seq<nat>, n: nat, p: nat, z: nat)
    requires Within(q, n) && p <= |q| && 0 < z < n
    ensures Within(Inserted(q, p, z), n) && InsertedAt(q, Inserted(q, p, z), p, z)
  {
  }

  lemma DeleteWithin(q: seq<nat>, n: nat, p: nat)
    requires Within(q, n) && p < |q|
    ensures Within(Deleted(q, p), n) && DeletedAt(q, Deleted(q, p), p)
  {
  }

  lemma InsertSorted(q: seq<nat>, key: seq<int>, z: nat)
    requires Sorted(q, key) && 0 < z < |key|
    ensures Sorted(Inserted(q, Place(q, key, key[z]), z), key)
  {
    PlaceSorted(q, key, key[z]);
    InsertWithin(q, |key|, Place(q, key, key[z]), z);
  }

  lemma DeleteSorted(q: seq<nat>, key: seq<int>, p: nat)
    requires Sorted(q, key) && p < |q|
    ensures Sorted(Deleted(q, p), key)
  {
    DeleteWithin(q, |key|, p);
  }

  /** `link` now leads from `before` to `after` by way of z. */
  ghost predicate LinkedIn(link: seq<nat>, link': seq<nat>, before: nat, z: nat, after: nat) {
    && |link'| == |link| && 0 < z < |link|
    && (forall u | 0 < u < |link| ::
          link'[u] == if u == z then after else if u == before then z else link[u])
  }

  /** `link` now leads from `before` to `after`, past z. */
  ghost predicate LinkedOut(link: seq<nat>, link': seq<nat>, before: nat, z: nat, after: nat) {
    && |link'| == |link| && 0 < z < |link|
    && (forall u | 0 < u < |link| && u != z :: link'[u] == if u == before then after else link[u])
  }

  lemma InsertRuns(q: seq<nat>, q': seq<nat>, pos: seq<int>, pos': seq<int>, link: seq<nat>, link': seq<nat>,
                   p: nat, z: nat, step: int)
    requires step == 1 || step == -1
    requires Ranked(q, pos) && Ranked(q', pos') && |pos| == |pos'| == |link|
    requires InsertedAt(q, q', p, z) && Runs(q, link, step)
    requires if step == 1 then LinkedIn(link, link', Item(q, p - 1), z, Item(q, p))
             else LinkedIn(link, link', Item(q, p), z, Item(q, p - 1))
    ensures Runs(q', link', step)
  {
    forall i | 0 <= i < |q'| ensures link'[q'[i]] == Item(q', i + step) {
      if i < p {
        assert q'[i] == q[i] && Item(q, i + step) == link[q[i]] && q'[p] == z;
      } else if i > p {
        assert q'[i] == q[i - 1] && Item(q, i - 1 + step) == link[q[i - 1]] && q'[p] == z;
      }
    }
  }

  lemma DeleteRuns(q: seq<nat>, q': seq<nat>, pos: seq<int>, link: seq<nat>, link': seq<nat>,
                   p: nat, step: int)
    requires step == 1 || step == -1
    requires Ranked(q, pos) && Within(q', |link|) && |pos| == |link| && DeletedAt(q, q', p) && Runs(q, link, step)
    requires LinkedOut(link, link', Item(q, p - step), q[p], Item(q, p + step))
    ensures Runs(q', link', step)
  {
    forall i | 0 <= i < |q'| ensures link'[q'[i]] == Item(q', i + step) {
      if i < p {
        assert q'[i] == q[i] && Item(q, i + step) == link[q[i]];
      } else {
        assert q'[i] == q[i + 1] && Item(q, i + 1 + step) == link[q[i + 1]];
      }
    }
  }

  lemma InsertThreaded(s: Shape, z: nat, p: nat, su: seq<nat>, su': seq<nat>, pr: seq<nat>, pr': seq<nat>, head: nat)
    requires Positions(s) && |su| == |s.pos| == |s.lo| == |s.hi| && 0 < z < |s.pos| && !In(s, z) && p <= |s.order|
    requires Threaded(s.order, su, pr, head)
    requires LinkedIn(su, su', Item(s.order, p - 1), z, Item(s.order, p))
    requires LinkedIn(pr, pr', Item(s.order, p), z, Item(s.order, p - 1))
    ensures Threaded(Inserted(s.order, p, z), su', pr', if p == 0 then z else head)
  {
    var s' := Grow(s, z, 0, p);
    LinkKeepsPositions(s, s', z, 0, p);
    InsertWithin(s.order, |s.pos|, p, z);
    InsertRuns(s.order, s'.order, s.pos, s'.pos, su, su', p, z, 1);
    InsertRuns(s.order, s'.order, s.pos, s'.pos, pr, pr', p, z, -1);
  }

  lemma DeleteThreaded(s: Shape, p: nat, su: seq<nat>, su': seq<nat>, pr: seq<nat>, pr': seq<nat>, head: nat)
    requires Positions(s) && |su| == |s.pos| && p < |s.order|
    requires Threaded(s.order, su, pr, head)
    requires LinkedOut(su, su', Item(s.order, p - 1), s.order[p], Item(s.order, p + 1))
    requires LinkedOut(pr, pr', Item(s.order, p + 1), s.order[p], Item(s.order, p - 1))
    ensures Threaded(Deleted(s.order, p), su', pr', if p == 0 then Item(s.order, 1) else head)
  {
    DeleteWithin(s.order, |s.pos|, p);
    DeleteRuns(s.order, Deleted(s.order, p), s.pos, su, su', p, 1);
    DeleteRuns(s.order, Deleted(s.order, p), s.pos, pr, pr', p, -1);
  }
}
