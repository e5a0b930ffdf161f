/**
 * The labelling facts behind the breadth-first sweeps of approxDiameter4
 * (src/metrics.js): the shape of the queue and its distance map while a
 * sweep runs, and why the labels of a finished sweep are walk distances.
 */
module Sweeps {
  import opened Grid
  import opened Walks

  /** u is labelled, and so is each claimed neighbour of u, at most one more. */
  ghost predicate RelaxedAt(s: set<Cell>, dist: map<Cell, nat>, u: Cell) {
    && u in dist
    && forall j :: 0 <= j < 4 && Neighbors4(u)[j] in s ==>
         Neighbors4(u)[j] in dist && dist[Neighbors4(u)[j]] <= dist[u] + 1
  }

  /** Every labelled cell is relaxed (the trigger stops the solver chasing neighbours). */
  ghost predicate Relaxed(dist: map<Cell, nat>, s: set<Cell>) {
    forall u {:trigger RelaxedAt(s, dist, u)} :: u in dist ==> RelaxedAt(s, dist, u)
  }

  /** Along any walk from a cell labelled 0, labels grow by at most one per step. */
  lemma {:induction false} WalkRespectsLabels(s: set<Cell>, dist: map<Cell, nat>, p: seq<Cell>)
    requires Walk(p, s) && p[0] in dist && dist[p[0]] == 0 && Relaxed(dist, s)
    ensures forall i :: 0 <= i < |p| ==> p[i] in dist && dist[p[i]] <= i
  {
    var i := 0;
    while i < |p| - 1
      invariant 0 <= i <= |p| - 1
      invariant forall k :: 0 <= k <= i ==> p[k] in dist && dist[p[k]] <= k
    {
      assert Step(p, i) && RelaxedAt(s, dist, p[i]);
      var j :| 0 <= j < 4 && Neighbors4(p[i])[j] == p[i + 1];
      i := i + 1;
    }
  }

  /** Some walk inside s from src to v takes exactly n steps. */
  ghost predicate HasPath(s: set<Cell>, src: Cell, v: Cell, n: nat) {
    exists p :: WalkFromTo(p, s, src, v) && |p| == n + 1
  }

  lemma HasPathStep(s: set<Cell>, src: Cell, u: Cell, v: Cell, n: nat)
    requires HasPath(s, src, u, n) && v in s && Adjacent(u, v)
    ensures HasPath(s, src, v, n + 1)
  {
    var p :| WalkFromTo(p, s, src, u) && |p| == n + 1;
    WalkExtend(p, s, v);
    assert WalkFromTo(p + [v], s, src, v);
  }

  /**
   * The state of the BFS queue q of approxDiameter4: it starts at src
   * (labelled 0), every entry is labelled, every label belongs to a claimed
   * cell found at its position pos in q, there are as many labels as queue
   * entries, labels stay below the queue length, and each label is the
   * length of a walk from src.
   */
  ghost predicate Queue(s: set<Cell>, src: Cell, q: seq<Cell>, dist: map<Cell, nat>, pos: map<Cell, nat>) {
    && |q| >= 1 && q[0] == src && src in dist && dist[src] == 0 && |dist| == |q|
    && (forall i :: 0 <= i < |q| ==> q[i] in dist)
    && (forall v :: v in dist ==> v in s && v in pos && pos[v] < |q| && q[pos[v]] == v && dist[v] < |q|)
    && (forall v {:trigger HasPath(s, src, v, dist[v])} :: v in dist ==> HasPath(s, src, v, dist[v]))
  }

  /** The first h queue entries have had all their claimed neighbours labelled. */
  ghost predicate RelaxedUpTo(s: set<Cell>, q: seq<Cell>, dist: map<Cell, nat>, h: int) {
    forall i {:trigger RelaxedAt(s, dist, q[i])} :: 0 <= i < h && i < |q| ==> RelaxedAt(s, dist, q[i])
  }

  /** Appending an unlabelled claimed neighbour of cur, labelled one more than cur, keeps the queue well formed. */
  lemma QueuePush(s: set<Cell>, src: Cell, q: seq<Cell>, dist: map<Cell, nat>,
                  pos: map<Cell, nat>, cur: Cell, nk: Cell)
    requires Queue(s, src, q, dist, pos) && cur in dist && nk in s && nk !in dist && Adjacent(cur, nk)
    ensures Queue(s, src, q + [nk], dist[nk := dist[cur] + 1], pos[nk := |q|])
  {
    HasPathStep(s, src, cur, nk, dist[cur]);
    var q' := q + [nk];
    assert forall i :: 0 <= i < |q| ==> q'[i] == q[i];
    assert q'[|q|] == nk;
  }

  /** Labelling a fresh cell does not disturb the relaxation facts of earlier queue entries. */
  lemma RelaxedExtend(s: set<Cell>, q: seq<Cell>, dist: map<Cell, nat>, h: int, nk: Cell, n: nat)
    requires RelaxedUpTo(s, q, dist, h) && nk !in dist && h <= |q|
    ensures RelaxedUpTo(s, q + [nk], dist[nk := n], h)
  {
    var q' := q + [nk];
    forall i | 0 <= i < h ensures RelaxedAt(s, dist[nk := n], q'[i]) {
      assert q'[i] == q[i] && RelaxedAt(s, dist, q[i]);
    }
  }

  /**
   * The breadth-first layering of a sweep: besides the queue state, the
   * unprocessed entries from qHead to mid carry the level m, those after
   * mid carry m + 1, and no label exceeds m + 1.
   */
  ghost predicate Layered(s: set<Cell>, src: Cell, q: seq<Cell>, dist: map<Cell, nat>, pos: map<Cell, nat>,
                          qHead: int, m: nat, mid: int) {
    && Queue(s, src, q, dist, pos) && 0 <= qHead <= mid <= |q|
    && (forall i :: qHead <= i < mid ==> dist[q[i]] == m)
    && (forall i :: mid <= i < |q| ==> dist[q[i]] == m + 1)
    && (forall v :: v in dist ==> dist[v] <= m + 1)
  }

  /**
   * The state of the neighbour loop once the first j neighbours nb of cur,
   * the entry just taken from the queue (at qHead - 1, level m), have been
   * visited: the layering holds, the entries before cur are relaxed, and
   * every visited claimed neighbour is labelled.
   */
  ghost predicate Visiting(s: set<Cell>, src: Cell, q: seq<Cell>, dist: map<Cell, nat>, pos: map<Cell, nat>,
                           qHead: int, m: nat, mid: int, cur: Cell, nb: seq<Cell>, j: int) {
    && Layered(s, src, q, dist, pos, qHead, m, mid)
    && 1 <= qHead && q[qHead - 1] == cur && cur in dist && dist[cur] == m
    && RelaxedUpTo(s, q, dist, qHead - 1)
    && (forall jj :: 0 <= jj < j && jj < |nb| && nb[jj] in s ==> nb[jj] in dist)
  }

  lemma VisitingStart(s: set<Cell>, src: Cell, q: seq<Cell>, dist: map<Cell, nat>, pos: map<Cell, nat>,
                      qHead: int, m: nat, mid: int, nb: seq<Cell>)
    requires Layered(s, src, q, dist, pos, qHead - 1, m, mid) && 1 <= qHead <= mid
    requires RelaxedUpTo(s, q, dist, qHead - 1)
    ensures Visiting(s, src, q, dist, pos, qHead, m, mid, q[qHead - 1], nb, 0)
  {
  }

  /** The claimed, unlabelled neighbour nb[j] of cur is labelled m + 1 and queued at the back. */
  lemma VisitingPush(s: set<Cell>, src: Cell, q: seq<Cell>, dist: map<Cell, nat>, pos: map<Cell, nat>,
                     qHead: int, m: nat, mid: int, cur: Cell, nb: seq<Cell>, j: int)
    requires 0 <= j < |nb| && Adjacent(cur, nb[j]) && nb[j] in s && nb[j] !in dist
    requires Visiting(s, src, q, dist, pos, qHead, m, mid, cur, nb, j)
    ensures Visiting(s, src, q + [nb[j]], dist[nb[j] := m + 1], pos[nb[j] := |q|], qHead, m, mid, cur, nb, j + 1)
  {
    var nk := nb[j];
    QueuePush(s, src, q, dist, pos, cur, nk);
    RelaxedExtend(s, q, dist, qHead - 1, nk, m + 1);
    var q' := q + [nk];
    assert forall i :: 0 <= i < |q| ==> q'[i] == q[i];
  }

  /** A neighbour that is unclaimed or already labelled changes nothing. */
  lemma VisitingSkip(s: set<Cell>, src: Cell, q: seq<Cell>, dist: map<Cell, nat>, pos: map<Cell, nat>,
                     qHead: int, m: nat, mid: int, cur: Cell, nb: seq<Cell>, j: int)
    requires 0 <= j < |nb| && (nb[j] !in s || nb[j] in dist)
    requires Visiting(s, src, q, dist, pos, qHead, m, mid, cur, nb, j)
    ensures Visiting(s, src, q, dist, pos, qHead, m, mid, cur, nb, j + 1)
  {
  }

  /** Once all four neighbours of cur are visited, cur is relaxed too. */
  lemma VisitingDone(s: set<Cell>, src: Cell, q: seq<Cell>, dist: map<Cell, nat>, pos: map<Cell, nat>,
                     qHead: int, m: nat, mid: int, cur: Cell)
    requires Visiting(s, src, q, dist, pos, qHead, m, mid, cur, Neighbors4(cur), 4)
    ensures RelaxedUpTo(s, q, dist, qHead)
  {
    forall i | 0 <= i < qHead ensures RelaxedAt(s, dist, q[i]) {
      if i < qHead - 1 {
        assert RelaxedAt(s, dist, q[i]);
      }
    }
  }

  /** When the last entry of level m has been processed, the entries after it form level m + 1. */
  lemma LevelUp(s: set<Cell>, src: Cell, q: seq<Cell>, dist: map<Cell, nat>, pos: map<Cell, nat>,
                qHead: int, m: nat)
    requires Layered(s, src, q, dist, pos, qHead, m, qHead)
    ensures Layered(s, src, q, dist, pos, qHead, m + 1, |q|)
  {
  }

  /** A farthest label of a finished sweep is a distance, the eccentricity of src. */
  lemma FarthestLabel(s: set<Cell>, src: Cell, q: seq<Cell>, dist: map<Cell, nat>,
                      pos: map<Cell, nat>, far: Cell)
    requires Queue(s, src, q, dist, pos) && |q| <= |s| && Relaxed(dist, s)
    requires far in dist && forall v :: v in dist ==> dist[v] <= dist[far]
    ensures IsDistance(s, src, far, dist[far])
    ensures forall v :: Reachable(s, {src}, v) ==> WithinSteps(s, src, v, dist[far])
    ensures dist[far] <= |s| - 1
  {
    forall p | WalkFromTo(p, s, src, far) ensures |p| >= dist[far] + 1 {
      WalkRespectsLabels(s, dist, p);
    }
    assert HasPath(s, src, far, dist[far]);
    forall v | Reachable(s, {src}, v) ensures WithinSteps(s, src, v, dist[far]) {
      ClosedFromRelaxed(dist, s);
      ClosedHoldsReachable(s, {src}, dist.Keys, v);
      assert HasPath(s, src, v, dist[v]);
    }
  }

  lemma ClosedFromRelaxed(dist: map<Cell, nat>, s: set<Cell>)
    requires Relaxed(dist, s)
    ensures ClosedIn(dist.Keys, s)
  {
    forall u | u in dist.Keys ensures ClosedAt(dist.Keys, s, u) {
      assert RelaxedAt(s, dist, u);
    }
  }

  /** If a is at distance e from start and every cell reachable from a is within dm of it, e <= dm. */
  lemma EccentricityBound(s: set<Cell>, start: Cell, a: Cell, e: int, dm: int)
    requires e >= 0 && dm >= 0 && IsDistance(s, start, a, e)
    requires forall v :: Reachable(s, {a}, v) ==> WithinSteps(s, a, v, dm)
    requires forall v :: Reachable(s, {start}, v) ==> WithinSteps(s, start, v, e)
    ensures forall v :: Reachable(s, {start}, v) ==> WithinSteps(s, start, v, dm)
  {
    var p :| WalkFromTo(p, s, start, a) && |p| == e + 1;
    ReverseWalk(p, s, start, a);
    assert Reverse(p)[0] in {a};
    assert Reachable(s, {a}, start);
    var r :| WalkFromTo(r, s, a, start) && |r| <= dm + 1;
    ReverseWalk(r, s, a, start);
    assert e <= dm;
    forall v | Reachable(s, {start}, v) ensures WithinSteps(s, start, v, dm) {
      assert WithinSteps(s, start, v, e);
    }
  }
}
