/**
 * Walks between edge-adjacent cells inside a region, reachability and
 * shortest-walk distance: the graph notions the floods and the BFS sweeps
 * of the metrics and topology checks are proved against.
 */
module Walks {
  import opened Grid

  /** Step i of p goes to an edge-neighbour. */
  predicate Step(p: seq<Cell>, i: int)
    requires 0 <= i < |p| - 1
  {
    Adjacent(p[i], p[i + 1])
  }

  /** A non-empty sequence of cells of r, each step going to an edge-neighbour. */
  ghost predicate Walk(p: seq<Cell>, r: set<Cell>) {
    && |p| >= 1
    && (forall i :: 0 <= i < |p| ==> p[i] in r)
    && (forall i :: 0 <= i < |p| - 1 ==> Step(p, i))
  }

  ghost predicate WalkFromTo(p: seq<Cell>, r: set<Cell>, a: Cell, b: Cell) {
    Walk(p, r) && p[0] == a && p[|p| - 1] == b
  }

  /** v can be reached inside r, starting from some member of src. */
  ghost predicate Reachable(r: set<Cell>, src: set<Cell>, v: Cell) {
    exists p :: Walk(p, r) && p[0] in src && p[|p| - 1] == v
  }

  /** Some walk inside r leads from a to b in at most d steps. */
  ghost predicate WithinSteps(r: set<Cell>, a: Cell, b: Cell, d: nat) {
    exists p :: WalkFromTo(p, r, a, b) && |p| <= d + 1
  }

  /** The shortest walk inside r from a to b takes exactly d steps. */
  ghost predicate IsDistance(r: set<Cell>, a: Cell, b: Cell, d: nat) {
    && (exists p :: WalkFromTo(p, r, a, b) && |p| == d + 1)
    && (forall p :: WalkFromTo(p, r, a, b) ==> |p| >= d + 1)
  }

  /** Every edge-neighbour of u that lies in r lies in v. */
  ghost predicate ClosedAt(v: set<Cell>, r: set<Cell>, u: Cell) {
    forall j :: 0 <= j < 4 && Neighbors4(u)[j] in r ==> Neighbors4(u)[j] in v
  }

  /**
   * Stepping from a member of v to a neighbour inside r never leaves v.
   * (The trigger keeps the solver from chasing neighbours of neighbours.)
   */
  ghost predicate ClosedIn(v: set<Cell>, r: set<Cell>) {
    forall u {:trigger ClosedAt(v, r, u)} :: u in v ==> ClosedAt(v, r, u)
  }

  /** Every two members of s are joined by a walk inside s. */
  ghost predicate Connected(s: set<Cell>) {
    forall a, b :: a in s && b in s ==> Reachable(s, {a}, b)
  }

  lemma WalkExtend(p: seq<Cell>, r: set<Cell>, v: Cell)
    requires Walk(p, r) && v in r && Adjacent(p[|p| - 1], v)
    ensures Walk(p + [v], r)
  {
    var t := p + [v];
    forall i | 0 <= i < |t| - 1 ensures Step(t, i) {
      if i < |p| - 1 {
        assert Step(p, i);
      }
    }
  }

  lemma WalkSingle(r: set<Cell>, v: Cell)
    requires v in r
    ensures WalkFromTo([v], r, v, v)
  {
  }

  /** One more step from a reachable cell stays reachable. */
  lemma ReachStep(r: set<Cell>, src: set<Cell>, u: Cell, v: Cell)
    requires Reachable(r, src, u) && v in r && Adjacent(u, v)
    ensures Reachable(r, src, v)
  {
    var p :| Walk(p, r) && p[0] in src && p[|p| - 1] == u;
    WalkExtend(p, r, v);
    assert (p + [v])[0] == p[0];
  }

  lemma ReachSource(r: set<Cell>, src: set<Cell>, s: Cell)
    requires s in src && s in r
    ensures Reachable(r, src, s)
  {
    WalkSingle(r, s);
  }

  /** A walk that starts in a closed set stays in it. */
  lemma {:induction false} WalkStaysInClosed(p: seq<Cell>, r: set<Cell>, v: set<Cell>)
    requires Walk(p, r) && p[0] in v && ClosedIn(v, r)
    ensures forall i :: 0 <= i < |p| ==> p[i] in v
  {
    var i := 0;
    while i < |p| - 1
      invariant 0 <= i <= |p| - 1
      invariant forall k :: 0 <= k <= i ==> p[k] in v
    {
      assert Step(p, i) && ClosedAt(v, r, p[i]);
      var j :| 0 <= j < 4 && Neighbors4(p[i])[j] == p[i + 1];
      i := i + 1;
    }
  }

  /** A closed set holding every source in r holds everything reachable from them. */
  lemma ClosedHoldsReachable(r: set<Cell>, src: set<Cell>, vis: set<Cell>, v: Cell)
    requires forall s :: s in src && s in r ==> s in vis
    requires ClosedIn(vis, r)
    requires Reachable(r, src, v)
    ensures v in vis
  {
    var p :| Walk(p, r) && p[0] in src && p[|p| - 1] == v;
    WalkStaysInClosed(p, r, vis);
  }

  function Reverse(p: seq<Cell>): (q: seq<Cell>)
    ensures |q| == |p| && forall i :: 0 <= i < |p| ==> q[i] == p[|p| - 1 - i]
  {
    seq(|p|, i requires 0 <= i < |p| => p[|p| - 1 - i])
  }

  lemma ReverseWalk(p: seq<Cell>, r: set<Cell>, a: Cell, b: Cell)
    requires WalkFromTo(p, r, a, b)
    ensures WalkFromTo(Reverse(p), r, b, a)
  {
    var q := Reverse(p);
    forall i | 0 <= i < |q| - 1 ensures Step(q, i) {
      assert Step(p, |p| - 2 - i);
      AdjacentSymmetric(p[|p| - 2 - i], p[|p| - 1 - i]);
    }
  }

  lemma WalkConcat(p: seq<Cell>, q: seq<Cell>, r: set<Cell>, a: Cell, b: Cell, c: Cell)
    requires WalkFromTo(p, r, a, b) && WalkFromTo(q, r, b, c)
    ensures WalkFromTo(p + q[1..], r, a, c) && |p + q[1..]| == |p| + |q| - 1
  {
    var t := p + q[1..];
    forall i | 0 <= i < |t| - 1 ensures Step(t, i) {
      if i < |p| - 1 {
        assert Step(p, i);
      } else if i == |p| - 1 {
        assert Step(q, 0);
        assert t[i] == q[0] && t[i + 1] == q[1];
      } else {
        assert Step(q, i - |p| + 1);
        assert t[i] == q[i - |p| + 1] && t[i + 1] == q[i - |p| + 2];
      }
    }
  }

  /** Distance does not depend on the direction of travel. */
  lemma DistanceSymmetric(r: set<Cell>, a: Cell, b: Cell, d: nat)
    requires IsDistance(r, a, b, d)
    ensures IsDistance(r, b, a, d)
  {
    var p :| WalkFromTo(p, r, a, b) && |p| == d + 1;
    ReverseWalk(p, r, a, b);
    forall q | WalkFromTo(q, r, b, a) ensures |q| >= d + 1 {
      ReverseWalk(q, r, b, a);
    }
  }

  /** A walk witnessing that b is reachable from the single source a. */
  lemma WalkOfReachable(r: set<Cell>, a: Cell, b: Cell) returns (p: seq<Cell>)
    requires Reachable(r, {a}, b)
    ensures WalkFromTo(p, r, a, b)
  {
    p :| Walk(p, r) && p[0] in {a} && p[|p| - 1] == b;
  }

  /** A walk takes at least as many steps as the Manhattan distance between its ends. */
  lemma {:induction false} WalkAtLeastManhattan(p: seq<Cell>, r: set<Cell>)
    requires Walk(p, r)
    ensures |p| - 1 >= Manhattan(p[0], p[|p| - 1])
    decreases |p|
  {
    if |p| > 1 {
      var q := p[1..];
      forall i | 0 <= i < |q| - 1
        ensures Step(q, i)
      {
        assert Step(p, i + 1);
      }
      WalkAtLeastManhattan(q, r);
      assert Step(p, 0);
      AdjacentIffUnitDistance(p[0], p[1]);
    }
  }

  /** Reaching b from a within d steps takes at least their Manhattan distance. */
  lemma WithinStepsAtLeastManhattan(r: set<Cell>, a: Cell, b: Cell, d: nat)
    requires WithinSteps(r, a, b, d)
    ensures d >= Manhattan(a, b)
  {
    var p :| WalkFromTo(p, r, a, b) && |p| <= d + 1;
    WalkAtLeastManhattan(p, r);
  }

  /** A walk from a to b witnesses that b is reachable from a. */
  lemma WitnessReach(p: seq<Cell>, r: set<Cell>, a: Cell, b: Cell)
    requires WalkFromTo(p, r, a, b)
    ensures Reachable(r, {a}, b)
  {
    assert p[0] in {a};
  }

  /** If everything in s is reachable from one member, s is connected. */
  lemma ConnectedFromOne(s: set<Cell>, start: Cell)
    requires start in s
    requires forall v :: v in s ==> Reachable(s, {start}, v)
    ensures Connected(s)
  {
    forall a, b | a in s && b in s ensures Reachable(s, {a}, b) {
      var p := WalkOfReachable(s, start, a);
      var q := WalkOfReachable(s, start, b);
      ReverseWalk(p, s, start, a);
      WalkConcat(Reverse(p), q, s, a, start, b);
      WitnessReach(Reverse(p) + q[1..], s, a, b);
    }
  }
}
