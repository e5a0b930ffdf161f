/**
 * The topology checks behind the claim rules (src/rules.js): 4-connectivity
 * of the claimed set, the exterior flood fill that finds enclosed holes, the
 * arm-length walk from a new endpoint, and the claimed/available counts in
 * the 8- and 24-cell neighbourhoods of a cell.
 */
module Topology {
  import opened Grid
  import opened Sums
  import opened Walks
  import opened Metrics

  // ---------------------------------------------------------------------------
  // Queue floods (shared by the connectivity check and the hole search)

  /**
   * The state of a queue flood through the region r from the sources src:
   * every visited cell lies in r, was reached from src, and sits at its
   * position pos in the queue q; the first qHead queue entries have had all
   * their neighbours in r visited.
   */
  ghost predicate Flood(r: set<Cell>, src: set<Cell>, q: seq<Cell>, visited: set<Cell>,
                        pos: map<Cell, nat>, qHead: int) {
    && 0 <= qHead <= |q| && visited <= r
    && (forall i :: 0 <= i < |q| ==> q[i] in visited)
    && (forall v :: v in visited ==> v in pos && pos[v] < |q| && q[pos[v]] == v)
    && (forall v {:trigger Reachable(r, src, v)} :: v in visited ==> Reachable(r, src, v))
    && (forall i {:trigger ClosedAt(visited, r, q[i])} :: 0 <= i < qHead ==> ClosedAt(visited, r, q[i]))
  }

  /**
   * The neighbour loop of a flood after the first j neighbours of cur, the
   * entry just taken from the queue (at qHead - 1), have been tried.
   */
  ghost predicate Expanding(r: set<Cell>, src: set<Cell>, q: seq<Cell>, visited: set<Cell>,
                            pos: map<Cell, nat>, qHead: int, cur: Cell, j: int) {
    && 1 <= qHead <= |q| && Flood(r, src, q, visited, pos, qHead - 1) && q[qHead - 1] == cur
    && (forall jj :: 0 <= jj < j && jj < 4 && Neighbors4(cur)[jj] in r ==> Neighbors4(cur)[jj] in visited)
  }

  /** Visiting a fresh cell of r that is reachable from src keeps the flood well formed. */
  lemma FloodPush(r: set<Cell>, src: set<Cell>, q: seq<Cell>, visited: set<Cell>,
                  pos: map<Cell, nat>, h: int, nk: Cell)
    requires Flood(r, src, q, visited, pos, h) && nk in r && nk !in visited && Reachable(r, src, nk)
    ensures Flood(r, src, q + [nk], visited + {nk}, pos[nk := |q|], h)
  {
    var q', v' := q + [nk], visited + {nk};
    assert forall i :: 0 <= i < |q| ==> q'[i] == q[i];
    assert q'[|q|] == nk;
    forall i | 0 <= i < h ensures ClosedAt(v', r, q'[i]) {
      assert q'[i] == q[i] && ClosedAt(visited, r, q[i]);
    }
  }

  /** A neighbour in r of the entry being expanded is reachable from src. */
  lemma ExpandReach(r: set<Cell>, src: set<Cell>, q: seq<Cell>, visited: set<Cell>,
                    pos: map<Cell, nat>, qHead: int, cur: Cell, j: int)
    requires Expanding(r, src, q, visited, pos, qHead, cur, j) && 0 <= j < 4
    ensures Neighbors4(cur)[j] in r ==> Reachable(r, src, Neighbors4(cur)[j])
  {
    assert cur in visited && Reachable(r, src, cur);
    if Neighbors4(cur)[j] in r {
      ReachStep(r, src, cur, Neighbors4(cur)[j]);
    }
  }

  /** Trying neighbour j of cur (pushing it or not) moves the neighbour loop on by one. */
  lemma ExpandAfter(r: set<Cell>, src: set<Cell>, q: seq<Cell>, visited: set<Cell>, pos: map<Cell, nat>,
                    q': seq<Cell>, visited': set<Cell>, pos': map<Cell, nat>, qHead: int, cur: Cell, j: int)
    requires Expanding(r, src, q, visited, pos, qHead, cur, j) && 0 <= j < 4
    requires Flood(r, src, q', visited', pos', qHead - 1) && visited <= visited'
    requires q' == q || q' == q + [Neighbors4(cur)[j]]
    requires Neighbors4(cur)[j] in r ==> Neighbors4(cur)[j] in visited'
    ensures Expanding(r, src, q', visited', pos', qHead, cur, j + 1)
  {
    if q' != q {
      assert q'[qHead - 1] == q[qHead - 1];
    }
  }

  /** Once all four neighbours of cur have been tried, cur counts as expanded. */
  lemma ExpandDone(r: set<Cell>, src: set<Cell>, q: seq<Cell>, visited: set<Cell>,
                   pos: map<Cell, nat>, qHead: int, cur: Cell)
    requires Expanding(r, src, q, visited, pos, qHead, cur, 4)
    ensures Flood(r, src, q, visited, pos, qHead)
  {
    assert ClosedAt(visited, r, cur);
    forall i | 0 <= i < qHead ensures ClosedAt(visited, r, q[i]) {
      if i < qHead - 1 {
        assert ClosedAt(visited, r, q[i]);
      }
    }
  }

  /** A finished flood is closed under stepping inside r. */
  lemma FloodClosed(r: set<Cell>, src: set<Cell>, q: seq<Cell>, visited: set<Cell>, pos: map<Cell, nat>)
    requires Flood(r, src, q, visited, pos, |q|)
    ensures ClosedIn(visited, r)
  {
    forall u | u in visited ensures ClosedAt(visited, r, u) {
      assert ClosedAt(visited, r, q[pos[u]]);
    }
  }

  /** A finished flood that holds every source in r visits exactly the cells reachable from them. */
  lemma FloodComplete(r: set<Cell>, src: set<Cell>, q: seq<Cell>, visited: set<Cell>, pos: map<Cell, nat>)
    requires Flood(r, src, q, visited, pos, |q|)
    requires forall c :: c in src && c in r ==> c in visited
    ensures forall v :: v in visited <==> Reachable(r, src, v)
  {
    FloodClosed(r, src, q, visited, pos);
    forall v | Reachable(r, src, v) ensures v in visited {
      ClosedHoldsReachable(r, src, visited, v);
    }
  }

  // ---------------------------------------------------------------------------
  // rules.isConnected4

  /** Sets of at most one cell are connected. */
  lemma SmallConnected(s: set<Cell>)
    requires |s| <= 1
    ensures Connected(s)
  {
    if s != {} {
      var a :| a in s;
      assert s == {a} by {
        forall b | b in s ensures b == a {
          if b != a {
            assert {a, b} <= s;
            CardSubset({a, b}, s);
          }
        }
      }
      ReachSource(s, {a}, a);
    }
  }

  lemma SubsetSameCard(a: set<Cell>, b: set<Cell>)
    requires a <= b
    ensures |a| == |b| <==> a == b
  {
    assert b == a + (b - a);
  }

  /** The flood from start decides connectivity: it visits everything iff s is connected. */
  lemma FloodDecidesConnected(s: set<Cell>, start: Cell, q: seq<Cell>, visited: set<Cell>, pos: map<Cell, nat>)
    requires start in s && start in visited && Flood(s, {start}, q, visited, pos, |q|)
    ensures visited == s <==> Connected(s)
  {
    FloodComplete(s, {start}, q, visited, pos);
    if visited == s {
      forall v | v in s ensures Reachable(s, {start}, v) {
        assert v in visited;
      }
      ConnectedFromOne(s, start);
    }
    if Connected(s) {
      forall v | v in s ensures v in visited {
        assert Reachable(s, {start}, v);
      }
    }
  }

  /** The neighbour loop of isConnected4 for the entry cur just taken from the queue. */
  method ExpandConnected(s: set<Cell>, ghost start: Cell, q: seq<Cell>, visited: set<Cell>,
                         ghost pos: map<Cell, nat>, qHead: int, cur: Cell)
    returns (q': seq<Cell>, visited': set<Cell>, ghost pos': map<Cell, nat>)
    requires 1 <= qHead <= |q| && Flood(s, {start}, q, visited, pos, qHead - 1) && q[qHead - 1] == cur
    ensures Flood(s, {start}, q', visited', pos', qHead)
    ensures visited <= visited' && |q'| >= |q| && |visited'| - |visited| == |q'| - |q|
  {
    var nb := Neighbors4(cur);
    q', visited', pos' := q, visited, pos;
    for j := 0 to 4
      invariant Expanding(s, {start}, q', visited', pos', qHead, cur, j)
      invariant visited <= visited' && |q'| >= |q| && |visited'| - |visited| == |q'| - |q|
    {
      var nk := nb[j];
      if nk in s && nk !in visited' {
        ExpandReach(s, {start}, q', visited', pos', qHead, cur, j);
        FloodPush(s, {start}, q', visited', pos', qHead - 1, nk);
        ExpandAfter(s, {start}, q', visited', pos', q' + [nk], visited' + {nk}, pos'[nk := |q'|], qHead, cur, j);
        visited', q', pos' := visited' + {nk}, q' + [nk], pos'[nk := |q'|];
      } else {
        ExpandAfter(s, {start}, q', visited', pos', q', visited', pos', qHead, cur, j);
      }
    }
    ExpandDone(s, {start}, q', visited', pos', qHead, cur);
  }

  /**
   * rules.isConnected4: true for at most one cell; otherwise a flood from
   * some claimed cell, connected iff it visits as many cells as are claimed.
   */
  method IsConnected4(s: set<Cell>) returns (r: bool)
    ensures r <==> Connected(s)
  {
    if |s| <= 1 {
      SmallConnected(s);
      return true;
    }
    var start :| start in s;
    var visited := {start};
    var q := [start];
    ghost var pos := map[start := 0];
    ReachSource(s, {start}, start);
    var qHead := 0;
    while qHead < |q|
      invariant Flood(s, {start}, q, visited, pos, qHead) && start in visited
      decreases |s| - |visited|, |q| - qHead
    {
      var cur := q[qHead];
      qHead := qHead + 1;
      q, visited, pos := ExpandConnected(s, start, q, visited, pos, qHead, cur);
      CardSubset(visited, s);
    }
    FloodDecidesConnected(s, start, q, visited, pos);
    SubsetSameCard(visited, s);
    r := |visited| == |s|;
  }

  // ---------------------------------------------------------------------------
  // Holes: rules.hasHoles4 and rules.holeCells4

  /** The bounding box grown by one cell on every side. */
  function Grow(b: Bounds): Bounds {
    Box(b.minX - 1, b.maxX + 1, b.minZ - 1, b.maxZ + 1)
  }

  /** The unclaimed cells of the box g. */
  ghost function Open(s: set<Cell>, g: Bounds): set<Cell> {
    set x, z | g.minX <= x <= g.maxX && g.minZ <= z <= g.maxZ && Cell(x, z) !in s :: Cell(x, z)
  }

  predicate OnFrame(g: Bounds, c: Cell) {
    InBox(g, c) && (c.x == g.minX || c.x == g.maxX || c.z == g.minZ || c.z == g.maxZ)
  }

  /** The outermost ring of cells of the box g, where the exterior flood starts. */
  ghost function Frame(g: Bounds): set<Cell> {
    set x, z | g.minX <= x <= g.maxX && g.minZ <= z <= g.maxZ &&
               (x == g.minX || x == g.maxX || z == g.minZ || z == g.maxZ) :: Cell(x, z)
  }

  lemma OpenMember(s: set<Cell>, g: Bounds, c: Cell)
    ensures c in Open(s, g) <==> InBox(g, c) && c !in s
  {
    if InBox(g, c) && c !in s {
      assert c == Cell(c.x, c.z);
    }
  }

  lemma FrameMember(g: Bounds, c: Cell)
    ensures c in Frame(g) <==> OnFrame(g, c)
  {
    if OnFrame(g, c) {
      assert c == Cell(c.x, c.z);
    }
  }

  /** The unclaimed cells of g reachable from its frame through unclaimed cells of g. */
  ghost function Exterior(s: set<Cell>, g: Bounds): set<Cell> {
    set c | c in Open(s, g) && Reachable(Open(s, g), Frame(g), c)
  }

  /**
   * The hole cells of s: the unclaimed cells of the bounding box grown by
   * one that the exterior flood cannot reach. None for the empty set.
   */
  ghost function Holes(s: set<Cell>): set<Cell> {
    if s == {} then {} else
      var g := Grow(BoundsOf(s).value);
      Open(s, g) - Exterior(s, g)
  }

  /** An unclaimed frame cell is an exterior seed, reachable from the frame. */
  lemma SeedReach(s: set<Cell>, g: Bounds, c: Cell)
    requires OnFrame(g, c)
    ensures InBox(g, c) && c !in s ==> Reachable(Open(s, g), Frame(g), c)
  {
    FrameMember(g, c);
    OpenMember(s, g, c);
    if c !in s {
      ReachSource(Open(s, g), Frame(g), c);
    }
  }

  /** The tryPush helper of the hole flood: visit (x, z) if it is in the box, unclaimed and new. */
  method TryPush(s: set<Cell>, g: Bounds, q: seq<Cell>, visited: set<Cell>, ghost pos: map<Cell, nat>,
                 ghost qHead: int, c: Cell)
    returns (q': seq<Cell>, visited': set<Cell>, ghost pos': map<Cell, nat>)
    requires Flood(Open(s, g), Frame(g), q, visited, pos, qHead)
    requires InBox(g, c) && c !in s ==> Reachable(Open(s, g), Frame(g), c)
    ensures Flood(Open(s, g), Frame(g), q', visited', pos', qHead)
    ensures visited' == (if InBox(g, c) && c !in s && c !in visited then visited + {c} else visited)
    ensures q' == (if InBox(g, c) && c !in s && c !in visited then q + [c] else q)
  {
    q', visited', pos' := q, visited, pos;
    if !InBox(g, c) {
      return;
    }
    if c in s || c in visited {
      return;
    }
    OpenMember(s, g, c);
    FloodPush(Open(s, g), Frame(g), q, visited, pos, qHead, c);
    visited' := visited + {c};
    q' := q + [c];
    pos' := pos[c := |q|];
  }

  /** One pass of the neighbour loop of the hole flood: try neighbour j of cur. */
  method TryNeighbour(s: set<Cell>, g: Bounds, q: seq<Cell>, visited: set<Cell>,
                      ghost pos: map<Cell, nat>, qHead: int, cur: Cell, j: int)
    returns (q': seq<Cell>, visited': set<Cell>, ghost pos': map<Cell, nat>)
    requires 0 <= j < 4 && Expanding(Open(s, g), Frame(g), q, visited, pos, qHead, cur, j)
    ensures Expanding(Open(s, g), Frame(g), q', visited', pos', qHead, cur, j + 1)
    ensures visited <= visited' && |q'| >= |q| && |visited'| - |visited| == |q'| - |q|
  {
    var nb := Neighbors4(cur);
    ExpandReach(Open(s, g), Frame(g), q, visited, pos, qHead, cur, j);
    OpenMember(s, g, nb[j]);
    q', visited', pos' := TryPush(s, g, q, visited, pos, qHead - 1, nb[j]);
    ExpandAfter(Open(s, g), Frame(g), q, visited, pos, q', visited', pos', qHead, cur, j);
  }

  /** The neighbour loop of the hole flood for the entry cur just taken from the queue. */
  method ExpandExterior(s: set<Cell>, g: Bounds, q: seq<Cell>, visited: set<Cell>,
                        ghost pos: map<Cell, nat>, qHead: int, cur: Cell)
    returns (q': seq<Cell>, visited': set<Cell>, ghost pos': map<Cell, nat>)
    requires 1 <= qHead <= |q| && Flood(Open(s, g), Frame(g), q, visited, pos, qHead - 1) && q[qHead - 1] == cur
    ensures Flood(Open(s, g), Frame(g), q', visited', pos', qHead)
    ensures visited <= visited' && |q'| >= |q| && |visited'| - |visited| == |q'| - |q|
  {
    q', visited', pos' := q, visited, pos;
    for j := 0 to 4
      invariant Expanding(Open(s, g), Frame(g), q', visited', pos', qHead, cur, j)
      invariant visited <= visited' && |q'| >= |q| && |visited'| - |visited| == |q'| - |q|
    {
      q', visited', pos' := TryNeighbour(s, g, q', visited', pos', qHead, cur, j);
    }
    ExpandDone(Open(s, g), Frame(g), q', visited', pos', qHead, cur);
  }

  /** Every unclaimed frame cell with x < bound on the bottom and top rows has been visited. */
  ghost predicate RowsSeeded(s: set<Cell>, g: Bounds, visited: set<Cell>, bound: int) {
    forall c :: InBox(g, c) && c !in s && c.x < bound && (c.z == g.minZ || c.z == g.maxZ) ==> c in visited
  }

  /** Every unclaimed frame cell with z < bound on the left and right columns has been visited. */
  ghost predicate ColumnsSeeded(s: set<Cell>, g: Bounds, visited: set<Cell>, bound: int) {
    forall c :: InBox(g, c) && c !in s && c.z < bound && (c.x == g.minX || c.x == g.maxX) ==> c in visited
  }

  /** The first seeding loop of the hole flood: the bottom and top rows of g. */
  method SeedRows(s: set<Cell>, g: Bounds) returns (q: seq<Cell>, visited: set<Cell>, ghost pos: map<Cell, nat>)
    requires g.minX <= g.maxX && g.minZ <= g.maxZ
    ensures Flood(Open(s, g), Frame(g), q, visited, pos, 0)
    ensures RowsSeeded(s, g, visited, g.maxX + 1)
  {
    visited, q, pos := {}, [], map[];
    for x := g.minX to g.maxX + 1
      invariant Flood(Open(s, g), Frame(g), q, visited, pos, 0)
      invariant RowsSeeded(s, g, visited, x)
    {
      SeedReach(s, g, Cell(x, g.minZ));
      q, visited, pos := TryPush(s, g, q, visited, pos, 0, Cell(x, g.minZ));
      SeedReach(s, g, Cell(x, g.maxZ));
      q, visited, pos := TryPush(s, g, q, visited, pos, 0, Cell(x, g.maxZ));
    }
  }

  /** The second seeding loop of the hole flood: the left and right columns of g. */
  method SeedColumns(s: set<Cell>, g: Bounds, q: seq<Cell>, visited: set<Cell>, ghost pos: map<Cell, nat>)
    returns (q': seq<Cell>, visited': set<Cell>, ghost pos': map<Cell, nat>)
    requires g.minX <= g.maxX && g.minZ <= g.maxZ && Flood(Open(s, g), Frame(g), q, visited, pos, 0)
    ensures Flood(Open(s, g), Frame(g), q', visited', pos', 0)
    ensures visited <= visited' && ColumnsSeeded(s, g, visited', g.maxZ + 1)
  {
    q', visited', pos' := q, visited, pos;
    for z := g.minZ to g.maxZ + 1
      invariant Flood(Open(s, g), Frame(g), q', visited', pos', 0)
      invariant visited <= visited' && ColumnsSeeded(s, g, visited', z)
    {
      SeedReach(s, g, Cell(g.minX, z));
      q', visited', pos' := TryPush(s, g, q', visited', pos', 0, Cell(g.minX, z));
      SeedReach(s, g, Cell(g.maxX, z));
      q', visited', pos' := TryPush(s, g, q', visited', pos', 0, Cell(g.maxX, z));
    }
  }

  /** The queue loop of the hole flood: expand entries until the queue is drained. */
  method DrainExterior(s: set<Cell>, g: Bounds, q: seq<Cell>, visited: set<Cell>, ghost pos: map<Cell, nat>)
    returns (q': seq<Cell>, visited': set<Cell>, ghost pos': map<Cell, nat>)
    requires Flood(Open(s, g), Frame(g), q, visited, pos, 0)
    ensures Flood(Open(s, g), Frame(g), q', visited', pos', |q'|)
    ensures visited <= visited'
  {
    q', visited', pos' := q, visited, pos;
    var qHead := 0;
    while qHead < |q'|
      invariant Flood(Open(s, g), Frame(g), q', visited', pos', qHead)
      invariant visited <= visited'
      decreases |Open(s, g)| - |visited'|, |q'| - qHead
    {
      var cur := q'[qHead];
      qHead := qHead + 1;
      q', visited', pos' := ExpandExterior(s, g, q', visited', pos', qHead, cur);
      CardSubset(visited', Open(s, g));
    }
  }

  /** A drained hole flood seeded with the whole frame has visited exactly the exterior. */
  lemma FloodIsExterior(s: set<Cell>, g: Bounds, q: seq<Cell>, visited: set<Cell>, pos: map<Cell, nat>)
    requires Flood(Open(s, g), Frame(g), q, visited, pos, |q|)
    requires RowsSeeded(s, g, visited, g.maxX + 1) && ColumnsSeeded(s, g, visited, g.maxZ + 1)
    ensures visited == Exterior(s, g)
  {
    forall c | c in Frame(g) && c in Open(s, g) ensures c in visited {
      FrameMember(g, c);
      OpenMember(s, g, c);
    }
    FloodComplete(Open(s, g), Frame(g), q, visited, pos);
    forall c ensures c in visited <==> c in Exterior(s, g) {
      if Reachable(Open(s, g), Frame(g), c) {
        var p :| Walk(p, Open(s, g)) && p[0] in Frame(g) && p[|p| - 1] == c;
      }
    }
  }

  /**
   * The flood shared by hasHoles4 and holeCells4: seed with the unclaimed
   * cells of the frame of g, then flood through the unclaimed cells of g.
   * Afterwards visited is exactly the exterior.
   */
  method ExteriorFlood(s: set<Cell>, g: Bounds) returns (visited: set<Cell>)
    requires g.minX <= g.maxX && g.minZ <= g.maxZ
    ensures visited == Exterior(s, g)
  {
    var q, v0, pos := SeedRows(s, g);
    var q1, v1, pos1 := SeedColumns(s, g, q, v0, pos);
    var q2, v2, pos2 := DrainExterior(s, g, q1, v1, pos1);
    assert RowsSeeded(s, g, v2, g.maxX + 1) && ColumnsSeeded(s, g, v2, g.maxZ + 1);
    FloodIsExterior(s, g, q2, v2, pos2);
    visited := v2;
  }

  /** metrics.computeBounds followed by the growth by one of hasHoles4 and holeCells4. */
  method GrownBounds(s: set<Cell>) returns (g: Bounds)
    requires s != {}
    ensures g == Grow(BoundsOf(s).value) && g.minX <= g.maxX && g.minZ <= g.maxZ
  {
    var bounds := ComputeBounds(s);
    BoundsShape(bounds.value, s);
    g := Grow(bounds.value);
  }

  /** The unclaimed, unflooded cells of the box g in the columns before x. */
  ghost predicate HolesBefore(s: set<Cell>, g: Bounds, visited: set<Cell>, holes: set<Cell>, x: int) {
    forall c :: c in holes <==> InBox(g, c) && c.x < x && c !in s && c !in visited
  }

  /** One column of the hole collection in rules.holeCells4. */
  method CollectColumn(s: set<Cell>, g: Bounds, visited: set<Cell>, holes: set<Cell>, x: int)
    returns (holes': set<Cell>)
    requires g.minZ <= g.maxZ && g.minX <= x <= g.maxX
    requires HolesBefore(s, g, visited, holes, x)
    ensures HolesBefore(s, g, visited, holes', x + 1)
  {
    holes' := holes;
    for z := g.minZ to g.maxZ + 1
      invariant forall c :: c in holes' <==>
        InBox(g, c) && (c.x < x || (c.x == x && c.z < z)) && c !in s && c !in visited
    {
      var k0 := Cell(x, z);
      if k0 in s {
        continue;
      }
      if k0 !in visited {
        holes' := holes' + {k0};
      }
    }
  }

  /** rules.holeCells4: the unclaimed cells of the grown box that the exterior flood did not reach. */
  method HoleCells4(s: set<Cell>) returns (holes: set<Cell>)
    ensures holes == Holes(s)
  {
    holes := {};
    if |s| == 0 {
      return;
    }
    var g := GrownBounds(s);
    var visited := ExteriorFlood(s, g);
    for x := g.minX to g.maxX + 1
      invariant HolesBefore(s, g, visited, holes, x)
    {
      holes := CollectColumn(s, g, visited, holes, x);
    }
    forall c ensures c in holes <==> c in Holes(s) {
      OpenMember(s, g, c);
    }
  }

  /** Every unclaimed cell of the box g in the columns before x was flooded. */
  ghost predicate FloodedBefore(s: set<Cell>, g: Bounds, visited: set<Cell>, x: int) {
    forall c :: InBox(g, c) && c.x < x && c !in s ==> c in visited
  }

  /** One column of the scan in rules.hasHoles4: found means an unflooded open cell, a hole. */
  method FindHoleInColumn(s: set<Cell>, g: Bounds, visited: set<Cell>, x: int) returns (found: bool)
    requires s != {} && g == Grow(BoundsOf(s).value) && visited == Exterior(s, g)
    requires g.minZ <= g.maxZ && g.minX <= x <= g.maxX
    requires FloodedBefore(s, g, visited, x)
    ensures found ==> Holes(s) != {}
    ensures !found ==> FloodedBefore(s, g, visited, x + 1)
  {
    for z := g.minZ to g.maxZ + 1
      invariant forall c :: InBox(g, c) && (c.x < x || (c.x == x && c.z < z)) && c !in s ==> c in visited
    {
      var k0 := Cell(x, z);
      if k0 in s {
        continue;
      }
      if k0 !in visited {
        OpenMember(s, g, k0);
        assert k0 in Holes(s);
        return true;
      }
    }
    found := false;
  }

  /** rules.hasHoles4: whether some unclaimed cell of the grown box escaped the exterior flood. */
  method HasHoles4(s: set<Cell>) returns (r: bool)
    ensures r <==> Holes(s) != {}
  {
    if |s| == 0 {
      return false;
    }
    var g := GrownBounds(s);
    var visited := ExteriorFlood(s, g);
    for x := g.minX to g.maxX + 1
      invariant FloodedBefore(s, g, visited, x)
    {
      var found := FindHoleInColumn(s, g, visited, x);
      if found {
        return true;
      }
    }
    forall c | c in Holes(s) ensures false {
      OpenMember(s, g, c);
    }
    r := false;
  }


  /** An unclaimed cell of the grown box lies in the box itself or in the exterior. */
  lemma InnerOrExterior(s: set<Cell>, b: Bounds, c: Cell)
    requires InBox(Grow(b), c) && c !in s
    ensures InBox(b, c) || c in Exterior(s, Grow(b))
  {
    var g := Grow(b);
    if !InBox(b, c) {
      SeedReach(s, g, c);
      OpenMember(s, g, c);
    }
  }

  /** Holes are unclaimed cells inside the bounding box; the empty set has none. */
  lemma HolesInside(s: set<Cell>)
    ensures Holes({}) == {}
    ensures Holes(s) * s == {}
    ensures s != {} ==> forall c :: c in Holes(s) ==> InBox(BoundsOf(s).value, c)
  {
    if s != {} {
      var b := BoundsOf(s).value;
      forall c | c in Holes(s) ensures c !in s && InBox(b, c) {
        OpenMember(s, Grow(b), c);
        InnerOrExterior(s, b, c);
      }
    }
  }

  /** A set that fills its whole bounding box (a filled rectangle) has no holes. */
  lemma FilledRectangleHasNoHoles(s: set<Cell>)
    requires s != {} && forall c :: InBox(BoundsOf(s).value, c) ==> c in s
    ensures Holes(s) == {}
  {
    var b := BoundsOf(s).value;
    forall c | c in Holes(s) ensures false {
      OpenMember(s, Grow(b), c);
      InnerOrExterior(s, b, c);
    }
  }

  // ---------------------------------------------------------------------------
  // rules.armLengthFromEndpoint4

  /** The claimed cells of nb other than prev, in order: the filter of the arm walk. */
  function Ahead(s: set<Cell>, nb: seq<Cell>, prev: Option<Cell>): (r: seq<Cell>)
    ensures forall n :: n in r <==> n in nb && n in s && Some(n) != prev
    ensures |r| <= |nb|
  {
    if nb == [] then []
    else (if nb[0] in s && Some(nb[0]) != prev then [nb[0]] else []) + Ahead(s, nb[1..], prev)
  }

  /**
   * The arm walk from cur (having come from prev, with visited already seen
   * and len steps taken): stop at a seen cell, at a cell other than start
   * whose degree is not two, or where the way on is not unique; otherwise
   * step to the one claimed neighbour other than prev.
   */
  function ArmFrom(s: set<Cell>, start: Cell, cur: Cell, prev: Option<Cell>, visited: set<Cell>, len: nat): nat
    requires cur in s + {start}
    decreases (s + {start}) - visited
  {
    if cur in visited then len
    else
      var neigh := Ahead(s, Neighbors4(cur), prev);
      if Degree(s, cur) != 2 && cur != start then len
      else if |neigh| != 1 then len
      else ArmFrom(s, start, neigh[0], Some(cur), visited + {cur}, len + 1)
  }

  /** The length of the arm walk from start. */
  function Arm(s: set<Cell>, start: Cell): nat {
    ArmFrom(s, start, start, None, {}, 0)
  }

  /** The cell the walk p came from at step i. */
  function Prev(p: seq<Cell>, i: int): Option<Cell>
    requires 0 <= i < |p|
  {
    if i == 0 then None else Some(p[i - 1])
  }

  /** Step i of p is a step of the arm walk: from a cell of degree two (or the start cell) to its one way on. */
  ghost predicate ArmStep(s: set<Cell>, p: seq<Cell>, i: int)
    requires 0 <= i < |p| - 1
  {
    (p[i] == p[0] || Degree(s, p[i]) == 2) && Ahead(s, Neighbors4(p[i]), Prev(p, i)) == [p[i + 1]]
  }

  /**
   * p is a trace of the arm walk from start: after start every cell is
   * claimed, every cell left (other than start) has degree two, and every step goes
   * to the only claimed neighbour other than the previous cell.
   */
  ghost predicate ArmTrace(s: set<Cell>, start: Cell, p: seq<Cell>) {
    && |p| >= 1 && p[0] == start
    && (forall i :: 1 <= i < |p| ==> p[i] in s)
    && (forall i {:trigger ArmStep(s, p, i)} :: 0 <= i < |p| - 1 ==> ArmStep(s, p, i))
  }

  /** Taking the one way on from the last cell of a trace extends the trace. */
  lemma ArmExtend(s: set<Cell>, start: Cell, p: seq<Cell>, n: Cell)
    requires ArmTrace(s, start, p)
    requires p[|p| - 1] == start || Degree(s, p[|p| - 1]) == 2
    requires Ahead(s, Neighbors4(p[|p| - 1]), Prev(p, |p| - 1)) == [n]
    ensures ArmTrace(s, start, p + [n])
  {
    var t := p + [n];
    assert n in Ahead(s, Neighbors4(p[|p| - 1]), Prev(p, |p| - 1));
    forall i | 0 <= i < |t| - 1 ensures ArmStep(s, t, i) {
      if i < |p| - 1 {
        assert ArmStep(s, p, i);
        assert Prev(t, i) == Prev(p, i);
      }
    }
  }

  /** Every step of an arm trace goes to an edge-neighbour. */
  lemma ArmTraceAdjacent(s: set<Cell>, start: Cell, p: seq<Cell>)
    requires ArmTrace(s, start, p)
    ensures forall i :: 0 <= i < |p| - 1 ==> Adjacent(p[i], p[i + 1])
  {
    forall i | 0 <= i < |p| - 1 ensures Adjacent(p[i], p[i + 1]) {
      assert ArmStep(s, p, i);
      assert p[i + 1] in Ahead(s, Neighbors4(p[i]), Prev(p, i));
    }
  }

  /** The arm walk is at cur, having come from prev, len steps along the trace p from start. */
  ghost predicate ArmWalking(s: set<Cell>, start: Cell, cur: Cell, prev: Option<Cell>, visited: set<Cell>,
                             len: nat, p: seq<Cell>) {
    && cur in s + {start} && visited <= s + {start} && |visited| == len
    && ArmFrom(s, start, cur, prev, visited, len) == Arm(s, start)
    && ArmTrace(s, start, p) && |p| == len + 1 && p[len] == cur && prev == Prev(p, len)
  }

  /** Stepping to the one way on keeps the walk state. */
  lemma ArmWalkOn(s: set<Cell>, start: Cell, cur: Cell, prev: Option<Cell>, visited: set<Cell>,
                  len: nat, p: seq<Cell>)
    requires cur !in visited && ArmWalking(s, start, cur, prev, visited, len, p)
    requires cur == start || Degree(s, cur) == 2
    requires |Ahead(s, Neighbors4(cur), prev)| == 1
    ensures var n := Ahead(s, Neighbors4(cur), prev)[0];
      ArmWalking(s, start, n, Some(cur), visited + {cur}, len + 1, p + [n])
  {
    var neigh := Ahead(s, Neighbors4(cur), prev);
    var n := neigh[0];
    assert neigh == [n] && n in neigh;
    assert ArmFrom(s, start, cur, prev, visited, len) == ArmFrom(s, start, n, Some(cur), visited + {cur}, len + 1);
    ArmTraceOn(s, start, cur, len, p, n, p + [n]);
  }

  /** The trace of ArmWalkOn: appending the one way on keeps it a trace ending at n. */
  lemma ArmTraceOn(s: set<Cell>, start: Cell, cur: Cell, len: nat, p: seq<Cell>, n: Cell, t: seq<Cell>)
    requires ArmTrace(s, start, p) && |p| == len + 1 && p[len] == cur
    requires cur == start || Degree(s, cur) == 2
    requires Ahead(s, Neighbors4(cur), Prev(p, len)) == [n]
    requires t == p + [n]
    ensures ArmTrace(s, start, t) && |t| == len + 2 && t[len + 1] == n && Prev(t, len + 1) == Some(cur)
  {
    ArmExtend(s, start, p, n);
    assert t[len] == cur;
  }

  /** Where the walk stops, its length so far is the arm length. */
  lemma ArmStops(s: set<Cell>, start: Cell, cur: Cell, prev: Option<Cell>, visited: set<Cell>,
                 len: nat, p: seq<Cell>)
    requires cur !in visited && ArmWalking(s, start, cur, prev, visited, len, p)
    requires (Degree(s, cur) != 2 && cur != start) || |Ahead(s, Neighbors4(cur), prev)| != 1
    ensures len == Arm(s, start)
  {
  }

  /**
   * One pass of the loop of armLengthFromEndpoint4: mark cur visited, then
   * either stop (moved false; the walk's length is then len) or step on.
   */
  method ArmAdvance(s: set<Cell>, start: Cell, cur: Cell, prev: Option<Cell>, visited: set<Cell>,
                    len: nat, ghost p: seq<Cell>)
    returns (moved: bool, cur': Cell, prev': Option<Cell>, visited': set<Cell>, len': nat, ghost p': seq<Cell>)
    requires cur !in visited && ArmWalking(s, start, cur, prev, visited, len, p)
    ensures ArmWalking(s, start, cur', prev', visited', len', p')
    ensures moved ==> visited' == visited + {cur}
    ensures !moved ==> visited' == visited && len' == len && len == Arm(s, start)
  {
    var neigh := Ahead(s, Neighbors4(cur), prev);
    var deg := CountClaimedNeighbors4(s, cur);
    if (deg != 2 && cur != start) || |neigh| != 1 {
      ArmStops(s, start, cur, prev, visited, len, p);
      moved, cur', prev', visited', len', p' := false, cur, prev, visited, len, p;
    } else {
      ArmWalkOn(s, start, cur, prev, visited, len, p);
      moved, cur', prev', visited', len', p' := true, neigh[0], Some(cur), visited + {cur}, len + 1, p + [neigh[0]];
    }
  }

  /**
   * rules.armLengthFromEndpoint4. The visited set bounds the walk; the
   * ghost p is the walk taken, len steps along edge-adjacent claimed cells.
   */
  method ArmLengthFromEndpoint4(s: set<Cell>, start: Cell) returns (len: nat, ghost p: seq<Cell>)
    ensures len == Arm(s, start)
    ensures ArmTrace(s, start, p) && |p| == len + 1
    ensures forall i :: 0 <= i < len ==> Adjacent(p[i], p[i + 1])
    ensures len <= |s + {start}| && (start in s ==> len <= |s|)
  {
    var visited: set<Cell> := {};
    var cur := start;
    var prev: Option<Cell> := None;
    len := 0;
    p := [start];
    while cur !in visited
      invariant ArmWalking(s, start, cur, prev, visited, len, p)
      decreases (s + {start}) - visited
    {
      var moved;
      moved, cur, prev, visited, len, p := ArmAdvance(s, start, cur, prev, visited, len, p);
      if !moved {
        break;
      }
    }
    CardSubset(visited, s + {start});
    ArmTraceAdjacent(s, start, p);
    assert s + {start} == s || start !in s;
  }

  // ---------------------------------------------------------------------------
  // rules.countRing8AndRing24

  predicate InRing(c: Cell, r: int, d: Cell) {
    c.x - r <= d.x <= c.x + r && c.z - r <= d.z <= c.z + r && d != c
  }

  /** The cells of the (2r+1)-square centred on c, c itself left out. */
  ghost function Ring(c: Cell, r: int): set<Cell> {
    set x, z | c.x - r <= x <= c.x + r && c.z - r <= z <= c.z + r && Cell(x, z) != c :: Cell(x, z)
  }

  lemma RingMember(c: Cell, r: int, d: Cell)
    ensures d in Ring(c, r) <==> InRing(c, r, d)
  {
    if InRing(c, r, d) {
      assert d == Cell(d.x, d.z);
    }
  }

  /** An unclaimed cell with a claimed edge-neighbour: one the claim rule could accept. */
  predicate Frontier(s: set<Cell>, d: Cell) {
    d !in s && Degree(s, d) > 0
  }

  ghost function FrontierIn(s: set<Cell>, t: set<Cell>): set<Cell> {
    set d | d in t && Frontier(s, d)
  }

  /** Scanning one more cell d of the window adds it to the claimed or the available count. */
  lemma RingScanStep(s: set<Cell>, seen: set<Cell>, d: Cell)
    requires d !in seen
    ensures |(seen + {d}) * s| == |seen * s| + (if d in s then 1 else 0)
    ensures |FrontierIn(s, seen + {d})| == |FrontierIn(s, seen)| + (if Frontier(s, d) then 1 else 0)
  {
    if d in s {
      assert (seen + {d}) * s == seen * s + {d};
    } else {
      assert (seen + {d}) * s == seen * s;
    }
    if Frontier(s, d) {
      assert FrontierIn(s, seen + {d}) == FrontierIn(s, seen) + {d};
    } else {
      assert FrontierIn(s, seen + {d}) == FrontierIn(s, seen);
    }
  }

  /** The cells of the ring the window scan has passed before reaching offset (dx, dz). */
  ghost function Scanned(c: Cell, r: int, dx: int, dz: int): set<Cell> {
    set d | d in Ring(c, r) && (d.x < c.x + dx || (d.x == c.x + dx && d.z < c.z + dz))
  }

  /** The scan of an empty prefix has passed nothing. */
  lemma ScanStart(c: Cell, r: int)
    ensures Scanned(c, r, -r, -r) == {}
  {
    forall d | d in Ring(c, r) ensures d !in Scanned(c, r, -r, -r) {
      RingMember(c, r, d);
    }
  }

  /** Scanning the cell at offset (dx, dz) adds it, unless it is the centre. */
  lemma ScanCell(c: Cell, r: int, dx: int, dz: int)
    requires -r <= dx <= r && -r <= dz <= r
    ensures Cell(c.x + dx, c.z + dz) !in Scanned(c, r, dx, dz)
    ensures Scanned(c, r, dx, dz + 1) ==
      Scanned(c, r, dx, dz) + (if dx == 0 && dz == 0 then {} else {Cell(c.x + dx, c.z + dz)})
  {
    var k := Cell(c.x + dx, c.z + dz);
    RingMember(c, r, k);
    forall d | d in Scanned(c, r, dx, dz + 1) ensures d == k || d in Scanned(c, r, dx, dz) {
    }
  }

  /** Finishing a column of the window is starting the next one. */
  lemma ScanColumn(c: Cell, r: int, dx: int)
    ensures Scanned(c, r, dx, r + 1) == Scanned(c, r, dx + 1, -r)
  {
    forall d | d in Ring(c, r) ensures d in Scanned(c, r, dx, r + 1) <==> d in Scanned(c, r, dx + 1, -r) {
      RingMember(c, r, d);
    }
  }

  /** Once past the last column the scan has passed the whole ring. */
  lemma ScanEnd(c: Cell, r: int, dx: int)
    requires dx > r
    ensures Scanned(c, r, dx, -r) == Ring(c, r)
  {
    forall d | d in Ring(c, r) ensures d in Scanned(c, r, dx, -r) {
      RingMember(c, r, d);
    }
  }

  /** The counts of the ring cells in the scanned set seen: claimed ones, and available ones. */
  ghost predicate RingTally(s: set<Cell>, seen: set<Cell>, claimed: nat, available: nat) {
    claimed == |seen * s| && available == |FrontierIn(s, seen)|
  }

  /** One column of the window scan of countForRadius, at offset dx. */
  method CountColumn(s: set<Cell>, center: Cell, radius: int, dx: int,
                     claimed: nat, available: nat, ghost seen: set<Cell>)
    returns (claimed': nat, available': nat, ghost seen': set<Cell>)
    requires -radius <= dx <= radius
    requires seen == Scanned(center, radius, dx, -radius) && RingTally(s, seen, claimed, available)
    ensures seen' == Scanned(center, radius, dx + 1, -radius) && RingTally(s, seen', claimed', available')
  {
    claimed', available', seen' := claimed, available, seen;
    var dz := -radius;
    while dz <= radius
      invariant -radius <= dz <= radius + 1
      invariant seen' == Scanned(center, radius, dx, dz) && RingTally(s, seen', claimed', available')
    {
      ScanCell(center, radius, dx, dz);
      if !(dx == 0 && dz == 0) {
        var k0 := Cell(center.x + dx, center.z + dz);
        RingScanStep(s, seen', k0);
        if k0 in s {
          claimed' := claimed' + 1;
        } else {
          var nAdj := CountClaimedNeighbors4(s, k0);
          if nAdj > 0 {
            available' := available' + 1;
          }
        }
        seen' := seen' + {k0};
      }
      dz := dz + 1;
    }
    ScanColumn(center, radius, dx);
  }

  /** rules countForRadius: claimed cells, and available ones, in the ring of radius r around center. */
  method CountForRadius(s: set<Cell>, center: Cell, radius: int) returns (claimed: nat, available: nat)
    ensures claimed == |Ring(center, radius) * s|
    ensures available == |FrontierIn(s, Ring(center, radius))|
  {
    claimed, available := 0, 0;
    ghost var seen: set<Cell> := {};
    ScanStart(center, radius);
    var dx := -radius;
    while dx <= radius
      invariant -radius <= dx && (radius >= 0 ==> dx <= radius + 1)
      invariant seen == Scanned(center, radius, dx, -radius) && RingTally(s, seen, claimed, available)
    {
      claimed, available, seen := CountColumn(s, center, radius, dx, claimed, available, seen);
      dx := dx + 1;
    }
    ScanEnd(center, radius, dx);
  }

  /** The four counts countRing8AndRing24 returns. */
  datatype RingCounts = RingCounts(ring1Claimed: nat, ring1Available: nat, ring12Claimed: nat, ring12Available: nat)

  /** rules.countRing8AndRing24: the counts for the 8 cells at radius 1 and the 24 within radius 2. */
  method CountRing8AndRing24(s: set<Cell>, center: Cell) returns (r: RingCounts)
    ensures r.ring1Claimed == |Ring(center, 1) * s| && r.ring1Available == |FrontierIn(s, Ring(center, 1))|
    ensures r.ring12Claimed == |Ring(center, 2) * s| && r.ring12Available == |FrontierIn(s, Ring(center, 2))|
  {
    var c1, a1 := CountForRadius(s, center, 1);
    var c2, a2 := CountForRadius(s, center, 2);
    r := RingCounts(c1, a1, c2, a2);
  }

  /** The cells of the half-open rectangle [x0, x1) by [z0, z1). */
  ghost function Rect(x0: int, x1: int, z0: int, z1: int): set<Cell> {
    set x, z | x0 <= x < x1 && z0 <= z < z1 :: Cell(x, z)
  }

  lemma {:induction false} ColumnCard(x: int, z0: int, z1: int)
    requires z0 <= z1
    ensures |Rect(x, x + 1, z0, z1)| == z1 - z0
    decreases z1 - z0
  {
    if z1 > z0 {
      ColumnCard(x, z0, z1 - 1);
      assert Rect(x, x + 1, z0, z1) == Rect(x, x + 1, z0, z1 - 1) + {Cell(x, z1 - 1)};
    } else {
      assert Rect(x, x + 1, z0, z1) == {};
    }
  }

  lemma {:induction false} RectCard(x0: int, x1: int, z0: int, z1: int)
    requires x0 <= x1 && z0 <= z1
    ensures |Rect(x0, x1, z0, z1)| == (x1 - x0) * (z1 - z0)
    decreases x1 - x0
  {
    if x1 > x0 {
      RectCard(x0, x1 - 1, z0, z1);
      ColumnCard(x1 - 1, z0, z1);
      var a, b := Rect(x0, x1 - 1, z0, z1), Rect(x1 - 1, x1, z0, z1);
      assert Rect(x0, x1, z0, z1) == a + b;
      assert a * b == {};
      assert |a + b| == |a| + |b|;
      assert (x1 - x0) * (z1 - z0) == (x1 - 1 - x0) * (z1 - z0) + (z1 - z0);
    } else {
      assert Rect(x0, x1, z0, z1) == {};
    }
  }

  /** The ring of radius r >= 0 has (2r+1)^2 - 1 cells. */
  lemma RingCard(c: Cell, r: int)
    requires r >= 0
    ensures |Ring(c, r)| == (2 * r + 1) * (2 * r + 1) - 1
  {
    var box := Rect(c.x - r, c.x + r + 1, c.z - r, c.z + r + 1);
    RectCard(c.x - r, c.x + r + 1, c.z - r, c.z + r + 1);
    assert Ring(c, r) == box - {c};
    assert c in box;
  }

  /**
   * The neighbourhood counts are bounded by the window sizes (8 and 24), and
   * the radius-2 window contains the radius-1 window.
   */
  lemma RingBounds(s: set<Cell>, c: Cell)
    ensures |Ring(c, 1) * s| + |FrontierIn(s, Ring(c, 1))| <= 8
    ensures |Ring(c, 2) * s| + |FrontierIn(s, Ring(c, 2))| <= 24
    ensures |Ring(c, 1) * s| <= |Ring(c, 2) * s|
    ensures |FrontierIn(s, Ring(c, 1))| <= |FrontierIn(s, Ring(c, 2))|
  {
    RingCard(c, 1);
    RingCard(c, 2);
    forall r | 1 <= r <= 2 ensures |Ring(c, r) * s| + |FrontierIn(s, Ring(c, r))| <= |Ring(c, r)| {
      var t := Ring(c, r);
      assert (t * s) * FrontierIn(s, t) == {};
      assert (t * s) + FrontierIn(s, t) <= t;
      CardSubset((t * s) + FrontierIn(s, t), t);
    }
    assert Ring(c, 1) <= Ring(c, 2) by {
      forall d | d in Ring(c, 1) ensures d in Ring(c, 2) {
        RingMember(c, 1, d);
        RingMember(c, 2, d);
      }
    }
    CardSubset(Ring(c, 1) * s, Ring(c, 2) * s);
    CardSubset(FrontierIn(s, Ring(c, 1)), FrontierIn(s, Ring(c, 2)));
  }
}
