/**
 * Derived view state (src/render.js): the frontier of cells a click could
 * claim, the metrics record render stores for the rule gates, and the
 * viewport (its size step and its anchoring to the territory).
 */
module View {
  import opened Grid
  import opened Sums
  import opened Metrics
  import opened Topology
  import opened Rules

  // ---------------------------------------------------------------------------
  // render.computeAvailableSet

  /** The unclaimed edge-neighbours of c. */
  ghost function OpenNeighbours(s: set<Cell>, c: Cell): set<Cell> {
    set j | 0 <= j < 4 && Neighbors4(c)[j] !in s :: Neighbors4(c)[j]
  }

  /** What the scan of computeAvailableSet has collected after visiting the claimed cells of t. */
  ghost function OpenAround(s: set<Cell>, t: set<Cell>): set<Cell> {
    set c, j | c in t && 0 <= j < 4 && Neighbors4(c)[j] !in s :: Neighbors4(c)[j]
  }

  lemma OpenAroundStep(s: set<Cell>, t: set<Cell>, c: Cell)
    ensures OpenAround(s, t + {c}) == OpenAround(s, t) + OpenNeighbours(s, c)
  {
    forall d | d in OpenAround(s, t + {c}) ensures d in OpenAround(s, t) + OpenNeighbours(s, c) {
      var e, j :| e in t + {c} && 0 <= j < 4 && Neighbors4(e)[j] !in s && d == Neighbors4(e)[j];
      if e != c {
        assert d in OpenAround(s, t);
      }
    }
  }

  /** Once every claimed cell is visited, the collection is the frontier: unclaimed cells with a claimed neighbour. */
  lemma OpenAroundIsFrontier(s: set<Cell>, d: Cell)
    ensures d in OpenAround(s, s) <==> Frontier(s, d)
  {
    DegreeIsClaimedNeighbourCount(s, d);
    if d in OpenAround(s, s) {
      var e, j :| e in s && 0 <= j < 4 && Neighbors4(e)[j] !in s && d == Neighbors4(e)[j];
      AdjacentSymmetric(e, d);
      assert e in ClaimedNeighbours(s, d);
    }
    if Frontier(s, d) {
      var e :| e in ClaimedNeighbours(s, d);
      AdjacentSymmetric(d, e);
      var j :| 0 <= j < 4 && Neighbors4(e)[j] == d;
      assert d in OpenAround(s, s);
    }
  }

  /** The inner loop of computeAvailableSet: add the unclaimed neighbours of c. */
  method AddOpenNeighbours(s: set<Cell>, c: Cell, avail: set<Cell>) returns (avail': set<Cell>)
    ensures avail' == avail + OpenNeighbours(s, c)
  {
    avail' := avail;
    var nb := Neighbors4(c);
    for j := 0 to 4
      invariant avail' == avail + (set i | 0 <= i < j && nb[i] !in s :: nb[i])
    {
      if nb[j] !in s {
        avail' := avail' + {nb[j]};
      }
      assert (set i | 0 <= i < j + 1 && nb[i] !in s :: nb[i]) ==
        (set i | 0 <= i < j && nb[i] !in s :: nb[i]) + (if nb[j] !in s then {nb[j]} else {});
    }
  }

  /**
   * render.computeAvailableSet: the cells a claim could reach, i.e. the
   * unclaimed cells with at least one claimed edge-neighbour.
   */
  method ComputeAvailableSet(s: set<Cell>) returns (avail: set<Cell>)
    ensures forall d :: d in avail <==> Frontier(s, d)
    ensures s == {} ==> avail == {}
    ensures avail * s == {}
  {
    avail := {};
    if |s| == 0 {
      forall d ensures !Frontier(s, d) {
        DegreeIsClaimedNeighbourCount(s, d);
      }
      return;
    }
    var rest := s;
    while rest != {}
      invariant rest <= s
      invariant avail == OpenAround(s, s - rest)
      decreases |rest|
    {
      var c :| c in rest;
      ScanStep(s, rest, c);
      OpenAroundStep(s, s - rest, c);
      avail := AddOpenNeighbours(s, c, avail);
      rest := rest - {c};
    }
    assert s - rest == s;
    forall d ensures d in avail <==> Frontier(s, d) {
      OpenAroundIsFrontier(s, d);
    }
  }

  // ---------------------------------------------------------------------------
  // The metrics record of render

  /**
   * The metrics block of render: every value recomputed from s, the ratios 0
   * for the empty set. pa is the perimeter-to-area ratio render displays.
   */
  method ComputeMetrics(s: set<Cell>) returns (m: MetricsCache, pa: real)
    ensures Fresh(m, s)
    ensures m.area == |s| && m.perim == Perimeter(s) && m.endpoints == Endpoints(s) && m.bounds == BoundsOf(s)
    ensures m.maxFilledSquare == LargestSquare(s, BoundsOf(s))
    ensures |s| == 0 ==> m.outerFill == 0.0 && m.innerShare == 0.0 && pa == 0.0 && m.bounds == None
    ensures |s| > 0 ==> pa == Ratio(Perimeter(s), |s|)
  {
    var area := |s|;
    var perim := PerimeterEdges(s);
    var diam, start, a, b := ApproxDiameter4(s);
    assert s != {} ==> DoubleSweep(s, start, a, b, diam);
    var endpoints := CountEndpoints4(s);
    var bounds := ComputeBounds(s);
    var l := if bounds.Some? && bounds.value.L != 0 then bounds.value.L else 0;
    var outerFill := if area != 0 && l != 0 then SquareFill(area, l) else 0.0;
    var lin := 0;
    if bounds.Some? {
      lin := MaxFilledSquareSide(s, bounds);
    } else {
      assert LargestSquare(s, bounds) == 0;
    }
    var innerShare := if area != 0 then SquareShare(lin, area) else 0.0;
    pa := if area != 0 then Ratio(perim, area) else 0.0;
    m := MetricsCache(area, perim, diam, endpoints, bounds, outerFill, innerShare, lin);
    if s != {} {
      BoundsShape(bounds.value, s);
    }
  }

  // ---------------------------------------------------------------------------
  // The viewport

  /** The viewport sizes render steps through. */
  const SizeSteps: seq<int> := [10, 20, 30, 40]

  /** n is one of the size steps. */
  predicate IsSizeStep(n: int) {
    n == 10 || n == 20 || n == 30 || n == 40
  }

  /**
   * render's clampToStep: the smallest size step that is at most the cap
   * (maxN, or 40 when maxN is 0, and never below 10) and holds needed; the
   * cap itself when no step does.
   */
  method ClampToStep(needed: int, maxN: int) returns (n: int)
    ensures var cap := Max(10, if maxN == 0 then 40 else maxN);
      && ((exists i :: 0 <= i < 4 && SizeSteps[i] <= cap && needed <= SizeSteps[i]) ==>
            n in SizeSteps && n <= cap && needed <= n &&
            forall i :: 0 <= i < 4 && SizeSteps[i] < n ==> SizeSteps[i] < needed)
      && (!(exists i :: 0 <= i < 4 && SizeSteps[i] <= cap && needed <= SizeSteps[i]) ==> n == cap)
  {
    var cap := Max(10, if maxN == 0 then 40 else maxN);
    for i := 0 to 4
      invariant forall k :: 0 <= k < i ==> SizeSteps[k] <= cap && SizeSteps[k] < needed
    {
      var st := SizeSteps[i];
      if st > cap {
        break;
      }
      if needed <= st {
        return st;
      }
    }
    return cap;
  }

  /**
   * n is clampToStep(needed, 40): the smallest size step that holds needed,
   * or 40 when none does.
   */
  predicate StepFor(needed: int, n: int) {
    && IsSizeStep(n)
    && (needed <= 40 ==> needed <= n)
    && (needed > 40 ==> n == 40)
    && (forall i :: 0 <= i < 4 && SizeSteps[i] < n ==> SizeSteps[i] < needed)
  }

  /** At most one size step is the one for a given need. */
  lemma StepForUnique(needed: int, n: int, m: int)
    requires StepFor(needed, n) && StepFor(needed, m)
    ensures n == m
  {
    if needed <= 40 {
      assert SizeSteps[n / 10 - 1] == n && SizeSteps[m / 10 - 1] == m;
    }
  }

  /** The cells render draws: columns xMin..xMax and rows zMin..zMax. */
  datatype Viewport = Viewport(size: int, xMin: int, xMax: int, zMin: int, zMax: int)

  predicate InView(v: Viewport, c: Cell) {
    v.xMin <= c.x <= v.xMax && v.zMin <= c.z <= v.zMax
  }

  /** The size the view needs: 10, or the larger span of the bounds plus a margin of 2 on each side. */
  function Needed(bounds: Option<Bounds>): (r: int)
    ensures r >= 10
    ensures bounds.Some? ==> r >= bounds.value.maxX - bounds.value.minX + 5 && r >= bounds.value.maxZ - bounds.value.minZ + 5
  {
    if bounds.None? then 10
    else Max(10, Max(bounds.value.maxX - bounds.value.minX + 1 + 4, bounds.value.maxZ - bounds.value.minZ + 1 + 4))
  }

  /**
   * The viewport computation of render: the smallest size step that holds
   * what the bounds need (40 when none does), anchored two cells outside the territory's
   * minimum x and maximum z, or centred on the origin with no territory.
   */
  method ComputeViewport(bounds: Option<Bounds>) returns (v: Viewport)
    ensures v.size in SizeSteps && StepFor(Needed(bounds), v.size)
    ensures v.xMax == v.xMin + v.size - 1 && v.zMin == v.zMax - v.size + 1
    ensures bounds.None? ==> v.xMin == -(v.size / 2) && v.zMax == v.size / 2
    ensures bounds.Some? ==> v.xMin == bounds.value.minX - 2 && v.zMax == bounds.value.maxZ + 2
  {
    var pad := 2;
    var needed := Needed(bounds);
    var n := ClampToStep(needed, 40);
    if needed <= 40 {
      assert SizeSteps[3] <= 40 && needed <= SizeSteps[3];
    } else {
      assert forall i :: 0 <= i < 4 ==> SizeSteps[i] < needed;
      assert n == SizeSteps[3];
    }
    var xMin := -(n / 2);
    var zMax := n / 2;
    if bounds.Some? {
      xMin := bounds.value.minX - pad;
      zMax := bounds.value.maxZ + pad;
    }
    v := Viewport(n, xMin, xMin + n - 1, zMax - n + 1, zMax);
  }

  /** When both spans of the territory are at most 36, the whole territory is in view. */
  lemma TerritoryInView(s: set<Cell>, v: Viewport)
    requires s != {}
    requires Needed(BoundsOf(s)) <= 40 ==> v.size >= Needed(BoundsOf(s))
    requires v.xMax == v.xMin + v.size - 1 && v.zMin == v.zMax - v.size + 1
    requires v.xMin == BoundsOf(s).value.minX - 2 && v.zMax == BoundsOf(s).value.maxZ + 2
    requires BoundsOf(s).value.maxX - BoundsOf(s).value.minX + 1 <= 36
    requires BoundsOf(s).value.maxZ - BoundsOf(s).value.minZ + 1 <= 36
    ensures forall c :: c in s ==> InView(v, c)
  {
    var b := BoundsOf(s).value;
    assert Needed(BoundsOf(s)) <= 40;
    forall c | c in s ensures InView(v, c) {
      assert InBox(b, c);
    }
  }
}
