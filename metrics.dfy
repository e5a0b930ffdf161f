/**
 * Shape metrics of a claimed set (src/metrics.js): claimed-neighbour
 * counts, endpoints, perimeter edges, bounding box, the largest filled
 * axis-aligned square inside the box, and the two-sweep BFS diameter
 * estimate. Every loop of the source is a method here, proved against a
 * specification function whose properties are stated as lemmas.
 */
module Metrics {
  import opened Grid
  import opened Sums
  import opened Walks
  import opened Sweeps

  // ---------------------------------------------------------------------------
  // Degree: claimed edge-neighbours of a cell

  /** How many of the four edge-neighbours of c are claimed. */
  function Degree(s: set<Cell>, c: Cell): nat {
    CountIn(Neighbors4(c), s)
  }

  /** The claimed cells sharing an edge with c. */
  ghost function ClaimedNeighbours(s: set<Cell>, c: Cell): set<Cell> {
    set d | d in s && Adjacent(c, d)
  }

  function NeighbourSet(c: Cell): set<Cell> {
    Elements(Neighbors4(c))
  }

  lemma Neighbors4Distinct(c: Cell)
    ensures Distinct(Neighbors4(c))
  {
    Neighbors4Shape(c);
  }

  /** The degree is the number of claimed cells adjacent to c, at most four. */
  lemma DegreeIsClaimedNeighbourCount(s: set<Cell>, c: Cell)
    ensures Degree(s, c) == |ClaimedNeighbours(s, c)|
    ensures Degree(s, c) <= 4
  {
    Neighbors4Distinct(c);
    CountInIsCard(Neighbors4(c), s);
    DistinctCard(Neighbors4(c));
    assert ClaimedNeighbours(s, c) == NeighbourSet(c) * s;
    CardSubset(NeighbourSet(c) * s, NeighbourSet(c));
  }

  /** The degree ignores whether c itself is claimed. */
  lemma DegreeIgnoresSelf(s: set<Cell>, c: Cell)
    ensures Degree(s + {c}, c) == Degree(s, c)
    ensures Degree(s - {c}, c) == Degree(s, c)
  {
    DegreeIsClaimedNeighbourCount(s, c);
    DegreeIsClaimedNeighbourCount(s + {c}, c);
    DegreeIsClaimedNeighbourCount(s - {c}, c);
    AdjacentIrreflexive(c);
    assert ClaimedNeighbours(s + {c}, c) == ClaimedNeighbours(s, c);
    assert ClaimedNeighbours(s - {c}, c) == ClaimedNeighbours(s, c);
  }

  /** Claiming c raises the degree of exactly its neighbours, by one. */
  lemma DegreeInsert(s: set<Cell>, c: Cell, d: Cell)
    requires c !in s
    ensures Degree(s + {c}, d) == Degree(s, d) + (if d in NeighbourSet(c) then 1 else 0)
  {
    DegreeIsClaimedNeighbourCount(s, d);
    DegreeIsClaimedNeighbourCount(s + {c}, d);
    AdjacentSymmetric(c, d);
    if d in NeighbourSet(c) {
      assert ClaimedNeighbours(s + {c}, d) == ClaimedNeighbours(s, d) + {c};
    } else {
      assert ClaimedNeighbours(s + {c}, d) == ClaimedNeighbours(s, d);
    }
  }

  /** metrics.countClaimedNeighbors4 */
  method CountClaimedNeighbors4(s: set<Cell>, c: Cell) returns (count: nat)
    ensures count == Degree(s, c)
  {
    var nb := Neighbors4(c);
    count := 0;
    for j := 0 to 4
      invariant count == CountIn(nb[..j], s)
    {
      CountInPrefix(nb, j, s);
      if nb[j] in s {
        count := count + 1;
      }
    }
    assert nb[..4] == nb;
  }

  // ---------------------------------------------------------------------------
  // Endpoints

  function EndpointFlag(s: set<Cell>): Cell -> int {
    c => if Degree(s, c) == 1 then 1 else 0
  }

  /** The number of claimed cells with exactly one claimed neighbour. */
  ghost function Endpoints(s: set<Cell>): int {
    Sum(s, EndpointFlag(s))
  }

  ghost function EndpointSet(s: set<Cell>): set<Cell> {
    set c | c in s && Degree(s, c) == 1
  }

  lemma EndpointsIsCount(s: set<Cell>)
    ensures Endpoints(s) == |EndpointSet(s)| <= |s|
  {
    SumCongruent(s, EndpointFlag(s), Indicator(EndpointSet(s)));
    SumIndicator(s, EndpointSet(s));
    assert s * EndpointSet(s) == EndpointSet(s);
    CardSubset(EndpointSet(s), s);
  }

  /** metrics.countEndpoints4 */
  method CountEndpoints4(s: set<Cell>) returns (count: int)
    ensures count == Endpoints(s)
  {
    count := 0;
    var rest := s;
    while rest != {}
      invariant rest <= s
      invariant count == Sum(s - rest, EndpointFlag(s))
      decreases |rest|
    {
      var c :| c in rest;
      var deg := CountClaimedNeighbors4(s, c);
      EndpointStep(s, rest, c, deg);
      if deg == 1 {
        count := count + 1;
      }
      rest := rest - {c};
    }
    assert s - rest == s;
  }

  /** One pass of the countEndpoints4 loop: scanning c adds its endpoint flag. */
  lemma EndpointStep(s: set<Cell>, rest: set<Cell>, c: Cell, deg: int)
    requires c in rest && rest <= s && deg == Degree(s, c)
    ensures rest - {c} <= s && |rest - {c}| < |rest|
    ensures Sum(s - (rest - {c}), EndpointFlag(s)) == Sum(s - rest, EndpointFlag(s)) + (if deg == 1 then 1 else 0)
  {
    ScanStep(s, rest, c);
    SumInsert(s - rest, EndpointFlag(s), c);
  }

  /**
   * The change in a neighbour's endpoint status when one of its neighbours
   * is claimed: a former endpoint stops being one, an isolated cell becomes one.
   */
  function EndpointChange(s: set<Cell>): Cell -> int {
    n => if n !in s then 0 else if Degree(s, n) == 1 then -1 else if Degree(s, n) == 0 then 1 else 0
  }

  function Restrict(f: Cell -> int, a: set<Cell>): Cell -> int {
    c => if c in a then f(c) else 0
  }

  /**
   * Claiming c changes the endpoint count by c's own status (one claimed
   * neighbour) plus the change of each of its claimed neighbours.
   */
  lemma EndpointsInsert(s: set<Cell>, c: Cell)
    requires c !in s
    ensures Endpoints(s + {c}) ==
      Endpoints(s) + (if Degree(s, c) == 1 then 1 else 0) + SeqSum(Neighbors4(c), EndpointChange(s))
  {
    var s' := s + {c};
    var nb := NeighbourSet(c);
    var delta := Restrict(EndpointChange(s), nb);
    assert Sum(s', EndpointFlag(s')) == EndpointFlag(s')(c) + Sum(s, EndpointFlag(s')) by {
      SumInsert(s, EndpointFlag(s'), c);
    }
    assert EndpointFlag(s')(c) == (if Degree(s, c) == 1 then 1 else 0) by {
      DegreeIgnoresSelf(s, c);
    }
    assert Sum(s, EndpointFlag(s')) == Endpoints(s) + Sum(s, delta) by {
      forall d | d in s ensures EndpointFlag(s')(d) == EndpointFlag(s)(d) + delta(d) {
        DegreeInsert(s, c, d);
      }
      SumAdd(s, EndpointFlag(s), delta, EndpointFlag(s'));
    }
    assert Sum(s, delta) == SeqSum(Neighbors4(c), EndpointChange(s)) by {
      NeighbourChangeSum(s, c);
    }
  }

  lemma NeighbourChangeSum(s: set<Cell>, c: Cell)
    ensures Sum(s, Restrict(EndpointChange(s), NeighbourSet(c))) == SeqSum(Neighbors4(c), EndpointChange(s))
  {
    var nb := NeighbourSet(c);
    var delta := Restrict(EndpointChange(s), nb);
    SumSupport(s, nb, delta);
    SumCongruent(s * nb, delta, EndpointChange(s));
    Neighbors4Distinct(c);
    SeqSumIsSum(Neighbors4(c), EndpointChange(s));
    SumSupport(nb, s, EndpointChange(s));
    assert nb * s == s * nb;
  }

  // ---------------------------------------------------------------------------
  // Perimeter

  function PerimeterTerm(s: set<Cell>): Cell -> int {
    c => 4 - Degree(s, c)
  }

  /** The number of (claimed cell, unclaimed edge-neighbour) pairs. */
  ghost function Perimeter(s: set<Cell>): int {
    Sum(s, PerimeterTerm(s))
  }

  /** The inner loop of metrics.perimeterEdges: the sides of c that face an unclaimed cell. */
  method OpenSides(s: set<Cell>, c: Cell) returns (n: int)
    ensures n == 4 - Degree(s, c)
  {
    var nb := Neighbors4(c);
    n := 0;
    for j := 0 to 4
      invariant n == j - CountIn(nb[..j], s)
    {
      CountInPrefix(nb, j, s);
      if nb[j] !in s {
        n := n + 1;
      }
    }
    assert nb[..4] == nb;
  }

  /** metrics.perimeterEdges */
  method PerimeterEdges(s: set<Cell>) returns (p: int)
    ensures p == Perimeter(s)
  {
    p := 0;
    var rest := s;
    while rest != {}
      invariant rest <= s
      invariant p == Sum(s - rest, PerimeterTerm(s))
      decreases |rest|
    {
      var c :| c in rest;
      var open := OpenSides(s, c);
      ScanStep(s, rest, c);
      PerimeterStep(s, s - rest, c);
      p := p + open;
      rest := rest - {c};
    }
    assert s - rest == s;
  }

  lemma PerimeterStep(s: set<Cell>, done: set<Cell>, c: Cell)
    requires c !in done
    ensures Sum(done + {c}, PerimeterTerm(s)) == Sum(done, PerimeterTerm(s)) + 4 - Degree(s, c)
  {
    SumInsert(done, PerimeterTerm(s), c);
  }

  lemma PerimeterBounds(s: set<Cell>)
    ensures 0 <= Perimeter(s) <= 4 * |s|
  {
    PerimeterBoundsRec(s, s);
  }

  lemma {:induction false} PerimeterBoundsRec(s: set<Cell>, t: set<Cell>)
    ensures 0 <= Sum(t, PerimeterTerm(s)) <= 4 * |t|
    decreases t
  {
    if t != {} {
      var c :| c in t;
      SumRemove(t, PerimeterTerm(s), c);
      DegreeIsClaimedNeighbourCount(s, c);
      PerimeterBoundsRec(s, t - {c});
    }
  }

  /**
   * Claiming c adds its four edges and removes the two sides of every edge it
   * shares with a claimed cell: the incremental perimeter of the claim rule.
   */
  lemma PerimeterInsert(s: set<Cell>, c: Cell)
    requires c !in s
    ensures Perimeter(s + {c}) == Perimeter(s) + 4 - 2 * Degree(s, c)
  {
    var s' := s + {c};
    var nb := NeighbourSet(c);
    SumInsert(s, PerimeterTerm(s'), c);
    DegreeIgnoresSelf(s, c);
    forall d | d in s ensures PerimeterTerm(s)(d) == PerimeterTerm(s')(d) + Indicator(nb)(d) {
      DegreeInsert(s, c, d);
    }
    SumAdd(s, PerimeterTerm(s'), Indicator(nb), PerimeterTerm(s));
    SumIndicator(s, nb);
    DegreeIsClaimedNeighbourCount(s, c);
    AdjacentSymmetricAll(c);
    assert s * nb == ClaimedNeighbours(s, c);
  }

  lemma AdjacentSymmetricAll(c: Cell)
    ensures forall d :: d in NeighbourSet(c) <==> Adjacent(c, d)
  {
  }

  // ---------------------------------------------------------------------------
  // Bounding box

  /** An axis-aligned box with its width, height and longer side L. */
  datatype Bounds = Bounds(minX: int, maxX: int, minZ: int, maxZ: int, w: int, h: int, L: int)

  function Max(a: int, b: int): int { if a >= b then a else b }

  function Min(a: int, b: int): int { if a <= b then a else b }

  /** The box spanned by the given extremes, with w, h and L derived from them. */
  function Box(minX: int, maxX: int, minZ: int, maxZ: int): Bounds {
    var w := maxX - minX + 1;
    var h := maxZ - minZ + 1;
    Bounds(minX, maxX, minZ, maxZ, w, h, Max(w, h))
  }

  predicate InBox(b: Bounds, c: Cell) {
    b.minX <= c.x <= b.maxX && b.minZ <= c.z <= b.maxZ
  }

  /** b is the smallest box holding every cell of the non-empty set s. */
  ghost predicate IsBoundsOf(b: Bounds, s: set<Cell>) {
    && b == Box(b.minX, b.maxX, b.minZ, b.maxZ)
    && (forall c :: c in s ==> InBox(b, c))
    && (exists c :: c in s && c.x == b.minX)
    && (exists c :: c in s && c.x == b.maxX)
    && (exists c :: c in s && c.z == b.minZ)
    && (exists c :: c in s && c.z == b.maxZ)
  }

  /** metrics.updateBoundsWithCell: the box grown to hold c (a unit box when there is none yet). */
  function UpdateBoundsWithCell(b: Option<Bounds>, c: Cell): (r: Bounds)
    ensures InBox(r, c)
    ensures b.Some? ==> b.value.minX >= r.minX && b.value.maxX <= r.maxX
    ensures b.Some? ==> b.value.minZ >= r.minZ && b.value.maxZ <= r.maxZ
  {
    match b
    case None => Bounds(c.x, c.x, c.z, c.z, 1, 1, 1)
    case Some(b0) => Box(Min(b0.minX, c.x), Max(b0.maxX, c.x), Min(b0.minZ, c.z), Max(b0.maxZ, c.z))
  }

  /** Growing the box of s by c gives exactly the box of s + {c}. */
  lemma IncrementalBounds(b: Option<Bounds>, s: set<Cell>, c: Cell)
    requires if s == {} then b.None? else b.Some? && IsBoundsOf(b.value, s)
    ensures IsBoundsOf(UpdateBoundsWithCell(b, c), s + {c})
  {
    var r := UpdateBoundsWithCell(b, c);
    if b.Some? {
      var b0 := b.value;
      if r.minX == b0.minX {
        var e :| e in s && e.x == b0.minX;
        assert e in s + {c};
      } else {
        assert c.x == r.minX;
      }
      if r.maxX == b0.maxX {
        var e :| e in s && e.x == b0.maxX;
        assert e in s + {c};
      } else {
        assert c.x == r.maxX;
      }
      if r.minZ == b0.minZ {
        var e :| e in s && e.z == b0.minZ;
        assert e in s + {c};
      } else {
        assert c.z == r.minZ;
      }
      if r.maxZ == b0.maxZ {
        var e :| e in s && e.z == b0.maxZ;
        assert e in s + {c};
      } else {
        assert c.z == r.maxZ;
      }
    } else {
      assert s + {c} == {c};
    }
  }

  /** A set has only one bounding box. */
  lemma BoundsUnique(b1: Bounds, b2: Bounds, s: set<Cell>)
    requires IsBoundsOf(b1, s) && IsBoundsOf(b2, s)
    ensures b1 == b2
  {
    var e1 :| e1 in s && e1.x == b1.minX;
    var e2 :| e2 in s && e2.x == b2.minX;
    var e3 :| e3 in s && e3.x == b1.maxX;
    var e4 :| e4 in s && e4.x == b2.maxX;
    var e5 :| e5 in s && e5.z == b1.minZ;
    var e6 :| e6 in s && e6.z == b2.minZ;
    var e7 :| e7 in s && e7.z == b1.maxZ;
    var e8 :| e8 in s && e8.z == b2.maxZ;
    assert InBox(b1, e2) && InBox(b2, e1) && InBox(b1, e4) && InBox(b2, e3);
    assert InBox(b1, e6) && InBox(b2, e5) && InBox(b1, e8) && InBox(b2, e7);
  }

  /** The box of a set, built cell by cell; None for the empty set. */
  ghost function BoundsOf(s: set<Cell>): (r: Option<Bounds>)
    ensures r.None? <==> s == {}
    ensures r.Some? ==> IsBoundsOf(r.value, s)
    decreases s
  {
    if s == {} then None
    else
      var c :| c in s;
      IncrementalBounds(BoundsOf(s - {c}), s - {c}, c);
      assert s - {c} + {c} == s;
      Some(UpdateBoundsWithCell(BoundsOf(s - {c}), c))
  }

  /** Every box of a non-empty set has positive width and height, and L is the longer. */
  lemma BoundsShape(b: Bounds, s: set<Cell>)
    requires IsBoundsOf(b, s)
    ensures b.w >= 1 && b.h >= 1 && b.L >= 1 && b.L >= b.w && b.L >= b.h
    ensures b.L == b.w || b.L == b.h
  {
    var e :| e in s && e.x == b.minX;
    assert InBox(b, e);
  }

  /** The box of s is the one box that bounds s. */
  lemma BoundsOfIs(b: Bounds, s: set<Cell>)
    requires IsBoundsOf(b, s)
    ensures BoundsOf(s) == Some(b)
  {
    var e :| e in s && e.x == b.minX;
    BoundsUnique(b, BoundsOf(s).value, s);
  }

  /** One step of the scan of computeBounds: the extremes of done, widened by c. */
  lemma BoundsScanStep(minX: int, maxX: int, minZ: int, maxZ: int, done: set<Cell>, c: Cell)
    requires IsBoundsOf(Box(minX, maxX, minZ, maxZ), done)
    ensures IsBoundsOf(Box(Min(minX, c.x), Max(maxX, c.x), Min(minZ, c.z), Max(maxZ, c.z)), done + {c})
  {
    IncrementalBounds(Some(Box(minX, maxX, minZ, maxZ)), done, c);
  }

  /** The four comparisons in the loop of metrics.computeBounds. */
  method Widen(minX: int, maxX: int, minZ: int, maxZ: int, c: Cell)
    returns (minX': int, maxX': int, minZ': int, maxZ': int)
    ensures minX' == Min(minX, c.x) && maxX' == Max(maxX, c.x)
    ensures minZ' == Min(minZ, c.z) && maxZ' == Max(maxZ, c.z)
  {
    minX', maxX', minZ', maxZ' := minX, maxX, minZ, maxZ;
    if c.x < minX' { minX' := c.x; }
    if c.x > maxX' { maxX' := c.x; }
    if c.z < minZ' { minZ' := c.z; }
    if c.z > maxZ' { maxZ' := c.z; }
  }

  /**
   * metrics.computeBounds. The source seeds the extremes with +/-Infinity;
   * here they are seeded from the first cell visited, which is the state
   * the source reaches after its first iteration.
   */
  method ComputeBounds(s: set<Cell>) returns (r: Option<Bounds>)
    ensures r == BoundsOf(s)
  {
    if s == {} {
      return None;
    }
    var c0 :| c0 in s;
    var minX, maxX, minZ, maxZ := c0.x, c0.x, c0.z, c0.z;
    var rest := s - {c0};
    assert s - rest == {c0};
    while rest != {}
      invariant rest <= s
      invariant IsBoundsOf(Box(minX, maxX, minZ, maxZ), s - rest)
      decreases |rest|
    {
      var c :| c in rest;
      ScanStep(s, rest, c);
      BoundsScanStep(minX, maxX, minZ, maxZ, s - rest, c);
      minX, maxX, minZ, maxZ := Widen(minX, maxX, minZ, maxZ, c);
      rest := rest - {c};
    }
    assert s - rest == s;
    r := Some(Box(minX, maxX, minZ, maxZ));
    BoundsOfIs(r.value, s);
  }

  // ---------------------------------------------------------------------------
  // Largest filled square

  function Min3(a: int, b: int, c: int): int { Min(Min(a, b), c) }

  /** Every cell of the k-by-k square whose corner of largest x and z is (x, z) is claimed. */
  ghost predicate SquareAt(s: set<Cell>, x: int, z: int, k: nat) {
    forall d: Cell :: x - k < d.x <= x && z - k < d.z <= z ==> d in s
  }

  /**
   * The table the row-by-row scan computes: the side of the largest claimed
   * square with corner (x, z), counting only columns from x0 and rows from z0.
   */
  ghost function Dp(s: set<Cell>, x0: int, z0: int, x: int, z: int): nat
    decreases x - x0 + z - z0 + 2
  {
    if x < x0 || z < z0 || Cell(x, z) !in s then 0
    else 1 + Min3(Dp(s, x0, z0, x, z - 1), Dp(s, x0, z0, x - 1, z), Dp(s, x0, z0, x - 1, z - 1))
  }

  /** The table entry is the side of a claimed square that stays right of x0 and above z0. */
  lemma {:induction false} DpSound(s: set<Cell>, x0: int, z0: int, x: int, z: int)
    ensures SquareAt(s, x, z, Dp(s, x0, z0, x, z))
    ensures Dp(s, x0, z0, x, z) > 0 ==> x - Dp(s, x0, z0, x, z) + 1 >= x0 && z - Dp(s, x0, z0, x, z) + 1 >= z0
    decreases x - x0 + z - z0 + 2
  {
    if !(x < x0 || z < z0 || Cell(x, z) !in s) {
      DpSound(s, x0, z0, x, z - 1);
      DpSound(s, x0, z0, x - 1, z);
      DpSound(s, x0, z0, x - 1, z - 1);
    }
  }

  /** No claimed square with corner (x, z) inside the scanned region is larger than the entry. */
  lemma {:induction false} DpMaximal(s: set<Cell>, x0: int, z0: int, x: int, z: int, k: nat)
    requires SquareAt(s, x, z, k) && x - k + 1 >= x0 && z - k + 1 >= z0
    ensures k <= Dp(s, x0, z0, x, z)
    decreases k
  {
    if k > 0 {
      assert Cell(x, z) in s;
      assert SquareAt(s, x, z - 1, k - 1);
      assert SquareAt(s, x - 1, z, k - 1);
      assert SquareAt(s, x - 1, z - 1, k - 1);
      DpMaximal(s, x0, z0, x, z - 1, k - 1);
      DpMaximal(s, x0, z0, x - 1, z, k - 1);
      DpMaximal(s, x0, z0, x - 1, z - 1, k - 1);
    }
  }

  /** Every cell of the columns minX..minX+w-1 and rows minZ..maxZ of b is claimed. */
  ghost predicate RectFilled(s: set<Cell>, b: Bounds) {
    forall d: Cell :: b.minX <= d.x < b.minX + b.w && b.minZ <= d.z <= b.maxZ ==> d in s
  }

  /** A claimed k-square with corner (x, z) lying in columns x0..x0+w-1 and rows z0..z1. */
  ghost predicate SquareInBox(s: set<Cell>, x0: int, w: int, z0: int, z1: int, x: int, z: int, k: nat) {
    && x0 <= x < x0 + w && z0 <= z <= z1
    && x - k + 1 >= x0 && z - k + 1 >= z0
    && SquareAt(s, x, z, k)
  }

  /** The largest k <= top for which a claimed k-square lies in b (0 if there is none). */
  ghost function SquareSearch(s: set<Cell>, b: Bounds, top: nat): nat
    decreases top
  {
    if top == 0 then 0
    else if exists x, z :: SquareInBox(s, b.minX, b.w, b.minZ, b.maxZ, x, z, top) then top
    else SquareSearch(s, b, top - 1)
  }

  /** The side of the largest claimed square inside b: the value maxFilledSquareSide promises. */
  ghost function LargestSquare(s: set<Cell>, b: Option<Bounds>): nat {
    if b.None? || s == {} || b.value.w <= 0 then 0 else SquareSearch(s, b.value, b.value.w)
  }

  /** A side that is attained and bounds every square is what the downward search finds. */
  lemma {:induction false} SquareSearchFinds(s: set<Cell>, b: Bounds, top: nat, r: nat)
    requires r <= top
    requires r > 0 ==> exists x, z :: SquareInBox(s, b.minX, b.w, b.minZ, b.maxZ, x, z, r)
    requires forall x, z, k: nat :: SquareInBox(s, b.minX, b.w, b.minZ, b.maxZ, x, z, k) ==> k <= r
    ensures SquareSearch(s, b, top) == r
    decreases top
  {
    if top > r {
      SquareSearchFinds(s, b, top - 1, r);
    }
  }

  /**
   * One pass of the inner loop of maxFilledSquareSide: dp[1..] moves from
   * row z - 1 to row z, and the running maximum takes row z into account.
   */
  method ScanRow(s: set<Cell>, x0: int, z0: int, z: int, dp: array<int>,
                 maxIn: int, ghost wxIn: int, ghost wzIn: int)
    returns (maxS: int, ghost wx: int, ghost wz: int)
    requires z >= z0 && dp.Length >= 1 && dp[0] == 0 && maxIn >= 0
    requires forall k :: 1 <= k < dp.Length ==> dp[k] == Dp(s, x0, z0, x0 + k - 1, z - 1)
    modifies dp
    ensures dp[0] == 0
    ensures forall k :: 1 <= k < dp.Length ==> dp[k] == Dp(s, x0, z0, x0 + k - 1, z)
    ensures maxS >= maxIn
    ensures forall xx :: x0 <= xx < x0 + dp.Length - 1 ==> Dp(s, x0, z0, xx, z) <= maxS
    ensures || (maxS == maxIn && wx == wxIn && wz == wzIn)
            || (wz == z && x0 <= wx < x0 + dp.Length - 1 && Dp(s, x0, z0, wx, wz) == maxS)
  {
    var w := dp.Length - 1;
    maxS, wx, wz := maxIn, wxIn, wzIn;
    var prevDiag := 0;
    for xi := 1 to w + 1
      invariant dp[0] == 0
      invariant forall k :: 1 <= k < xi ==> dp[k] == Dp(s, x0, z0, x0 + k - 1, z)
      invariant forall k :: xi <= k <= w ==> dp[k] == Dp(s, x0, z0, x0 + k - 1, z - 1)
      invariant prevDiag == Dp(s, x0, z0, x0 + xi - 2, z - 1)
      invariant maxS >= maxIn
      invariant forall xx :: x0 <= xx < x0 + xi - 1 ==> Dp(s, x0, z0, xx, z) <= maxS
      invariant || (maxS == maxIn && wx == wxIn && wz == wzIn)
                || (wz == z && x0 <= wx < x0 + xi - 1 && Dp(s, x0, z0, wx, wz) == maxS)
    {
      var x := x0 + (xi - 1);
      var tmp := dp[xi];
      assert tmp == Dp(s, x0, z0, x, z - 1);
      assert dp[xi - 1] == Dp(s, x0, z0, x - 1, z);
      if Cell(x, z) in s {
        var v := 1 + Min3(dp[xi], dp[xi - 1], prevDiag);
        assert v == Dp(s, x0, z0, x, z);
        dp[xi] := v;
        if v > maxS {
          maxS := v;
          wx, wz := x, z;
        }
      } else {
        dp[xi] := 0;
      }
      assert dp[xi] == Dp(s, x0, z0, x, z) <= maxS;
      prevDiag := tmp;
    }
  }

  /**
   * metrics.maxFilledSquareSide: the side of the largest square of claimed
   * cells inside the box, by the classic one-row dynamic programme.
   */
  method MaxFilledSquareSide(s: set<Cell>, b: Option<Bounds>) returns (r: int)
    ensures r == LargestSquare(s, b)
    ensures b.None? || s == {} || b.value.w <= 0 ==> r == 0
    ensures r >= 0
    ensures b.Some? && r > 0 ==>
      exists x, z :: SquareInBox(s, b.value.minX, b.value.w, b.value.minZ, b.value.maxZ, x, z, r)
    ensures b.Some? && s != {} ==>
      forall x, z, k: nat :: SquareInBox(s, b.value.minX, b.value.w, b.value.minZ, b.value.maxZ, x, z, k) ==> k <= r
    ensures b.Some? && r > 0 ==> r <= b.value.w && r <= b.value.maxZ - b.value.minZ + 1
    ensures b.Some? && b.value.w >= 1 && b.value.maxZ >= b.value.minZ && RectFilled(s, b.value) ==>
      r == Min(b.value.w, b.value.maxZ - b.value.minZ + 1)
  {
    if b.None? || s == {} {
      if b.Some? && b.value.w >= 1 && b.value.maxZ >= b.value.minZ {
        assert Cell(b.value.minX, b.value.minZ) !in s;
      }
      return 0;
    }
    var w := b.value.w;
    if w <= 0 {
      return 0;
    }
    var x0, z0, z1 := b.value.minX, b.value.minZ, b.value.maxZ;
    var dp := new int[w + 1](_ => 0);
    var maxS := 0;
    ghost var wx, wz := x0, z0;
    var z := z0;
    while z <= z1
      invariant z0 <= z <= Max(z1 + 1, z0)
      invariant dp.Length == w + 1 && dp[0] == 0
      invariant forall k :: 1 <= k <= w ==> dp[k] == Dp(s, x0, z0, x0 + k - 1, z - 1)
      invariant maxS >= 0
      invariant forall xx, zz :: x0 <= xx < x0 + w && z0 <= zz < z ==> Dp(s, x0, z0, xx, zz) <= maxS
      invariant maxS > 0 ==> x0 <= wx < x0 + w && z0 <= wz < z && Dp(s, x0, z0, wx, wz) == maxS
      decreases z1 - z
    {
      maxS, wx, wz := ScanRow(s, x0, z0, z, dp, maxS, wx, wz);
      z := z + 1;
    }
    r := maxS;
    TableIsLargest(s, b.value, r, wx, wz);
  }

  /** The maximum of the table over the box, attained at (wx, wz), is the largest claimed square in it. */
  lemma TableIsLargest(s: set<Cell>, b: Bounds, m: int, wx: int, wz: int)
    requires b.w >= 1 && m >= 0
    requires forall xx, zz :: b.minX <= xx < b.minX + b.w && b.minZ <= zz <= b.maxZ ==> Dp(s, b.minX, b.minZ, xx, zz) <= m
    requires m > 0 ==> b.minX <= wx < b.minX + b.w && b.minZ <= wz <= b.maxZ && Dp(s, b.minX, b.minZ, wx, wz) == m
    ensures m > 0 ==> exists x, z :: SquareInBox(s, b.minX, b.w, b.minZ, b.maxZ, x, z, m)
    ensures forall x, z, k: nat :: SquareInBox(s, b.minX, b.w, b.minZ, b.maxZ, x, z, k) ==> k <= m
    ensures m > 0 ==> m <= b.w && m <= b.maxZ - b.minZ + 1
    ensures b.maxZ >= b.minZ && RectFilled(s, b) ==> m == Min(b.w, b.maxZ - b.minZ + 1)
    ensures m <= b.w && SquareSearch(s, b, b.w) == m
  {
    var x0, z0, z1, w := b.minX, b.minZ, b.maxZ, b.w;
    forall x, z, k: nat | SquareInBox(s, x0, w, z0, z1, x, z, k) ensures k <= m {
      DpMaximal(s, x0, z0, x, z, k);
    }
    if m > 0 {
      DpSound(s, x0, z0, wx, wz);
      assert SquareInBox(s, x0, w, z0, z1, wx, wz, m);
    }
    if z1 >= z0 && RectFilled(s, b) {
      var k := Min(w, z1 - z0 + 1);
      assert SquareInBox(s, x0, w, z0, z1, x0 + w - 1, z1, k);
    }
    SquareSearchFinds(s, b, w, m);
  }

  // ---------------------------------------------------------------------------
  // Two-sweep BFS diameter (the facts about its labels are in module Sweeps)

  /**
   * The body of the inner loop of the sweep: the neighbour nb[j] of cur, if
   * claimed and unlabelled, gets cur's label d plus one and joins the queue.
   */
  method Visit(s: set<Cell>, src: Cell, q: seq<Cell>, dist: map<Cell, nat>, ghost pos: map<Cell, nat>,
               ghost qHead: int, ghost mid: int, cur: Cell, d: nat, nb: seq<Cell>, j: int)
    returns (q': seq<Cell>, dist': map<Cell, nat>, ghost pos': map<Cell, nat>)
    requires 0 <= j < |nb| && Adjacent(cur, nb[j])
    requires Visiting(s, src, q, dist, pos, qHead, d, mid, cur, nb, j)
    ensures Visiting(s, src, q', dist', pos', qHead, d, mid, cur, nb, j + 1)
    ensures nb[j] in s && nb[j] !in dist ==> q' == q + [nb[j]] && dist' == dist[nb[j] := d + 1]
    ensures nb[j] !in s || nb[j] in dist ==> q' == q && dist' == dist
  {
    var nk := nb[j];
    if nk in s && nk !in dist {
      VisitingPush(s, src, q, dist, pos, qHead, d, mid, cur, nb, j);
      q', dist', pos' := q + [nk], dist[nk := d + 1], pos[nk := |q|];
    } else {
      VisitingSkip(s, src, q, dist, pos, qHead, d, mid, cur, nb, j);
      q', dist', pos' := q, dist, pos;
    }
  }

  /**
   * The inner loop of the sweep over the four neighbours of the cell just
   * taken from the queue (the one at position qHead - 1, of level m):
   * afterwards that cell is relaxed as well, and the queue has only grown.
   */
  method RelaxNeighbours(s: set<Cell>, src: Cell, q: seq<Cell>, dist: map<Cell, nat>, ghost pos: map<Cell, nat>,
                         qHead: int, ghost m: nat, ghost mid: int)
    returns (q': seq<Cell>, dist': map<Cell, nat>, ghost pos': map<Cell, nat>)
    requires Layered(s, src, q, dist, pos, qHead - 1, m, mid) && 1 <= qHead <= mid
    requires RelaxedUpTo(s, q, dist, qHead - 1)
    ensures Layered(s, src, q', dist', pos', qHead, m, mid) && |q'| >= |q|
    ensures RelaxedUpTo(s, q', dist', qHead)
  {
    var cur := q[qHead - 1];
    var d := dist[cur];
    var nb := Neighbors4(cur);
    q', dist', pos' := q, dist, pos;
    VisitingStart(s, src, q, dist, pos, qHead, m, mid, nb);
    for j := 0 to 4
      invariant Visiting(s, src, q', dist', pos', qHead, d, mid, cur, nb, j) && |q'| >= |q|
    {
      q', dist', pos' := Visit(s, src, q', dist', pos', qHead, mid, cur, d, nb, j);
    }
    VisitingDone(s, src, q', dist', pos', qHead, m, mid, cur);
  }

  /**
   * The queue loop of a sweep from src, keeping the breadth-first layering
   * (module Sweeps, Layered). Afterwards every labelled cell is relaxed.
   */
  method BfsDistances(s: set<Cell>, src: Cell)
    returns (q: seq<Cell>, dist: map<Cell, nat>, ghost pos: map<Cell, nat>)
    requires src in s
    ensures Queue(s, src, q, dist, pos) && |q| <= |s|
    ensures Relaxed(dist, s)
  {
    q := [src];
    var qHead := 0;
    dist := map[src := 0];
    pos := map[src := 0];
    WalkSingle(s, src);
    assert HasPath(s, src, src, 0);
    ghost var m: nat, mid := 0, 1;
    while qHead < |q|
      invariant Layered(s, src, q, dist, pos, qHead, m, mid) && |q| <= |s|
      invariant qHead < |q| ==> qHead < mid
      invariant RelaxedUpTo(s, q, dist, qHead)
      decreases |s| - |q|, |q| - qHead
    {
      qHead := qHead + 1;
      q, dist, pos := RelaxNeighbours(s, src, q, dist, pos, qHead, m, mid);
      if qHead == mid {
        LevelUp(s, src, q, dist, pos, qHead, m);
        m, mid := m + 1, |q|;
      }
      CardSubset(dist.Keys, s);
    }
    forall u | u in dist ensures RelaxedAt(s, dist, u) {
      assert RelaxedAt(s, dist, q[pos[u]]);
    }
  }

  /**
   * One breadth-first sweep of approxDiameter4 from src through s, then the
   * scan of the distance map for a farthest cell (ties go to whichever
   * maximal entry the scan meets last; the scan order is left open).
   */
  method Sweep(s: set<Cell>, src: Cell) returns (farKey: Cell, maxD: nat)
    requires src in s
    ensures Farthest(s, src, farKey, maxD)
    ensures maxD <= |s| - 1
  {
    var q, dist, pos := BfsDistances(s, src);
    farKey := src;
    maxD := 0;
    var rest := dist.Keys;
    ghost var seen: set<Cell> := {};
    while rest != {}
      invariant rest <= dist.Keys && seen == dist.Keys - rest
      invariant forall v :: v in seen ==> dist[v] <= maxD
      invariant seen != {} ==> farKey in seen && dist[farKey] == maxD
      invariant seen == {} ==> maxD == 0
      decreases |rest|
    {
      var k1 :| k1 in rest;
      var dk := dist[k1];
      if dk >= maxD {
        maxD := dk;
        farKey := k1;
      }
      rest := rest - {k1};
      seen := seen + {k1};
    }
    assert src in seen;
    FarthestLabel(s, src, q, dist, pos, farKey);
  }

  /** far lies at distance e from src inside s, and no cell reachable from src is farther. */
  ghost predicate Farthest(s: set<Cell>, src: Cell, far: Cell, e: nat) {
    && IsDistance(s, src, far, e)
    && (forall v :: Reachable(s, {src}, v) ==> WithinSteps(s, src, v, e))
  }

  /**
   * What the two sweeps of approxDiameter4 establish about d: a is a
   * farthest cell from the first sweep's source start, b is a farthest
   * cell from a at distance d, d is at most |s| - 1, and no cell reachable
   * from start is farther than d from start.
   */
  ghost predicate DoubleSweep(s: set<Cell>, start: Cell, a: Cell, b: Cell, d: nat) {
    && start in s && a in s && b in s
    && (exists e: nat :: Farthest(s, start, a, e))
    && Farthest(s, a, b, d) && d <= |s| - 1
    && (forall v :: Reachable(s, {start}, v) ==> WithinSteps(s, start, v, d))
  }

  /**
   * metrics.approxDiameter4: sweep from some claimed cell, then sweep again
   * from the farthest cell found. The result is a true walk distance between
   * two claimed cells, the eccentricity of the second sweep's source, and at
   * least the eccentricity of the first.
   */
  method ApproxDiameter4(s: set<Cell>) returns (diam: nat, ghost start: Cell, ghost a: Cell, ghost b: Cell)
    ensures s == {} ==> diam == 0
    ensures s != {} ==> DoubleSweep(s, start, a, b, diam)
  {
    if s == {} {
      return 0, Cell(0, 0), Cell(0, 0), Cell(0, 0);
    }
    var startKey :| startKey in s;
    start := startKey;
    var farA, e := Sweep(s, startKey);
    var farB, maxB := Sweep(s, farA);
    diam, a, b := maxB, farA, farB;
    EccentricityBound(s, start, a, e, diam);
  }
}
