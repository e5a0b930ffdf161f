/**
 * The two decision chains of rules.js: defaultCanClaim, a fixed
 * short-circuiting sequence of gates Z, A, B, C, J, D, I, E, F, G, H, and
 * defaultCanUnclaim, the gates U0, U1, U2. Each chain is a method built from
 * the imperative helpers of Metrics and Topology, proved equal to a ghost
 * decision function over their specifications; the guarantees of the
 * chains are lemmas about those functions.
 */
module Rules {
  import opened Grid
  import opened Sums
  import opened Walks
  import opened Metrics
  import opened Topology

  /** The rule modules a decision can name. */
  datatype Gate = U0 | U1 | U2 | Z | A | B | C | J | D | I | E | F | G | H

  /** The module string of a rejection: the gate's code, a full-width bar, its label (the reason texts are not modelled). */
  function ModuleName(g: Gate): (m: string)
    ensures '｜' in m
  {
    match g
    case U0 => "U0｜撤销：非已圈地"
    case U1 => "U1｜撤销：保持连通"
    case U2 => "U2｜撤销：不造洞/不扩洞"
    case Z => "Z｜重复圈地"
    case A => "A｜四邻接扩张"
    case B => "B｜双邻接门槛"
    case C => "C｜长臂抑制"
    case J => "J｜邻域支撑(8/24)"
    case D => "D｜形状紧凑度(P/A)"
    case I => "I｜直径上限(D)"
    case E => "E｜端点数上限"
    case F => "F｜禁止空心(洞)"
    case G => "G｜外接方填充率(A/L²)"
    case H => "H｜内接实心方占比(Lin²/A)"
  }

  /** Different gates reject with different module strings. */
  lemma ModuleNamesDistinct(g: Gate, h: Gate)
    ensures ModuleName(g) == ModuleName(h) ==> g == h
  {
  }

  /** The result of a rule: ok(), or reject(module, reason) with the module as a gate. */
  datatype Decision = Accept | Reject(gate: Gate)

  /** The toggles and thresholds of state.rules. */
  datatype RuleConfig = RuleConfig(
    requireTwoAdj: bool,
    limitArm: bool, maxArmLen: int,
    limitSupport: bool, supportM: int, supportN: int,
    limitPA: bool, maxPA: real,
    limitDiam: bool, maxDiam: int,
    limitEndpoints: bool, maxEndpoints: int,
    forbidHoles: bool,
    limitOuterFill: bool, minOuterFill: real,
    limitInnerShare: bool, minInnerShare: real)

  /** The rules of a fresh state. */
  const DefaultRules := RuleConfig(
    false,
    true, 6,
    true, 1, 5,
    false, 3.5,
    false, 64,
    false, 64,
    true,
    false, 0.65,
    false, 0.2)

  /** The cached state.metrics record that render refreshes after every change. */
  datatype MetricsCache = MetricsCache(
    area: nat, perim: int, diam: int, endpoints: int, bounds: Option<Bounds>,
    outerFill: real, innerShare: real, maxFilledSquare: int)

  /** The metrics of a fresh state: all zero, no bounds. */
  const InitialMetrics := MetricsCache(0, 0, 0, 0, None, 0.0, 0.0, 0)

  // ---------------------------------------------------------------------------
  // The cached values as defaultCanClaim reads them: `cache.X || recompute`

  function Area0(cache: MetricsCache, s: set<Cell>): nat {
    if cache.area != 0 then cache.area else |s|
  }

  ghost function Bounds0(cache: MetricsCache, s: set<Cell>): Option<Bounds> {
    if cache.bounds.Some? then cache.bounds else BoundsOf(s)
  }

  ghost function Perim0(cache: MetricsCache, s: set<Cell>): int {
    if cache.perim != 0 then cache.perim else Perimeter(s)
  }

  ghost function Ends0(cache: MetricsCache, s: set<Cell>): int {
    if cache.endpoints != 0 then cache.endpoints else Endpoints(s)
  }

  /**
   * d is a value approxDiameter4 can return on t: 0 for no cells, otherwise
   * the result of its two sweeps for some choice of start cell and farthest
   * cells (the source leaves both to the iteration order).
   */
  ghost predicate DiameterEstimate(t: set<Cell>, d: nat) {
    && (t == {} ==> d == 0)
    && (t != {} ==> exists start, a, b :: DoubleSweep(t, start, a, b, d))
  }

  /** On the two cells (0, 0) and (1, 0) the only value approxDiameter4 can return is 1. */
  lemma PairDiameter(d: nat)
    requires DiameterEstimate({Cell(0, 0), Cell(1, 0)}, d)
    ensures d == 1
  {
    var t := {Cell(0, 0), Cell(1, 0)};
    var start, a, b :| DoubleSweep(t, start, a, b, d);
    assert |t| == 2;
    PairFarthest(a, b, d);
  }

  /** A farthest cell from either cell of {(0, 0), (1, 0)} is one step away. */
  lemma PairFarthest(src: Cell, far: Cell, e: nat)
    requires src in {Cell(0, 0), Cell(1, 0)} && Farthest({Cell(0, 0), Cell(1, 0)}, src, far, e)
    ensures e >= 1
  {
    var t := {Cell(0, 0), Cell(1, 0)};
    var o := Cell(1 - src.x, 0);
    var p := [src, o];
    AdjacentIffUnitDistance(src, o);
    assert Step(p, 0);
    WitnessReach(p, t, src, o);
    WithinStepsAtLeastManhattan(t, src, o, e);
  }

  /** The straight path of three cells along the x axis. */
  const Path3: set<Cell> := {Cell(0, 0), Cell(1, 0), Cell(2, 0)}

  /** Inside Path3 any two of its cells are joined by a walk of Manhattan-distance steps. */
  lemma Path3Walk(u: Cell, w: Cell) returns (p: seq<Cell>)
    requires u in Path3 && w in Path3
    ensures WalkFromTo(p, Path3, u, w) && |p| == Manhattan(u, w) + 1
  {
    var m := Cell(1, 0);
    assert u.z == 0 && w.z == 0 && 0 <= u.x <= 2 && 0 <= w.x <= 2;
    if u == w {
      p := [u];
    } else if u == m || w == m {
      p := [u, w];
      assert Adjacent(u, w) by {
        AdjacentIffUnitDistance(u, w);
      }
      assert Step(p, 0);
    } else {
      p := [u, m, w];
      assert Adjacent(u, m) && Adjacent(m, w) by {
        AdjacentIffUnitDistance(u, m);
        AdjacentIffUnitDistance(m, w);
      }
      assert Step(p, 0) && Step(p, 1);
    }
  }

  /** The eccentricity of a cell of Path3: 1 for the middle cell, 2 for an end. */
  function Path3Ecc(c: Cell): nat {
    if c == Cell(1, 0) then 1 else 2
  }

  /** No two cells of Path3 are farther apart than the eccentricity, and only an end is that far from anything. */
  lemma Path3Span(u: Cell, w: Cell)
    requires u in Path3 && w in Path3
    ensures Manhattan(u, w) <= Path3Ecc(u)
    ensures Manhattan(u, w) == Path3Ecc(u) ==> Path3Ecc(w) == 2
  {
  }

  /** Inside Path3 a farthest cell from src lies at the eccentricity of src. */
  lemma Path3Farthest(src: Cell, far: Cell, e: nat)
    requires src in Path3 && Farthest(Path3, src, far, e)
    ensures far in Path3 && e == Manhattan(src, far) == Path3Ecc(src)
  {
    var o := if src == Cell(0, 0) then Cell(2, 0) else Cell(0, 0);
    assert Manhattan(src, o) == Path3Ecc(src);
    var p := Path3Walk(src, o);
    WitnessReach(p, Path3, src, o);
    WithinStepsAtLeastManhattan(Path3, src, o, e);
    var w :| WalkFromTo(w, Path3, src, far) && |w| == e + 1;
    WalkAtLeastManhattan(w, Path3);
    assert far in Path3;
    var q := Path3Walk(src, far);
    Path3Span(src, far);
  }

  /**
   * On Path3 the only value approxDiameter4 can return is 2: its second
   * sweep always starts from an end of the path, whatever the start cell.
   */
  lemma PathDiameter(d: nat)
    requires DiameterEstimate(Path3, d)
    ensures d == 2
  {
    var start, a, b :| DoubleSweep(Path3, start, a, b, d);
    var e: nat :| Farthest(Path3, start, a, e);
    Path3Farthest(start, a, e);
    Path3Span(start, a);
    Path3Farthest(a, b, d);
  }

  /** The cached counts defaultCanClaim reads are those of s. */
  ghost predicate FreshCounts(cache: MetricsCache, s: set<Cell>) {
    && cache.area == |s|
    && cache.perim == Perimeter(s)
    && cache.endpoints == Endpoints(s)
    && cache.bounds == BoundsOf(s)
  }

  /** The cache holds what render computes for s. */
  ghost predicate Fresh(cache: MetricsCache, s: set<Cell>) {
    && FreshCounts(cache, s)
    && cache.diam >= 0 && DiameterEstimate(s, cache.diam)
    && cache.maxFilledSquare == LargestSquare(s, BoundsOf(s))
    && cache.outerFill == (if |s| == 0 || BoundsOf(s).value.L == 0 then 0.0 else SquareFill(|s|, BoundsOf(s).value.L))
    && cache.innerShare == (if |s| == 0 then 0.0 else SquareShare(cache.maxFilledSquare, |s|))
  }

  // ---------------------------------------------------------------------------
  // The quantities the gates compare

  /** The exact quotient n / d of two integers. */
  function Ratio(n: int, d: int): real
    requires d != 0
  {
    n as real / d as real
  }

  /** Gate D: (perim0 + 4 - 2 nAdj) / (area0 + 1). */
  function PaRatio(perim0: int, nAdj: int, area0: nat): real {
    Ratio(perim0 + (4 - 2 * nAdj), area0 + 1)
  }

  /** `b?.L || 1`: the side of the bounding square, 1 where there is none. */
  function SideOrOne(b: Option<Bounds>): (l: int)
    ensures l != 0 && (b.Some? && b.value.L != 0 ==> l == b.value.L)
  {
    if b.Some? && b.value.L != 0 then b.value.L else 1
  }

  /** n / l², the share of an l-square that n cells fill. */
  function SquareFill(n: int, l: int): real
    requires l != 0
  {
    Ratio(n, l * l)
  }

  /** Gate G: area0 / L0², the fill of the current bounding square. */
  function CurFill(area0: nat, bounds0: Option<Bounds>): real {
    SquareFill(area0, SideOrOne(bounds0))
  }

  /** Gate G: (area0 + 1) / L1², the fill of the bounding square once c is added. */
  function NextFill(area0: nat, bounds0: Option<Bounds>, c: Cell): real {
    SquareFill(area0 + 1, SideOrOne(Some(UpdateBoundsWithCell(bounds0, c))))
  }

  /** Gate G's improve-or-hold test: it fires when the fill drops below the minimum, or gets worse below it. */
  predicate FillFails(cur: real, next: real, min: real) {
    if cur >= min then next < min else next < cur
  }

  /** lin² / n, the share of n cells an lin-square takes. */
  function SquareShare(lin: int, n: int): real
    requires n != 0
  {
    Ratio(lin * lin, n)
  }

  /** Gate H: Lin² / (area0 + 1). */
  function InnerShare(lin: int, area0: nat): real {
    SquareShare(lin, area0 + 1)
  }

  /** Gate F: with no holes, any hole fires; otherwise a larger hole count does. */
  predicate HolesGrow(cur: set<Cell>, next: set<Cell>) {
    if |cur| == 0 then |next| > 0 else |next| > |cur|
  }

  /** The change of the endpoint count the gate E loop computes for a new cell c. */
  function EndpointDelta(s: set<Cell>, c: Cell): int {
    (if Degree(s, c) == 1 then 1 else 0) + SeqSum(Neighbors4(c), EndpointChange(s))
  }

  // ---------------------------------------------------------------------------
  // defaultCanClaim

  /**
   * The condition of each step of defaultCanClaim taken on its own (with its
   * toggle): the chain rejects at the first one that holds.
   */
  datatype Checks = Checks(z: bool, empty: bool, a: bool, b: bool, c: bool, j: bool, d: bool,
                           i: bool, e: bool, f: bool, g: bool, h: bool)

  /** Gate C: with limitArm on and one claimed neighbour, the arm from c is longer than maxArmLen. */
  ghost predicate ArmFails(s: set<Cell>, rules: RuleConfig, c: Cell) {
    rules.limitArm && Degree(s, c) == 1 && Arm(s + {c}, c) > rules.maxArmLen
  }

  /** Gate J: with limitSupport on, the 8-window holds no more than supportM claimed cells or the 24-window no more than supportN. */
  ghost predicate SupportFails(s: set<Cell>, rules: RuleConfig, c: Cell) {
    rules.limitSupport && !(|Ring(c, 1) * s| > rules.supportM && |Ring(c, 2) * s| > rules.supportN)
  }

  /** Gate D: with limitPA on, the incremental perimeter-to-area ratio exceeds maxPA. */
  ghost predicate PaFails(s: set<Cell>, rules: RuleConfig, cache: MetricsCache, c: Cell) {
    rules.limitPA && PaRatio(Perim0(cache, s), Degree(s, c), Area0(cache, s)) > rules.maxPA
  }

  /** Gate E: with limitEndpoints on, the endpoint count once c joins exceeds maxEndpoints. */
  ghost predicate EndpointsFail(s: set<Cell>, rules: RuleConfig, cache: MetricsCache, c: Cell) {
    rules.limitEndpoints && Ends0(cache, s) + EndpointDelta(s, c) > rules.maxEndpoints
  }

  /** Gate F: with forbidHoles on, the holes grow in the sense of HolesGrow. */
  ghost predicate HolesFail(s: set<Cell>, rules: RuleConfig, c: Cell) {
    rules.forbidHoles && HolesGrow(Holes(s), Holes(s + {c}))
  }

  /** Gate G: with limitOuterFill on, the fill of the bounding square fails improve-or-hold. */
  ghost predicate OuterFillFails(s: set<Cell>, rules: RuleConfig, cache: MetricsCache, c: Cell) {
    rules.limitOuterFill &&
      FillFails(CurFill(Area0(cache, s), Bounds0(cache, s)), NextFill(Area0(cache, s), Bounds0(cache, s), c), rules.minOuterFill)
  }

  /** Gate H: with limitInnerShare on, the largest filled square of s + {c} takes less than minInnerShare. */
  ghost predicate InnerShareFails(s: set<Cell>, rules: RuleConfig, cache: MetricsCache, c: Cell) {
    rules.limitInnerShare &&
      InnerShare(LargestSquare(s + {c}, Some(UpdateBoundsWithCell(Bounds0(cache, s), c))), Area0(cache, s)) < rules.minInnerShare
  }

  /** The conditions for claiming c; diam stands for whatever approxDiameter4 returns on s + {c}. */
  ghost function ClaimChecks(s: set<Cell>, rules: RuleConfig, cache: MetricsCache, c: Cell, diam: int): Checks {
    var nAdj := Degree(s, c);
    Checks(
      c in s,
      |s| == 0,
      nAdj == 0,
      rules.requireTwoAdj && nAdj < 2,
      ArmFails(s, rules, c),
      SupportFails(s, rules, c),
      PaFails(s, rules, cache, c),
      rules.limitDiam && diam > rules.maxDiam,
      EndpointsFail(s, rules, cache, c),
      HolesFail(s, rules, c),
      OuterFillFails(s, rules, cache, c),
      InnerShareFails(s, rules, cache, c))
  }

  /** The chain from gate I on. */
  function LateChain(k: Checks): Decision {
    if k.i then Reject(I)
    else if k.e then Reject(E)
    else if k.f then Reject(F)
    else if k.g then Reject(G)
    else if k.h then Reject(H)
    else Accept
  }

  /** The short-circuit chain of defaultCanClaim over the conditions. */
  function Chain(k: Checks): Decision {
    if k.z then Reject(Z)
    else if k.empty then Accept
    else if k.a then Reject(A)
    else if k.b then Reject(B)
    else if k.c then Reject(C)
    else if k.j then Reject(J)
    else if k.d then Reject(D)
    else LateChain(k)
  }

  /** defaultCanClaim as a value. */
  ghost function ClaimDecision(s: set<Cell>, rules: RuleConfig, cache: MetricsCache, c: Cell, diam: int): Decision {
    Chain(ClaimChecks(s, rules, cache, c, diam))
  }

  /** The claim gates in the order defaultCanClaim tries them. */
  const ClaimGates: seq<Gate> := [Z, A, B, C, J, D, I, E, F, G, H]

  /** The position of a claim gate in the chain (the unclaim gates have none). */
  function ClaimRank(g: Gate): int {
    match g
    case Z => 0 case A => 1 case B => 2 case C => 3 case J => 4 case D => 5
    case I => 6 case E => 7 case F => 8 case G => 9 case H => 10
    case _ => -1
  }

  /** Whether gate g rejects once reached; all but Z are passed over for an empty set. */
  predicate Fires(g: Gate, k: Checks) {
    match g
    case Z => k.z
    case A => !k.empty && k.a
    case B => !k.empty && k.b
    case C => !k.empty && k.c
    case J => !k.empty && k.j
    case D => !k.empty && k.d
    case I => !k.empty && k.i
    case E => !k.empty && k.e
    case F => !k.empty && k.f
    case G => !k.empty && k.g
    case H => !k.empty && k.h
    case _ => false
  }

  /** The chain gets as far as gate I: every earlier step passes on. */
  predicate ReachesLate(k: Checks) {
    !k.z && !k.empty && !k.a && !k.b && !k.c && !k.j && !k.d
  }

  /** No gate ranked below r fires: the chain reaches the gate of rank r. */
  predicate Reaches(r: int, k: Checks) {
    forall h :: 0 <= ClaimRank(h) < r ==> !Fires(h, k)
  }

  /**
   * The order of the chain: a claim is rejected by gate g exactly when g
   * fires and no gate before it does, and accepted exactly when no gate
   * fires at all.
   */
  lemma ChainOrder(k: Checks, g: Gate)
    ensures Chain(k) == Reject(g) <==> ClaimRank(g) >= 0 && Fires(g, k) && Reaches(ClaimRank(g), k)
    ensures Chain(k) == Accept <==> Reaches(11, k)
  {
    ChainRejects(k, g);
    ChainAccepts(k);
  }

  /** The rejection half of ChainOrder. */
  lemma ChainRejects(k: Checks, g: Gate)
    ensures Chain(k) == Reject(g) <==> ClaimRank(g) >= 0 && Fires(g, k) && Reaches(ClaimRank(g), k)
  {
    if Chain(k) == Reject(g) {
      RejectedGateReached(k, g);
    }
    if ClaimRank(g) >= 0 && Fires(g, k) && Reaches(ClaimRank(g), k) {
      ReachedGateRejects(k, g);
    }
  }

  /** A gate that rejects has fired, and no gate before it has. */
  lemma RejectedGateReached(k: Checks, g: Gate)
    requires Chain(k) == Reject(g)
    ensures ClaimRank(g) >= 0 && Fires(g, k) && Reaches(ClaimRank(g), k)
  {
    forall h | 0 <= ClaimRank(h) < ClaimRank(g) ensures !Fires(h, k) {
    }
  }

  /** A gate that fires once every gate before it has passed rejects. */
  lemma ReachedGateRejects(k: Checks, g: Gate)
    requires ClaimRank(g) >= 0 && Fires(g, k) && Reaches(ClaimRank(g), k)
    ensures Chain(k) == Reject(g)
  {
    assert ClaimRank(g) > 0 ==> !Fires(Z, k);
    assert ClaimRank(g) > 1 ==> !Fires(A, k);
    assert ClaimRank(g) > 2 ==> !Fires(B, k);
    assert ClaimRank(g) > 3 ==> !Fires(C, k);
    assert ClaimRank(g) > 4 ==> !Fires(J, k);
    assert ClaimRank(g) > 5 ==> !Fires(D, k);
    assert ClaimRank(g) > 6 ==> !Fires(I, k);
    assert ClaimRank(g) > 7 ==> !Fires(E, k);
    assert ClaimRank(g) > 8 ==> !Fires(F, k);
    assert ClaimRank(g) > 9 ==> !Fires(G, k);
  }

  /** An acceptance of a non-empty set has passed every gate. */
  lemma AcceptedPassesAll(k: Checks)
    requires Chain(k) == Accept && !k.empty
    ensures !k.z && !k.a && !k.b && !k.c && !k.j && !k.d && !k.i && !k.e && !k.f && !k.g && !k.h
  {
  }

  /** The acceptance half of ChainOrder. */
  lemma ChainAccepts(k: Checks)
    ensures Chain(k) == Accept <==> Reaches(11, k)
  {
    if Chain(k) == Accept {
      forall h | 0 <= ClaimRank(h) < 11 ensures !Fires(h, k) {
      }
    }
    if Reaches(11, k) {
      assert !Fires(Z, k) && !Fires(A, k) && !Fires(B, k) && !Fires(C, k) && !Fires(J, k) && !Fires(D, k);
      assert !Fires(I, k) && !Fires(E, k) && !Fires(F, k) && !Fires(G, k) && !Fires(H, k);
    }
  }

  /** The same order stated for defaultCanClaim itself. */
  lemma ClaimChainOrder(s: set<Cell>, rules: RuleConfig, cache: MetricsCache, c: Cell, diam: int, g: Gate)
    ensures var k := ClaimChecks(s, rules, cache, c, diam);
      ClaimDecision(s, rules, cache, c, diam) == Reject(g) <==> ClaimRank(g) >= 0 && Fires(g, k) && Reaches(ClaimRank(g), k)
    ensures ClaimDecision(s, rules, cache, c, diam) == Accept <==> Reaches(11, ClaimChecks(s, rules, cache, c, diam))
  {
    ChainOrder(ClaimChecks(s, rules, cache, c, diam), g);
  }

  /** Gate Z comes first, then the empty-set acceptance, then gate A, whatever the rules and the cache. */
  lemma ClaimFirstGates(s: set<Cell>, rules: RuleConfig, cache: MetricsCache, c: Cell, diam: int)
    ensures c in s ==> ClaimDecision(s, rules, cache, c, diam) == Reject(Z)
    ensures c !in s && s == {} ==> ClaimDecision(s, rules, cache, c, diam) == Accept
    ensures c !in s && s != {} && Degree(s, c) == 0 ==> ClaimDecision(s, rules, cache, c, diam) == Reject(A)
    ensures c !in s && s != {} && Degree(s, c) > 0 ==> ClaimDecision(s, rules, cache, c, diam) !in {Reject(Z), Reject(A)}
  {
    var k := ClaimChecks(s, rules, cache, c, diam);
    assert k.z == (c in s) && k.empty == (|s| == 0) && k.a == (Degree(s, c) == 0);
    assert ClaimDecision(s, rules, cache, c, diam) == Chain(k);
  }

  /** The rules with every optional gate switched off. */
  predicate AllOff(rules: RuleConfig) {
    && !rules.requireTwoAdj && !rules.limitArm && !rules.limitSupport && !rules.limitPA && !rules.limitDiam
    && !rules.limitEndpoints && !rules.forbidHoles && !rules.limitOuterFill && !rules.limitInnerShare
  }

  /** With every toggle off, a claim is accepted iff c is new and the set is empty or c touches it. */
  lemma ClaimAllOff(s: set<Cell>, rules: RuleConfig, cache: MetricsCache, c: Cell, diam: int)
    requires AllOff(rules)
    ensures ClaimDecision(s, rules, cache, c, diam) == Accept <==> c !in s && (s == {} || Degree(s, c) > 0)
  {
  }

  /**
   * Gate I alone, with maxDiam 0: claiming (1, 0) next to {(0, 0)} makes a
   * set whose estimated diameter is 1, so the claim is rejected there.
   */
  lemma PairRejectedAtDiameter(rules: RuleConfig, cache: MetricsCache, diam: nat)
    requires AllOff(rules.(limitDiam := false)) && rules.limitDiam && rules.maxDiam == 0
    requires DiameterEstimate({Cell(0, 0), Cell(1, 0)}, diam)
    ensures ClaimDecision({Cell(0, 0)}, rules, cache, Cell(1, 0), diam) == Reject(I)
  {
    var s, c := {Cell(0, 0)}, Cell(1, 0);
    DegreeIsClaimedNeighbourCount(s, c);
    assert Adjacent(c, Cell(0, 0));
    assert ClaimedNeighbours(s, c) == {Cell(0, 0)};
    assert s + {c} == {Cell(0, 0), Cell(1, 0)};
    PairDiameter(diam);
  }

  /**
   * Gate I alone, with maxDiam 1: claiming (2, 0) at the end of
   * {(0, 0), (1, 0)} makes Path3, whose estimated diameter is 2, so the
   * claim is rejected there.
   */
  lemma PathRejectedAtDiameter(rules: RuleConfig, cache: MetricsCache, diam: nat)
    requires AllOff(rules.(limitDiam := false)) && rules.limitDiam && rules.maxDiam == 1
    requires DiameterEstimate(Path3, diam)
    ensures ClaimDecision({Cell(0, 0), Cell(1, 0)}, rules, cache, Cell(2, 0), diam) == Reject(I)
  {
    var s, c := {Cell(0, 0), Cell(1, 0)}, Cell(2, 0);
    DegreeIsClaimedNeighbourCount(s, c);
    assert Adjacent(c, Cell(1, 0));
    assert Cell(1, 0) in ClaimedNeighbours(s, c);
    assert s + {c} == Path3;
    PathDiameter(diam);
  }

  /** Gate B: with requireTwoAdj on, a claim with one claimed neighbour is rejected there. */
  lemma ClaimTwoAdj(s: set<Cell>, rules: RuleConfig, cache: MetricsCache, c: Cell, diam: int)
    requires rules.requireTwoAdj
    ensures ClaimDecision(s, rules, cache, c, diam) == Accept ==> s == {} || Degree(s, c) >= 2
    ensures c !in s && s != {} && Degree(s, c) == 1 ==> ClaimDecision(s, rules, cache, c, diam) == Reject(B)
  {
  }

  /** With a fresh cache every `cache.X || recompute` read gives the metric of s itself. */
  lemma FreshReads(cache: MetricsCache, s: set<Cell>)
    requires FreshCounts(cache, s)
    ensures Area0(cache, s) == |s| && Bounds0(cache, s) == BoundsOf(s)
    ensures Perim0(cache, s) == Perimeter(s) && Ends0(cache, s) == Endpoints(s)
  {
  }

  /** Gate D's incremental perimeter perim0 + 4 - 2 nAdj is the perimeter of s + {c}. */
  lemma GatePerimeterIsNext(s: set<Cell>, cache: MetricsCache, c: Cell)
    requires FreshCounts(cache, s) && c !in s
    ensures PaRatio(Perim0(cache, s), Degree(s, c), Area0(cache, s)) == Ratio(Perimeter(s + {c}), |s + {c}|)
  {
    PerimeterInsert(s, c);
    assert Perim0(cache, s) + (4 - 2 * Degree(s, c)) == Perimeter(s + {c});
    assert Area0(cache, s) + 1 == |s + {c}|;
  }

  /** Gate E's incremental count is the endpoint count of s + {c}. */
  lemma GateEndpointsIsNext(s: set<Cell>, cache: MetricsCache, c: Cell)
    requires FreshCounts(cache, s) && c !in s
    ensures Ends0(cache, s) + EndpointDelta(s, c) == Endpoints(s + {c})
  {
    EndpointsInsert(s, c);
  }

  /** The fill of the bounding square of a non-empty set. */
  ghost function Fill(t: set<Cell>): real
    requires t != {}
  {
    BoundsShape(BoundsOf(t).value, t);
    SquareFill(|t|, BoundsOf(t).value.L)
  }

  /** Gate G's two fills are those of s and of s + {c} when the cache is fresh. */
  lemma GateFillsAreFills(s: set<Cell>, cache: MetricsCache, c: Cell)
    requires FreshCounts(cache, s) && c !in s && s != {}
    ensures CurFill(Area0(cache, s), Bounds0(cache, s)) == Fill(s)
    ensures NextFill(Area0(cache, s), Bounds0(cache, s), c) == Fill(s + {c})
  {
    CurFillIsFill(s, cache);
    NextFillIsFill(s, cache, c);
  }

  /** The first half of GateFillsAreFills: the current fill. */
  lemma CurFillIsFill(s: set<Cell>, cache: MetricsCache)
    requires FreshCounts(cache, s) && s != {}
    ensures CurFill(Area0(cache, s), Bounds0(cache, s)) == Fill(s)
  {
    var b := BoundsOf(s).value;
    BoundsShape(b, s);
    assert Bounds0(cache, s) == Some(b) && SideOrOne(Some(b)) == b.L && Area0(cache, s) == |s|;
  }

  /** The second half of GateFillsAreFills: the fill once c is added. */
  lemma NextFillIsFill(s: set<Cell>, cache: MetricsCache, c: Cell)
    requires FreshCounts(cache, s) && c !in s && s != {}
    ensures NextFill(Area0(cache, s), Bounds0(cache, s), c) == Fill(s + {c})
  {
    var b0 := BoundsOf(s);
    assert Bounds0(cache, s) == b0 && Area0(cache, s) == |s|;
    IncrementalBounds(b0, s, c);
    var b1 := UpdateBoundsWithCell(b0, c);
    BoundsOfIs(b1, s + {c});
    BoundsShape(b1, s + {c});
    assert |s + {c}| == |s| + 1;
    calc {
      NextFill(Area0(cache, s), Bounds0(cache, s), c);
      SquareFill(|s| + 1, b1.L);
      Fill(s + {c});
    }
  }

  /** Gate H's share is the inner-square share Lin² / A of s + {c} when the cache is fresh. */
  lemma GateShareIsShare(s: set<Cell>, cache: MetricsCache, c: Cell)
    requires FreshCounts(cache, s) && c !in s && s != {}
    ensures InnerShare(LargestSquare(s + {c}, Some(UpdateBoundsWithCell(Bounds0(cache, s), c))), Area0(cache, s)) ==
      SquareShare(LargestSquare(s + {c}, BoundsOf(s + {c})), |s + {c}|)
  {
    IncrementalBounds(BoundsOf(s), s, c);
    BoundsOfIs(UpdateBoundsWithCell(BoundsOf(s), c), s + {c});
    assert Area0(cache, s) + 1 == |s + {c}|;
  }

  /** With forbidHoles on, an accepted claim makes no hole in a hole-free set and never adds to the hole count. */
  lemma ClaimKeepsHoles(s: set<Cell>, rules: RuleConfig, cache: MetricsCache, c: Cell, diam: int)
    requires rules.forbidHoles && ClaimDecision(s, rules, cache, c, diam) == Accept
    ensures Holes(s) == {} ==> Holes(s + {c}) == {}
    ensures |Holes(s + {c})| <= |Holes(s)|
  {
    if s == {} {
      FirstClaimHasNoHoles(s, c);
    } else {
      AcceptedPassesAll(ClaimChecks(s, rules, cache, c, diam));
      HolesKept(Holes(s), Holes(s + {c}));
    }
  }

  /** The first claim leaves no holes, as there were none before. */
  lemma FirstClaimHasNoHoles(s: set<Cell>, c: Cell)
    requires s == {}
    ensures Holes(s) == {} && Holes(s + {c}) == {}
  {
    HolesInside(s);
    assert s + {c} == {c};
    SingleCellHasNoHoles(c);
  }

  /** Where gate F passes, the hole set stays empty or does not grow. */
  lemma HolesKept(cur: set<Cell>, next: set<Cell>)
    requires !HolesGrow(cur, next)
    ensures cur == {} ==> next == {}
    ensures |next| <= |cur|
  {
  }

  /** One cell fills its own bounding box, so it has no holes. */
  lemma SingleCellHasNoHoles(c: Cell)
    ensures Holes({c}) == {}
  {
    IncrementalBounds(None, {}, c);
    BoundsOfIs(UpdateBoundsWithCell(None, c), {c});
    forall d | InBox(BoundsOf({c}).value, d) ensures d in {c} {
      assert d == Cell(d.x, d.z);
    }
    FilledRectangleHasNoHoles({c});
  }

  /**
   * With limitOuterFill on, an accepted claim improves or holds the fill: a
   * fill meeting the minimum keeps meeting it, one below it does not drop.
   */
  lemma ClaimFillImproveOrHold(s: set<Cell>, rules: RuleConfig, cache: MetricsCache, c: Cell, diam: int)
    requires rules.limitOuterFill && FreshCounts(cache, s) && s != {}
    requires ClaimDecision(s, rules, cache, c, diam) == Accept
    ensures Fill(s) >= rules.minOuterFill ==> Fill(s + {c}) >= rules.minOuterFill
    ensures Fill(s) < rules.minOuterFill ==> Fill(s + {c}) >= Fill(s)
  {
    AcceptedPassesAll(ClaimChecks(s, rules, cache, c, diam));
    GateFillsAreFills(s, cache, c);
  }

  // Each gate below is evaluated by a method of its own, which says whether
  // the gate rejects once reached: that is, the gate's predicate above.

  /** Gate C: with limitArm on and one claimed neighbour, whether the arm from c grows too long. */
  method ArmGate(s: set<Cell>, rules: RuleConfig, cache: MetricsCache, c: Cell, nAdj: nat)
    returns (fires: bool)
    requires nAdj == Degree(s, c)
    ensures fires == ArmFails(s, rules, c)
  {
    fires := false;
    if rules.limitArm && nAdj == 1 {
      var armLen, _ := ArmLengthFromEndpoint4(s + {c}, c);
      fires := armLen > rules.maxArmLen;
    }
  }

  /** Gate J: with limitSupport on, whether either window around c lacks support. */
  method SupportGate(s: set<Cell>, rules: RuleConfig, c: Cell)
    returns (fires: bool)
    ensures fires == SupportFails(s, rules, c)
  {
    fires := false;
    if rules.limitSupport {
      var counts := CountRing8AndRing24(s, c);
      var pass1 := counts.ring1Claimed > rules.supportM;
      var pass12 := counts.ring12Claimed > rules.supportN;
      fires := !pass1 || !pass12;
    }
  }

  /** Gate D: with limitPA on, whether the incremental P/A ratio exceeds maxPA. */
  method CompactnessGate(s: set<Cell>, rules: RuleConfig, cache: MetricsCache, c: Cell, nAdj: nat, area0: nat)
    returns (fires: bool)
    requires nAdj == Degree(s, c) && area0 == Area0(cache, s)
    ensures fires == PaFails(s, rules, cache, c)
  {
    fires := false;
    if rules.limitPA {
      var perim0 := cache.perim;
      if perim0 == 0 {
        perim0 := PerimeterEdges(s);
      }
      var ratio := PaRatio(perim0, nAdj, area0);
      fires := ratio > rules.maxPA;
    }
  }

  /** Gate I: with limitDiam on, whether the estimated diameter of s + {c} exceeds maxDiam. */
  method DiameterGate(s: set<Cell>, rules: RuleConfig, cache: MetricsCache, c: Cell)
    returns (fires: bool, ghost diam: int)
    ensures rules.limitDiam ==> diam >= 0 && DiameterEstimate(s + {c}, diam)
    ensures fires == (rules.limitDiam && diam > rules.maxDiam)
  {
    fires, diam := false, 0;
    if rules.limitDiam {
      var d, start, a, b := ApproxDiameter4(s + {c});
      assert DoubleSweep(s + {c}, start, a, b, d);
      diam := d;
      fires := d > rules.maxDiam;
    }
  }

  /** The gate E loop: the endpoint count once c joins, from ends0 and the neighbours' degrees. */
  method EndpointCount(s: set<Cell>, c: Cell, ends0: int, nAdj: nat) returns (ends: int)
    requires nAdj == Degree(s, c)
    ensures ends == ends0 + EndpointDelta(s, c)
  {
    ends := ends0;
    if nAdj == 1 {
      ends := ends + 1;
    }
    var nb := Neighbors4(c);
    for j := 0 to 4
      invariant ends == ends0 + (if nAdj == 1 then 1 else 0) + SeqSum(nb[..j], EndpointChange(s))
    {
      assert nb[..j + 1][..j] == nb[..j];
      var n := nb[j];
      if n !in s {
        continue;
      }
      var degBefore := CountClaimedNeighbors4(s, n);
      var degAfter := degBefore + 1;
      if degBefore == 1 && degAfter == 2 {
        ends := ends - 1;
      }
      if degBefore == 0 && degAfter == 1 {
        ends := ends + 1;
      }
    }
    assert nb[..4] == nb;
  }

  /** Gate E: with limitEndpoints on, whether the endpoint count once c joins exceeds maxEndpoints. */
  method EndpointGate(s: set<Cell>, rules: RuleConfig, cache: MetricsCache, c: Cell, nAdj: nat)
    returns (fires: bool)
    requires nAdj == Degree(s, c)
    ensures fires == EndpointsFail(s, rules, cache, c)
  {
    fires := false;
    if rules.limitEndpoints {
      var ends0 := cache.endpoints;
      if ends0 == 0 {
        ends0 := CountEndpoints4(s);
      }
      var ends := EndpointCount(s, c, ends0, nAdj);
      fires := ends > rules.maxEndpoints;
    }
  }

  /** Gate F: with forbidHoles on, whether the hole set grows in the sense of gate F. */
  method HoleGate(s: set<Cell>, rules: RuleConfig, c: Cell)
    returns (fires: bool)
    ensures fires == HolesFail(s, rules, c)
  {
    fires := false;
    if rules.forbidHoles {
      var curHoles := HoleCells4(s);
      var nextHoles := HoleCells4(s + {c});
      if |curHoles| == 0 {
        fires := |nextHoles| > 0;
      } else {
        fires := |nextHoles| > |curHoles|;
      }
    }
  }

  /** Gate G: with limitOuterFill on, whether the fill of the bounding square fails improve-or-hold. */
  method OuterFillGate(s: set<Cell>, rules: RuleConfig, cache: MetricsCache, c: Cell, area0: nat,
                       bounds0: Option<Bounds>)
    returns (fires: bool)
    requires area0 == Area0(cache, s) && bounds0 == Bounds0(cache, s)
    ensures fires == OuterFillFails(s, rules, cache, c)
  {
    fires := false;
    if rules.limitOuterFill {
      var curFill := CurFill(area0, bounds0);
      var nextFill := NextFill(area0, bounds0, c);
      if curFill >= rules.minOuterFill {
        fires := nextFill < rules.minOuterFill;
      } else {
        fires := nextFill < curFill;
      }
    }
  }

  /** Gate H: with limitInnerShare on, whether the largest filled square takes too small a share. */
  method InnerShareGate(s: set<Cell>, rules: RuleConfig, cache: MetricsCache, c: Cell, area0: nat,
                        bounds0: Option<Bounds>)
    returns (fires: bool)
    requires area0 == Area0(cache, s) && bounds0 == Bounds0(cache, s)
    ensures fires == InnerShareFails(s, rules, cache, c)
  {
    fires := false;
    if rules.limitInnerShare {
      var b1 := UpdateBoundsWithCell(bounds0, c);
      var lin := MaxFilledSquareSide(s + {c}, Some(b1));
      var share := InnerShare(lin, area0);
      fires := share < rules.minInnerShare;
    }
  }

  /**
   * rules.defaultCanClaim. The diameter is computed only when gate I is
   * reached with limitDiam on; it is then a value approxDiameter4 returns.
   */
  method CanClaim(s: set<Cell>, rules: RuleConfig, cache: MetricsCache, c: Cell) returns (dec: Decision, ghost diam: int)
    ensures dec == ClaimDecision(s, rules, cache, c, diam)
    ensures rules.limitDiam && ReachesLate(ClaimChecks(s, rules, cache, c, diam)) ==>
      diam >= 0 && DiameterEstimate(s + {c}, diam)
  {
    diam := 0;
    if c in s {
      return Reject(Z), diam;
    }
    if |s| == 0 {
      return Accept, diam;
    }
    var nAdj := CountClaimedNeighbors4(s, c);
    if nAdj == 0 {
      return Reject(A), diam;
    }
    var area0 := if cache.area != 0 then cache.area else |s|;
    var bounds0 := cache.bounds;
    if bounds0.None? {
      bounds0 := ComputeBounds(s);
    }
    if rules.requireTwoAdj && nAdj < 2 {
      return Reject(B), diam;
    }
    dec, diam := MiddleGates(s, rules, cache, c, nAdj, area0, bounds0);
  }

  /** The gates from C on, reached once Z, A and B have passed. */
  method MiddleGates(s: set<Cell>, rules: RuleConfig, cache: MetricsCache, c: Cell, nAdj: nat,
                     area0: nat, bounds0: Option<Bounds>)
    returns (dec: Decision, ghost diam: int)
    requires c !in s && s != {} && nAdj == Degree(s, c) && nAdj != 0 && !(rules.requireTwoAdj && nAdj < 2)
    requires area0 == Area0(cache, s) && bounds0 == Bounds0(cache, s)
    ensures dec == ClaimDecision(s, rules, cache, c, diam)
    ensures rules.limitDiam && ReachesLate(ClaimChecks(s, rules, cache, c, diam)) ==>
      diam >= 0 && DiameterEstimate(s + {c}, diam)
  {
    diam := 0;
    var fires := ArmGate(s, rules, cache, c, nAdj);
    if fires {
      return Reject(C), diam;
    }
    fires := SupportGate(s, rules, c);
    if fires {
      return Reject(J), diam;
    }
    fires := CompactnessGate(s, rules, cache, c, nAdj, area0);
    if fires {
      return Reject(D), diam;
    }
    dec, diam := LateGates(s, rules, cache, c, nAdj, area0, bounds0);
  }

  /** The gates from I on, reached once Z to D have passed. */
  method LateGates(s: set<Cell>, rules: RuleConfig, cache: MetricsCache, c: Cell, nAdj: nat,
                   area0: nat, bounds0: Option<Bounds>)
    returns (dec: Decision, ghost diam: int)
    requires nAdj == Degree(s, c) && area0 == Area0(cache, s) && bounds0 == Bounds0(cache, s)
    ensures rules.limitDiam ==> diam >= 0 && DiameterEstimate(s + {c}, diam)
    ensures dec == LateChain(ClaimChecks(s, rules, cache, c, diam))
  {
    var fires;
    fires, diam := DiameterGate(s, rules, cache, c);
    ghost var k := ClaimChecks(s, rules, cache, c, diam);
    assert k.i == fires && k.e == EndpointsFail(s, rules, cache, c) && k.f == HolesFail(s, rules, c);
    assert k.g == OuterFillFails(s, rules, cache, c) && k.h == InnerShareFails(s, rules, cache, c);
    if fires {
      return Reject(I), diam;
    }
    fires := EndpointGate(s, rules, cache, c, nAdj);
    if fires {
      return Reject(E), diam;
    }
    fires := HoleGate(s, rules, c);
    if fires {
      return Reject(F), diam;
    }
    fires := OuterFillGate(s, rules, cache, c, area0, bounds0);
    if fires {
      return Reject(G), diam;
    }
    fires := InnerShareGate(s, rules, cache, c, area0, bounds0);
    if fires {
      return Reject(H), diam;
    }
    return Accept, diam;
  }

  // ---------------------------------------------------------------------------
  // defaultCanUnclaim

  /** defaultCanUnclaim as a value. */
  ghost function UnclaimDecision(s: set<Cell>, c: Cell): Decision {
    if c !in s then Reject(U0)
    else if |s| <= 1 then Accept
    else if !Connected(s - {c}) then Reject(U1)
    else if Holes(s) == {} && Holes(s - {c}) != {} then Reject(U2)
    else if Holes(s) != {} && !(Holes(s - {c}) <= Holes(s)) then Reject(U2)
    else Accept
  }

  /** The loop over nextHoles: whether every one of them is a current hole. */
  method AllIn(next: set<Cell>, cur: set<Cell>) returns (r: bool)
    ensures r <==> next <= cur
  {
    var rest := next;
    while rest != {}
      invariant rest <= next && next - rest <= cur
      decreases |rest|
    {
      var hk :| hk in rest;
      if hk !in cur {
        return false;
      }
      ScanStep(next, rest, hk);
      rest := rest - {hk};
    }
    return true;
  }

  /** rules.defaultCanUnclaim. */
  method CanUnclaim(s: set<Cell>, c: Cell) returns (dec: Decision)
    ensures dec == UnclaimDecision(s, c)
  {
    if c !in s {
      return Reject(U0);
    }
    if |s| <= 1 {
      return Accept;
    }
    var nextSet := s - {c};
    var connected := IsConnected4(nextSet);
    if !connected {
      return Reject(U1);
    }
    var curHoles := HoleCells4(s);
    var nextHoles := HoleCells4(nextSet);
    if |curHoles| == 0 {
      if |nextHoles| > 0 {
        return Reject(U2);
      }
    } else {
      var inside := AllIn(nextHoles, curHoles);
      if !inside {
        return Reject(U2);
      }
    }
    return Accept;
  }

  /** Gate U0 rejects exactly the cells that are not claimed; the last cell can always be given up. */
  lemma UnclaimFirstGates(s: set<Cell>, c: Cell)
    ensures UnclaimDecision(s, c) == Reject(U0) <==> c !in s
    ensures s == {c} ==> UnclaimDecision(s, c) == Accept
  {
  }

  /** An accepted unclaim leaves a connected set whose holes were all holes before. */
  lemma UnclaimKeepsShape(s: set<Cell>, c: Cell)
    requires UnclaimDecision(s, c) == Accept
    ensures c in s && Connected(s - {c})
    ensures Holes(s - {c}) <= Holes(s)
  {
    if |s| <= 1 {
      assert s - {c} == {} by {
        assert |s - {c}| == |s| - 1;
      }
      SmallConnected(s - {c});
      HolesInside(s);
    }
  }
}
