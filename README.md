# ChunkPreClaimEvent claim engine in Dafny

ChunkPreClaimEvent is a browser tool for planning a territory on an infinite grid. Each cell is `(x, z)`, keyed by the string `"x,z"`. Clicking a cell claims or unclaims it. Every claim goes through a fixed chain of rule gates first:

- Z: not already claimed;
- an empty territory accepts any unclaimed cell at this point, before the gates below;
- A: touches the territory;
- B: two claimed neighbours;
- C: arm length;
- J: 8/24-cell support;
- D: perimeter-to-area ratio;
- I: diameter;
- E: endpoint count;
- F: no holes;
- G: bounding-square fill;
- H: inner-square share.

Unclaims go through U0 (cell is claimed), U1 (stays connected) and U2 (no new or larger holes). After every change the page re-renders. It recomputes the metrics record, the frontier ("available") cells, the viewport size step and anchoring, and the blocked cells.

The project models that core, file by file:

| Dafny file | models |
|---|---|
| `grid.dfy` (`Grid`) | `src/utils.js`: keys, parsing keys, the four neighbours |
| `sums.dfy`, `walks.dfy`, `sweeps.dfy` | helpers: finite sums, walks and reachability, BFS labelling facts |
| `metrics.dfy` (`Metrics`) | `src/metrics.js`: every loop as a method proved against a specification function |
| `topology.dfy` (`Topology`) | the floods, arm walk and ring counts of `src/rules.js` |
| `rules.dfy` (`Rules`) | the two decision chains of `src/rules.js` |
| `view.dfy` (`View`) | the computations of `src/render.js` |
| `session.dfy` (`Session`) | the glue of `src/main.js` and the state object of `src/state.js` |

`state.js`'s object becomes the class `Session.Session`. Its fields are updated in place by the event handlers.

Modelling choices:

- **Cells.** A cell is `datatype Cell(x: int, z: int)`. The claimed set is a `set<Cell>`, and the key round trip is proved separately.
- **Iteration order.** Where the source iterates a JS `Set` or `Map`, the model picks the next element with `:|`, so every property holds for every iteration order.
- **Diameter.** `approxDiameter4` depends on that order, so its result is carried as a ghost value. Each claim decision is then stated for a diameter that `approxDiameter4` could return (Rules.DiameterEstimate): 0 for no cells; otherwise there is a start cell, a farthest cell a from it, and a farthest cell b from a at walk distance d (Metrics.DoubleSweep). The start cell and the tie-breaks are left open, because the source leaves them to the iteration order. On {(0,0), (1,0)} this forces d = 1 (Rules.PairDiameter), and on the 3-cell path {(0,0), (1,0), (2,0)} it forces d = 2 (Rules.PathDiameter).
- **Ratios.** The ratio gates are exact `real` quotients.

## Model

| member | source | states |
|---|---|---|
| Grid.Key | src/utils.js:5 | the key splits at its comma into exactly two fields, the decimal texts of x and of z |
| Grid.ParseKey | src/utils.js:7-10 | a text without a comma gives no cell, and a parsed cell's x is the number in the first field |
| Grid.KeyRoundTrip | src/utils.js:5-10 | parseKey(key(x, z)) gives back exactly (x, z), negative coordinates included |
| Grid.KeyInjective | src/utils.js:5 | distinct cells have distinct keys |
| Grid.ParseIntToString | src/utils.js:8 | Number() of the decimal text of an integer gives back that integer |
| Grid.Neighbors4 | src/utils.js:12-17 | exactly four cells (Grid.Neighbors4Shape states that they are distinct and one step away) |
| Grid.Neighbors4Shape | src/utils.js:12-17 | neighbors4 gives four pairwise-distinct cells, each at Manhattan distance 1, none equal to the centre |
| Grid.AdjacentIffUnitDistance | src/utils.js:12-17 | b is among the neighbours of a iff their Manhattan distance is 1 |
| Grid.AdjacentSymmetric | src/utils.js:12-17 | the neighbour relation is symmetric |
| Grid.AdjacentIrreflexive | src/utils.js:12-17 | no cell is its own neighbour |
| Metrics.CountClaimedNeighbors4 | src/metrics.js:3-9 | the loop counts the claimed neighbours: the result is Degree(s, c) |
| Metrics.DegreeIsClaimedNeighbourCount | src/metrics.js:3-9 | the degree is the size of the set of claimed cells adjacent to c, at most 4 |
| Metrics.DegreeIgnoresSelf | src/metrics.js:3-9 | the degree is the same whether c itself is claimed or not |
| Metrics.DegreeInsert | src/metrics.js:3-9 | claiming c raises the degree of exactly its four neighbours, by one |
| Metrics.CountEndpoints4 | src/metrics.js:11-19 | the loop returns Endpoints(s), the number of claimed cells with exactly one claimed neighbour |
| Metrics.EndpointsIsCount | src/metrics.js:11-19 | the endpoint count is the size of the endpoint set, at most \|s\| |
| Metrics.EndpointsInsert | src/rules.js:288-300 | claiming c changes the endpoint count by c's own status plus the change of each claimed neighbour |
| Metrics.OpenSides | src/metrics.js:25-27 | the inner loop counts 4 − Degree(s, c) open sides |
| Metrics.PerimeterEdges | src/metrics.js:21-30 | the loop returns Perimeter(s), the sum over claimed cells of their unclaimed sides |
| Metrics.PerimeterBounds | src/metrics.js:21-30 | 0 ≤ perimeter ≤ 4·\|s\| |
| Metrics.PerimeterInsert | src/rules.js:271-273 | for c ∉ s, Perimeter(s ∪ {c}) = Perimeter(s) + 4 − 2·Degree(s, c) |
| Metrics.UpdateBoundsWithCell | src/metrics.js:88-100 | the grown box contains c and every side of the old box |
| Metrics.IncrementalBounds | src/metrics.js:88-100 | growing the bounds of s by c (a 1×1 box when there were none) gives the bounds of s ∪ {c} |
| Metrics.BoundsOf | src/metrics.js:69-86 | the bounds are None iff s is empty, otherwise the smallest box holding s with every extreme attained |
| Metrics.BoundsUnique | src/metrics.js:69-86 | a set has only one bounding box |
| Metrics.BoundsShape | src/metrics.js:82-84 | w, h ≥ 1 and L = max(w, h) ≥ 1 |
| Metrics.BoundsOfIs | src/metrics.js:69-86 | any box bounding s is BoundsOf(s) |
| Metrics.Widen | src/metrics.js:77-80 | the four comparisons give the min and max of the extremes and the cell |
| Metrics.ComputeBounds | src/metrics.js:69-86 | the loop returns BoundsOf(s): None for the empty set, otherwise the exact box |
| Metrics.DpSound | src/metrics.js:107-122 | each table entry is the side of a claimed square with that corner that stays inside the scanned region |
| Metrics.DpMaximal | src/metrics.js:107-122 | no claimed square with that corner inside the scanned region is larger than the entry |
| Metrics.ScanRow | src/metrics.js:110-122 | one row pass moves dp from row z − 1 to row z in place and keeps the running maximum over the table |
| Metrics.MaxFilledSquareSide | src/metrics.js:102-125 | the result is the largest k with a claimed k×k square in the box; 0 without bounds or cells; at most min(w, h); equal to min(w, h) for a filled box |
| Metrics.TableIsLargest | src/metrics.js:108-124 | the maximum of the table over the box is the largest claimed square in it |
| Metrics.Visit | src/metrics.js:47-52 | an unlabelled claimed neighbour gets label d + 1 and joins the queue; otherwise nothing changes |
| Metrics.RelaxNeighbours | src/metrics.js:43-52 | after the four neighbours of the dequeued cell, that cell is relaxed and the layering holds |
| Metrics.BfsDistances | src/metrics.js:37-53 | the finished queue is breadth-first: labels are walk lengths and every labelled cell is relaxed |
| Metrics.Sweep | src/metrics.js:37-62 | the sweep returns a farthest cell from src (a cell at true walk distance maxD, with every reachable cell within maxD), and maxD ≤ \|s\| − 1 |
| Metrics.ApproxDiameter4 | src/metrics.js:32-67 | 0 for the empty set; otherwise, for some start cell: a is a farthest cell from start, the result is the distance from a to a farthest cell b from a, at most \|s\| − 1, and at least the eccentricity of start |
| Sweeps.FarthestLabel | src/metrics.js:54-61 | the largest label of a finished sweep is the distance to that cell and bounds the distance to every reachable cell |
| Sweeps.EccentricityBound | src/metrics.js:64-66 | the second sweep's result bounds the eccentricity of the start cell |
| Topology.SmallConnected | src/rules.js:42 | a set of at most one cell is connected |
| Topology.FloodComplete | src/rules.js:48-57 | a drained flood holding every source visits exactly the cells reachable from them |
| Topology.FloodDecidesConnected | src/rules.js:59 | the flood from the start visits all of s iff s is connected |
| Topology.ExpandConnected | src/rules.js:50-56 | the neighbour loop of isConnected4 keeps the flood state, and the queue and visited set grow together |
| Topology.IsConnected4 | src/rules.js:41-60 | the result is true iff every two claimed cells are joined by a walk through claimed cells |
| Topology.TryPush | src/rules.js:129-135 | a cell is visited and queued iff it is in the grown box, unclaimed and new |
| Topology.TryNeighbour | src/rules.js:148-150 | trying neighbour j keeps the flood state of the neighbour loop |
| Topology.ExpandExterior | src/rules.js:146-151 | expanding the dequeued cell keeps the exterior flood well formed |
| Topology.SeedRows | src/rules.js:137-140 | every unclaimed cell of the bottom and top rows of the grown box is seeded |
| Topology.SeedColumns | src/rules.js:141-144 | every unclaimed cell of the left and right columns of the grown box is seeded |
| Topology.DrainExterior | src/rules.js:146-151 | the queue loop runs until every queued cell is expanded |
| Topology.FloodIsExterior | src/rules.js:137-151 | the drained flood visits exactly the unclaimed cells reachable from the frame |
| Topology.ExteriorFlood | src/rules.js:125-151 | the flood shared by hasHoles4 and holeCells4 visits exactly the exterior |
| Topology.GrownBounds | src/rules.js:116-123 | the box is the bounds of s grown by one on every side |
| Topology.CollectColumn | src/rules.js:154-158 | one column adds exactly its unclaimed, unflooded cells to holes |
| Topology.HoleCells4 | src/rules.js:112-162 | the result is Holes(s): the unclaimed cells of the grown box that the exterior flood does not reach |
| Topology.FindHoleInColumn | src/rules.js:103-107 | found means a hole exists; otherwise every open cell of the column was flooded |
| Topology.HasHoles4 | src/rules.js:62-110 | the result is true iff holeCells4 is non-empty |
| Topology.InnerOrExterior | src/rules.js:119-123 | an unclaimed cell of the grown box is inside the bounds or exterior |
| Topology.HolesInside | src/rules.js:112-162 | holes are disjoint from s and lie inside its bounds; the empty set has none |
| Topology.FilledRectangleHasNoHoles | src/rules.js:112-162 | a set filling its whole bounding box has no holes |
| Topology.Ahead | src/rules.js:26-28 | the filter keeps exactly the claimed neighbours other than the previous cell |
| Topology.ArmAdvance | src/rules.js:22-36 | one pass either stops with the arm length or steps to the one way on, marking the cell visited |
| Topology.ArmStops | src/rules.js:31-32 | where the walk breaks, its length so far is the arm length |
| Topology.ArmLengthFromEndpoint4 | src/rules.js:16-39 | the loop terminates with the arm length; it walks only between adjacent claimed cells; the length is at most \|s ∪ {start}\| |
| Topology.RingScanStep | src/rules.js:182-187 | a scanned cell adds to the claimed count, or to the available count when it is a frontier cell |
| Topology.CountColumn | src/rules.js:177-188 | one column of the window keeps the counts equal to those of the cells scanned |
| Topology.CountForRadius | src/rules.js:173-191 | claimed and available are the claimed and frontier cells of the ring around the centre |
| Topology.CountRing8AndRing24 | src/rules.js:167-202 | the four counts are those of the radius-1 and radius-2 windows |
| Topology.RingCard | src/rules.js:176-178 | the window of radius r has (2r+1)² − 1 cells |
| Topology.RingBounds | src/rules.js:167-202 | ring1 counts sum to at most 8, ring12 counts to at most 24, and each ring1 count is at most the ring12 count |
| Rules.ModuleName | src/rules.js:210-352 | every module string contains the full-width bar `｜` that separates the gate code from its label |
| Rules.ModuleNamesDistinct | src/rules.js:210-352 | different gates reject with different module strings |
| Rules.SideOrOne | src/rules.js:324 | `bounds0?.L \|\| 1` is never 0 and is L when there is one |
| Rules.ChainOrder | src/rules.js:231-356 | a claim is rejected by gate g iff g fires and no earlier gate does; it is accepted iff no gate fires |
| Rules.ChainRejects | src/rules.js:231-356 | the rejection half of the chain order |
| Rules.ChainAccepts | src/rules.js:231-356 | the acceptance half of the chain order |
| Rules.ClaimChainOrder | src/rules.js:231-356 | the chain order, stated for defaultCanClaim's decision |
| Rules.ClaimFirstGates | src/rules.js:232-236 | whatever the rules and the cache: c ∈ s rejects with Z, then s = ∅ accepts, then no claimed neighbour rejects with A |
| Rules.ClaimAllOff | src/rules.js:242-356 | with every toggle off, a claim is accepted iff c ∉ s and (s = ∅ or c has a claimed neighbour) |
| Rules.ClaimTwoAdj | src/rules.js:242-244 | with requireTwoAdj on, a single claimed neighbour rejects with B, and any acceptance has at least two |
| Rules.PairDiameter | src/metrics.js:32-67 | on the two adjacent cells (0,0) and (1,0), every diameter approxDiameter4 can return is 1 |
| Rules.PairRejectedAtDiameter | src/rules.js:279-286 | with only limitDiam on and maxDiam 0, claiming (1,0) next to {(0,0)} is rejected by gate I |
| Rules.PairFarthest | src/metrics.js:37-62 | on {(0,0), (1,0)}, a sweep from either cell finds its farthest cell at least one step away |
| Rules.Path3Farthest | src/metrics.js:37-62 | on the 3-cell path, a sweep's farthest cell lies at the source's eccentricity: 1 from the middle, 2 from an end |
| Rules.PathDiameter | src/metrics.js:32-67 | on the 3-cell path, every diameter approxDiameter4 can return is 2, whatever the start cell |
| Rules.PathRejectedAtDiameter | src/rules.js:279-286 | with only limitDiam on and maxDiam 1, claiming (2,0) at the end of {(0,0), (1,0)} is rejected by gate I |
| Rules.FreshReads | src/rules.js:239-240 | with a fresh cache every `metrics.X \|\| recompute` read is the metric of s |
| Rules.GatePerimeterIsNext | src/rules.js:270-273 | the incremental P/A ratio is Perimeter(s ∪ {c}) / \|s ∪ {c}\| |
| Rules.GateEndpointsIsNext | src/rules.js:288-300 | the incremental endpoint count is Endpoints(s ∪ {c}) |
| Rules.GateFillsAreFills | src/rules.js:323-329 | gate G's current and next fills are the bounding-square fills of s and s ∪ {c} |
| Rules.CurFillIsFill | src/rules.js:324-325 | gate G's current fill is the fill of s |
| Rules.NextFillIsFill | src/rules.js:327-329 | gate G's next fill is the fill of s ∪ {c} |
| Rules.GateShareIsShare | src/rules.js:345-350 | gate H's share is Lin² / \|s ∪ {c}\| for the largest filled square of s ∪ {c} |
| Rules.ClaimKeepsHoles | src/rules.js:307-321 | with forbidHoles on, an accepted claim keeps a hole-free set hole-free and never raises the hole count |
| Rules.SingleCellHasNoHoles | src/rules.js:112-162 | a single cell has no holes |
| Rules.ClaimFillImproveOrHold | src/rules.js:323-343 | with limitOuterFill on, an accepted claim keeps a fill that meets the minimum above it, and never lowers a fill below it |
| Rules.ArmGate | src/rules.js:246-254 | gate C fires iff limitArm, one claimed neighbour, and the arm from c exceeds maxArmLen |
| Rules.SupportGate | src/rules.js:256-268 | gate J fires iff limitSupport and either window lacks more than m (n) claimed cells |
| Rules.CompactnessGate | src/rules.js:270-277 | gate D fires iff limitPA and the incremental P/A exceeds maxPA |
| Rules.DiameterGate | src/rules.js:279-286 | gate I fires iff limitDiam and the diameter exceeds maxDiam; the diameter is a double-sweep result on s ∪ {c}: for some start cell, the eccentricity of a farthest cell from start |
| Rules.EndpointCount | src/rules.js:289-300 | the loop gives ends0 plus the endpoint change of claiming c |
| Rules.EndpointGate | src/rules.js:288-305 | gate E fires iff limitEndpoints and the new endpoint count exceeds maxEndpoints |
| Rules.HoleGate | src/rules.js:307-321 | gate F fires iff forbidHoles and a hole appears in a hole-free set, or the hole count grows |
| Rules.OuterFillGate | src/rules.js:323-343 | gate G fires iff limitOuterFill and the fill fails improve-or-hold |
| Rules.InnerShareGate | src/rules.js:345-354 | gate H fires iff limitInnerShare and the share is below minInnerShare |
| Rules.CanClaim | src/rules.js:231-357 | defaultCanClaim returns ClaimDecision, the short-circuit chain; when gate I is reached, its diameter is a double-sweep result of approxDiameter4 on s ∪ {c} |
| Rules.MiddleGates | src/rules.js:246-356 | the gates from C on give the chain's decision; when gate I is reached, its diameter is a double-sweep result on s ∪ {c} |
| Rules.LateGates | src/rules.js:279-356 | the gates from I on give the tail of the chain; with limitDiam, the diameter is a double-sweep result on s ∪ {c} |
| Rules.AllIn | src/rules.js:222-226 | the loop over nextHoles finds every one in curHoles iff nextHoles ⊆ curHoles |
| Rules.CanUnclaim | src/rules.js:208-229 | defaultCanUnclaim returns UnclaimDecision, the U0, U1, U2 chain |
| Rules.UnclaimFirstGates | src/rules.js:210-211 | U0 rejects exactly the unclaimed cells; the last cell can always be given up |
| Rules.UnclaimKeepsShape | src/rules.js:213-228 | an accepted unclaim leaves a connected set whose holes were all holes before |
| View.OpenAroundIsFrontier | src/render.js:18-24 | once every claimed cell is scanned, the collection is the frontier |
| View.AddOpenNeighbours | src/render.js:20-23 | the inner loop adds exactly the unclaimed neighbours |
| View.ComputeAvailableSet | src/render.js:14-26 | a cell is available iff it is unclaimed and has a claimed neighbour; empty for the empty set; disjoint from s |
| View.ComputeMetrics | src/render.js:30-39 | area, perimeter, endpoints, bounds and Lin equal the metrics of s; the ratios are 0 for no cells; P/A is perim / area otherwise |
| View.ClampToStep | src/render.js:216-224 | the smallest step ≤ cap that holds needed, or the cap when there is none |
| View.Needed | src/render.js:226-232 | needed is at least 10 and at least each span plus 4 |
| View.StepForUnique | src/render.js:216-224 | the step that clampToStep picks for a given need is unique |
| View.ComputeViewport | src/render.js:226-253 | the size is clampToStep(needed, 40): the smallest of 10/20/30/40 that holds needed, or 40 when none does; columns xMin..xMin+N−1 and rows zMax−N+1..zMax; anchored at (minX − 2, maxZ + 2) for a non-empty territory |
| View.TerritoryInView | src/render.js:236-253 | when both spans are at most 36, every claimed cell is in the viewport |
| Session.Normalize | src/main.js:80-103 | true/false give bare verdicts; a string s gives not-ok with reason s; a kept reason or module is a string field of the object; any other non-object is judged by truthiness |
| Session.NormalizeObject | src/main.js:85-102 | a boolean ok wins over allowed; reason and module are kept only as strings; an object with neither flag is ok with nothing kept |
| Session.NormalizeVerdictObject | src/main.js:87-98 | normalising the object built from a verdict gives that verdict back |
| Session.NormalizeIdempotent | src/main.js:80-103 | normalising a normalised result changes nothing |
| Session.NormalizeRuleValue | src/main.js:108 | a rule object normalises to ok iff the rule accepted, and names the gate's module when it rejected |
| Session.FormatDetails | src/main.js:190-195 | with both, the module, the full-width colon and the reason, in that order; the module alone or the reason alone is the text itself; with neither, the fixed text |
| Session.Clamp | src/main.js:45 | within [min, max] when min ≤ max, v itself when inside, the nearer edge when outside, min when max < min |
| Session.ClampNum | src/main.js:224-228 | never above a finite max; at least a finite min that is ≤ max; v itself when inside or with no bounds; below the min it saturates to the min, above the max (or when min > max) to the max |
| Session.IndexOf | src/main.js:219 | indexOf: None iff the character is absent, otherwise its first position |
| Session.StepDecimals | src/main.js:217-222 | at most 6, and 0 with no point |
| Session.StepDecimalsOfDecimal | src/main.js:217-222 | the text a.b has min(6, \|b\|) decimals |
| Session.FloorOr | src/main.js:354-357 | the floor of the number, or the current value when it is not finite |
| Session.NormMaxArmLen | src/main.js:371 | maxArmLen stays ≥ 1; the floor of an input ≥ 1 is kept as is, an input below 1 gives 1, no number keeps max(1, current) |
| Session.NormSupportM | src/main.js:383 | supportM stays in 0..8: the floor of an input in [0, 9), 8 at or above 9, 0 below 0; no number keeps the current value, clamped likewise |
| Session.NormSupportN | src/main.js:391 | supportN stays in 0..24: the floor of an input in [0, 25), 24 at or above 25, 0 below 0; no number keeps the current value, clamped likewise |
| Session.NormMaxPA | src/main.js:403 | maxPA stays ≥ 0.1: an input ≥ 0.1 is kept unfloored, one below gives 0.1; no number keeps the current value, clamped likewise |
| Session.NormMaxDiam | src/main.js:415 | maxDiam stays ≥ 0: the floor of an input ≥ 0, 0 for a negative one; no number keeps the current value, clamped likewise |
| Session.NormMaxEndpoints | src/main.js:427 | maxEndpoints stays ≥ 1: the floor of an input ≥ 1, 1 below that; no number keeps the current value, clamped likewise |
| Session.NormFraction | src/main.js:443-455 | minOuterFill and minInnerShare stay in [0, 1]: an input inside is kept unfloored, below 0 gives 0, above 1 gives 1; no number keeps the current value, clamped likewise |
| Session.DefaultRulesSane | src/state.js:10-27 | the default thresholds are in the ranges their handlers keep |
| Session.SetFlagOnly | src/main.js:359-450 | a checkbox sets its own flag to checked and no other flag |
| Session.SetFlagKeepsLevels | src/main.js:359-450 | a checkbox leaves every threshold unchanged |
| Session.SetLevelOnly | src/main.js:367-458 | a threshold input puts its own threshold in range and leaves the others unchanged |
| Session.SetLevelKeepsFlags | src/main.js:367-458 | a threshold input leaves every flag unchanged |
| Session.ApplyKeepsSane | src/main.js:359-458 | any change event keeps sane rules sane |
| Session.MarkSkip | src/render.js:258 | a claimed or unavailable cell of the scan is passed over |
| Session.MarkEvaluated | src/render.js:259-260 | an evaluated frontier cell joins the marking, blocked iff its decision rejects |
| Session.ScannedStep | src/render.js:255-258 | scanning a frontier cell makes it a key of the marking |
| Session.JudgedStep | src/render.js:259-260 | judging one more cell keeps the judgement of the others |
| Session.MarkNextColumn | src/render.js:255-256 | ending a column starts the next one |
| Session.MarkDone | src/render.js:255-262 | after the last column every available unclaimed cell of the view has been evaluated |
| Session.FreshInitialMetrics | src/state.js:28-37 | the initial metrics record is that of the empty set |
| Session.NoFrontierOfNothing | src/render.js:16 | the empty set has no frontier |
| Session.Session.constructor | src/state.js:5-39 | empty claimed/blocked/available sets, view size 10, the default rules, zero metrics, and a valid rendered state |
| Session.Session.CaptureOutcome | src/main.js:106-117 | a returned value is normalised and clears the last error; a thrown one becomes a RuntimeError rejection with the prefixed text, shown only when it differs from the last error |
| Session.Truthy | src/main.js:102 | objects and functions are truthy; undefined, null, false and the empty string are not |
| Session.RuleValue | src/rules.js:164-165 | the rule's return object: `ok` is true exactly for an acceptance, and it has a `module` field, the gate's module string, exactly for a rejection |
| Session.Session.EvalCanClaim | src/main.js:106-117 | the verdict is ok iff defaultCanClaim accepts, with the rejecting gate's module; the last error is cleared |
| Session.Session.MarkColumn | src/render.js:256-261 | one column of the marking: each available unclaimed cell is evaluated and blocked iff rejected, with a diameter that is a double-sweep result when gate I is reached |
| Session.Session.MarkBlocked | src/render.js:250-262 | the blocked cells are exactly the available unclaimed cells of the view that defaultCanClaim rejects |
| Session.Session.MarkBlockedAsWritten | src/render.js:250-262 | as written, the marking leaves blocked empty; it evaluates exactly the available unclaimed cells of the view, and after any evaluation the last error is cleared; the message is unchanged |
| Session.Session.Refresh | src/render.js:28-248 | the metrics record is fresh, the size is the smallest step that holds what the bounds need (40 when none does), the view is anchored, and available is the frontier |
| Session.Session.MarkFrontier | src/render.js:250-262 | the marking keeps blocked inside the frontier, and empty when the frontier is empty |
| Session.Session.Render | src/render.js:28-262 | afterwards the state is rendered: fresh metrics, the size step they need, available equal to the frontier, blocked inside it; with sane rules the state is valid |
| Session.Session.ClickClaimed | src/main.js:319-331 | a claimed cell is deleted iff defaultCanUnclaim accepts |
| Session.Session.ClickUnclaimed | src/main.js:333-348 | an unclaimed cell is added iff evalCanClaim accepts, with a diameter that is a double-sweep result when gate I is reached; the last error is cleared and the message is left unchanged |
| Session.Session.Click | src/main.js:310-349 | claimed changes only by c, only on acceptance; afterwards the state is rendered, and a valid state stays valid |
| Session.Session.SeedColumn | src/main.js:295-297 | the inner loop adds the three cells of column x |
| Session.Session.SeedBlock | src/main.js:294-298 | the two loops claim exactly the 3×3 block around the origin |
| Session.Session.ResetToInitial | src/main.js:291-301 | claimed is exactly [-1, 1]×[-1, 1], the state is rendered, a valid state stays valid, and the message is the reset text |
| Session.Session.ClearAll | src/main.js:303-308 | claimed, available and blocked are empty, the state is rendered, a valid state stays valid, and the message is the clear text |
| Session.Session.ChangeRule | src/main.js:359-458 | the rules become the event applied to the old rules and stay sane, and the state is rendered |
| Session.BlockedMarkingMissesRejection | src/render.js:259-260 | a frontier cell that gate B rejects still gets a truthy verdict object |

## Findings

| source | as written | input that shows it | evidently intended | confidence | as-written member | corrected member |
|---|---|---|---|---|---|---|
| src/render.js:259-260 | `const ok = safeCanClaim(...)` holds the verdict object from evalCanClaim, for which `!ok` is always false, so no cell is ever blocked. (`state.blocked` is also a `Map`, created at src/state.js:7, which has no `add`.) | claimed = {(0,0)}, requireTwoAdj on: gate B rejects the frontier cell (1,0), yet its verdict object is truthy | block each available cell of the view whose verdict has `ok` false | not executed | Session.Session.MarkBlockedAsWritten, Session.BlockedMarkingMissesRejection | Session.Session.MarkBlocked |

`Render` (through `MarkFrontier`) uses the corrected marking. So the handlers model the intended program here, as the Render line under Left out says.

## Left out

- src/editor.js: it compiles user text with `new Function` and talks to a popup. The predicate that evalCanClaim calls is `defaultCanClaim`. Any other predicate is only the `Outcome` that `CaptureOutcome` receives: a returned value, or a thrown error text.
- DOM and browser plumbing:
  - element building, `textContent` and `toFixed` texts, range marks;
  - sidebar and splitter, `localStorage`, clipboard, wheel adjust, hover text;
  - `updateCellSize`, `updateSupportCalc`, `setInputNumberValue` and `linkRangeAndNumber`.
- Session.Session.Click: the status messages of a click (accepted, rejected with details) are not modelled. Only the reset, clear and runtime-error texts are.
- Session.Session.EvalCanClaim: the verdict carries no reason, because the rule objects' reason texts (which embed numbers through `toFixed`) are not modelled. Rules.ModuleName gives the module strings.
- Session.Session.CaptureOutcome: `err?.message || String(err)` is taken as the given error text.
- Session.Session.Render: it marks blocked cells with the corrected Session.Session.MarkBlocked (see Findings), not with the marking as written. So after Click, ResetToInitial, ClearAll and ChangeRule, blocked holds the frontier cells whose verdict is not ok. The source as written leaves blocked empty (Session.Session.MarkBlockedAsWritten). Render's contract keeps only the invariant the handlers need. The full marking contract is stated by Session.Session.MarkBlocked.
- Session.Session.MarkFrontier: it runs the corrected marking, for the same reason as Render.
- Grid.ParseKey: it reads only canonical decimal fields (an optional '-' and digits). This is what `key` produces. `Number()` of any other text is not modelled.
- Grid.Neighbors4: its own postcondition gives only the count of four. Grid.Neighbors4Shape states that the cells are distinct and one step away. Adjacent is defined through Neighbors4, so a postcondition there would enter every adjacency proof of the model.
- Metrics.ComputeBounds: the extremes start from the first cell visited instead of ±Infinity. That is the state the source reaches after one iteration.
- Numbers:
  - integers are unbounded (all values stay far below 2^31, including the `Int32Array` table);
  - ratios are exact, with no IEEE-754 rounding;
  - NaN does not occur;
  - a threshold input is the number it converts to, or None when that is not finite;
  - `String(step)` is given as text.
- The iteration order of `Set` and `Map` is left open (choice with `:|`), so it is never assumed. So is the BFS start cell and the tie-break of `farKey`.
- Session.Session.ResetToInitial: it writes the reset message just before Render, not after it as the source does. Render leaves the message unchanged, so the final state is the same.
- The startup call of `resetToInitial()` (src/main.js:527) is not a separate member: it is `ResetToInitial` after the constructor.
- `state.ui.probeCell` and the support calculator panel are not modelled.
