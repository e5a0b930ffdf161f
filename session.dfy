/**
 * The session glue of src/main.js: how a canClaim result is normalised and
 * guarded, how rejection details and threshold inputs are formatted and
 * clamped, and the state object (src/state.js) that the grid click, reset,
 * clear and rule controls change before every render (src/render.js).
 */
module Session {
  import opened Grid
  import opened Metrics
  import opened Topology
  import opened Rules
  import opened View

  // ---------------------------------------------------------------------------
  // The JavaScript values a canClaim predicate can return

  datatype JsValue =
    | JUndefined
    | JNull
    | JBool(b: bool)
    | JNumber(n: real)
    | JString(s: string)
    | JObject(props: map<string, JsValue>)
    | JFunction

  /** JavaScript truthiness (NaN is not among the modelled numbers). */
  predicate Truthy(v: JsValue)
    ensures v.JObject? || v.JFunction? ==> Truthy(v)
    ensures v.JUndefined? || v.JNull? || v == JBool(false) || v == JString("") ==> !Truthy(v)
  {
    match v
    case JUndefined => false
    case JNull => false
    case JBool(b) => b
    case JNumber(n) => n != 0.0
    case JString(s) => s != ""
    case JObject(_) => true
    case JFunction => true
  }

  /** The normalised result: ok, and reason and module when they were strings. */
  datatype Verdict = Verdict(ok: bool, reason: Option<string>, moduleName: Option<string>)

  /** props[p] when it is a string. */
  function StringProp(props: map<string, JsValue>, p: string): Option<string> {
    if p in props && props[p].JString? then Some(props[p].s) else None
  }

  /** typeof props[p] === "boolean". */
  predicate BoolProp(props: map<string, JsValue>, p: string) {
    p in props && props[p].JBool?
  }

  /**
   * main.normalizeCanClaimResult: true and false give a bare verdict, a
   * string is a rejection whose reason it is, an object with a boolean ok
   * (else a boolean allowed) gives that flag with its string reason and
   * module; anything else is judged by its truthiness.
   */
  function Normalize(raw: JsValue): (r: Verdict)
    ensures raw.JBool? ==> r == Verdict(raw.b, None, None)
    ensures raw.JString? ==> r == Verdict(false, Some(raw.s), None)
    ensures r.reason.Some? ==>
      (raw == JString(r.reason.value) ||
       (raw.JObject? && "reason" in raw.props && raw.props["reason"] == JString(r.reason.value)))
    ensures r.moduleName.Some? ==> raw.JObject? && "module" in raw.props && raw.props["module"] == JString(r.moduleName.value)
    ensures !raw.JObject? && !raw.JString? ==> r == Verdict(Truthy(raw), None, None)
  {
    match raw
    case JBool(b) => Verdict(b, None, None)
    case JString(s) => Verdict(false, Some(s), None)
    case JObject(props) =>
      if BoolProp(props, "ok") then
        Verdict(props["ok"].b, StringProp(props, "reason"), StringProp(props, "module"))
      else if BoolProp(props, "allowed") then
        Verdict(props["allowed"].b, StringProp(props, "reason"), StringProp(props, "module"))
      else
        Verdict(true, None, None)
    case _ => Verdict(Truthy(raw), None, None)
  }

  /** A boolean ok wins over allowed; an object with neither is truthy, so it is ok with nothing kept. */
  lemma NormalizeObject(props: map<string, JsValue>)
    ensures BoolProp(props, "ok") ==> Normalize(JObject(props)).ok == props["ok"].b
    ensures !BoolProp(props, "ok") && BoolProp(props, "allowed") ==> Normalize(JObject(props)).ok == props["allowed"].b
    ensures BoolProp(props, "ok") || BoolProp(props, "allowed") ==>
      Normalize(JObject(props)).reason == StringProp(props, "reason") &&
      Normalize(JObject(props)).moduleName == StringProp(props, "module")
    ensures !BoolProp(props, "ok") && !BoolProp(props, "allowed") ==>
      Normalize(JObject(props)) == Verdict(Truthy(JObject(props)), None, None)
  {
  }

  function OptionalString(o: Option<string>): JsValue {
    if o.Some? then JString(o.value) else JUndefined
  }

  /** The object normalizeCanClaimResult builds for a verdict (absent fields are undefined). */
  function VerdictObject(v: Verdict): JsValue {
    JObject(map["ok" := JBool(v.ok), "reason" := OptionalString(v.reason), "module" := OptionalString(v.moduleName)])
  }

  /** Normalising is a left inverse of building the verdict object, so normalising twice changes nothing. */
  lemma NormalizeVerdictObject(v: Verdict)
    ensures Normalize(VerdictObject(v)) == v
  {
    var props := map["ok" := JBool(v.ok), "reason" := OptionalString(v.reason), "module" := OptionalString(v.moduleName)];
    assert BoolProp(props, "ok");
    assert StringProp(props, "reason") == v.reason;
    assert StringProp(props, "module") == v.moduleName;
  }

  lemma NormalizeIdempotent(raw: JsValue)
    ensures Normalize(VerdictObject(Normalize(raw))) == Normalize(raw)
  {
    NormalizeVerdictObject(Normalize(raw));
  }

  /** The object of rules.js's ok() or reject(module, reason); the reason text is not modelled. */
  function RuleValue(dec: Decision): (r: JsValue)
    ensures r.JObject? && "ok" in r.props && r.props["ok"] == JBool(dec == Accept)
    ensures dec.Reject? <==> "module" in r.props
    ensures dec.Reject? ==> r.props["module"] == JString(ModuleName(dec.gate))
  {
    match dec
    case Accept => JObject(map["ok" := JBool(true)])
    case Reject(g) => JObject(map["ok" := JBool(false), "module" := JString(ModuleName(g))])
  }

  /** A rule object normalises to ok exactly when the rule accepted, naming the module of a rejection. */
  lemma NormalizeRuleValue(dec: Decision)
    ensures Normalize(RuleValue(dec)).ok <==> dec == Accept
    ensures dec.Reject? ==> Normalize(RuleValue(dec)).moduleName == Some(ModuleName(dec.gate))
    ensures Normalize(RuleValue(dec)).reason == None
  {
    match dec
    case Accept =>
      var props := map["ok" := JBool(true)];
      assert BoolProp(props, "ok") && StringProp(props, "reason") == None;
    case Reject(g) =>
      var props := map["ok" := JBool(false), "module" := JString(ModuleName(g))];
      assert BoolProp(props, "ok") && StringProp(props, "reason") == None;
      assert StringProp(props, "module") == Some(ModuleName(g));
  }

  // ---------------------------------------------------------------------------
  // Rejection details

  const NoReasonText := "未提供拒绝理由"
  const DetailSeparator := "："

  /** A present, non-empty string (what `res.module ?` and `res.reason ?` test). */
  predicate HasText(o: Option<string>) {
    o.Some? && o.value != ""
  }

  /**
   * main.formatDetails: the module, followed by the reason after a
   * full-width colon when there is one; the reason alone without a module;
   * a fixed text when neither is there.
   */
  function FormatDetails(res: Verdict): (r: string)
    ensures |r| > 0
    ensures HasText(res.moduleName) ==>
      |res.moduleName.value| <= |r| && r[..|res.moduleName.value|] == res.moduleName.value
    ensures HasText(res.reason) ==> |res.reason.value| <= |r| && r[|r| - |res.reason.value|..] == res.reason.value
    ensures HasText(res.moduleName) && HasText(res.reason) ==>
      |r| == |res.moduleName.value| + |DetailSeparator| + |res.reason.value| &&
      r[|res.moduleName.value|..|r| - |res.reason.value|] == DetailSeparator
    ensures HasText(res.moduleName) && !HasText(res.reason) ==> r == res.moduleName.value
    ensures !HasText(res.moduleName) && HasText(res.reason) ==> r == res.reason.value
    ensures !HasText(res.moduleName) && !HasText(res.reason) ==> r == NoReasonText
  {
    if HasText(res.moduleName) then
      res.moduleName.value + (if HasText(res.reason) then DetailSeparator + res.reason.value else "")
    else if HasText(res.reason) then res.reason.value
    else NoReasonText
  }

  // ---------------------------------------------------------------------------
  // Numeric helpers of the controls

  function MaxR(a: real, b: real): real { if a >= b then a else b }
  function MinR(a: real, b: real): real { if a <= b then a else b }

  /** main's clamp: Math.max(min, Math.min(max, v)). */
  function Clamp(v: real, min: real, max: real): (r: real)
    ensures min <= max ==> min <= r <= max
    ensures min <= v <= max ==> r == v
    ensures max < min ==> r == min
    ensures min <= max && v < min ==> r == min
    ensures min <= max && max < v ==> r == max
  {
    MaxR(min, MinR(max, v))
  }

  /**
   * main.clampNum: a finite minimum raises v to it, then a finite maximum
   * lowers v to it. None stands for a bound that is not finite.
   */
  function ClampNum(v: real, min: Option<real>, max: Option<real>): (r: real)
    ensures max.Some? ==> r <= max.value
    ensures min.Some? && (max.None? || min.value <= max.value) ==> min.value <= r
    ensures (min.None? || min.value <= v) && (max.None? || v <= max.value) ==> r == v
    ensures min.None? && max.None? ==> r == v
    ensures min.Some? && v < min.value && (max.None? || min.value <= max.value) ==> r == min.value
    ensures max.Some? && (v > max.value || (min.Some? && min.value > max.value)) ==> r == max.value
  {
    var lifted := if min.Some? then MaxR(min.value, v) else v;
    if max.Some? then MinR(max.value, lifted) else lifted
  }

  /** The index of the first ch in s, if any. */
  function IndexOf(s: string, ch: char): (r: Option<nat>)
    ensures r.None? <==> ch !in s
    ensures r.Some? ==> r.value < |s| && s[r.value] == ch && ch !in s[..r.value]
  {
    if s == [] then None
    else if s[0] == ch then Some(0)
    else
      var rest := IndexOf(s[1..], ch);
      assert s[1..][..] == s[1..];
      if rest.None? then None
      else
        assert s[..rest.value + 1] == [s[0]] + s[1..][..rest.value];
        Some(rest.value + 1)
  }

  /**
   * main.stepDecimals on the decimal text of the step: the number of digits
   * after the first point, at most 6; 0 when there is no point.
   */
  function StepDecimals(text: string): (r: nat)
    ensures r <= 6
    ensures '.' !in text ==> r == 0
  {
    var idx := IndexOf(text, '.');
    if idx.None? then 0 else Min(6, |text| - idx.value - 1)
  }

  /** The first point of a + "." + b with no point in a is the one after a. */
  lemma {:induction false} IndexOfAfterPrefix(a: string, b: string)
    requires '.' !in a
    ensures IndexOf(a + "." + b, '.') == Some(|a|)
    decreases |a|
  {
    if a != [] {
      var t := a + "." + b;
      assert t[1..] == a[1..] + "." + b;
      assert '.' !in a[1..] by {
        assert forall k :: 0 <= k < |a[1..]| ==> a[1..][k] == a[k + 1];
      }
      IndexOfAfterPrefix(a[1..], b);
    }
  }

  /** The step text a.b has min(6, |b|) decimals. */
  lemma StepDecimalsOfDecimal(a: string, b: string)
    requires '.' !in a
    ensures StepDecimals(a + "." + b) == Min(6, |b|)
  {
    IndexOfAfterPrefix(a, b);
  }

  // ---------------------------------------------------------------------------
  // The threshold normalisers of the rule controls

  /**
   * num(v, fallback): Number(v) when it is finite, else the fallback. The
   * input is the number the control's value converts to; None stands for a
   * conversion that is not finite.
   */
  function NumOr(v: Option<real>, fallback: real): real {
    if v.Some? then v.value else fallback
  }

  /** Math.floor(num(v, cur)) for an integer threshold cur. */
  function FloorOr(v: Option<real>, cur: int): (r: int)
    ensures v.None? ==> r == cur
    ensures v.Some? ==> r as real <= v.value < r as real + 1.0
  {
    if v.Some? then v.value.Floor else cur
  }

  function ClampInt(lo: int, hi: int, n: int): int { Min(hi, Max(lo, n)) }

  /** The maxArmLen handler: at least 1. */
  function NormMaxArmLen(v: Option<real>, cur: int): (r: int)
    ensures r >= 1
    ensures v.Some? && v.value >= 1.0 ==> r == v.value.Floor
    ensures v.None? ==> r == Max(1, cur)
    ensures v.Some? && v.value < 1.0 ==> r == 1
  {
    Max(1, FloorOr(v, cur))
  }

  /** The supportM handler: within 0..8. */
  function NormSupportM(v: Option<real>, cur: int): (r: int)
    ensures 0 <= r <= 8
    ensures v.Some? && 0.0 <= v.value < 9.0 ==> r == v.value.Floor
    ensures v.None? && 0 <= cur <= 8 ==> r == cur
    ensures (v.Some? && v.value >= 9.0) || (v.None? && cur > 8) ==> r == 8
    ensures (v.Some? && v.value < 0.0) || (v.None? && cur < 0) ==> r == 0
  {
    ClampInt(0, 8, FloorOr(v, cur))
  }

  /** The supportN handler: within 0..24. */
  function NormSupportN(v: Option<real>, cur: int): (r: int)
    ensures 0 <= r <= 24
    ensures v.Some? && 0.0 <= v.value < 25.0 ==> r == v.value.Floor
    ensures v.None? && 0 <= cur <= 24 ==> r == cur
    ensures (v.Some? && v.value >= 25.0) || (v.None? && cur > 24) ==> r == 24
    ensures (v.Some? && v.value < 0.0) || (v.None? && cur < 0) ==> r == 0
  {
    ClampInt(0, 24, FloorOr(v, cur))
  }

  /** The maxPA handler: at least 0.1, not floored. */
  function NormMaxPA(v: Option<real>, cur: real): (r: real)
    ensures r >= 0.1
    ensures v.Some? && v.value >= 0.1 ==> r == v.value
    ensures v.None? && cur >= 0.1 ==> r == cur
    ensures (v.Some? && v.value < 0.1) || (v.None? && cur < 0.1) ==> r == 0.1
  {
    MaxR(0.1, NumOr(v, cur))
  }

  /** The maxDiam handler: at least 0. */
  function NormMaxDiam(v: Option<real>, cur: int): (r: int)
    ensures r >= 0
    ensures v.Some? && v.value >= 0.0 ==> r == v.value.Floor
    ensures v.None? && cur >= 0 ==> r == cur
    ensures (v.Some? && v.value < 0.0) || (v.None? && cur < 0) ==> r == 0
  {
    Max(0, FloorOr(v, cur))
  }

  /** The maxEndpoints handler: at least 1. */
  function NormMaxEndpoints(v: Option<real>, cur: int): (r: int)
    ensures r >= 1
    ensures v.Some? && v.value >= 1.0 ==> r == v.value.Floor
    ensures v.None? && cur >= 1 ==> r == cur
    ensures (v.Some? && v.value < 1.0) || (v.None? && cur < 1) ==> r == 1
  {
    Max(1, FloorOr(v, cur))
  }

  /** The minOuterFill and minInnerShare handlers: within [0, 1], not floored. */
  function NormFraction(v: Option<real>, cur: real): (r: real)
    ensures 0.0 <= r <= 1.0
    ensures v.Some? && 0.0 <= v.value <= 1.0 ==> r == v.value
    ensures v.None? && 0.0 <= cur <= 1.0 ==> r == cur
    ensures (v.Some? && v.value < 0.0) || (v.None? && cur < 0.0) ==> r == 0.0
    ensures (v.Some? && v.value > 1.0) || (v.None? && cur > 1.0) ==> r == 1.0
  {
    MinR(1.0, MaxR(0.0, NumOr(v, cur)))
  }

  /** The checkboxes of the rule controls. */
  datatype Toggle =
    | RuleTwoAdj | RuleArm | RuleSupport | RulePA | RuleDiam | RuleEnds | RuleHoles | RuleOuterFill | RuleInnerShare

  /** The threshold inputs of the rule controls. */
  datatype Threshold = ArmLen | SupportM | SupportN | PAMax | DiamMax | EndsMax | OuterFillMin | InnerShareMin

  /** The flag a checkbox sets. */
  function Flag(r: RuleConfig, t: Toggle): bool {
    match t
    case RuleTwoAdj => r.requireTwoAdj
    case RuleArm => r.limitArm
    case RuleSupport => r.limitSupport
    case RulePA => r.limitPA
    case RuleDiam => r.limitDiam
    case RuleEnds => r.limitEndpoints
    case RuleHoles => r.forbidHoles
    case RuleOuterFill => r.limitOuterFill
    case RuleInnerShare => r.limitInnerShare
  }

  /** The value a threshold input sets, as a number. */
  function Level(r: RuleConfig, t: Threshold): real {
    match t
    case ArmLen => r.maxArmLen as real
    case SupportM => r.supportM as real
    case SupportN => r.supportN as real
    case PAMax => r.maxPA
    case DiamMax => r.maxDiam as real
    case EndsMax => r.maxEndpoints as real
    case OuterFillMin => r.minOuterFill
    case InnerShareMin => r.minInnerShare
  }

  /** The range the handler of threshold t keeps its value in. */
  predicate LevelSane(t: Threshold, x: real) {
    match t
    case ArmLen => x >= 1.0
    case SupportM => 0.0 <= x <= 8.0
    case SupportN => 0.0 <= x <= 24.0
    case PAMax => x >= 0.1
    case DiamMax => x >= 0.0
    case EndsMax => x >= 1.0
    case OuterFillMin => 0.0 <= x <= 1.0
    case InnerShareMin => 0.0 <= x <= 1.0
  }

  /** Every threshold is in the range its handler keeps it in. */
  predicate SaneRules(r: RuleConfig) {
    forall t: Threshold :: LevelSane(t, Level(r, t))
  }

  lemma DefaultRulesSane()
    ensures SaneRules(DefaultRules)
  {
    forall t: Threshold ensures LevelSane(t, Level(DefaultRules, t)) {
    }
  }

  /** A checkbox handler: the assignment of `checked` to the flag of t. */
  function SetFlag(r: RuleConfig, t: Toggle, on: bool): RuleConfig {
    match t
    case RuleTwoAdj => r.(requireTwoAdj := on)
    case RuleArm => r.(limitArm := on)
    case RuleSupport => r.(limitSupport := on)
    case RulePA => r.(limitPA := on)
    case RuleDiam => r.(limitDiam := on)
    case RuleEnds => r.(limitEndpoints := on)
    case RuleHoles => r.(forbidHoles := on)
    case RuleOuterFill => r.(limitOuterFill := on)
    case RuleInnerShare => r.(limitInnerShare := on)
  }

  /** A threshold handler: the normalised input replaces the threshold of t. */
  function SetLevel(r: RuleConfig, t: Threshold, v: Option<real>): RuleConfig {
    match t
    case ArmLen => r.(maxArmLen := NormMaxArmLen(v, r.maxArmLen))
    case SupportM => r.(supportM := NormSupportM(v, r.supportM))
    case SupportN => r.(supportN := NormSupportN(v, r.supportN))
    case PAMax => r.(maxPA := NormMaxPA(v, r.maxPA))
    case DiamMax => r.(maxDiam := NormMaxDiam(v, r.maxDiam))
    case EndsMax => r.(maxEndpoints := NormMaxEndpoints(v, r.maxEndpoints))
    case OuterFillMin => r.(minOuterFill := NormFraction(v, r.minOuterFill))
    case InnerShareMin => r.(minInnerShare := NormFraction(v, r.minInnerShare))
  }

  /** A checkbox sets its own flag to checked and leaves every other flag as it was. */
  lemma SetFlagOnly(r: RuleConfig, t: Toggle, on: bool, u: Toggle)
    ensures Flag(SetFlag(r, t, on), u) == if u == t then on else Flag(r, u)
  {
    match t
    case RuleTwoAdj =>
    case RuleArm =>
    case RuleSupport =>
    case RulePA =>
    case RuleDiam =>
    case RuleEnds =>
    case RuleHoles =>
    case RuleOuterFill =>
    case RuleInnerShare =>
  }

  /** A checkbox leaves every threshold as it was. */
  lemma SetFlagKeepsLevels(r: RuleConfig, t: Toggle, on: bool, u: Threshold)
    ensures Level(SetFlag(r, t, on), u) == Level(r, u)
  {
    match t
    case RuleTwoAdj =>
    case RuleArm =>
    case RuleSupport =>
    case RulePA =>
    case RuleDiam =>
    case RuleEnds =>
    case RuleHoles =>
    case RuleOuterFill =>
    case RuleInnerShare =>
  }

  /**
   * A threshold input puts its own threshold in range, whatever the old value
   * and the input, and leaves every other threshold as it was.
   */
  lemma SetLevelOnly(r: RuleConfig, t: Threshold, v: Option<real>, u: Threshold)
    ensures u == t ==> LevelSane(t, Level(SetLevel(r, t, v), u))
    ensures u != t ==> Level(SetLevel(r, t, v), u) == Level(r, u)
  {
    match t
    case ArmLen =>
    case SupportM =>
    case SupportN =>
    case PAMax =>
    case DiamMax =>
    case EndsMax =>
    case OuterFillMin =>
    case InnerShareMin =>
  }

  /** a and b agree on every flag. */
  predicate SameFlags(a: RuleConfig, b: RuleConfig) {
    && a.requireTwoAdj == b.requireTwoAdj && a.limitArm == b.limitArm && a.limitSupport == b.limitSupport
    && a.limitPA == b.limitPA && a.limitDiam == b.limitDiam && a.limitEndpoints == b.limitEndpoints
    && a.forbidHoles == b.forbidHoles && a.limitOuterFill == b.limitOuterFill && a.limitInnerShare == b.limitInnerShare
  }

  /** A threshold input leaves every flag as it was. */
  lemma SetLevelKeepsFlags(r: RuleConfig, t: Threshold, v: Option<real>, u: Toggle)
    ensures Flag(SetLevel(r, t, v), u) == Flag(r, u)
  {
    SetLevelSameFlags(r, t, v);
    var r' := SetLevel(r, t, v);
    assert Flag(r', u) == Flag(r, u) by {
      match u
      case RuleTwoAdj =>
      case RuleArm =>
      case RuleSupport =>
      case RulePA =>
      case RuleDiam =>
      case RuleEnds =>
      case RuleHoles =>
      case RuleOuterFill =>
      case RuleInnerShare =>
    }
  }

  lemma SetLevelSameFlags(r: RuleConfig, t: Threshold, v: Option<real>)
    ensures SameFlags(SetLevel(r, t, v), r)
  {
    match t
    case ArmLen =>
    case SupportM =>
    case SupportN =>
    case PAMax =>
    case DiamMax =>
    case EndsMax =>
    case OuterFillMin =>
    case InnerShareMin =>
  }

  /** One change event of the rule controls: a checkbox, or the number a threshold input converts to. */
  datatype RuleInput = Toggled(toggle: Toggle, on: bool) | Entered(threshold: Threshold, v: Option<real>)

  function ApplyRuleInput(r: RuleConfig, input: RuleInput): RuleConfig {
    match input
    case Toggled(t, on) => SetFlag(r, t, on)
    case Entered(t, v) => SetLevel(r, t, v)
  }

  /** Whatever the events, sane rules stay sane; a threshold event makes its own threshold sane. */
  lemma ApplyKeepsSane(r: RuleConfig, input: RuleInput)
    requires SaneRules(r)
    ensures SaneRules(ApplyRuleInput(r, input))
  {
    var r' := ApplyRuleInput(r, input);
    forall t: Threshold ensures LevelSane(t, Level(r', t)) {
      match input
      case Toggled(toggle, on) => SetFlagKeepsLevels(r, toggle, on, t);
      case Entered(threshold, v) => SetLevelOnly(r, threshold, v, t);
    }
  }

  // ---------------------------------------------------------------------------
  // The state object and its event handlers

  /** What a call of the canClaim predicate did: returned a value, or threw an error with this text. */
  datatype Outcome = Returned(value: JsValue) | Threw(text: string)

  const RuntimeErrorModule := "RuntimeError"
  const LogicErrorPrefix := "逻辑运行错误："
  const ResetMessage := "已恢复初始 3×3。"
  const ClearMessage := "已清空。"

  /** The ghost diameter a claim decision was taken with is one approxDiameter4 could return. */
  ghost predicate DiamSound(s: set<Cell>, rules: RuleConfig, cache: MetricsCache, c: Cell, diam: int) {
    rules.limitDiam && ReachesLate(ClaimChecks(s, rules, cache, c, diam)) ==>
      diam >= 0 && DiameterEstimate(s + {c}, diam)
  }

  /** d comes before column x, row z in render's column-major scan. */
  predicate Before(d: Cell, x: int, z: int) {
    d.x < x || (d.x == x && d.z < z)
  }

  /**
   * render's marking after the cells of view v before column x, row z: the
   * frontier cells among them are the keys of diams, each evaluated with the
   * diameter it maps to, and the blocked cells are the rejected ones.
   */
  ghost predicate Marked(s: set<Cell>, avail: set<Cell>, rules: RuleConfig, cache: MetricsCache, v: Viewport,
                         blocked: set<Cell>, diams: map<Cell, int>, x: int, z: int) {
    Scanned(s, avail, v, blocked, diams, x, z) && Judged(s, rules, cache, blocked, diams)
  }

  /** The keys of diams are the frontier cells of view v before column x, row z; the blocked cells are among them. */
  ghost predicate Scanned(s: set<Cell>, avail: set<Cell>, v: Viewport, blocked: set<Cell>, diams: map<Cell, int>, x: int, z: int) {
    && (forall d :: d in diams <==> InView(v, d) && Before(d, x, z) && d in avail && d !in s)
    && (forall d :: d in blocked ==> d in diams)
  }

  /** Each key of diams is blocked exactly when its decision, with the diameter it maps to, rejects it. */
  ghost predicate Judged(s: set<Cell>, rules: RuleConfig, cache: MetricsCache, blocked: set<Cell>, diams: map<Cell, int>) {
    forall d {:trigger diams[d]} :: d in diams ==>
      (d in blocked <==> ClaimDecision(s, rules, cache, d, diams[d]) != Accept) &&
      DiamSound(s, rules, cache, d, diams[d])
  }

  /** A cell of the scan that is claimed or not available is passed over. */
  lemma MarkSkip(s: set<Cell>, avail: set<Cell>, rules: RuleConfig, cache: MetricsCache, v: Viewport,
                 blocked: set<Cell>, diams: map<Cell, int>, x: int, z: int)
    requires Marked(s, avail, rules, cache, v, blocked, diams, x, z)
    requires Cell(x, z) in s || Cell(x, z) !in avail
    ensures Marked(s, avail, rules, cache, v, blocked, diams, x, z + 1)
  {
    forall d ensures Before(d, x, z + 1) <==> Before(d, x, z) || d == Cell(x, z) {
    }
  }

  /** A frontier cell of the scan is evaluated, and blocked when the decision rejects it. */
  lemma MarkEvaluated(s: set<Cell>, avail: set<Cell>, rules: RuleConfig, cache: MetricsCache, v: Viewport,
                      blocked: set<Cell>, diams: map<Cell, int>, x: int, z: int, diam: int)
    requires Marked(s, avail, rules, cache, v, blocked, diams, x, z)
    requires InView(v, Cell(x, z)) && Cell(x, z) !in s && Cell(x, z) in avail
    requires DiamSound(s, rules, cache, Cell(x, z), diam)
    ensures var c := Cell(x, z);
      Marked(s, avail, rules, cache, v,
             if ClaimDecision(s, rules, cache, c, diam) != Accept then blocked + {c} else blocked,
             diams[c := diam], x, z + 1)
  {
    var c := Cell(x, z);
    var blocked' := if ClaimDecision(s, rules, cache, c, diam) != Accept then blocked + {c} else blocked;
    ScannedStep(s, avail, v, blocked, blocked', diams, x, z, diam);
    JudgedStep(s, rules, cache, blocked, diams, c, diam);
  }

  /** Scanning a frontier cell of the view makes it a key, blocked or not. */
  lemma ScannedStep(s: set<Cell>, avail: set<Cell>, v: Viewport, blocked: set<Cell>, blocked': set<Cell>,
                    diams: map<Cell, int>, x: int, z: int, diam: int)
    requires Scanned(s, avail, v, blocked, diams, x, z)
    requires InView(v, Cell(x, z)) && Cell(x, z) !in s && Cell(x, z) in avail
    requires blocked' == blocked || blocked' == blocked + {Cell(x, z)}
    ensures Scanned(s, avail, v, blocked', diams[Cell(x, z) := diam], x, z + 1)
    ensures Cell(x, z) !in diams
  {
    forall d ensures Before(d, x, z + 1) <==> Before(d, x, z) || d == Cell(x, z) {
    }
  }

  /** Judging one more cell c keeps the judgement of the others. */
  lemma JudgedStep(s: set<Cell>, rules: RuleConfig, cache: MetricsCache, blocked: set<Cell>, diams: map<Cell, int>,
                   c: Cell, diam: int)
    requires Judged(s, rules, cache, blocked, diams) && c !in diams && (forall d :: d in blocked ==> d in diams)
    requires DiamSound(s, rules, cache, c, diam)
    ensures Judged(s, rules, cache, if ClaimDecision(s, rules, cache, c, diam) != Accept then blocked + {c} else blocked,
                   diams[c := diam])
  {
    var blocked' := if ClaimDecision(s, rules, cache, c, diam) != Accept then blocked + {c} else blocked;
    var diams' := diams[c := diam];
    forall d | d in diams'
      ensures (d in blocked' <==> ClaimDecision(s, rules, cache, d, diams'[d]) != Accept) &&
        DiamSound(s, rules, cache, d, diams'[d])
    {
      if d != c {
        assert diams'[d] == diams[d];
      }
    }
  }

  /** Ending a column is starting the next one. */
  lemma MarkNextColumn(s: set<Cell>, avail: set<Cell>, rules: RuleConfig, cache: MetricsCache, v: Viewport,
                       blocked: set<Cell>, diams: map<Cell, int>, x: int)
    requires Marked(s, avail, rules, cache, v, blocked, diams, x, v.zMax + 1)
    ensures Marked(s, avail, rules, cache, v, blocked, diams, x + 1, v.zMin)
  {
    forall d | InView(v, d) ensures Before(d, x, v.zMax + 1) <==> Before(d, x + 1, v.zMin) {
    }
  }

  /** After the last column every frontier cell of the view is marked. */
  lemma MarkDone(s: set<Cell>, avail: set<Cell>, rules: RuleConfig, cache: MetricsCache, v: Viewport,
                 blocked: set<Cell>, diams: map<Cell, int>)
    requires Marked(s, avail, rules, cache, v, blocked, diams, v.xMax + 1, v.zMin)
    ensures forall d :: d in diams <==> InView(v, d) && d in avail && d !in s
  {
    forall d | InView(v, d) ensures Before(d, v.xMax + 1, v.zMin) {
    }
  }

  /** ev holds the cells of view v before column x, row z that are available and unclaimed. */
  ghost predicate ScannedCells(s: set<Cell>, avail: set<Cell>, v: Viewport, ev: set<Cell>, x: int, z: int) {
    forall d :: d in ev <==> InView(v, d) && Before(d, x, z) && d in avail && d !in s
  }

  /** Scanning cell (x, z) of the view adds it exactly when it is available and unclaimed. */
  lemma ScanStep(s: set<Cell>, avail: set<Cell>, v: Viewport, ev: set<Cell>, x: int, z: int)
    requires ScannedCells(s, avail, v, ev, x, z) && InView(v, Cell(x, z))
    ensures Cell(x, z) !in ev
    ensures ScannedCells(s, avail, v, if Cell(x, z) in avail && Cell(x, z) !in s then ev + {Cell(x, z)} else ev, x, z + 1)
  {
    forall d ensures Before(d, x, z + 1) <==> Before(d, x, z) || d == Cell(x, z) {
    }
  }

  /** Ending a column of the scan is starting the next one. */
  lemma ScanNextColumn(s: set<Cell>, avail: set<Cell>, v: Viewport, ev: set<Cell>, x: int)
    requires ScannedCells(s, avail, v, ev, x, v.zMax + 1)
    ensures ScannedCells(s, avail, v, ev, x + 1, v.zMin)
  {
    forall d | InView(v, d) ensures Before(d, x, v.zMax + 1) <==> Before(d, x + 1, v.zMin) {
    }
  }

  /** After the last column the scan has met every available unclaimed cell of the view. */
  lemma ScanDone(s: set<Cell>, avail: set<Cell>, v: Viewport, ev: set<Cell>)
    requires ScannedCells(s, avail, v, ev, v.xMax + 1, v.zMin)
    ensures forall d :: d in ev <==> InView(v, d) && d in avail && d !in s
  {
    forall d | InView(v, d) ensures Before(d, v.xMax + 1, v.zMin) {
    }
  }

  lemma FreshInitialMetrics()
    ensures Fresh(InitialMetrics, {})
  {
    assert Perimeter({}) == 0;
    assert Endpoints({}) == 0;
  }

  lemma NoFrontierOfNothing(d: Cell)
    ensures !Frontier({}, d)
  {
    DegreeIsClaimedNeighbourCount({}, d);
  }

  /** d lies in the 3×3 block around the origin that resetToInitial claims. */
  predicate InBlock(d: Cell) {
    -1 <= d.x <= 1 && -1 <= d.z <= 1
  }

  /** The app state; the message field is the text of the message panel. */
  class Session {
    var claimed: set<Cell>
    var blocked: set<Cell>
    var available: set<Cell>
    var viewSize: int
    var rules: RuleConfig
    var metrics: MetricsCache
    var lastLogicRuntimeError: Option<string>
    var message: string

    /** What render leaves behind: the metrics of the claimed set, the size step they need, the frontier, blocked frontier cells. */
    ghost predicate Rendered()
      reads this`metrics, this`claimed, this`viewSize, this`available, this`blocked
    {
      && Fresh(metrics, claimed)
      && StepFor(Needed(metrics.bounds), viewSize)
      && (forall d :: d in available <==> Frontier(claimed, d))
      && blocked <= available
    }

    ghost predicate Valid()
      reads this`metrics, this`claimed, this`viewSize, this`available, this`blocked, this`rules
    {
      Rendered() && SaneRules(rules)
    }

    /** state.createInitialState. */
    constructor ()
      ensures claimed == {} && blocked == {} && available == {} && viewSize == 10
      ensures rules == DefaultRules && metrics == InitialMetrics
      ensures lastLogicRuntimeError == None && message == ""
      ensures Valid()
    {
      claimed, blocked, available := {}, {}, {};
      viewSize := 10;
      rules := DefaultRules;
      metrics := InitialMetrics;
      lastLogicRuntimeError := None;
      message := "";
      FreshInitialMetrics();
      forall d ensures !Frontier({}, d) {
        NoFrontierOfNothing(d);
      }
      DefaultRulesSane();
    }

    /**
     * The try/catch of main.evalCanClaim around one call of the predicate: a
     * returned value is normalised and clears the last error; a thrown one
     * becomes a RuntimeError rejection whose reason is the prefixed error
     * text, shown only when it differs from the last error.
     */
    method CaptureOutcome(outcome: Outcome) returns (res: Verdict)
      modifies this`lastLogicRuntimeError, this`message
      ensures outcome.Returned? ==>
        res == Normalize(outcome.value) && lastLogicRuntimeError == None && message == old(message)
      ensures outcome.Threw? ==>
        var msg := LogicErrorPrefix + outcome.text;
        && res == Verdict(false, Some(msg), Some(RuntimeErrorModule))
        && lastLogicRuntimeError == Some(msg)
        && message == (if old(lastLogicRuntimeError) == Some(msg) then old(message) else msg)
    {
      match outcome
      case Returned(value) =>
        res := Normalize(value);
        lastLogicRuntimeError := None;
      case Threw(text) =>
        var msg := LogicErrorPrefix + text;
        if lastLogicRuntimeError != Some(msg) {
          message := msg;
        }
        lastLogicRuntimeError := Some(msg);
        res := Verdict(false, Some(msg), Some(RuntimeErrorModule));
    }

    /** main.evalCanClaim with canClaimFn = defaultCanClaim, which returns a rule object. */
    method EvalCanClaim(c: Cell) returns (res: Verdict, ghost diam: int)
      modifies this`lastLogicRuntimeError, this`message
      ensures message == old(message) && lastLogicRuntimeError == None
      ensures res.ok <==> ClaimDecision(claimed, rules, metrics, c, diam) == Accept
      ensures res.reason == None
      ensures !res.ok ==> res.moduleName == Some(ModuleName(ClaimDecision(claimed, rules, metrics, c, diam).gate))
      ensures DiamSound(claimed, rules, metrics, c, diam)
    {
      var dec;
      dec, diam := CanClaim(claimed, rules, metrics, c);
      res := CaptureOutcome(Returned(RuleValue(dec)));
      NormalizeRuleValue(dec);
    }

    /** The inner loop of render's marking in column x: evaluate each frontier cell and block the rejected ones. */
    method MarkColumn(v: Viewport, x: int, ghost diams: map<Cell, int>) returns (ghost diams': map<Cell, int>)
      requires v.zMin <= v.zMax && v.xMin <= x <= v.xMax
      requires Marked(claimed, available, rules, metrics, v, blocked, diams, x, v.zMin)
      requires diams != map[] ==> lastLogicRuntimeError == None
      modifies this`blocked, this`lastLogicRuntimeError, this`message
      ensures message == old(message)
      ensures Marked(claimed, available, rules, metrics, v, blocked, diams', x + 1, v.zMin)
      ensures diams' != map[] ==> lastLogicRuntimeError == None
      ensures diams' == map[] ==> lastLogicRuntimeError == old(lastLogicRuntimeError)
    {
      diams' := diams;
      for z := v.zMin to v.zMax + 1
        invariant message == old(message)
        invariant Marked(claimed, available, rules, metrics, v, blocked, diams', x, z)
        invariant diams' != map[] ==> lastLogicRuntimeError == None
        invariant diams' == map[] ==> lastLogicRuntimeError == old(lastLogicRuntimeError)
      {
        var d := Cell(x, z);
        if d in claimed || d !in available {
          MarkSkip(claimed, available, rules, metrics, v, blocked, diams', x, z);
        } else {
          var res;
          ghost var diam;
          res, diam := EvalCanClaim(d);
          MarkEvaluated(claimed, available, rules, metrics, v, blocked, diams', x, z, diam);
          diams' := diams'[d := diam];
          if !res.ok {
            blocked := blocked + {d};
          }
        }
      }
      MarkNextColumn(claimed, available, rules, metrics, v, blocked, diams', x);
    }

    /**
     * The marking loop of render, as the intent of state.blocked: every
     * frontier cell of the view is evaluated (with the diameter in diams)
     * and exactly the rejected ones are blocked.
     */
    method MarkBlocked(v: Viewport) returns (ghost diams: map<Cell, int>)
      requires v.xMin <= v.xMax && v.zMin <= v.zMax
      modifies this`blocked, this`lastLogicRuntimeError, this`message
      ensures message == old(message)
      ensures forall d :: d in diams <==> InView(v, d) && d in available && d !in claimed
      ensures forall d :: d in blocked ==> d in diams
      ensures forall d {:trigger diams[d]} :: d in diams ==>
        (d in blocked <==> ClaimDecision(claimed, rules, metrics, d, diams[d]) != Accept) &&
        DiamSound(claimed, rules, metrics, d, diams[d])
      ensures lastLogicRuntimeError == if diams == map[] then old(lastLogicRuntimeError) else None
    {
      blocked := {};
      diams := map[];
      for x := v.xMin to v.xMax + 1
        invariant message == old(message)
        invariant Marked(claimed, available, rules, metrics, v, blocked, diams, x, v.zMin)
        invariant diams != map[] ==> lastLogicRuntimeError == None
        invariant diams == map[] ==> lastLogicRuntimeError == old(lastLogicRuntimeError)
      {
        diams := MarkColumn(v, x, diams);
      }
      MarkDone(claimed, available, rules, metrics, v, blocked, diams);
    }

    /**
     * The marking loop of render as written: the value it tests is the
     * verdict object evalCanClaim returns, and `!object` is false, so the
     * add (which state.blocked, a Map, would not even have) never runs.
     */
    method MarkBlockedAsWritten(v: Viewport) returns (ghost evaluated: set<Cell>)
      requires v.xMin <= v.xMax && v.zMin <= v.zMax
      modifies this`blocked, this`lastLogicRuntimeError, this`message
      ensures message == old(message)
      ensures blocked == {}
      ensures forall d :: d in evaluated <==> InView(v, d) && d in available && d !in claimed
      ensures lastLogicRuntimeError == if evaluated == {} then old(lastLogicRuntimeError) else None
    {
      blocked := {};
      evaluated := {};
      for x := v.xMin to v.xMax + 1
        invariant message == old(message) && blocked == {}
        invariant ScannedCells(claimed, available, v, evaluated, x, v.zMin)
        invariant lastLogicRuntimeError == if evaluated == {} then old(lastLogicRuntimeError) else None
      {
        for z := v.zMin to v.zMax + 1
          invariant message == old(message) && blocked == {}
          invariant ScannedCells(claimed, available, v, evaluated, x, z)
          invariant lastLogicRuntimeError == if evaluated == {} then old(lastLogicRuntimeError) else None
        {
          var d := Cell(x, z);
          ScanStep(claimed, available, v, evaluated, x, z);
          if d !in claimed && d in available {
            var res;
            ghost var diam;
            res, diam := EvalCanClaim(d);
            evaluated := evaluated + {d};
            var ok := VerdictObject(res);
            if !Truthy(ok) {
              // the add on state.blocked would run here; the verdict object is always truthy
              assert false;
            }
          }
        }
        ScanNextColumn(claimed, available, v, evaluated, x);
      }
      ScanDone(claimed, available, v, evaluated);
    }

    /** The metrics record, size step and frontier render stores; v is the viewport it draws. */
    ghost predicate Derived(v: Viewport)
      reads this`metrics, this`claimed, this`viewSize, this`available
    {
      && Fresh(metrics, claimed)
      && (forall d :: d in available <==> Frontier(claimed, d))
      && v.size == viewSize && v.xMax == v.xMin + v.size - 1 && v.zMin == v.zMax - v.size + 1
      && StepFor(Needed(metrics.bounds), viewSize)
      && (claimed != {} ==> v.xMin == metrics.bounds.value.minX - 2 && v.zMax == metrics.bounds.value.maxZ + 2)
    }

    /** The first part of render: the metrics record, the size step and the frontier. */
    method Refresh() returns (v: Viewport)
      modifies this`metrics, this`viewSize, this`available
      ensures Derived(v)
      ensures claimed == {} ==> available == {}
    {
      var m, pa := ComputeMetrics(claimed);
      metrics := m;
      v := ComputeViewport(m.bounds);
      viewSize := v.size;
      var avail := ComputeAvailableSet(claimed);
      available := avail;
    }

    /** The marking pass of render, seen from its callers: blocked stays within the frontier. */
    method MarkFrontier(v: Viewport)
      requires v.xMin <= v.xMax && v.zMin <= v.zMax
      modifies this`blocked, this`lastLogicRuntimeError, this`message
      ensures message == old(message)
      ensures blocked <= available && (available == {} ==> blocked == {})
    {
      ghost var diams := MarkBlocked(v);
    }

    /**
     * render's state updates: the metrics record, the size step, the
     * frontier, and the blocked cells of the viewport it draws.
     */
    method Render()
      modifies this`metrics, this`viewSize, this`available, this`blocked, this`lastLogicRuntimeError, this`message
      ensures message == old(message) && Rendered() && (SaneRules(rules) ==> Valid())
      ensures claimed == {} ==> available == {} && blocked == {}
    {
      var v := Refresh();
      assert Fresh(metrics, claimed) && StepFor(Needed(metrics.bounds), viewSize);
      assert forall d :: d in available <==> Frontier(claimed, d);
      MarkFrontier(v);
    }

    /** The unclaim branch of the grid click: delete c when defaultCanUnclaim accepts. */
    method ClickClaimed(c: Cell) returns (ghost dec: Decision)
      requires c in claimed
      modifies this`claimed
      ensures dec == UnclaimDecision(old(claimed), c)
      ensures claimed == if dec == Accept then old(claimed) - {c} else old(claimed)
    {
      var unclaim := CanUnclaim(claimed, c);
      dec := unclaim;
      if unclaim == Accept {
        claimed := claimed - {c};
      }
    }

    /** The claim branch of the grid click: add c when evalCanClaim accepts. */
    method ClickUnclaimed(c: Cell) returns (ghost dec: Decision, ghost diam: int)
      requires c !in claimed
      modifies this`claimed, this`lastLogicRuntimeError, this`message
      ensures dec == ClaimDecision(old(claimed), rules, metrics, c, diam) && DiamSound(old(claimed), rules, metrics, c, diam)
      ensures claimed == if dec == Accept then old(claimed) + {c} else old(claimed)
      ensures message == old(message) && lastLogicRuntimeError == None
    {
      var res;
      res, diam := EvalCanClaim(c);
      dec := ClaimDecision(claimed, rules, metrics, c, diam);
      if res.ok {
        claimed := claimed + {c};
      }
    }

    /**
     * The grid click: a claimed cell is given up when defaultCanUnclaim
     * accepts (dec is its decision); any other cell is claimed when
     * evalCanClaim accepts (dec is the decision of defaultCanClaim, taken
     * with the diameter diam). No other cell changes, and the view is
     * rendered again either way.
     */
    method Click(c: Cell) returns (ghost dec: Decision, ghost diam: int)
      modifies this`claimed, this`metrics, this`viewSize, this`available, this`blocked
      modifies this`lastLogicRuntimeError, this`message
      ensures Rendered()
      ensures old(Valid()) ==> Valid()
      ensures c in old(claimed) ==> dec == UnclaimDecision(old(claimed), c)
      ensures c !in old(claimed) ==>
        dec == ClaimDecision(old(claimed), rules, old(metrics), c, diam) && DiamSound(old(claimed), rules, old(metrics), c, diam)
      ensures claimed == if dec != Accept then old(claimed) else if c in old(claimed) then old(claimed) - {c} else old(claimed) + {c}
    {
      ghost var sane := SaneRules(rules);
      diam := 0;
      if c in claimed {
        dec := ClickClaimed(c);
      } else {
        dec, diam := ClickUnclaimed(c);
      }
      Render();
      assert sane ==> Valid();
    }

    /** The inner loop of resetToInitial: claim the cells of column x in rows -1..1. */
    method SeedColumn(x: int)
      modifies this`claimed
      ensures forall d :: d in claimed <==> d in old(claimed) || (d.x == x && -1 <= d.z <= 1)
    {
      for z := -1 to 2
        invariant forall d :: d in claimed <==> d in old(claimed) || (d.x == x && -1 <= d.z < z)
      {
        claimed := claimed + {Cell(x, z)};
      }
    }

    /** The two loops of resetToInitial: claim the 3×3 block around the origin. */
    method SeedBlock()
      requires claimed == {}
      modifies this`claimed
      ensures forall d :: d in claimed <==> InBlock(d)
    {
      for x := -1 to 2
        invariant forall d :: d in claimed <==> -1 <= d.x < x && -1 <= d.z <= 1
      {
        SeedColumn(x);
      }
    }

    /** main.resetToInitial: the claimed set becomes the 3×3 block around the origin. */
    method ResetToInitial()
      modifies this`claimed, this`metrics, this`viewSize, this`available, this`blocked
      modifies this`lastLogicRuntimeError, this`message
      ensures forall d :: d in claimed <==> InBlock(d)
      ensures Rendered() && message == ResetMessage
      ensures old(Valid()) ==> Valid()
    {
      ghost var sane := SaneRules(rules);
      claimed := {};
      blocked := {};
      SeedBlock();
      // The source sets the message after rerender; Render leaves the message
      // as it finds it, so writing it first gives the same final state.
      message := ResetMessage;
      Render();
      assert sane ==> Valid();
    }

    /** main.clearAll: nothing is claimed, so nothing is available or blocked either. */
    method ClearAll()
      modifies this`claimed, this`metrics, this`viewSize, this`available, this`blocked
      modifies this`lastLogicRuntimeError, this`message
      ensures claimed == {} && available == {} && blocked == {}
      ensures Rendered() && message == ClearMessage
      ensures old(Valid()) ==> Valid()
    {
      ghost var sane := SaneRules(rules);
      claimed := {};
      blocked := {};
      Render();
      message := ClearMessage;
      assert sane ==> Valid();
    }

    /** A change handler of the rule controls: update the rules, then render. */
    method ChangeRule(input: RuleInput)
      modifies this`rules, this`metrics, this`viewSize, this`available, this`blocked
      modifies this`lastLogicRuntimeError, this`message
      ensures message == old(message)
      ensures rules == ApplyRuleInput(old(rules), input)
      ensures Rendered() && (SaneRules(old(rules)) ==> Valid())
    {
      if SaneRules(rules) {
        ApplyKeepsSane(rules, input);
      }
      rules := ApplyRuleInput(rules, input);
      Render();
    }
  }

  /**
   * The marking as written misses a rejection: next to a single claimed
   * cell, with requireTwoAdj on, the frontier cell (1, 0) is rejected by
   * gate B, yet the verdict object evalCanClaim returns for it is truthy.
   */
  lemma BlockedMarkingMissesRejection(cache: MetricsCache, diam: int)
    ensures var s := {Cell(0, 0)};
      var rules := DefaultRules.(requireTwoAdj := true);
      var dec := ClaimDecision(s, rules, cache, Cell(1, 0), diam);
      && Frontier(s, Cell(1, 0))
      && dec == Reject(B)
      && !Normalize(RuleValue(dec)).ok
      && Truthy(VerdictObject(Normalize(RuleValue(dec))))
  {
    var s := {Cell(0, 0)};
    var c := Cell(1, 0);
    var rules := DefaultRules.(requireTwoAdj := true);
    DegreeIsClaimedNeighbourCount(s, c);
    assert Adjacent(c, Cell(0, 0));
    assert ClaimedNeighbours(s, c) == {Cell(0, 0)};
    ClaimTwoAdj(s, rules, cache, c, diam);
    NormalizeRuleValue(Reject(B));
  }
}
