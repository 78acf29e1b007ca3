/**
 The option vocabulary of the ensemble optimizer and the validation its constructor performs
 (neorl/hybrid/aeo.py, `AEO.__init__`). Raw arguments arrive as Python values; a successful
 validation turns them into a typed `Config`.
 */
module Options {
  import opened Wrappers

  /** Problem direction shared by the whole ensemble. */
  datatype Mode = Min | Max

  /** An exponent or skew that is either fixed or linearly annealed over the cycles. */
  datatype Schedule = Fixed(value: real) | Up | Down

  /** Strength measure: current best fitness, or its improvement since the previous cycle. */
  datatype Measure = FitnessMeasure | ImproveMeasure

  /** Rank weighting used when choosing which members leave a population. */
  datatype Weighting = LogWeights | LinWeights | ExpWeights | Uniform

  /** Member ordering before rank weighting; the `A` variants anneal half-way through. */
  datatype Order = WB | BW | AWB | ABW

  /** The two variants of the rank-weight functions. */
  datatype Kf = Kf0 | Kf1

  /** A Python argument value, as far as the constructor's checks can tell values apart. */
  datatype PyVal = PyStr(s: string) | PyFloat(x: real) | PyInt(i: int) | PyBool(b: bool) | PyNone

  /** The raw constructor arguments that are validated. */
  datatype RawArgs = RawArgs(
    mode: PyVal, alpha: PyVal, g: PyVal, gBurden: PyVal, q: PyVal, wt: PyVal,
    beta: PyVal, b: PyVal, bBurden: PyVal, ret: PyVal, order: PyVal, kf: PyVal)

  /** Validated ensemble options. `genPerCycle` is passed through unchecked. */
  datatype Config = Config(
    mode: Mode, genPerCycle: nat,
    alpha: Schedule, g: Measure, gBurden: bool, q: Schedule, wt: Weighting,
    order: Option<Order>, kf: Option<Kf>,
    beta: Schedule, b: Measure, bBurden: bool, ret: bool)

  /** One constructor per distinct construction-time error, in the order they are checked. */
  datatype ConfigError =
    | InvalidMode | InvalidAlpha | NegativeAlpha | InvalidG | GBurdenNotBool | InvalidQ
    | InvalidWt | InvalidOrder | InvalidKf | InvalidBeta | NegativeBeta | InvalidB
    | BBurdenNotBool | RetNotBool

  /** Position of each check in the constructor. */
  function Rank(e: ConfigError): nat
  {
    match e
    case InvalidMode => 0
    case InvalidAlpha => 1
    case NegativeAlpha => 2
    case InvalidG => 3
    case GBurdenNotBool => 4
    case InvalidQ => 5
    case InvalidWt => 6
    case InvalidOrder => 7
    case InvalidKf => 8
    case InvalidBeta => 9
    case NegativeBeta => 10
    case InvalidB => 11
    case BBurdenNotBool => 12
    case RetNotBool => 13
  }

  /** Python's `v == n` for an integer literal `n` (bools compare as 0/1, floats by value). */
  predicate EqualsInt(v: PyVal, n: int)
  {
    match v
    case PyInt(i) => i == n
    case PyFloat(x) => x == n as real
    case PyBool(b) => (if b then 1 else 0) == n
    case _ => false
  }

  /** A float, or one of the strings 'up' and 'down'. */
  function ParseSchedule(v: PyVal): Option<Schedule>
  {
    match v
    case PyFloat(x) => Some(Fixed(x))
    case PyStr(s) => if s == "up" then Some(Up) else if s == "down" then Some(Down) else None
    case _ => None
  }

  predicate NegativeFloat(v: PyVal)
  {
    v.PyFloat? && v.x < 0.0
  }

  function ParseMeasure(v: PyVal): Option<Measure>
  {
    if v == PyStr("fitness") then Some(FitnessMeasure)
    else if v == PyStr("improve") then Some(ImproveMeasure)
    else None
  }

  function ParseWeighting(v: PyVal): Option<Weighting>
  {
    if v == PyStr("log") then Some(LogWeights)
    else if v == PyStr("lin") then Some(LinWeights)
    else if v == PyStr("exp") then Some(ExpWeights)
    else if v == PyStr("uni") then Some(Uniform)
    else None
  }

  /** `Some(None)` stands for an accepted `None`. */
  function ParseOrder(v: PyVal): Option<Option<Order>>
  {
    if v == PyStr("wb") then Some(Some(WB))
    else if v == PyStr("bw") then Some(Some(BW))
    else if v == PyStr("awb") then Some(Some(AWB))
    else if v == PyStr("abw") then Some(Some(ABW))
    else if v == PyNone then Some(None)
    else None
  }

  /** `kf in [0, 1, None]`, with Python's numeric equality. */
  function ParseKf(v: PyVal): Option<Option<Kf>>
  {
    if EqualsInt(v, 0) then Some(Some(Kf0))
    else if EqualsInt(v, 1) then Some(Some(Kf1))
    else if v == PyNone then Some(None)
    else None
  }

  /** Whether the check that raises `e` passes on `a`. */
  predicate Passes(e: ConfigError, a: RawArgs)
  {
    match e
    case InvalidMode => a.mode == PyStr("max") || a.mode == PyStr("min")
    case InvalidAlpha => ParseSchedule(a.alpha).Some?
    case NegativeAlpha => !NegativeFloat(a.alpha)
    case InvalidG => ParseMeasure(a.g).Some?
    case GBurdenNotBool => a.gBurden.PyBool?
    case InvalidQ => ParseSchedule(a.q).Some?
    case InvalidWt => ParseWeighting(a.wt).Some?
    case InvalidOrder => ParseOrder(a.order).Some?
    case InvalidKf => ParseKf(a.kf).Some?
    case InvalidBeta => ParseSchedule(a.beta).Some?
    case NegativeBeta => !NegativeFloat(a.beta)
    case InvalidB => ParseMeasure(a.b).Some?
    case BBurdenNotBool => a.bBurden.PyBool?
    case RetNotBool => a.ret.PyBool?
  }

  /** The constructor's checks, in the order it performs them. */
  const CheckOrder: seq<ConfigError> := [
    InvalidMode, InvalidAlpha, NegativeAlpha, InvalidG, GBurdenNotBool, InvalidQ, InvalidWt,
    InvalidOrder, InvalidKf, InvalidBeta, NegativeBeta, InvalidB, BBurdenNotBool, RetNotBool]

  lemma CheckOrderIsByRank(e: ConfigError)
    ensures Rank(e) < |CheckOrder| && CheckOrder[Rank(e)] == e
  {
  }

  /** The first check at or after position `i` that fails, if any. */
  function FirstFailing(a: RawArgs, i: nat): (r: Option<ConfigError>)
    requires i <= |CheckOrder|
    ensures r.Some? ==> !Passes(r.value, a) && i <= Rank(r.value)
    ensures r.Some? ==> forall j :: i <= j < Rank(r.value) ==> Passes(CheckOrder[j], a)
    ensures r.None? ==> forall j :: i <= j < |CheckOrder| ==> Passes(CheckOrder[j], a)
    decreases |CheckOrder| - i
  {
    if i == |CheckOrder| then None
    else if !Passes(CheckOrder[i], a) then
      CheckOrderIsByRank(CheckOrder[i]);
      Some(CheckOrder[i])
    else FirstFailing(a, i + 1)
  }

  /** Every check of the constructor passes. */
  predicate AllPass(a: RawArgs)
  {
    forall e :: Passes(e, a)
  }

  /** What passing every check says about each argument. */
  lemma AllPassMeans(a: RawArgs)
    requires AllPass(a)
    ensures a.mode == PyStr("max") || a.mode == PyStr("min")
    ensures ParseSchedule(a.alpha).Some? && ParseSchedule(a.beta).Some? && ParseSchedule(a.q).Some?
    ensures !NegativeFloat(a.alpha) && !NegativeFloat(a.beta)
    ensures ParseMeasure(a.g).Some? && ParseMeasure(a.b).Some?
    ensures ParseWeighting(a.wt).Some? && ParseOrder(a.order).Some? && ParseKf(a.kf).Some?
    ensures a.gBurden.PyBool? && a.bBurden.PyBool? && a.ret.PyBool?
  {
    SchedulesPass(a);
    MeasuresPass(a);
    FlagsPass(a);
  }

  lemma SchedulesPass(a: RawArgs)
    requires AllPass(a)
    ensures ParseSchedule(a.alpha).Some? && ParseSchedule(a.beta).Some? && ParseSchedule(a.q).Some?
    ensures !NegativeFloat(a.alpha) && !NegativeFloat(a.beta)
  {
    assert Passes(InvalidAlpha, a) && Passes(NegativeAlpha, a) && Passes(InvalidQ, a);
    assert Passes(InvalidBeta, a) && Passes(NegativeBeta, a);
  }

  lemma MeasuresPass(a: RawArgs)
    requires AllPass(a)
    ensures ParseMeasure(a.g).Some? && ParseMeasure(a.b).Some?
    ensures ParseWeighting(a.wt).Some? && ParseOrder(a.order).Some? && ParseKf(a.kf).Some?
  {
    assert Passes(InvalidG, a) && Passes(InvalidB, a);
    assert Passes(InvalidWt, a) && Passes(InvalidOrder, a) && Passes(InvalidKf, a);
  }

  lemma FlagsPass(a: RawArgs)
    requires AllPass(a)
    ensures a.mode == PyStr("max") || a.mode == PyStr("min")
    ensures a.gBurden.PyBool? && a.bBurden.PyBool? && a.ret.PyBool?
  {
    assert Passes(InvalidMode, a) && Passes(GBurdenNotBool, a);
    assert Passes(BBurdenNotBool, a) && Passes(RetNotBool, a);
  }

  /** The typed options read off arguments that passed every check. */
  function Parsed(a: RawArgs, genPerCycle: nat): (c: Config)
    requires AllPass(a)
    ensures c.genPerCycle == genPerCycle
    ensures c.mode == Max <==> a.mode == PyStr("max")
    ensures Some(c.alpha) == ParseSchedule(a.alpha) && Some(c.beta) == ParseSchedule(a.beta)
    ensures Some(c.q) == ParseSchedule(a.q)
    ensures (c.alpha.Fixed? ==> c.alpha.value >= 0.0) && (c.beta.Fixed? ==> c.beta.value >= 0.0)
    ensures Some(c.g) == ParseMeasure(a.g) && Some(c.b) == ParseMeasure(a.b)
    ensures Some(c.wt) == ParseWeighting(a.wt)
    ensures Some(c.order) == ParseOrder(a.order) && Some(c.kf) == ParseKf(a.kf)
    ensures a.gBurden == PyBool(c.gBurden) && a.bBurden == PyBool(c.bBurden) && a.ret == PyBool(c.ret)
  {
    AllPassMeans(a);
    Config(
      if a.mode == PyStr("max") then Max else Min, genPerCycle,
      ParseSchedule(a.alpha).value, ParseMeasure(a.g).value, a.gBurden.b,
      ParseSchedule(a.q).value, ParseWeighting(a.wt).value,
      ParseOrder(a.order).value, ParseKf(a.kf).value,
      ParseSchedule(a.beta).value, ParseMeasure(a.b).value, a.bBurden.b, a.ret.b)
  }

  /**
   The constructor's validation: it succeeds exactly when every check passes, and otherwise
   reports the first check that fails, so each failure is distinct and reported immediately.
   */
  function Validate(a: RawArgs, genPerCycle: nat): (r: Result<Config, ConfigError>)
    ensures r.Ok? <==> AllPass(a)
    ensures r.Err? ==> !Passes(r.error, a) && forall e :: Rank(e) < Rank(r.error) ==> Passes(e, a)
    ensures r.Ok? ==> r.value == Parsed(a, genPerCycle)
  {
    match FirstFailing(a, 0)
    case Some(e) =>
      assert forall e' :: Rank(e') < Rank(e) ==> Passes(e', a) by {
        forall e' | Rank(e') < Rank(e) ensures Passes(e', a) {
          CheckOrderIsByRank(e');
        }
      }
      Err(e)
    case None =>
      assert AllPass(a) by {
        forall e ensures Passes(e, a) {
          CheckOrderIsByRank(e);
        }
      }
      Ok(Parsed(a, genPerCycle))
  }

  /** Integer-valued `kf` arguments, including the bools `True`/`False`, select the same variant. */
  lemma KfAcceptsNumericEquals()
    ensures ParseKf(PyBool(true)) == Some(Some(Kf1)) && ParseKf(PyFloat(0.0)) == Some(Some(Kf0))
    ensures ParseKf(PyInt(2)) == None && ParseKf(PyStr("0")) == None
  {
  }

  /** An integer literal for alpha is refused: only floats and the two strings are schedules. */
  lemma IntegerAlphaRefused(a: RawArgs)
    requires Passes(InvalidMode, a) && a.alpha.PyInt?
    ensures Validate(a, 1) == Err(InvalidAlpha)
  {
  }
}
