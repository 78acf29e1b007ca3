/**
 The cycle loop of the ensemble optimizer (neorl/hybrid/aeo.py, `AEO.evolute`): every cycle
 evolves each population, draws how many members each exports, removes them, and routes them
 to new populations. Everything the loop takes from outside the model — the optimizers' runs,
 real powers, random draws, sorting and the stopping rule — comes from an `Oracles` value.
 */
module Ensemble {
  import opened Wrappers
  import opened Lists
  import opened Options
  import opened Failures
  import opened Algorithms
  import opened Schedules
  import opened Populations
  import opened Routing

  /**
   What a run consumes from outside, each keyed by the cycle and population (or group) it
   is used for: `run` is an optimizer's `evolute` (final rows of its population), `pow` is
   `x ** a`, `binomial`, `choice`, `shuffle` and `multinomial` are the random draws, `sort`
   is Python's sort of (fitness, member) pairs, and `stop` is the stopping criterion.
   */
  datatype Oracles = Oracles(
    run: (nat, nat, seq<Vec>) -> seq<(Vec, real)>,
    pow: (real, real) -> real,
    binomial: (nat, nat, nat, real) -> nat,
    sort: (nat, nat, seq<(Fit, Vec)>, bool) -> seq<(Fit, Vec)>,
    choice: (nat, nat, nat, nat, bool) -> seq<nat>,
    shuffle: (nat, nat, seq<Vec>) -> seq<Vec>,
    multinomial: (nat, nat, nat, seq<real>) -> seq<nat>,
    stop: nat -> bool)

  /**
   What the model relies on: an optimizer run returns as many rows as it was given members,
   powers of a non-negative base are non-negative (positive for a positive base), `x ** 0` is
   one, `x ** 1` is `x` and `0 ** a` is zero for positive `a`, a binomial draw does not exceed its count,
   a sort reorders its pairs, a choice is a valid draw whenever numpy accepts the request, a
   shuffle reorders its list, and a multinomial draw has one count per probability, adding up
   to the number drawn.
   */
  ghost predicate ValidOracles(o: Oracles)
  {
    && (forall c, j, m :: |o.run(c, j, m)| == |m|)
    && (forall x, a :: x >= 0.0 ==> o.pow(x, a) >= 0.0)
    && (forall x, a :: x > 0.0 ==> o.pow(x, a) > 0.0)
    && (forall x :: o.pow(x, 0.0) == 1.0)
    && (forall x :: o.pow(x, 1.0) == x)
    && (forall a :: a > 0.0 ==> o.pow(0.0, a) == 0.0)
    && (forall c, j, n, p :: o.binomial(c, j, n, p) <= n)
    && (forall c, j, pairs, asc :: SortOk(pairs, o.sort(c, j, pairs, asc), asc))
    && (forall c, j, n, k, z :: !ChoiceFails(n, k, z) ==> ChoiceOk(o.choice(c, j, n, k, z), n, k, z))
    && (forall c, j, xs :: multiset(o.shuffle(c, j, xs)) == multiset(xs))
    && (forall c, j, m, ps :: |o.multinomial(c, j, m, ps)| == |ps| && (|ps| > 0 ==> Sum(o.multinomial(c, j, m, ps)) == m))
  }

  /** The per-cycle values the original program writes to its log. */
  datatype CycleLog = CycleLog(
    cycle: nat, fits: seq<real>, fmax: real, fmin: real, migration: bool,
    nexport: seq<nat>, alpha: real, beta: real, allotted: seq<nat>)

  lemma TotalSizeAppend(pops: seq<Population>, p: Population)
    ensures TotalSize(pops + [p]) == TotalSize(pops) + |p.members|
  {
    assert Sizes(pops + [p]) == Sizes(pops) + [|p.members|];
    SumAppend(Sizes(pops), |p.members|);
  }

  // ----- evolution phase -----

  /** The first `k` populations evolved in order; the first failure stops the phase. */
  function EvolveAll(pops: seq<Population>, ngen: nat, c: nat, o: Oracles, k: nat): (r: Result<seq<Evolved>, Failure>)
    requires k <= |pops|
    ensures r.Ok? ==> |r.value| == k
    ensures r.Ok? ==> forall j :: 0 <= j < k ==> Evolve(pops[j], ngen, o.run(c, j, pops[j].members)) == Ok(r.value[j])
    ensures r.Err? ==> exists j :: (0 <= j < k && Evolve(pops[j], ngen, o.run(c, j, pops[j].members)) == Err(r.error)
      && forall i :: 0 <= i < j ==> Evolve(pops[i], ngen, o.run(c, i, pops[i].members)).Ok?)
  {
    if k == 0 then Ok([])
    else
      var prev :- EvolveAll(pops, ngen, c, o, k - 1);
      var e :- Evolve(pops[k - 1], ngen, o.run(c, k - 1, pops[k - 1].members));
      Ok(prev + [e])
  }

  function EvolvedPops(es: seq<Evolved>): (r: seq<Population>)
    ensures |r| == |es| && forall j :: 0 <= j < |es| ==> r[j] == es[j].pop
  {
    seq(|es|, j requires 0 <= j < |es| => es[j].pop)
  }

  function EvolvedFits(es: seq<Evolved>): (r: seq<real>)
    ensures |r| == |es| && forall j :: 0 <= j < |es| ==> r[j] == es[j].fitness
  {
    seq(|es|, j requires 0 <= j < |es| => es[j].fitness)
  }

  /**
   A fresh ensemble holding an MFO population fails its first evolution phase, whatever the
   other populations do: the first population that fails is the MFO one or one before it.
   */
  lemma MfoStopsFirstPhase(pops: seq<Population>, ngen: nat, c: nat, o: Oracles, m: nat)
    requires m < |pops| && pops[m].algo.family == MFO
    requires forall j :: 0 <= j < |pops| ==> pops[j].fitlog == []
    ensures EvolveAll(pops, ngen, c, o, |pops|).Err?
    ensures EvolveAll(pops, ngen, c, o, |pops|).error in {StartTooSmall, EmptyFinalPopulation}
  {
    var r := EvolveAll(pops, ngen, c, o, |pops|);
    MfoNeverStarts(pops[m], ngen, o.run(c, m, pops[m].members));
    if r.Err? {
      var j :| 0 <= j < |pops| && Evolve(pops[j], ngen, o.run(c, j, pops[j].members)) == Err(r.error);
      assert pops[j].fitlog == [];
    }
  }

  /** An evolution phase keeps every population's size and alignment. */
  lemma EvolveAllKeepsSizes(pops: seq<Population>, ngen: nat, c: nat, o: Oracles)
    requires ValidOracles(o) && AllAligned(pops)
    requires EvolveAll(pops, ngen, c, o, |pops|).Ok?
    ensures var ps := EvolvedPops(EvolveAll(pops, ngen, c, o, |pops|).value);
      |ps| == |pops| && AllAligned(ps) && Sizes(ps) == Sizes(pops)
  {
    var es := EvolveAll(pops, ngen, c, o, |pops|).value;
    forall j | 0 <= j < |pops|
      ensures Aligned(es[j].pop) && |es[j].pop.members| == |pops[j].members|
    {
      var out := o.run(c, j, pops[j].members);
      assert |out| == |pops[j].members|;
      assert Evolve(pops[j], ngen, out) == Ok(es[j]);
    }
  }

  // ----- exportation number -----

  /**
   Whether Python's `x ** a` of a float is a real number: always for a non-negative base, and
   for a negative base only when the exponent is a whole number. Otherwise the power is
   complex (NaN for a numpy float), and every random draw that is handed it refuses it.
   */
  predicate RealPower(x: real, a: real)
  {
    x >= 0.0 || a == a.Floor as real
  }

  /** `x ** a`, or `None` where the power is not a real number. */
  function Power(pow: (real, real) -> real, x: real, a: real): (r: Option<real>)
    ensures r.Some? <==> RealPower(x, a)
    ensures r.Some? ==> r.value == pow(x, a)
  {
    if RealPower(x, a) then Some(pow(x, a)) else None
  }

  predicate AllReal(xs: seq<Option<real>>)
  {
    forall j :: 0 <= j < |xs| ==> xs[j].Some?
  }

  function Reals(xs: seq<Option<real>>): (r: seq<real>)
    requires AllReal(xs)
    ensures |r| == |xs| && forall j :: 0 <= j < |xs| ==> xs[j] == Some(r[j])
  {
    seq(|xs|, j requires 0 <= j < |xs| => xs[j].value)
  }

  /** `p.strength(...) ** a` for the first `k` populations; `None` marks a power that is not a real number. */
  function PowStrengths(pops: seq<Population>, g: Measure, burden: bool, fmax: real, fmin: real,
                        a: real, pow: (real, real) -> real, k: nat): (r: Result<seq<Option<real>>, Failure>)
    requires k <= |pops|
    ensures r.Ok? ==> |r.value| == k
    ensures r.Ok? ==> forall j :: 0 <= j < k ==>
      Strength(pops[j], g, burden, fmax, fmin).Ok? && r.value[j] == Power(pow, Strength(pops[j], g, burden, fmax, fmin).value, a)
    ensures r.Err? <==> exists j :: 0 <= j < k && Strength(pops[j], g, burden, fmax, fmin).Err?
    ensures r.Err? ==> r.error in {NoFitnessYet, ZeroFitnessRange, NoCostFormula}
    ensures r.Err? ==> exists j :: (0 <= j < k && Strength(pops[j], g, burden, fmax, fmin) == Err(r.error)
      && forall i :: 0 <= i < j ==> Strength(pops[i], g, burden, fmax, fmin).Ok?)
  {
    if k == 0 then Ok([])
    else
      var prev :- PowStrengths(pops, g, burden, fmax, fmin, a, pow, k - 1);
      var s :- Strength(pops[k - 1], g, burden, fmax, fmin);
      Ok(prev + [Power(pow, s, a)])
  }

  /** `np.random.binomial(len(p.members), w)` for the first `k` populations; fails on a `w` outside [0, 1]. */
  function DrawExports(pops: seq<Population>, probs: seq<real>, c: nat, o: Oracles, k: nat): (r: Result<seq<nat>, Failure>)
    requires |probs| == |pops| && k <= |pops|
    ensures r.Ok? <==> AllUnit(probs[..k])
    ensures r.Err? ==> r.error == BinomialProbability
    ensures r.Ok? ==> |r.value| == k
    ensures r.Ok? ==> forall j :: 0 <= j < k ==> r.value[j] == o.binomial(c, j, |pops[j].members|, probs[j])
  {
    if k == 0 then Ok([])
    else
      assert probs[..k - 1] == probs[..k][..k - 1];
      var prev :- DrawExports(pops, probs, c, o, k - 1);
      if 0.0 <= probs[k - 1] <= 1.0 then Ok(prev + [o.binomial(c, k - 1, |pops[k - 1].members|, probs[k - 1])])
      else Err(BinomialProbability)
  }

  /** The numbers decided in a cycle before members are removed. */
  datatype Numbers = Numbers(fmax: real, fmin: real, migration: bool, eis: seq<nat>, alpha: real)

  /**
   Exportation numbers as the loop computes them. When every population reports the same
   fitness nobody is exported, and the alpha written to the log is whatever the variable holds
   from the last migrating cycle; on a first such cycle it holds nothing and the loop stops with
   an unbound-variable error. Otherwise strengths raised to alpha are scaled to sum one, turned
   into binomial probabilities with the skew q, and drawn.
   */
  function ExportNumbersAsWritten(cfg: Config, ncycles: nat, i: nat, pops: seq<Population>, fits: seq<real>,
                                  prevAlpha: Option<real>, o: Oracles): (r: Result<Numbers, Failure>)
    requires |fits| == |pops| > 0
    ensures r.Ok? ==> r.value.fmax == MaxOf(fits) && r.value.fmin == MinOf(fits)
    ensures r.Ok? ==> (r.value.migration <==> MaxOf(fits) != MinOf(fits))
    ensures MaxOf(fits) == MinOf(fits) ==>
      (r.Err? <==> prevAlpha.None?) && (r.Err? ==> r.error == AlphaUnbound)
    ensures r.Ok? && !r.value.migration ==> r.value.eis == Zeros(|pops|) && Some(r.value.alpha) == prevAlpha
    ensures r.Ok? && r.value.migration ==> AlphaBeta(cfg.alpha, i, ncycles) == Ok(r.value.alpha)
  {
    var fmax := MaxOf(fits);
    var fmin := MinOf(fits);
    if fmax == fmin then
      if prevAlpha.None? then Err(AlphaUnbound)
      else Ok(Numbers(fmax, fmin, false, Zeros(|pops|), prevAlpha.value))
    else
      Migrating(cfg, ncycles, i, pops, fmax, fmin, o)
  }

  /**
   Exportation numbers with alpha evaluated for the current cycle whether or not anybody
   migrates, as beta already is: a cycle with tied fitnesses exports nobody and never fails
   for want of an alpha.
   */
  function ExportNumbers(cfg: Config, ncycles: nat, i: nat, pops: seq<Population>, fits: seq<real>,
                         o: Oracles): (r: Result<Numbers, Failure>)
    requires |fits| == |pops| > 0
    ensures r.Err? ==> r.error != AlphaUnbound
    ensures r.Ok? ==> r.value.fmax == MaxOf(fits) && r.value.fmin == MinOf(fits)
    ensures r.Ok? ==> (r.value.migration <==> MaxOf(fits) != MinOf(fits))
    ensures r.Ok? ==> AlphaBeta(cfg.alpha, i, ncycles) == Ok(r.value.alpha)
    ensures MaxOf(fits) == MinOf(fits) ==> (r.Ok? <==> AlphaBeta(cfg.alpha, i, ncycles).Ok?)
    ensures r.Ok? && !r.value.migration ==> r.value.eis == Zeros(|pops|)
    ensures ValidOracles(o) && r.Ok? ==>
      |r.value.eis| == |pops| && forall j :: 0 <= j < |pops| ==> r.value.eis[j] <= |pops[j].members|
  {
    var fmax := MaxOf(fits);
    var fmin := MinOf(fits);
    if fmax == fmin then
      var alpha :- AlphaBeta(cfg.alpha, i, ncycles);
      Ok(Numbers(fmax, fmin, false, Zeros(|pops|), alpha))
    else
      Migrating(cfg, ncycles, i, pops, fmax, fmin, o)
  }

  /** The migrating branch, shared by both versions: strengths, skew and binomial draws. */
  function Migrating(cfg: Config, ncycles: nat, i: nat, pops: seq<Population>, fmax: real, fmin: real,
                     o: Oracles): (r: Result<Numbers, Failure>)
    requires fmax != fmin
    ensures r.Err? ==> r.error != AlphaUnbound
    ensures r.Ok? ==> r.value.fmax == fmax && r.value.fmin == fmin && r.value.migration
    ensures r.Ok? ==> AlphaBeta(cfg.alpha, i, ncycles) == Ok(r.value.alpha)
    ensures r.Ok? ==> |r.value.eis| == |pops|
    ensures r.Ok? ==> forall j :: 0 <= j < |pops| ==>
      Strength(pops[j], cfg.g, cfg.gBurden, fmax, fmin).Ok?
      && RealPower(Strength(pops[j], cfg.g, cfg.gBurden, fmax, fmin).value, r.value.alpha)
    ensures ValidOracles(o) && r.Ok? ==> forall j :: 0 <= j < |pops| ==> r.value.eis[j] <= |pops[j].members|
    ensures r == Err(ZeroStrengthSum) ==> ZeroPowerSum(cfg, ncycles, i, pops, fmax, fmin, o)
  {
    var alpha :- AlphaBeta(cfg.alpha, i, ncycles);
    var s :- PowStrengths(pops, cfg.g, cfg.gBurden, fmax, fmin, alpha, o.pow, |pops|);
    var eis :- SkewedDraws(cfg, ncycles, i, pops, s, o);
    Ok(Numbers(fmax, fmin, true, eis, alpha))
  }

  /**
   The powers scaled to sum one, skewed by q into binomial probabilities, and drawn. A power
   that is not a real number makes the sum not a real number either, so the scaling does not
   divide by zero, and the binomial draw refuses the probabilities it leads to.
   */
  function SkewedDraws(cfg: Config, ncycles: nat, i: nat, pops: seq<Population>, s: seq<Option<real>>, o: Oracles)
    : (r: Result<seq<nat>, Failure>)
    requires |s| == |pops|
    ensures r.Ok? ==> AllReal(s) && |r.value| == |pops|
    ensures r == Err(ZeroStrengthSum) ==> AllReal(s) && SumReal(Reals(s)) == 0.0
    ensures r.Err? ==> r.error != AlphaUnbound
    ensures ValidOracles(o) && r.Ok? ==> forall j :: 0 <= j < |pops| ==> r.value[j] <= |pops[j].members|
  {
    if AllReal(s) && SumReal(Reals(s)) == 0.0 then Err(ZeroStrengthSum)
    else
      var q :- Q(cfg.q, i, ncycles);
      if !AllReal(s) then Err(BinomialProbability)
      else
        var scaled := Scale(Reals(s), SumReal(Reals(s)));
        var probs := seq(|pops|, j requires 0 <= j < |pops| => ExportProbability(scaled[j], q));
        DrawExports(pops, probs, i, o, |pops|)
  }

  /** Every strength raised to this cycle's alpha is a real number, and the powers sum to zero. */
  predicate ZeroPowerSum(cfg: Config, ncycles: nat, i: nat, pops: seq<Population>, fmax: real, fmin: real, o: Oracles)
  {
    && AlphaBeta(cfg.alpha, i, ncycles).Ok?
    && var s := PowStrengths(pops, cfg.g, cfg.gBurden, fmax, fmin, AlphaBeta(cfg.alpha, i, ncycles).value, o.pow, |pops|);
    && s.Ok? && AllReal(s.value) && SumReal(Reals(s.value)) == 0.0
  }

  /**
   Wherever the loop as written gets past the exportation numbers, the corrected version
   decides the same thing; it differs only by not failing on a tied first cycle.
   */
  lemma CorrectionOnlyFillsTheGap(cfg: Config, ncycles: nat, i: nat, pops: seq<Population>, fits: seq<real>,
                                  prevAlpha: Option<real>, o: Oracles)
    requires |fits| == |pops| > 0
    requires cfg.alpha.Fixed? || ncycles != 1
    requires ExportNumbersAsWritten(cfg, ncycles, i, pops, fits, prevAlpha, o).Ok?
    ensures var w := ExportNumbersAsWritten(cfg, ncycles, i, pops, fits, prevAlpha, o).value;
      var c := ExportNumbers(cfg, ncycles, i, pops, fits, o);
      c.Ok? && c.value.migration == w.migration && c.value.eis == w.eis
      && c.value.fmax == w.fmax && c.value.fmin == w.fmin
  {
  }

  /** The defect on a concrete input: two populations tied on the first cycle. */
  lemma TiedFirstCycleFails(cfg: Config, ncycles: nat, pops: seq<Population>, o: Oracles)
    requires |pops| == 2
    ensures ExportNumbersAsWritten(cfg, ncycles, 1, pops, [0.5, 0.5], None, o) == Err(AlphaUnbound)
    ensures cfg.alpha.Fixed? || ncycles != 1 ==> ExportNumbers(cfg, ncycles, 1, pops, [0.5, 0.5], o).Ok?
  {
  }

  /** As written, an ensemble of one population fails on its first cycle: it is always tied with itself. */
  lemma LonePopulationFailsAsWritten(cfg: Config, ncycles: nat, pops: seq<Population>, fits: seq<real>, o: Oracles)
    requires |pops| == 1 && |fits| == 1
    ensures ExportNumbersAsWritten(cfg, ncycles, 1, pops, fits, None, o) == Err(AlphaUnbound)
  {
    SinglePopulationIsFlat(fits);
  }

  /**
   When the strengths are non-negative, the scaled strengths are probabilities, and an
   annealed skew keeps every binomial probability in [0, 1]: the draw cannot fail.
   */
  lemma ExportProbabilitiesValid(s: seq<real>, q: real)
    requires AllNonNegative(s) && SumReal(s) != 0.0 && -1.0 <= q <= 1.0
    ensures var scaled := Scale(s, SumReal(s));
      AllUnit(seq(|s|, j requires 0 <= j < |s| => ExportProbability(scaled[j], q)))
  {
    ScaledAreProbabilities(s);
  }

  /** A single population never migrates: its fitness is both the maximum and the minimum. */
  lemma SinglePopulationIsFlat(fits: seq<real>)
    requires |fits| == 1
    ensures MaxOf(fits) == MinOf(fits)
  {
  }

  /**
   Under the improvement measure a population that did not improve scores below the cycle's
   worst fitness when that is positive: with fitness logs [2, 1] and [1, 3] when maximising,
   the first strength is (0 - 1) / (3 - 1), and its square root is not a real number.
   */
  lemma NegativeImproveStrength(p: Population)
    requires p.fitlog == [2.0, 1.0] && p.mode == Max && p.algo.family != MFO && p.lastNgen.Some?
    ensures Strength(p, ImproveMeasure, false, 3.0, 1.0) == Ok(-0.5)
    ensures !RealPower(-0.5, 0.5)
  {
    assert RawStrength(p, ImproveMeasure) == 0.0;
    assert (0.5 as real).Floor == 0;
  }

  /**
   A strength that is negative, raised to an alpha that is not a whole number, stops the
   migrating branch: the binomial draw is handed a probability that is not a real number.
   */
  lemma NonRealPowerStopsMigration(cfg: Config, ncycles: nat, i: nat, pops: seq<Population>, fmax: real, fmin: real,
                                   o: Oracles, j: nat)
    requires fmax != fmin && j < |pops|
    requires AlphaBeta(cfg.alpha, i, ncycles).Ok? && Strength(pops[j], cfg.g, cfg.gBurden, fmax, fmin).Ok?
    requires !RealPower(Strength(pops[j], cfg.g, cfg.gBurden, fmax, fmin).value, AlphaBeta(cfg.alpha, i, ncycles).value)
    ensures Migrating(cfg, ncycles, i, pops, fmax, fmin, o).Err?
  {
  }

  /**
   Under the fitness measure every strength lies in [0, 1], so each power is a real number,
   and the population holding the cycle's best fitness has a positive strength, so the powers
   never sum to zero: the scaling before the binomial draws cannot divide by zero.
   */
  lemma {:induction false} FitnessPowersSumPositive(pops: seq<Population>, burden: bool, fmax: real, fmin: real,
                                                   a: real, o: Oracles, lead: nat)
    requires ValidOracles(o) && fmin < fmax && lead < |pops|
    requires forall j :: 0 <= j < |pops| ==> |pops[j].fitlog| > 0 && fmin <= Last(pops[j].fitlog) <= fmax
    requires Last(pops[lead].fitlog) == (if pops[lead].mode == Max then fmax else fmin)
    requires PowStrengths(pops, FitnessMeasure, burden, fmax, fmin, a, o.pow, |pops|).Ok?
    ensures var s := PowStrengths(pops, FitnessMeasure, burden, fmax, fmin, a, o.pow, |pops|).value;
      AllReal(s) && SumReal(Reals(s)) > 0.0
  {
    var s := PowStrengths(pops, FitnessMeasure, burden, fmax, fmin, a, o.pow, |pops|).value;
    forall j | 0 <= j < |pops|
      ensures 0.0 <= Strength(pops[j], FitnessMeasure, burden, fmax, fmin).value <= 1.0
      ensures s[j].Some? && s[j].value >= 0.0
    {
      StrengthInUnitRange(pops[j], burden, fmax, fmin);
    }
    var vals := Reals(s);
    LeaderStrengthPositive(pops[lead], burden, fmax, fmin);
    assert vals[lead] > 0.0;
    TermBoundedBySumReal(vals, lead);
  }

  /** Under the fitness measure the migrating branch never fails on a zero strength sum. */
  lemma FitnessMeasureNeverZeroSum(cfg: Config, ncycles: nat, i: nat, pops: seq<Population>, fmax: real, fmin: real,
                                   o: Oracles, lead: nat)
    requires ValidOracles(o) && fmin < fmax && cfg.g == FitnessMeasure && lead < |pops|
    requires forall j :: 0 <= j < |pops| ==> |pops[j].fitlog| > 0 && fmin <= Last(pops[j].fitlog) <= fmax
    requires Last(pops[lead].fitlog) == (if pops[lead].mode == Max then fmax else fmin)
    ensures Migrating(cfg, ncycles, i, pops, fmax, fmin, o) != Err(ZeroStrengthSum)
  {
    if ZeroPowerSum(cfg, ncycles, i, pops, fmax, fmin, o) {
      FitnessPowersSumPositive(pops, cfg.gBurden, fmax, fmin, AlphaBeta(cfg.alpha, i, ncycles).value, o, lead);
    }
  }

  /** The population holding the best fitness has a positive fitness strength, burdened or not. */
  lemma LeaderStrengthPositive(p: Population, burden: bool, fmax: real, fmin: real)
    requires Strength(p, FitnessMeasure, burden, fmax, fmin).Ok?
    requires Last(p.fitlog) == (if p.mode == Max then fmax else fmin)
    ensures Strength(p, FitnessMeasure, burden, fmax, fmin).value > 0.0
  {
    StrengthOfLeaderAndLaggard(p, fmax, fmin);
    var s := Normalize(p.mode, RawStrength(p, FitnessMeasure), fmax, fmin);
    assert s == 1.0;
  }

  // ----- member selection -----

  /** The elapsed fraction `i/Ncyc` handed to `export`. */
  function GFrac(i: nat, ncycles: nat): real
    requires ncycles > 0
  {
    (i as real) / (ncycles as real)
  }

  /** The sort the rank-weighted export asks for: by fitness, in the direction the order option gives. */
  function SortedFor(cfg: Config, gfrac: real, i: nat, j: nat, p: Population, o: Oracles): seq<(Fit, Vec)>
    requires Aligned(p)
  {
    if cfg.wt != Uniform && cfg.order.Some? then
      o.sort(i, j, Zip(p.fitnesses, p.members), Ascending(EffectiveOrder(cfg.order.value, gfrac), p.mode))
    else []
  }

  /** Population j's `export`, its draws taken from the oracles. */
  function ExportOf(cfg: Config, gfrac: real, i: nat, j: nat, p: Population, ei: nat, o: Oracles)
    : (r: Result<(Population, seq<Vec>), Failure>)
    requires Aligned(p) && ValidOracles(o)
    ensures r.Ok? ==>
      var (q, out) := r.value;
      && Aligned(q)
      && |out| == (if p.n == 0 then 0 else ei)
      && |q.members| + |out| == |p.members|
      && multiset(q.members) + multiset(out) == multiset(p.members)
    ensures r.Ok? && p.n == 0 ==> r.value == (p, [])
    ensures r.Ok? && p.n > 0 ==>
      var (ms, fs) := Lineup(p, cfg.wt, SortedFor(cfg, gfrac, i, j, p, o));
      var drop := IndexSet(o.choice(i, j, p.n, ei, ZeroFirst(cfg.wt, cfg.kf)));
      && r.value.0.members == KeptFrom(ms, drop, 0)
      && r.value.0.fitnesses == KeptFrom(fs, drop, 0)
      && r.value.1 == PoppedFrom(ms, drop, 0)
  {
    Export(p, ei, cfg.wt, cfg.order, cfg.kf, gfrac, SortedFor(cfg, gfrac, i, j, p, o),
           o.choice(i, j, p.n, ei, ZeroFirst(cfg.wt, cfg.kf)))
  }

  /** Every population's export attempt, in population order. */
  function Exports(cfg: Config, gfrac: real, i: nat, pops: seq<Population>, eis: seq<nat>, o: Oracles)
    : (r: seq<Result<(Population, seq<Vec>), Failure>>)
    requires |eis| == |pops| && AllAligned(pops) && ValidOracles(o)
    ensures |r| == |pops| && forall j :: 0 <= j < |pops| ==> r[j] == ExportOf(cfg, gfrac, i, j, pops[j], eis[j], o)
  {
    seq(|pops|, j requires 0 <= j < |pops| => ExportOf(cfg, gfrac, i, j, pops[j], eis[j], o))
  }

  /**
   After the exports every population is still aligned, exactly the drawn numbers of members
   have left, and nobody was lost: what stays plus what left is the ensemble before.
   */
  lemma ExportAllAccounts(cfg: Config, gfrac: real, i: nat, pops: seq<Population>, eis: seq<nat>, o: Oracles,
                          done: seq<(Population, seq<Vec>)>)
    requires |eis| == |pops| && AllAligned(pops) && ValidOracles(o)
    requires forall j :: 0 <= j < |pops| ==> eis[j] <= |pops[j].members|
    requires Collect(Exports(cfg, gfrac, i, pops, eis, o)) == Ok(done)
    ensures var (kept, outs) := (Firsts(done), Seconds(done));
      && |kept| == |pops| && |outs| == |pops| && AllAligned(kept)
      && Lengths(outs) == eis
      && (forall j :: 0 <= j < |pops| ==> |kept[j].members| + |outs[j]| == |pops[j].members|)
      && |Flatten(outs)| == Sum(eis)
      && TotalSize(kept) + |Flatten(outs)| == TotalSize(pops)
  {
    var (kept, outs) := (Firsts(done), Seconds(done));
    forall j | 0 <= j < |pops|
      ensures Aligned(kept[j]) && |outs[j]| == eis[j] && |kept[j].members| + |outs[j]| == |pops[j].members|
    {
      ExportOfAccounts(cfg, gfrac, i, pops, eis, o, done, j);
    }
    SizesAccount(kept, outs, pops, eis);
  }

  lemma ExportOfAccounts(cfg: Config, gfrac: real, i: nat, pops: seq<Population>, eis: seq<nat>, o: Oracles,
                         done: seq<(Population, seq<Vec>)>, j: nat)
    requires |eis| == |pops| && AllAligned(pops) && ValidOracles(o) && j < |pops|
    requires eis[j] <= |pops[j].members|
    requires Collect(Exports(cfg, gfrac, i, pops, eis, o)) == Ok(done)
    ensures |done| == |pops|
    ensures Aligned(done[j].0) && |done[j].1| == eis[j] && |done[j].0.members| + |done[j].1| == |pops[j].members|
  {
    var exports := Exports(cfg, gfrac, i, pops, eis, o);
    assert exports[j] == Ok(done[j]);
    assert ExportOf(cfg, gfrac, i, j, pops[j], eis[j], o) == Ok((done[j].0, done[j].1));
  }

  /** Populations that each split into kept members and exports account for every member. */
  lemma SizesAccount(kept: seq<Population>, outs: seq<seq<Vec>>, pops: seq<Population>, eis: seq<nat>)
    requires |kept| == |pops| && |outs| == |pops| && |eis| == |pops|
    requires forall j :: 0 <= j < |pops| ==> |outs[j]| == eis[j] && |kept[j].members| + |outs[j]| == |pops[j].members|
    ensures Lengths(outs) == eis
    ensures |Flatten(outs)| == Sum(eis)
    ensures TotalSize(kept) + |Flatten(outs)| == TotalSize(pops)
  {
    assert Lengths(outs) == eis;
    FlattenLength(outs);
    SumPointwise(Sizes(kept), Lengths(outs), Sizes(pops));
  }

  // ----- destination selection -----

  /**
   Beta for the cycle, always evaluated, and the destination strengths: one each when nobody
   migrates, otherwise each population's `b` strength raised to beta, taken after the exports.
   A power that is not a real number is kept as `None`; the routing's draws refuse it.
   */
  function DestStrengths(cfg: Config, ncycles: nat, i: nat, pops: seq<Population>, nums: Numbers, o: Oracles)
    : (r: Result<(real, seq<Option<real>>), Failure>)
    ensures r.Ok? ==> |r.value.1| == |pops| && AlphaBeta(cfg.beta, i, ncycles) == Ok(r.value.0)
    ensures r.Ok? && !nums.migration ==> forall j :: 0 <= j < |pops| ==> r.value.1[j] == Some(1.0)
    ensures r.Ok? && nums.migration ==> forall j :: 0 <= j < |pops| ==>
      Strength(pops[j], cfg.b, cfg.bBurden, nums.fmax, nums.fmin).Ok?
      && r.value.1[j] == Power(o.pow, Strength(pops[j], cfg.b, cfg.bBurden, nums.fmax, nums.fmin).value, r.value.0)
    ensures r.Err? <==> (AlphaBeta(cfg.beta, i, ncycles).Err? ||
      (nums.migration && exists j :: 0 <= j < |pops| && Strength(pops[j], cfg.b, cfg.bBurden, nums.fmax, nums.fmin).Err?))
  {
    var beta :- AlphaBeta(cfg.beta, i, ncycles);
    if !nums.migration then Ok((beta, seq(|pops|, _ => Some(1.0))))
    else
      var s :- PowStrengths(pops, cfg.b, cfg.bBurden, nums.fmax, nums.fmin, beta, o.pow, |pops|);
      Ok((beta, s))
  }

  /** The populations after routing and the logged allotment `A`. */
  datatype Routed = Routed(pops: seq<Population>, allotted: seq<nat>)

  /**
   `ret` true: every export goes into one shuffled pool, which a multinomial draw over the
   scaled destination strengths cuts into one slice per population. A zero strength sum or a
   scaled strength outside [0, 1] makes the draw fail.
   */
  function PoolRoute(pops: seq<Population>, outs: seq<seq<Vec>>, dest: seq<real>, i: nat, o: Oracles)
    : (r: Result<Routed, Failure>)
    requires |dest| == |pops| == |outs| > 0 && ValidOracles(o)
    ensures r.Err? <==> SumReal(dest) == 0.0 || !AllUnit(Scale(dest, SumReal(dest)))
    ensures r.Ok? ==>
      && |r.value.pops| == |pops| && |r.value.allotted| == |pops|
      && Sum(r.value.allotted) == |Flatten(outs)|
      && TotalSize(r.value.pops) == TotalSize(pops) + |Flatten(outs)|
      && (forall j :: 0 <= j < |pops| ==>
            |pops[j].members| <= |r.value.pops[j].members| && r.value.pops[j].members[..|pops[j].members|] == pops[j].members)
      && (AllAligned(pops) ==> AllAligned(r.value.pops))
    ensures r.Ok? && AllAligned(pops) && Flatten(outs) == [] ==> r.value.pops == pops
  {
    var pool := o.shuffle(i, 0, Flatten(outs));
    assert |pool| == |multiset(pool)| == |Flatten(outs)|;
    var total := SumReal(dest);
    if total == 0.0 then Err(ZeroStrengthSum)
    else
      var scaled := Scale(dest, total);
      if !AllUnit(scaled) then Err(MultinomialProbability)
      else
        var allot := o.multinomial(i, 0, |pool|, scaled);
        var after := Distribute(pops, pool, allot);
        DistributeConserves(pops, pool, allot);
        DistributeLandsEachOnce(pops, pool, allot);
        assert AllAligned(pops) ==> AllAligned(after);
        if AllAligned(pops) && pool == [] then
          DistributeNothing(pops, allot);
          Ok(Routed(after, allot))
        else Ok(Routed(after, allot))
  }

  /**
   Group j's share-out under `ret` false: the shuffled group and its draw over the other
   populations. Population j's own strength plays no part, even when it is not a real number.
   */
  function GroupDraw(dest: seq<Option<real>>, group: seq<Vec>, i: nat, j: nat, o: Oracles): (r: Result<(seq<Vec>, seq<nat>), Failure>)
    requires j < |dest|
    ensures !AllReal(Without(dest, j)) ==> r == Err(MultinomialProbability)
    ensures AllReal(Without(dest, j)) ==> var others := Reals(Without(dest, j));
      r.Err? <==> (|others| > 0 && SumReal(others) == 0.0) || (|others| > 0 && !AllUnit(Scale(others, SumReal(others))))
    ensures ValidOracles(o) && r.Ok? ==>
      multiset(r.value.0) == multiset(group) && |r.value.1| == |dest| - 1
      && (|dest| > 1 ==> Sum(r.value.1) == |group|)
  {
    if !AllReal(Without(dest, j)) then Err(MultinomialProbability)
    else
      var others := Reals(Without(dest, j));
      var total := SumReal(others);
      if |others| > 0 && total == 0.0 then Err(ZeroStrengthSum)
      else
        var scaled := if |others| == 0 then [] else Scale(others, total);
        if !AllUnit(scaled) then Err(MultinomialProbability)
        else
          var g := o.shuffle(i, j, group);
          assert multiset(g) == multiset(group) ==> |g| == |multiset(g)| == |group|;
          Ok((g, o.multinomial(i, j, |g|, scaled)))
  }

  /** The first `k` groups' draws, in population order. */
  function DrawGroups(dest: seq<Option<real>>, outs: seq<seq<Vec>>, i: nat, o: Oracles, k: nat)
    : (r: Result<(seq<seq<Vec>>, seq<seq<nat>>), Failure>)
    requires |outs| == |dest| && k <= |dest|
    ensures r.Ok? ==> |r.value.0| == k && |r.value.1| == k
    ensures r.Ok? ==> forall j :: 0 <= j < k ==> GroupDraw(dest, outs[j], i, j, o) == Ok((r.value.0[j], r.value.1[j]))
    ensures r.Err? ==> exists j :: (0 <= j < k && GroupDraw(dest, outs[j], i, j, o) == Err(r.error)
      && forall l :: 0 <= l < j ==> GroupDraw(dest, outs[l], i, l, o).Ok?)
  {
    if k == 0 then Ok(([], []))
    else
      var prev :- DrawGroups(dest, outs, i, o, k - 1);
      var g :- GroupDraw(dest, outs[k - 1], i, k - 1, o);
      Ok((prev.0 + [g.0], prev.1 + [g.1]))
  }

  /**
   `ret` false: each population's exports are shuffled and shared among the other
   populations, in population order; the log records what each population received.
   With two or more populations nobody is lost; a lone population has nowhere to send to.
   */
  function GroupRoute(pops: seq<Population>, outs: seq<seq<Vec>>, dest: seq<Option<real>>, i: nat, o: Oracles)
    : (r: Result<Routed, Failure>)
    requires |dest| == |pops| == |outs| > 0 && ValidOracles(o)
    ensures r.Err? <==> exists j :: 0 <= j < |pops| && GroupDraw(dest, outs[j], i, j, o).Err?
    ensures r.Err? ==> exists j :: (0 <= j < |pops| && GroupDraw(dest, outs[j], i, j, o) == Err(r.error)
      && forall l :: 0 <= l < j ==> GroupDraw(dest, outs[l], i, l, o).Ok?)
    ensures r.Ok? ==> |r.value.pops| == |pops| && |r.value.allotted| == |pops|
    ensures r.Ok? && (|pops| > 1 || Flatten(outs) == []) ==>
      && Sum(r.value.allotted) == |Flatten(outs)|
      && TotalSize(r.value.pops) == TotalSize(pops) + |Flatten(outs)|
    ensures r.Ok? && AllAligned(pops) ==> AllAligned(r.value.pops)
    ensures r.Ok? && AllAligned(pops) && Flatten(outs) == [] ==> r.value.pops == pops
  {
    var drawn :- DrawGroups(dest, outs, i, o, |pops|);
    var (groups, allots) := drawn;
    var n := |pops|;
    GroupRouteFacts(pops, outs, dest, i, o, groups, allots);
    Ok(Routed(RouteNoReturn(pops, groups, allots, 0), Holder(n, allots, 0, Zeros(n))))
  }

  lemma {:induction false} FlattenEmpty<T>(xss: seq<seq<T>>)
    requires Flatten(xss) == []
    ensures forall j :: 0 <= j < |xss| ==> xss[j] == []
  {
    FlattenLength(xss);
    SumZero(Lengths(xss));
  }

  /** The drawn groups are the exports reordered, and each draw covers the other populations. */
  lemma GroupsMatchOuts(dest: seq<Option<real>>, outs: seq<seq<Vec>>, i: nat, o: Oracles,
                        groups: seq<seq<Vec>>, allots: seq<seq<nat>>)
    requires |outs| == |dest| > 0 && ValidOracles(o)
    requires DrawGroups(dest, outs, i, o, |dest|) == Ok((groups, allots))
    ensures |groups| == |allots| == |dest|
    ensures forall j :: 0 <= j < |dest| ==> multiset(groups[j]) == multiset(outs[j]) && |allots[j]| == |dest| - 1
    ensures |dest| > 1 ==> AllotmentsFit(|dest|, groups, allots)
    ensures |Flatten(groups)| == |Flatten(outs)|
    ensures Flatten(outs) == [] ==> forall j :: 0 <= j < |groups| ==> groups[j] == []
  {
    forall j | 0 <= j < |dest|
      ensures multiset(groups[j]) == multiset(outs[j]) && |groups[j]| == |outs[j]| && |allots[j]| == |dest| - 1
      ensures |dest| > 1 ==> Sum(allots[j]) == |groups[j]|
    {
      DrawnGroup(dest, outs, i, o, groups, allots, j);
    }
    SameLengthsFlatten(groups, outs);
  }

  /** Groups as long as the exports, one by one, flatten to as many members. */
  lemma SameLengthsFlatten(groups: seq<seq<Vec>>, outs: seq<seq<Vec>>)
    requires |groups| == |outs| && forall j :: 0 <= j < |outs| ==> |groups[j]| == |outs[j]|
    ensures |Flatten(groups)| == |Flatten(outs)|
    ensures Flatten(outs) == [] ==> forall j :: 0 <= j < |groups| ==> groups[j] == []
  {
    assert Lengths(groups) == Lengths(outs);
    FlattenLength(groups);
    FlattenLength(outs);
    if Flatten(outs) == [] {
      FlattenEmpty(outs);
    }
  }

  lemma DrawnGroup(dest: seq<Option<real>>, outs: seq<seq<Vec>>, i: nat, o: Oracles,
                   groups: seq<seq<Vec>>, allots: seq<seq<nat>>, j: nat)
    requires |outs| == |dest| && j < |dest| && ValidOracles(o)
    requires DrawGroups(dest, outs, i, o, |dest|) == Ok((groups, allots))
    ensures multiset(groups[j]) == multiset(outs[j]) && |groups[j]| == |outs[j]| && |allots[j]| == |dest| - 1
    ensures |dest| > 1 ==> Sum(allots[j]) == |groups[j]|
  {
    var g := GroupDraw(dest, outs[j], i, j, o);
    assert g == Ok((groups[j], allots[j]));
    assert |groups[j]| == |multiset(groups[j])|;
  }

  lemma GroupRouteFacts(pops: seq<Population>, outs: seq<seq<Vec>>, dest: seq<Option<real>>, i: nat, o: Oracles,
                        groups: seq<seq<Vec>>, allots: seq<seq<nat>>)
    requires |dest| == |pops| == |outs| > 0 && ValidOracles(o)
    requires DrawGroups(dest, outs, i, o, |dest|) == Ok((groups, allots))
    ensures |groups| == |allots| == |pops|
    ensures |pops| > 1 || Flatten(outs) == [] ==>
      && Sum(Holder(|pops|, allots, 0, Zeros(|pops|))) == |Flatten(outs)|
      && TotalSize(RouteNoReturn(pops, groups, allots, 0)) == TotalSize(pops) + |Flatten(outs)|
    ensures AllAligned(pops) ==> AllAligned(RouteNoReturn(pops, groups, allots, 0))
    ensures AllAligned(pops) && Flatten(outs) == [] ==> RouteNoReturn(pops, groups, allots, 0) == pops
  {
    GroupsMatchOuts(dest, outs, i, o, groups, allots);
    var n := |pops|;
    if n > 1 || Flatten(outs) == [] {
      if n == 1 {
        assert groups[0] == [] && |allots[0]| == 0;
        assert Flatten(groups) == [] by {
          assert Flatten(groups) == groups[0] + Flatten(groups[1..]);
        }
      }
      assert AllotmentsFit(n, groups, allots);
      HolderCountsExports(n, groups, allots);
      RouteNoReturnConserves(pops, groups, allots, 0);
      assert groups[0..] == groups;
    }
    if AllAligned(pops) {
      RouteNoReturnKeepsAligned(pops, groups, allots, 0);
      if Flatten(outs) == [] {
        RouteNothing(pops, groups, allots, 0);
      }
    }
  }

  // ----- one cycle and the whole run -----

  /**
   Routing by the `ret` option. The pooled draw is over every destination strength, so one
   that is not a real number makes it fail; the scaling before it cannot divide by zero then.
   */
  function RouteExports(ret: bool, pops: seq<Population>, outs: seq<seq<Vec>>, dest: seq<Option<real>>, i: nat, o: Oracles)
    : (r: Result<Routed, Failure>)
    requires |dest| == |pops| == |outs| > 0 && ValidOracles(o) && AllAligned(pops)
    ensures ret && !AllReal(dest) ==> r == Err(MultinomialProbability)
    ensures r.Ok? ==> |r.value.pops| == |pops| && |r.value.allotted| == |pops| && AllAligned(r.value.pops)
    ensures r.Ok? && (|pops| > 1 || Flatten(outs) == []) ==>
      && Sum(r.value.allotted) == |Flatten(outs)|
      && TotalSize(r.value.pops) == TotalSize(pops) + |Flatten(outs)|
    ensures r.Ok? && Flatten(outs) == [] ==> r.value.pops == pops
  {
    if !ret then GroupRoute(pops, outs, dest, i, o)
    else if !AllReal(dest) then Err(MultinomialProbability)
    else PoolRoute(pops, outs, Reals(dest), i, o)
  }

  /** The part of a cycle after evolution: numbers, exports, destinations and routing. */
  function Migrate(cfg: Config, ncycles: nat, i: nat, evolved: seq<Population>, fits: seq<real>, o: Oracles)
    : (r: Result<(seq<Population>, CycleLog), Failure>)
    requires 1 <= i <= ncycles && ValidOracles(o) && AllAligned(evolved) && |fits| == |evolved| > 0
    ensures r.Ok? ==>
      var (next, log) := r.value;
      && |next| == |evolved|
      && AllAligned(next)
      && TotalSize(next) == TotalSize(evolved)
      && log.cycle == i
      && |log.nexport| == |evolved| && |log.allotted| == |evolved|
      && Sum(log.allotted) == Sum(log.nexport)
      && (log.migration <==> log.fmax != log.fmin)
      && AlphaBeta(cfg.alpha, i, ncycles) == Ok(log.alpha)
      && AlphaBeta(cfg.beta, i, ncycles) == Ok(log.beta)
    ensures r.Ok? && !r.value.1.migration ==> r.value.1.nexport == Zeros(|evolved|) && Sizes(r.value.0) == Sizes(evolved)
    ensures r.Ok? && |evolved| == 1 ==> !r.value.1.migration
  {
    var left :- Leave(cfg, ncycles, i, evolved, fits, o);
    var (nums, kept, outs) := left;
    var settled :- Settle(cfg, ncycles, i, kept, outs, nums, o);
    var (next, beta, allotted) := settled;
    Ok((next, CycleLog(i, fits, nums.fmax, nums.fmin, nums.migration, nums.eis, nums.alpha, beta, allotted)))
  }

  /**
   The exportation numbers of the cycle and the removal of the exports: what stays, what
   leaves, and how many left from each population. Nobody leaves in a tied cycle.
   */
  function Leave(cfg: Config, ncycles: nat, i: nat, evolved: seq<Population>, fits: seq<real>, o: Oracles)
    : (r: Result<(Numbers, seq<Population>, seq<seq<Vec>>), Failure>)
    requires 1 <= i <= ncycles && ValidOracles(o) && AllAligned(evolved) && |fits| == |evolved| > 0
    ensures r.Ok? ==>
      var (nums, kept, outs) := r.value;
      && |kept| == |evolved| && |outs| == |evolved| && AllAligned(kept)
      && |nums.eis| == |evolved| && |Flatten(outs)| == Sum(nums.eis)
      && TotalSize(kept) + |Flatten(outs)| == TotalSize(evolved)
      && nums.fmax == MaxOf(fits) && nums.fmin == MinOf(fits)
      && (nums.migration <==> nums.fmax != nums.fmin)
      && AlphaBeta(cfg.alpha, i, ncycles) == Ok(nums.alpha)
      && (!nums.migration ==> nums.eis == Zeros(|evolved|) && Flatten(outs) == [] && Sizes(kept) == Sizes(evolved))
      && (|evolved| == 1 ==> !nums.migration)
  {
    var nums :- ExportNumbers(cfg, ncycles, i, evolved, fits, o);
    var gfrac := GFrac(i, ncycles);
    var done :- Collect(Exports(cfg, gfrac, i, evolved, nums.eis, o));
    var (kept, outs) := (Firsts(done), Seconds(done));
    ExportAllAccounts(cfg, gfrac, i, evolved, nums.eis, o, done);
    CycleFacts(evolved, fits, nums, kept, outs);
    Ok((nums, kept, outs))
  }

  /** Destination selection and routing once the exports are out: beta, the new populations and `A`. */
  function Settle(cfg: Config, ncycles: nat, i: nat, kept: seq<Population>, outs: seq<seq<Vec>>, nums: Numbers, o: Oracles)
    : (r: Result<(seq<Population>, real, seq<nat>), Failure>)
    requires |kept| == |outs| > 0 && ValidOracles(o) && AllAligned(kept)
    requires |kept| > 1 || Flatten(outs) == []
    ensures r.Ok? ==>
      var (next, beta, allotted) := r.value;
      && |next| == |kept| && AllAligned(next) && |allotted| == |kept|
      && TotalSize(next) == TotalSize(kept) + |Flatten(outs)|
      && Sum(allotted) == |Flatten(outs)|
      && AlphaBeta(cfg.beta, i, ncycles) == Ok(beta)
      && (Flatten(outs) == [] ==> next == kept)
  {
    var weighed :- DestStrengths(cfg, ncycles, i, kept, nums, o);
    var (beta, dest) := weighed;
    var routed :- RouteExports(cfg.ret, kept, outs, dest, i, o);
    Ok((routed.pops, beta, routed.allotted))
  }

  /**
   One evolution/migration cycle: evolve every population, decide the exportation numbers,
   remove the exports, weigh the destinations and route the exports. Members are neither
   created nor lost, every population stays aligned, and the logged allotments account for
   every export. A cycle in which the fitnesses tie moves nobody.
   */
  function Cycle(cfg: Config, ncycles: nat, i: nat, pops: seq<Population>, o: Oracles)
    : (r: Result<(seq<Population>, CycleLog), Failure>)
    requires 1 <= i <= ncycles && ValidOracles(o) && AllAligned(pops)
    ensures |pops| == 0 ==> r == Err(NoPopulations)
    ensures r.Ok? ==>
      var (next, log) := r.value;
      && |next| == |pops|
      && AllAligned(next)
      && TotalSize(next) == TotalSize(pops)
      && log.cycle == i
      && |log.nexport| == |pops| && |log.allotted| == |pops|
      && Sum(log.allotted) == Sum(log.nexport)
      && (log.migration <==> log.fmax != log.fmin)
      && AlphaBeta(cfg.alpha, i, ncycles) == Ok(log.alpha)
      && AlphaBeta(cfg.beta, i, ncycles) == Ok(log.beta)
    ensures r.Ok? && !r.value.1.migration ==> r.value.1.nexport == Zeros(|pops|) && Sizes(r.value.0) == Sizes(pops)
    ensures r.Ok? && |pops| == 1 ==> !r.value.1.migration
  {
    if |pops| == 0 then Err(NoPopulations)
    else
      var es :- EvolveAll(pops, cfg.genPerCycle, i, o, |pops|);
      EvolveAllKeepsSizes(pops, cfg.genPerCycle, i, o);
      Migrate(cfg, ncycles, i, EvolvedPops(es), EvolvedFits(es), o)
  }

  /** A tied cycle exports nothing, and a lone population is always tied with itself. */
  lemma CycleFacts(evolved: seq<Population>, fits: seq<real>, nums: Numbers, kept: seq<Population>, outs: seq<seq<Vec>>)
    requires |fits| == |evolved| > 0 && |outs| == |evolved| == |kept|
    requires nums.migration <==> MaxOf(fits) != MinOf(fits)
    requires !nums.migration ==> nums.eis == Zeros(|evolved|)
    requires |Flatten(outs)| == Sum(nums.eis)
    requires TotalSize(kept) + |Flatten(outs)| == TotalSize(evolved)
    requires Lengths(outs) == nums.eis
    requires forall j :: 0 <= j < |evolved| ==> |kept[j].members| + |outs[j]| == |evolved[j].members|
    ensures !nums.migration ==> Flatten(outs) == [] && Sizes(kept) == Sizes(evolved)
    ensures |evolved| == 1 ==> !nums.migration
  {
    if |evolved| == 1 {
      SinglePopulationIsFlat(fits);
    }
  }

  /**
   The log of a run started at cycle `i`: one entry per completed cycle, numbered from `i`;
   no cycle before the last met the stopping criterion, and the last either met it or was
   cycle `ncycles`.
   */
  predicate StoppedAsAsked(logs: seq<CycleLog>, i: nat, ncycles: nat, stop: nat -> bool)
  {
    && |logs| <= ncycles + 1 - i
    && (forall k :: 0 <= k < |logs| ==> logs[k].cycle == i + k)
    && (forall k :: 0 <= k < |logs| - 1 ==> !stop(logs[k].cycle))
    && (i <= ncycles ==> |logs| > 0)
    && (|logs| > 0 ==> stop(logs[|logs| - 1].cycle) || logs[|logs| - 1].cycle == ncycles)
  }

  lemma StoppedAsAskedCons(log: CycleLog, rest: seq<CycleLog>, i: nat, ncycles: nat, stop: nat -> bool)
    requires 1 <= i <= ncycles && log.cycle == i && !stop(i)
    requires StoppedAsAsked(rest, i + 1, ncycles, stop)
    ensures StoppedAsAsked([log] + rest, i, ncycles, stop)
  {
    var logs := [log] + rest;
    assert forall k :: 1 <= k < |logs| ==> logs[k] == rest[k - 1];
  }

  /**
   `evolute`'s loop from cycle `i` on: cycles run in order until the last one or until the
   stopping criterion holds after a cycle. The ensemble's total membership never changes.
   */
  function Run(cfg: Config, ncycles: nat, i: nat, pops: seq<Population>, o: Oracles)
    : (r: Result<(seq<Population>, seq<CycleLog>), Failure>)
    requires 1 <= i <= ncycles + 1 && ValidOracles(o) && AllAligned(pops)
    ensures r.Ok? ==>
      && |r.value.0| == |pops| && AllAligned(r.value.0) && TotalSize(r.value.0) == TotalSize(pops)
      && StoppedAsAsked(r.value.1, i, ncycles, o.stop)
    decreases ncycles + 1 - i
  {
    if i > ncycles then Ok((pops, []))
    else
      var step :- Cycle(cfg, ncycles, i, pops, o);
      var next := step.0;
      assert AllAligned(next) && |next| == |pops| && TotalSize(next) == TotalSize(pops) && step.1.cycle == i;
      if o.stop(i) then Ok((next, [step.1]))
      else
        var rest :- Run(cfg, ncycles, i + 1, next, o);
        StoppedAsAskedCons(step.1, rest.1, i, ncycles, o.stop);
        Ok((rest.0, [step.1] + rest.1))
  }
}
