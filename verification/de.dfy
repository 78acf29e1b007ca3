/**
 Differential evolution as used inside the PESA hybrid (build/lib/neorl/hybrid/pesacore/de.py,
 class `DEmod`): bound clipping, the donor vector `x1 + F·(x2 − x3)` over three distinct
 other members, binomial crossover, greedy selection and the extraction of the best member.
 Random draws arrive as inputs: which three candidates `random.sample` picks for each member
 and generation, the `random.random()` coin of every crossover component, and the members
 `GenIndv` would generate.
 */
module DiffEvolution {
  import opened Wrappers
  import opened Lists
  import opened Routing

  type Vec = seq<real>

  /** Why a run stops with an exception. */
  datatype DeError =
      /** The constructor's `npop > 3` assertion. */
    | NpopTooSmall
      /** `x0` given with a number of members other than `npop`. */
    | InitialSizeMismatch
      /** `ngen` = 0: the best member and the scores are read but never assigned. */
    | NoGenerations

  /** A run's configuration: population size, mutation weight `F`, crossover probability `CR`. */
  datatype Settings = Settings(npop: nat, f: real, cr: real)

  /** The constructor: at least four members are required. */
  function NewSettings(npop: nat, f: real, cr: real): (r: Result<Settings, DeError>)
    ensures r.Ok? <==> npop > 3
    ensures r.Ok? ==> r.value == Settings(npop, f, cr)
    ensures r.Err? ==> r.error == NpopTooSmall
  {
    if npop > 3 then Ok(Settings(npop, f, cr)) else Err(NpopTooSmall)
  }

  // ----- ensure_bounds -----

  /** What the three independent conditionals of `ensure_bounds` append for one component. */
  function ClipOne(x: real, lo: real, hi: real): (r: seq<real>)
    ensures lo <= hi ==> |r| == 1 && lo <= r[0] <= hi
    ensures lo <= x <= hi ==> r == [x]
  {
    (if x < lo then [lo] else []) + (if x > hi then [hi] else []) + (if lo <= x <= hi then [x] else [])
  }

  /** `x` clamped to `[lo, hi]`. */
  function Clamp(x: real, lo: real, hi: real): real
  {
    if x < lo then lo else if x > hi then hi else x
  }

  /** Every variable's bound pair is ordered. */
  predicate Ordered(bounds: seq<(real, real)>)
  {
    forall i :: 0 <= i < |bounds| ==> bounds[i].0 <= bounds[i].1
  }

  /** `ensure_bounds`: the components, one variable after another, through `ClipOne`. */
  function EnsureBounds(vec: Vec, bounds: seq<(real, real)>): (r: Vec)
    requires |vec| >= |bounds|
    ensures Ordered(bounds) ==> |r| == |bounds| && forall i :: 0 <= i < |bounds| ==> r[i] == Clamp(vec[i], bounds[i].0, bounds[i].1)
    decreases |bounds|
  {
    if |bounds| == 0 then []
    else
      var n := |bounds| - 1;
      var init := EnsureBounds(vec[..n], bounds[..n]);
      var r := init + ClipOne(vec[n], bounds[n].0, bounds[n].1);
      assert Ordered(bounds) ==> Ordered(bounds[..n]);
      r
  }

  /** Inside the bounds a vector is left as it is. */
  lemma InBoundsUnchanged(vec: Vec, bounds: seq<(real, real)>)
    requires |vec| == |bounds|
    requires forall i :: 0 <= i < |bounds| ==> bounds[i].0 <= vec[i] <= bounds[i].1
    ensures EnsureBounds(vec, bounds) == vec
  {
  }

  /** Clipping twice is clipping once. */
  lemma EnsureBoundsIdempotent(vec: Vec, bounds: seq<(real, real)>)
    requires |vec| >= |bounds| && Ordered(bounds)
    ensures EnsureBounds(EnsureBounds(vec, bounds), bounds) == EnsureBounds(vec, bounds)
  {
    InBoundsUnchanged(EnsureBounds(vec, bounds), bounds);
  }

  /** A reversed bound pair makes the result longer than the vector: both conditionals fire. */
  lemma ReversedBoundLengthens()
    ensures EnsureBounds([0.5], [(1.0, 0.0)]) == [1.0, 0.0]
  {
    assert [0.5][..0] == [];
    assert EnsureBounds([], []) == [];
  }

  // ----- initial population -----

  /**
   `InitPopulation` behind `evolute`'s length check: given members must number `npop` and are
   taken as they are (an empty list counts as absent); otherwise `npop` members are generated.
   */
  function InitialPopulation(s: Settings, x0: Option<seq<Vec>>, gen: nat -> Vec): (r: Result<seq<Vec>, DeError>)
    ensures r.Err? <==> x0.Some? && |x0.value| != s.npop
    ensures r.Err? ==> r.error == InitialSizeMismatch
    ensures r.Ok? ==> |r.value| == s.npop
    ensures r.Ok? && x0.Some? && |x0.value| > 0 ==> r.value == x0.value
    ensures r.Ok? && (x0.None? || |x0.value| == 0) ==> forall i :: 0 <= i < s.npop ==> r.value[i] == gen(i)
  {
    if x0.Some? && |x0.value| != s.npop then Err(InitialSizeMismatch)
    else if x0.Some? && |x0.value| > 0 then Ok(x0.value)
    else Ok(seq(s.npop, i requires 0 <= i => gen(i)))
  }

  // ----- mutation -----

  /** Three positions drawn by `random.sample` from a list: distinct and inside it. */
  predicate SampleOk(picks: (nat, nat, nat), size: int)
  {
    picks.0 < size && picks.1 < size && picks.2 < size
    && picks.0 != picks.1 && picks.0 != picks.2 && picks.1 != picks.2
  }

  /**
   The three partners of member j: the candidates are every index but j, and the sample
   picks three of them. With more than three members the sample always succeeds, and the
   partners are three distinct members other than j.
   */
  function Partners(npop: nat, j: nat, picks: (nat, nat, nat)): (r: (nat, nat, nat))
    requires j < npop && SampleOk(picks, npop - 1)
    ensures r.0 < npop && r.1 < npop && r.2 < npop
    ensures r.0 != j && r.1 != j && r.2 != j
    ensures r.0 != r.1 && r.0 != r.2 && r.1 != r.2
  {
    var c := Others(npop, j);
    (c[picks.0], c[picks.1], c[picks.2])
  }

  /** The position of member `a` among the candidates `Others(npop, j)`. */
  function Slot(j: nat, a: nat): nat
    requires a != j
  {
    if a < j then a else a - 1
  }

  /**
   Every choice of three distinct members other than j is a possible set of partners: the
   sample that picks their candidate positions is valid and yields exactly them. With the
   ensures of `Partners`, the partners of j range over exactly these triples.
   */
  lemma PartnersReachEveryTriple(npop: nat, j: nat, a: nat, b: nat, c: nat)
    requires j < npop && a < npop && b < npop && c < npop
    requires a != j && b != j && c != j && a != b && a != c && b != c
    ensures SampleOk((Slot(j, a), Slot(j, b), Slot(j, c)), npop - 1)
    ensures Partners(npop, j, (Slot(j, a), Slot(j, b), Slot(j, c))) == (a, b, c)
  {
    var cands := Others(npop, j);
    assert forall x: nat :: x < npop && x != j ==> Slot(j, x) < npop - 1 && cands[Slot(j, x)] == x;
  }

  /** `x1 + F·(x2 − x3)` componentwise; `zip` stops at the shortest vector. */
  function Donor(x1: Vec, x2: Vec, x3: Vec, f: real): (r: Vec)
    ensures |r| == Min(|x1|, Min(|x2|, |x3|))
    ensures forall k :: 0 <= k < |r| ==> r[k] == x1[k] + f * (x2[k] - x3[k])
  {
    var diff := seq(Min(|x2|, |x3|), k requires 0 <= k < Min(|x2|, |x3|) => x2[k] - x3[k]);
    seq(Min(|x1|, |diff|), k requires 0 <= k < Min(|x1|, |diff|) => x1[k] + f * diff[k])
  }

  function Min(a: nat, b: nat): nat
  {
    if a <= b then a else b
  }

  /**
   Swapping the second and third partners mirrors the donor about the first: the two donors
   have the same length and, component by component, average to x1. Equal partners therefore
   give x1 itself.
   */
  lemma DonorMirror(x1: Vec, x2: Vec, x3: Vec, f: real)
    ensures |Donor(x1, x2, x3, f)| == |Donor(x1, x3, x2, f)|
    ensures forall k :: 0 <= k < |Donor(x1, x2, x3, f)| ==>
      Donor(x1, x2, x3, f)[k] + Donor(x1, x3, x2, f)[k] == 2.0 * x1[k]
    ensures |x1| == |x2| ==> Donor(x1, x2, x2, f) == x1
  {
    var u, v := Donor(x1, x2, x3, f), Donor(x1, x3, x2, f);
    assert forall k :: 0 <= k < |u| ==> u[k] - x1[k] == -(v[k] - x1[k]);
    if |x1| == |x2| {
      var w := Donor(x1, x2, x2, f);
      assert forall k :: 0 <= k < |w| ==> w[k] == x1[k];
    }
  }

  /**
   With partners inside the bounds and `0 <= F`, each donor component lies within F times the
   bound's width outside it; the donor can leave the bounds, which is why `ensure_bounds` follows.
   */
  lemma DonorWithinReach(x1: Vec, x2: Vec, x3: Vec, f: real, bounds: seq<(real, real)>)
    requires |x1| == |x2| == |x3| == |bounds| && 0.0 <= f
    requires forall i :: 0 <= i < |bounds| ==>
      bounds[i].0 <= x1[i] <= bounds[i].1 && bounds[i].0 <= x2[i] <= bounds[i].1 && bounds[i].0 <= x3[i] <= bounds[i].1
    ensures |Donor(x1, x2, x3, f)| == |bounds|
    ensures forall i :: 0 <= i < |bounds| ==>
      bounds[i].0 - f * (bounds[i].1 - bounds[i].0) <= Donor(x1, x2, x3, f)[i] <= bounds[i].1 + f * (bounds[i].1 - bounds[i].0)
  {
    var r := Donor(x1, x2, x3, f);
    forall i | 0 <= i < |bounds|
      ensures bounds[i].0 - f * (bounds[i].1 - bounds[i].0) <= r[i] <= bounds[i].1 + f * (bounds[i].1 - bounds[i].0)
    {
      assert r[i] == x1[i] + f * (x2[i] - x3[i]);
      StepWithin(x1[i], x2[i] - x3[i], f, bounds[i].0, bounds[i].1);
    }
  }

  /** A point inside [lo, hi] moved by `f·dx`, with `|dx|` at most the width and `0 <= f`, stays within `f` widths of it. */
  lemma StepWithin(x: real, dx: real, f: real, lo: real, hi: real)
    requires lo <= x <= hi && -(hi - lo) <= dx <= hi - lo && 0.0 <= f
    ensures lo - f * (hi - lo) <= x + f * dx <= hi + f * (hi - lo)
  {
    assert f * ((hi - lo) - dx) >= 0.0;
    assert f * (dx + (hi - lo)) >= 0.0;
  }

  // ----- crossover -----

  /**
   Binomial crossover: component k of the trial comes from the donor when its coin is at
   most CR, from the target otherwise. The donor is only read where a coin selects it.
   */
  function Crossover(target: Vec, donor: Vec, coins: seq<real>, cr: real): (r: Vec)
    requires |coins| >= |target|
    requires forall k :: 0 <= k < |target| && coins[k] <= cr ==> k < |donor|
    ensures |r| == |target|
    ensures forall k :: 0 <= k < |target| ==> r[k] == if coins[k] <= cr then donor[k] else target[k]
  {
    seq(|target|, k requires 0 <= k < |target| => if coins[k] <= cr then donor[k] else target[k])
  }

  /** Coins all above CR keep the target; coins all at or below CR give the donor's prefix. */
  lemma CrossoverExtremes(target: Vec, donor: Vec, coins: seq<real>, cr: real)
    requires |coins| >= |target| && |donor| >= |target|
    ensures (forall k :: 0 <= k < |target| ==> coins[k] > cr) ==> Crossover(target, donor, coins, cr) == target
    ensures (forall k :: 0 <= k < |target| ==> coins[k] <= cr) ==> Crossover(target, donor, coins, cr) == donor[..|target|]
  {
  }

  // ----- selection -----

  /**
   Greedy selection: member j becomes its trial only when the trial scores strictly higher,
   and the generation's score of j is the better of the two, so a tie keeps the target.
   */
  function Select(pop: seq<Vec>, trials: seq<Vec>, trialScores: seq<real>, targetScores: seq<real>)
    : (r: (seq<Vec>, seq<real>))
    requires |trials| == |trialScores| == |targetScores| == |pop|
    ensures |r.0| == |pop| && |r.1| == |pop|
    ensures forall j :: 0 <= j < |pop| ==>
      && r.0[j] == (if trialScores[j] > targetScores[j] then trials[j] else pop[j])
      && r.1[j] == (if trialScores[j] > targetScores[j] then trialScores[j] else targetScores[j])
    ensures forall j :: 0 <= j < |pop| ==> r.1[j] >= targetScores[j] && r.1[j] >= trialScores[j]
  {
    (seq(|pop|, j requires 0 <= j < |pop| => if trialScores[j] > targetScores[j] then trials[j] else pop[j]),
     seq(|pop|, j requires 0 <= j < |pop| => if trialScores[j] > targetScores[j] then trialScores[j] else targetScores[j]))
  }

  /**
   When the scores are the fitness of what was scored, the recorded score of every member is
   the fitness of the member kept, no lower than the target's or the trial's, and the member
   kept is the target or its own trial: the better of the two.
   */
  lemma SelectedScoresBelongToSurvivors(pop: seq<Vec>, trials: seq<Vec>, fit: Vec -> real)
    requires |trials| == |pop|
    ensures var r := Select(pop, trials, Scores(trials, fit), Scores(pop, fit));
      forall j :: 0 <= j < |pop| ==>
        && r.1[j] == fit(r.0[j]) && r.1[j] >= fit(pop[j]) && r.1[j] >= fit(trials[j])
        && (r.0[j] == pop[j] || r.0[j] == trials[j])
  {
  }

  // ----- one generation and the run -----

  /** The draws of a run: sampled positions per (generation, member) and a coin per component. */
  datatype Draws = Draws(picks: (nat, nat) -> (nat, nat, nat), coins: (nat, nat) -> seq<real>)

  /** `random.sample` draws valid positions among `npop − 1` candidates, and a coin is drawn for every component. */
  ghost predicate ValidDraws(d: Draws, npop: nat, dim: nat)
  {
    (forall g, j :: SampleOk(d.picks(g, j), npop - 1))
    && (forall g, j :: |d.coins(g, j)| >= dim)
  }

  /** The trial vector of member j in generation g, built from the population at the start of the generation. */
  function Trial(s: Settings, bounds: seq<(real, real)>, pop: seq<Vec>, d: Draws, g: nat, j: nat): (r: Vec)
    requires |pop| == s.npop && j < s.npop && ValidDraws(d, s.npop, |bounds|) && Ordered(bounds)
    requires forall i :: 0 <= i < |pop| ==> |pop[i]| == |bounds|
    ensures |r| == |bounds|
  {
    var (a, b, c) := Partners(s.npop, j, d.picks(g, j));
    var donor := EnsureBounds(Donor(pop[a], pop[b], pop[c], s.f), bounds);
    Crossover(pop[j], donor, d.coins(g, j), s.cr)
  }

  /** The trial vectors of all members, each built from the population at the start of the generation. */
  function Trials(s: Settings, bounds: seq<(real, real)>, pop: seq<Vec>, d: Draws, g: nat): (r: seq<Vec>)
    requires |pop| == s.npop && ValidDraws(d, s.npop, |bounds|) && Ordered(bounds)
    requires forall i :: 0 <= i < |pop| ==> |pop[i]| == |bounds|
    ensures |r| == |pop|
    ensures forall j :: 0 <= j < |r| ==> |r[j]| == |bounds|
  {
    seq(s.npop, j requires 0 <= j < s.npop => Trial(s, bounds, pop, d, g, j))
  }

  /** The fitness of every vector. */
  function Scores(xs: seq<Vec>, fit: Vec -> real): (r: seq<real>)
    ensures |r| == |xs| && forall j :: 0 <= j < |xs| ==> r[j] == fit(xs[j])
  {
    seq(|xs|, j requires 0 <= j < |xs| => fit(xs[j]))
  }

  /** One generation: all trials from the current population, then selection. */
  function Generation(s: Settings, bounds: seq<(real, real)>, pop: seq<Vec>, d: Draws, g: nat, fit: Vec -> real)
    : (r: (seq<Vec>, seq<real>))
    requires |pop| == s.npop && ValidDraws(d, s.npop, |bounds|) && Ordered(bounds)
    requires forall i :: 0 <= i < |pop| ==> |pop[i]| == |bounds|
    ensures |r.0| == |pop| && |r.1| == |pop|
    ensures forall i :: 0 <= i < |pop| ==> |r.0[i]| == |bounds|
    ensures forall j :: 0 <= j < |pop| ==> r.1[j] == fit(r.0[j]) && r.1[j] >= fit(pop[j])
    ensures forall j :: 0 <= j < |pop| ==> r.0[j] == pop[j] || r.0[j] == Trials(s, bounds, pop, d, g)[j]
    ensures forall j :: 0 <= j < |pop| ==> r.1[j] >= fit(Trials(s, bounds, pop, d, g)[j])
  {
    var trials := Trials(s, bounds, pop, d, g);
    var r := Select(pop, trials, Scores(trials, fit), Scores(pop, fit));
    SelectedScoresBelongToSurvivors(pop, trials, fit);
    r
  }

  /** The best member: the highest score and the member at the first position holding it. */
  function BestOf(pop: seq<Vec>, scores: seq<real>): (r: (Vec, real))
    requires |pop| == |scores| > 0
    ensures forall i :: 0 <= i < |scores| ==> scores[i] <= r.1
    ensures exists k :: 0 <= k < |pop| && r == (pop[k], scores[k]) && forall i :: 0 <= i < k ==> scores[i] < r.1
  {
    var y := MaxOf(scores);
    var k := FirstIndex(scores, y);
    (pop[k], y)
  }

  /** What `evolute` returns: best member, best score, and position ↦ (member, score). */
  datatype Outcome = Outcome(xBest: Vec, yBest: real, ranked: map<nat, (Vec, real)>)

  /** `pesa_pop`: every position of the final population with its last recorded score. */
  function Ranked(pop: seq<Vec>, scores: seq<real>): (m: map<nat, (Vec, real)>)
    requires |pop| == |scores|
    ensures forall i :: i in m ==> i < |pop|
    ensures forall i :: 0 <= i < |pop| ==> i in m && m[i] == (pop[i], scores[i])
  {
    map i: nat | i < |pop| :: (pop[i], scores[i])
  }

  /** Generations `g` to `ngen` from `pop` with `scores` the latest generation's scores. */
  function Generations(s: Settings, bounds: seq<(real, real)>, pop: seq<Vec>, scores: seq<real>, d: Draws,
                       g: nat, ngen: nat, fit: Vec -> real): (r: (seq<Vec>, seq<real>))
    requires |pop| == |scores| == s.npop && ValidDraws(d, s.npop, |bounds|) && Ordered(bounds)
    requires forall i :: 0 <= i < |pop| ==> |pop[i]| == |bounds|
    ensures |r.0| == |r.1| == s.npop
    ensures forall i :: 0 <= i < |r.0| ==> |r.0[i]| == |bounds|
    ensures g <= ngen ==> forall j :: 0 <= j < |pop| ==> r.1[j] == fit(r.0[j]) && r.1[j] >= fit(pop[j])
    decreases ngen + 1 - g
  {
    if g > ngen then (pop, scores)
    else
      var (next, sc) := Generation(s, bounds, pop, d, g, fit);
      var r := Generations(s, bounds, next, sc, d, g + 1, ngen, fit);
      assert forall j :: 0 <= j < |pop| ==> fit(next[j]) >= fit(pop[j]);
      r
  }

  /**
   `evolute`: start from `x0` or generated members, run `ngen` generations, and report the
   best member and the ranked population. Scores never decrease for a member's slot, and
   the reported best is the highest final score.
   */
  function Evolute(s: Settings, bounds: seq<(real, real)>, ngen: nat, x0: Option<seq<Vec>>, gen: nat -> Vec,
                   d: Draws, fit: Vec -> real): (r: Result<Outcome, DeError>)
    requires s.npop > 3 && ValidDraws(d, s.npop, |bounds|) && Ordered(bounds)
    requires x0.Some? ==> forall i :: 0 <= i < |x0.value| ==> |x0.value[i]| == |bounds|
    requires forall i :: |gen(i)| == |bounds|
    ensures r.Err? <==> (x0.Some? && |x0.value| != s.npop) || ngen == 0
    ensures r.Ok? ==> |r.value.ranked| == s.npop
    ensures r.Ok? ==> forall i :: i in r.value.ranked ==> r.value.ranked[i].1 <= r.value.yBest
    ensures r.Ok? ==> forall i :: i in r.value.ranked ==> r.value.ranked[i].1 == fit(r.value.ranked[i].0)
    ensures r.Ok? ==> r.value.yBest == fit(r.value.xBest)
    ensures r.Ok? ==> exists k :: (k in r.value.ranked && r.value.ranked[k] == (r.value.xBest, r.value.yBest)
      && forall i :: i in r.value.ranked && i < k ==> r.value.ranked[i].1 < r.value.yBest)
    ensures r.Ok? ==> InitialPopulation(s, x0, gen).Ok? && forall j :: 0 <= j < s.npop ==>
      j in r.value.ranked && r.value.ranked[j].1 >= fit(InitialPopulation(s, x0, gen).value[j])
  {
    var start := InitialPopulation(s, x0, gen);
    if start.Err? then Err(start.error)
    else if ngen == 0 then Err(NoGenerations)
    else
      assert forall i :: 0 <= i < |start.value| ==> |start.value[i]| == |bounds|;
      Ok(Finish(s, bounds, start.value, d, ngen, fit))
  }

  /** The outcome of `ngen` generations run from `pop`: the best member of the final population and every slot's survivor. */
  function Finish(s: Settings, bounds: seq<(real, real)>, pop: seq<Vec>, d: Draws, ngen: nat, fit: Vec -> real): (r: Outcome)
    requires |pop| == s.npop > 3 && ValidDraws(d, s.npop, |bounds|) && Ordered(bounds) && ngen > 0
    requires forall i :: 0 <= i < |pop| ==> |pop[i]| == |bounds|
    ensures |r.ranked| == s.npop
    ensures forall i :: i in r.ranked ==> r.ranked[i].1 <= r.yBest
    ensures forall i :: i in r.ranked ==> r.ranked[i].1 == fit(r.ranked[i].0)
    ensures r.yBest == fit(r.xBest)
    ensures exists k :: (k in r.ranked && r.ranked[k] == (r.xBest, r.yBest)
      && forall i :: i in r.ranked && i < k ==> r.ranked[i].1 < r.yBest)
    ensures forall j :: 0 <= j < s.npop ==> j in r.ranked && r.ranked[j].1 >= fit(pop[j])
  {
    var first := Generation(s, bounds, pop, d, 1, fit);
    var last := Generations(s, bounds, first.0, first.1, d, 2, ngen, fit);
    WholeRun(s, bounds, pop, d, ngen, fit);
    var best := BestOf(last.0, last.1);
    OutcomeOf(last.0, last.1, pop, fit);
    Outcome(best.0, best.1, Ranked(last.0, last.1))
  }

  /** After all `ngen` generations every slot's score is its member's fitness and never below its start. */
  lemma WholeRun(s: Settings, bounds: seq<(real, real)>, pop: seq<Vec>, d: Draws, ngen: nat, fit: Vec -> real)
    requires |pop| == s.npop && ValidDraws(d, s.npop, |bounds|) && Ordered(bounds) && ngen > 0
    requires forall i :: 0 <= i < |pop| ==> |pop[i]| == |bounds|
    ensures var first := Generation(s, bounds, pop, d, 1, fit);
      var last := Generations(s, bounds, first.0, first.1, d, 2, ngen, fit);
      forall j :: 0 <= j < s.npop ==> last.1[j] == fit(last.0[j]) && last.1[j] >= fit(pop[j])
  {
    var first := Generation(s, bounds, pop, d, 1, fit);
    var last := Generations(s, bounds, first.0, first.1, d, 2, ngen, fit);
    if ngen == 1 {
      assert last == first;
    } else {
      assert forall j :: 0 <= j < s.npop ==> last.1[j] >= fit(first.0[j]);
    }
  }

  /**
   The outcome built from a final population whose scores are the fitness of its members and
   no lower than the fitness of the members each slot started with.
   */
  lemma OutcomeOf(fin: seq<Vec>, scores: seq<real>, start: seq<Vec>, fit: Vec -> real)
    requires |fin| == |scores| == |start| > 0
    requires forall i :: 0 <= i < |fin| ==> scores[i] == fit(fin[i]) && scores[i] >= fit(start[i])
    ensures var best := BestOf(fin, scores);
      var ranked := Ranked(fin, scores);
      && |ranked| == |fin|
      && (forall j :: 0 <= j < |start| ==> j in ranked && ranked[j].1 >= fit(start[j]))
      && (forall i :: i in ranked ==> ranked[i].1 <= best.1 && ranked[i].1 == fit(ranked[i].0))
      && best.1 == fit(best.0)
      && (exists k :: k in ranked && ranked[k] == best && forall i :: i in ranked && i < k ==> ranked[i].1 < best.1)
  {
    var best := BestOf(fin, scores);
    var ranked := Ranked(fin, scores);
    RankedSize(fin, scores);
    var k :| 0 <= k < |fin| && best == (fin[k], scores[k]) && forall i :: 0 <= i < k ==> scores[i] < best.1;
    assert k in ranked && ranked[k] == best;
  }

  lemma RankedSize(pop: seq<Vec>, scores: seq<real>)
    requires |pop| == |scores|
    ensures |Ranked(pop, scores)| == |pop|
  {
    var m := Ranked(pop, scores);
    var s: seq<nat> := seq(|pop|, i requires 0 <= i < |pop| => i);
    assert forall k :: 0 <= k < |s| ==> s[k] == k;
    DistinctCardinality<nat>(s);
    var keys: set<nat> := set x: nat | x in s;
    assert |keys| == |s|;
    forall x | x in m.Keys ensures x in keys {
      assert s[x] == x;
    }
    assert m.Keys == keys;
    assert |m| == |m.Keys|;
  }
}
