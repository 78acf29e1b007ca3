/**
 One population of the ensemble optimizer (neorl/hybrid/aeo.py, class `Population`, and the
 helper `wtd_remove`). A population holds its members, their index-aligned fitnesses, a
 cached member count `n` and an append-only log of its best fitness per evolution phase.
 The optimizer's own evolution run is supplied as its result, the draws of
 `np.random.choice` as the chosen positions, and Python's `sorted` as the sorted pairs.
 */
module Populations {
  import opened Wrappers
  import opened Lists
  import opened Options
  import opened Failures
  import opened Algorithms

  /** A member's fitness; `Missing` is the NaN given to immigrants until they are evaluated. */
  datatype Fit = Known(v: real) | Missing

  /** A member's position in the search space. */
  type Vec = seq<real>

  datatype Population = Population(
    algo: Optimizer,
    members: seq<Vec>,
    fitnesses: seq<Fit>,
    n: nat,
    fitlog: seq<real>,
    lastNgen: Option<nat>,
    mode: Mode)

  /** `member_fitnesses` is index-aligned with `members`, and the cached `n` is their count. */
  predicate Aligned(p: Population)
  {
    |p.fitnesses| == |p.members| && p.n == |p.members|
  }

  function Last(xs: seq<real>): real
    requires |xs| > 0
  {
    xs[|xs| - 1]
  }

  function Missings(k: nat): (r: seq<Fit>)
    ensures |r| == k
    ensures forall i :: 0 <= i < k ==> r[i] == Missing
  {
    seq(k, _ => Missing)
  }

  /**
   A population before its first evolution phase: nothing logged, no generation count. Its
   fitnesses are not read before the first phase replaces them, so they start out `Missing`.
   */
  function NewPopulation(algo: Optimizer, init: seq<Vec>, mode: Mode): (p: Population)
    ensures Aligned(p)
    ensures p.members == init && p.fitlog == [] && p.lastNgen == None
    ensures p.algo == algo && p.mode == mode
  {
    Population(algo, init, Missings(|init|), |init|, [], None, mode)
  }

  // ----- receive -----

  /** `receive`: immigrants are appended in order, each with a `Missing` fitness. */
  function Receive(p: Population, xs: seq<Vec>): (r: Population)
    ensures r.members == p.members + xs
    ensures |r.fitnesses| == |p.fitnesses| + |xs|
    ensures r.fitnesses[..|p.fitnesses|] == p.fitnesses
    ensures forall i :: |p.fitnesses| <= i < |r.fitnesses| ==> r.fitnesses[i] == Missing
    ensures r.n == |r.members|
    ensures Aligned(p) ==> Aligned(r)
    ensures r.fitlog == p.fitlog && r.lastNgen == p.lastNgen && r.algo == p.algo && r.mode == p.mode
  {
    p.(members := p.members + xs, fitnesses := p.fitnesses + Missings(|xs|), n := |p.members + xs|)
  }

  /** Receiving nothing changes nothing. */
  lemma ReceiveNothing(p: Population)
    requires Aligned(p)
    ensures Receive(p, []) == p
  {
    assert p.members + [] == p.members;
    assert p.fitnesses + Missings(0) == p.fitnesses;
  }

  /** Receiving two batches in turn is receiving them at once. */
  lemma ReceiveTwice(p: Population, xs: seq<Vec>, ys: seq<Vec>)
    ensures Receive(Receive(p, xs), ys) == Receive(p, xs + ys)
  {
    assert p.members + xs + ys == p.members + (xs + ys);
    assert Missings(|xs|) + Missings(|ys|) == Missings(|xs + ys|);
    assert p.fitnesses + Missings(|xs|) + Missings(|ys|) == p.fitnesses + Missings(|xs + ys|);
  }

  // ----- evolute -----

  /** Outcome of an evolution phase: the population, its current fitness, and whether it ran. */
  datatype Evolved = Evolved(pop: Population, fitness: real, ran: bool)

  /** The best of a non-empty list of fitnesses: the largest when maximising, else the smallest. */
  function Best(mode: Mode, xs: seq<real>): (b: real)
    requires |xs| > 0
    ensures b in xs
    ensures mode == Max ==> forall i :: 0 <= i < |xs| ==> xs[i] <= b
    ensures mode == Min ==> forall i :: 0 <= i < |xs| ==> b <= xs[i]
  {
    if mode == Max then MaxOf(xs) else MinOf(xs)
  }

  function Knowns(xs: seq<real>): (r: seq<Fit>)
    ensures |r| == |xs|
    ensures forall i :: 0 <= i < |xs| ==> r[i] == Known(xs[i])
  {
    seq(|xs|, i requires 0 <= i < |xs| => Known(xs[i]))
  }

  /**
   `evolute`. A population too small for its optimizer skips the phase and reports its last
   logged fitness, which fails if nothing was logged yet. Otherwise `out`, the final
   (position, fitness) rows of the optimizer's run, replaces the members and the best of those
   fitnesses is appended to the log. The cached `n` is left as it was.
   */
  function Evolve(p: Population, ngen: nat, out: seq<(Vec, real)>): (r: Result<Evolved, Failure>)
    ensures Runnable(p.algo, |p.members|) != Some(true) ==>
      (r.Err? <==> p.fitlog == []) && (r.Err? ==> r.error == StartTooSmall)
    ensures Runnable(p.algo, |p.members|) == Some(true) ==>
      (r.Err? <==> out == []) && (r.Err? ==> r.error == EmptyFinalPopulation)
    ensures r.Ok? ==> (r.value.ran <==> Runnable(p.algo, |p.members|) == Some(true))
    ensures r.Ok? ==> |r.value.pop.fitlog| > 0 && r.value.fitness == Last(r.value.pop.fitlog)
    ensures r.Ok? && !r.value.ran ==> r.value.pop == p
    ensures r.Ok? && r.value.ran ==>
      var q := r.value.pop;
      && q.members == Firsts(out) && q.fitnesses == Knowns(Seconds(out))
      && q.fitlog == p.fitlog + [r.value.fitness] && q.lastNgen == Some(ngen)
      && r.value.fitness in Seconds(out)
      && (p.mode == Max ==> forall i :: 0 <= i < |out| ==> out[i].1 <= r.value.fitness)
      && (p.mode == Min ==> forall i :: 0 <= i < |out| ==> r.value.fitness <= out[i].1)
      && q.n == p.n && q.algo == p.algo && q.mode == p.mode
    ensures r.Ok? && Aligned(p) && |out| == |p.members| ==> Aligned(r.value.pop)
  {
    if Runnable(p.algo, |p.members|) != Some(true) then
      if p.fitlog == [] then Err(StartTooSmall) else Ok(Evolved(p, Last(p.fitlog), false))
    else if out == [] then Err(EmptyFinalPopulation)
    else
      var scores := Seconds(out);
      var best := Best(p.mode, scores);
      var q := p.(members := Firsts(out), fitnesses := Knowns(scores), fitlog := p.fitlog + [best],
                  lastNgen := Some(ngen));
      Ok(Evolved(q, best, true))
  }

  /**
   An MFO population has no population-size rule, which the phase reads as "too small": with
   nothing logged yet, its first phase fails.
   */
  lemma MfoNeverStarts(p: Population, ngen: nat, out: seq<(Vec, real)>)
    requires p.algo.family == MFO && p.fitlog == []
    ensures Evolve(p, ngen, out) == Err(StartTooSmall)
  {
  }

  /** Every phase that succeeds leaves the log one entry longer or exactly as it was. */
  lemma EvolveLogAppendOnly(p: Population, ngen: nat, out: seq<(Vec, real)>)
    requires Evolve(p, ngen, out).Ok?
    ensures var q := Evolve(p, ngen, out).value.pop;
      q.fitlog[..|p.fitlog|] == p.fitlog && |p.fitlog| <= |q.fitlog| <= |p.fitlog| + 1
  {
  }

  // ----- strength -----

  /**
   Strength before normalisation: the improvement of the logged fitness since the previous
   phase, floored at zero, for the 'improve' measure once there are two entries; otherwise the
   current fitness.
   */
  function RawStrength(p: Population, g: Measure): (u: real)
    requires |p.fitlog| > 0
    ensures g == ImproveMeasure && |p.fitlog| > 1 ==>
      var d := Last(p.fitlog) - p.fitlog[|p.fitlog| - 2];
      u >= 0.0 && u >= d && (u == 0.0 || u == d)
    ensures !(g == ImproveMeasure && |p.fitlog| > 1) ==> u == Last(p.fitlog)
  {
    if g == ImproveMeasure && |p.fitlog| > 1 then
      var d := Last(p.fitlog) - p.fitlog[|p.fitlog| - 2];
      if d >= 0.0 then d else 0.0
    else Last(p.fitlog)
  }

  /**
   `(u - fworst) / (fbest - fworst)`: the best fitness of the cycle maps to 1 and the worst
   to 0, where best is `fmax` when maximising and `fmin` when minimising.
   */
  function Normalize(mode: Mode, u: real, fmax: real, fmin: real): (s: real)
    requires fmax != fmin
    ensures mode == Max ==> (u == fmax ==> s == 1.0) && (u == fmin ==> s == 0.0)
    ensures mode == Min ==> (u == fmin ==> s == 1.0) && (u == fmax ==> s == 0.0)
    ensures fmin < fmax && fmin <= u <= fmax ==> 0.0 <= s <= 1.0
  {
    var best := if mode == Max then fmax else fmin;
    var worst := if mode == Max then fmin else fmax;
    QuotientEnds(u, best, worst);
    assert fmin < fmax && fmin <= u <= fmax ==> 0.0 <= (u - worst) / (best - worst) <= 1.0 by {
      if fmin < fmax && fmin <= u <= fmax {
        QuotientInUnit(u, best, worst);
      }
    }
    (u - worst) / (best - worst)
  }

  /** The best value maps to 1 and the worst to 0. */
  lemma QuotientEnds(u: real, best: real, worst: real)
    requires best != worst
    ensures u == best ==> (u - worst) / (best - worst) == 1.0
    ensures u == worst ==> (u - worst) / (best - worst) == 0.0
  {
    if u == best {
      DivSelf(best - worst);
    }
  }

  /** A value between the worst and the best, in either order, maps into [0, 1]. */
  lemma QuotientInUnit(u: real, best: real, worst: real)
    requires (worst < best && worst <= u <= best) || (best < worst && best <= u <= worst)
    ensures 0.0 <= (u - worst) / (best - worst) <= 1.0
  {
    if worst < best {
      UnitFraction(u - worst, best - worst);
    } else {
      NegatedQuotient(u - worst, best - worst);
      UnitFraction(worst - u, worst - best);
    }
  }

  lemma NegatedQuotient(a: real, b: real)
    requires b != 0.0
    ensures a / b == (-a) / (-b)
  {
    var q := a / b;
    assert q * b == a;
    assert q * (-b) == -a;
  }

  /** Fitness evaluations charged to the population's last phase (`conv(last_ngen, n)`). */
  function Burden(p: Population): nat
    requires p.algo.family != MFO && p.lastNgen.Some?
  {
    EvalCount(p.algo.family, p.lastNgen.value, p.n).value
  }

  /**
   `strength`: the normalised strength, divided by one plus the evaluations spent in the last
   phase when burdened. The evaluation count is computed even when not burdening, so a family
   without a formula always fails here.
   */
  function Strength(p: Population, g: Measure, burden: bool, fmax: real, fmin: real): (r: Result<real, Failure>)
    ensures r.Err? <==> p.fitlog == [] || fmax == fmin || p.algo.family == MFO || p.lastNgen.None?
    ensures r.Err? ==> r.error in {NoFitnessYet, ZeroFitnessRange, NoCostFormula}
    ensures r.Ok? && !burden ==> r.value == Normalize(p.mode, RawStrength(p, g), fmax, fmin)
    ensures r.Ok? && burden ==>
      r.value * (1 + Burden(p)) as real == Normalize(p.mode, RawStrength(p, g), fmax, fmin)
    ensures r.Ok? && burden ==>
      var s := Normalize(p.mode, RawStrength(p, g), fmax, fmin);
      (s >= 0.0 ==> 0.0 <= r.value <= s) && (s <= 0.0 ==> s <= r.value <= 0.0)
  {
    if p.fitlog == [] then Err(NoFitnessYet)
    else if fmax == fmin then Err(ZeroFitnessRange)
    else if p.algo.family == MFO then Err(NoCostFormula)
    else if p.lastNgen.None? then Err(NoFitnessYet)
    else
      var s := Normalize(p.mode, RawStrength(p, g), fmax, fmin);
      if burden then
        var d := (1 + Burden(p)) as real;
        DivideByAtLeastOne(s, d);
        Ok(s / d)
      else Ok(s)
  }

  lemma DivideByAtLeastOne(s: real, d: real)
    requires d >= 1.0
    ensures (s / d) * d == s
    ensures s >= 0.0 ==> 0.0 <= s / d <= s
    ensures s <= 0.0 ==> s <= s / d <= 0.0
  {
  }

  /**
   With the fitness measure, the strength lies in [0, 1] whenever the population's fitness
   lies within the cycle's range, burdened or not.
   */
  lemma StrengthInUnitRange(p: Population, burden: bool, fmax: real, fmin: real)
    requires Strength(p, FitnessMeasure, burden, fmax, fmin).Ok?
    requires fmin <= Last(p.fitlog) <= fmax
    ensures 0.0 <= Strength(p, FitnessMeasure, burden, fmax, fmin).value <= 1.0
  {
  }

  /**
   Unburdened fitness strength is exactly 1 for the population holding the cycle's best
   fitness and exactly 0 for the one holding the worst, in either mode.
   */
  lemma StrengthOfLeaderAndLaggard(p: Population, fmax: real, fmin: real)
    requires Strength(p, FitnessMeasure, false, fmax, fmin).Ok?
    ensures var s := Strength(p, FitnessMeasure, false, fmax, fmin).value;
      && (Last(p.fitlog) == (if p.mode == Max then fmax else fmin) ==> s == 1.0)
      && (Last(p.fitlog) == (if p.mode == Max then fmin else fmax) ==> s == 0.0)
  {
  }

  // ----- wtd_remove and export -----

  /** The positions named by a list of indices. */
  function IndexSet(idxs: seq<nat>): set<nat>
  {
    set i | i in idxs
  }

  /**
   `wtd_remove` once the positions are drawn: pop each drawn position, highest first. What is
   left keeps its order; what is popped comes out in descending position order.
   */
  method WtdRemove<T>(lst: seq<T>, idxs: seq<nat>) returns (rest: seq<T>, removed: seq<T>)
    requires Distinct(idxs)
    requires forall i :: 0 <= i < |idxs| ==> idxs[i] < |lst|
    ensures rest == KeptFrom(lst, IndexSet(idxs), 0)
    ensures removed == PoppedFrom(lst, IndexSet(idxs), 0)
    ensures |removed| == |idxs| && |rest| == |lst| - |idxs|
    ensures multiset(rest) + multiset(removed) == multiset(lst)
  {
    var drop := IndexSet(idxs);
    rest := lst;
    removed := [];
    var j := |lst|;
    while j > 0
      invariant 0 <= j <= |lst|
      invariant rest == lst[..j] + KeptFrom(lst, drop, j)
      invariant removed == PoppedFrom(lst, drop, j)
    {
      j := j - 1;
      assert lst[..j + 1] == lst[..j] + [lst[j]];
      if j in drop {
        assert rest[j] == lst[j];
        assert rest[j + 1..] == KeptFrom(lst, drop, j + 1);
        removed := removed + [rest[j]];
        rest := rest[..j] + rest[j + 1..];
      }
    }
    assert lst[..0] + KeptFrom(lst, drop, 0) == KeptFrom(lst, drop, 0);
    RemovalCounts(lst, idxs);
    PopMultiset(lst, drop, 0);
    assert lst[0..] == lst;
  }

  lemma RemovalCounts<T>(lst: seq<T>, idxs: seq<nat>)
    requires Distinct(idxs)
    requires forall i :: 0 <= i < |idxs| ==> idxs[i] < |lst|
    ensures |PoppedFrom(lst, IndexSet(idxs), 0)| == |idxs|
    ensures |KeptFrom(lst, IndexSet(idxs), 0)| == |lst| - |idxs|
  {
    var drop := IndexSet(idxs);
    PopCounts(lst, drop, 0);
    assert DroppedAbove(drop, 0) == drop;
    DistinctCardinality(idxs);
  }

  /** Whether the rank weights give the first position weight zero (`kf = 0`). */
  predicate ZeroFirst(wt: Weighting, kf: Option<Kf>)
  {
    wt != Uniform && kf == Some(Kf0)
  }

  /**
   Whether `np.random.choice(n, k, p, replace=False)` raises: a lone member under `kf = 0` gets
   weight 0 ('log') or 0/0 ('lin', 'exp'), so its normalised weight is NaN either way; otherwise
   there must be at least `k` non-zero weights.
   */
  predicate ChoiceFails(n: nat, k: nat, zeroFirst: bool)
  {
    (zeroFirst && n == 1) || k > (if zeroFirst then n - 1 else n)
  }

  /** A valid draw of `k` positions out of `n` without replacement, avoiding zero weights. */
  predicate ChoiceOk(idxs: seq<nat>, n: nat, k: nat, zeroFirst: bool)
  {
    && |idxs| == k
    && Distinct(idxs)
    && (forall i :: 0 <= i < |idxs| ==> idxs[i] < n)
    && (zeroFirst ==> 0 !in idxs)
  }

  /** The ordering an order option stands for once a share `gfrac` of the cycles has started. */
  function EffectiveOrder(o: Order, gfrac: real): (e: Order)
    ensures e == WB || e == BW
    ensures (o == WB || o == BW) ==> e == o
    ensures o == AWB ==> (e == WB <==> gfrac < 0.5)
    ensures o == ABW ==> (e == BW <==> gfrac < 0.5)
  {
    match o
    case AWB => if gfrac < 0.5 then WB else BW
    case ABW => if gfrac < 0.5 then BW else WB
    case _ => o
  }

  /** The two annealed orders are opposite at every stage of the run. */
  lemma AnnealedOrdersOpposite(gfrac: real)
    ensures EffectiveOrder(AWB, gfrac) != EffectiveOrder(ABW, gfrac)
  {
  }

  /** Whether members are sorted by ascending fitness (otherwise descending). */
  predicate Ascending(e: Order, mode: Mode)
  {
    (e == WB && mode == Max) || (e == BW && mode == Min)
  }

  predicate AllKnown(fs: seq<Fit>)
  {
    forall i :: 0 <= i < |fs| ==> fs[i].Known?
  }

  /**
   `sorted` is Python's `sorted(zip(member_fitnesses, members))`, possibly reversed: a
   reordering of the pairs, in the requested direction whenever every fitness is a number.
   */
  predicate SortOk(pairs: seq<(Fit, Vec)>, sorted: seq<(Fit, Vec)>, asc: bool)
  {
    && multiset(sorted) == multiset(pairs)
    && (AllKnown(Firsts(sorted)) ==>
          forall i, j :: 0 <= i < j < |sorted| ==>
            if asc then sorted[i].0.v <= sorted[j].0.v else sorted[j].0.v <= sorted[i].0.v)
  }

  /** 'wb' puts the worst member first in either mode, 'bw' the best. */
  lemma OrderPutsWorstOrBestFirst(pairs: seq<(Fit, Vec)>, sorted: seq<(Fit, Vec)>, e: Order, mode: Mode)
    requires e == WB || e == BW
    requires SortOk(pairs, sorted, Ascending(e, mode))
    requires AllKnown(Firsts(sorted)) && |sorted| > 0
    ensures var first := sorted[0].0.v;
      forall i :: 0 <= i < |sorted| ==>
        if (e == WB) == (mode == Max) then first <= sorted[i].0.v else sorted[i].0.v <= first
  {
    forall i | 0 <= i < |sorted|
      ensures if (e == WB) == (mode == Max) then sorted[0].0.v <= sorted[i].0.v else sorted[i].0.v <= sorted[0].0.v
    {
      if i > 0 {
        assert sorted[0].0.Known? && sorted[i].0.Known?;
      }
    }
  }

  /** Pop the drawn positions from a population whose members are in their final order. */
  function RemoveDrawn(p: Population, ei: nat, idxs: seq<nat>, zeroFirst: bool): (r: Result<(Population, seq<Vec>), Failure>)
    requires Aligned(p)
    requires p.n > 0 && !ChoiceFails(p.n, ei, zeroFirst) ==> ChoiceOk(idxs, p.n, ei, zeroFirst)
    ensures r.Err? <==> p.n > 0 && ChoiceFails(p.n, ei, zeroFirst)
    ensures r.Err? ==> r.error == (if zeroFirst && p.n == 1 then ZeroWeights else TooFewNonZeroWeights)
    ensures r.Ok? ==>
      var (q, out) := r.value;
      && Aligned(q)
      && |out| == (if p.n == 0 then 0 else ei)
      && |q.members| + |out| == |p.members|
      && multiset(q.members) + multiset(out) == multiset(p.members)
      && q.fitlog == p.fitlog && q.lastNgen == p.lastNgen && q.algo == p.algo && q.mode == p.mode
    ensures r.Ok? && p.n > 0 && zeroFirst ==> |r.value.0.members| > 0 && r.value.0.members[0] == p.members[0]
    ensures r.Ok? && p.n == 0 ==> r.value == (p, [])
    ensures r.Ok? && p.n > 0 ==>
      var drop := IndexSet(idxs);
      && r.value.0.members == KeptFrom(p.members, drop, 0)
      && r.value.0.fitnesses == KeptFrom(p.fitnesses, drop, 0)
      && r.value.1 == PoppedFrom(p.members, drop, 0)
  {
    if p.n == 0 then Ok((p, []))
    else if ChoiceFails(p.n, ei, zeroFirst) then
      Err(if zeroFirst && p.n == 1 then ZeroWeights else TooFewNonZeroWeights)
    else
      var drop := IndexSet(idxs);
      var kept := KeptFrom(p.members, drop, 0);
      var out := PoppedFrom(p.members, drop, 0);
      RemovalCounts(p.members, idxs);
      RemovalCounts(p.fitnesses, idxs);
      PopMultiset(p.members, drop, 0);
      assert p.members[0..] == p.members;
      Ok((p.(members := kept, fitnesses := KeptFrom(p.fitnesses, drop, 0), n := |kept|), out))
  }

  lemma DrawingNothingKeepsAll(p: Population, ei: nat, idxs: seq<nat>)
    requires Aligned(p)
    requires p.n > 0 && !ChoiceFails(p.n, ei, false) ==> ChoiceOk(idxs, p.n, ei, false)
    ensures ei == 0 ==> RemoveDrawn(p, ei, idxs, false) == Ok((p, []))
  {
    if ei == 0 && p.n > 0 {
      assert IndexSet(idxs) == {};
      KeepAll(p.members, 0);
      KeepAll(p.fitnesses, 0);
      assert p.members[0..] == p.members && p.fitnesses[0..] == p.fitnesses;
    }
  }

  /**
   Members and fitnesses in the order the draw's positions refer to: as they stand under
   uniform weighting, otherwise as sorted.
   */
  function Lineup(p: Population, wt: Weighting, sorted: seq<(Fit, Vec)>): (seq<Vec>, seq<Fit>)
  {
    if wt == Uniform then (p.members, p.fitnesses) else (Seconds(sorted), Firsts(sorted))
  }

  /**
   `export`: choose `ei` members and remove them. Uniform weighting draws among the members
   as they stand. Rank weighting first resolves the order option, reorders members and
   fitnesses by fitness, and draws with rank weights whose first position weighs zero when
   `kf = 0`; that member therefore always stays.
   */
  function Export(p: Population, ei: nat, wt: Weighting, order: Option<Order>, kf: Option<Kf>, gfrac: real,
                  sorted: seq<(Fit, Vec)>, idxs: seq<nat>): (r: Result<(Population, seq<Vec>), Failure>)
    requires Aligned(p)
    requires wt != Uniform && order.Some? ==>
      SortOk(Zip(p.fitnesses, p.members), sorted, Ascending(EffectiveOrder(order.value, gfrac), p.mode))
    requires p.n > 0 && !ChoiceFails(p.n, ei, ZeroFirst(wt, kf)) ==> ChoiceOk(idxs, p.n, ei, ZeroFirst(wt, kf))
    ensures wt == Uniform ==> (r.Err? <==> p.n > 0 && ei > p.n)
    ensures wt != Uniform ==>
      (r.Err? <==> order.None? || kf.None? || (p.n > 0 && ChoiceFails(p.n, ei, kf == Some(Kf0))))
    ensures r.Err? && wt != Uniform && order.None? ==> r.error == OrderMissing
    ensures r.Err? && wt != Uniform && order.Some? && kf.None? ==> r.error == KfMissing
    ensures r.Ok? ==>
      var (q, out) := r.value;
      && Aligned(q)
      && |out| == (if p.n == 0 then 0 else ei)
      && |q.members| + |out| == |p.members|
      && multiset(q.members) + multiset(out) == multiset(p.members)
      && q.fitlog == p.fitlog && q.lastNgen == p.lastNgen && q.algo == p.algo && q.mode == p.mode
    ensures r.Ok? && wt == Uniform && ei == 0 ==> r.value == (p, [])
    ensures r.Ok? && ZeroFirst(wt, kf) && p.n > 0 ==>
      |r.value.0.members| > 0 && r.value.0.members[0] == sorted[0].1
    ensures r.Ok? && p.n == 0 ==> r.value == (p, [])
    ensures r.Ok? && p.n > 0 ==>
      var (ms, fs) := Lineup(p, wt, sorted);
      var drop := IndexSet(idxs);
      && r.value.0.members == KeptFrom(ms, drop, 0)
      && r.value.0.fitnesses == KeptFrom(fs, drop, 0)
      && r.value.1 == PoppedFrom(ms, drop, 0)
  {
    if wt == Uniform then
      DrawingNothingKeepsAll(p, ei, idxs);
      RemoveDrawn(p, ei, idxs, false)
    else if order.None? then Err(OrderMissing)
    else
      var reordered := p.(members := Seconds(sorted), fitnesses := Firsts(sorted));
      SortKeepsMembers(p, sorted);
      if kf.None? then Err(KfMissing)
      else RemoveDrawn(reordered, ei, idxs, kf == Some(Kf0))
  }

  /** Sorting the (fitness, member) pairs reorders the members: same count, same multiset. */
  lemma SortKeepsMembers(p: Population, sorted: seq<(Fit, Vec)>)
    requires Aligned(p) && multiset(sorted) == multiset(Zip(p.fitnesses, p.members))
    ensures |sorted| == |p.members| && multiset(Seconds(sorted)) == multiset(p.members)
    ensures p.n == 0 ==> p.(members := Seconds(sorted), fitnesses := Firsts(sorted)) == p
  {
    assert |sorted| == |multiset(sorted)| == |Zip(p.fitnesses, p.members)|;
    assert Seconds(Zip(p.fitnesses, p.members)) == p.members;
    SecondsMultiset(sorted, Zip(p.fitnesses, p.members));
  }
}
