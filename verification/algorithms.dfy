/**
 What the ensemble optimizer knows about each optimizer family (neorl/hybrid/aeo.py:
 `get_algo_nmembers`, `get_algo_ngtonevals`, `eval_algo_popnumber`). The family replaces the
 source's `isinstance` dispatch; MFO is recognised by that dispatch but has no entry in these
 tables, so every lookup for it yields Python's `None`.
 */
module Algorithms {
  import opened Wrappers

  datatype Family = WOA | GWO | PSO | MFO | HHO | DE | ES

  /**
   An optimizer instance as the ensemble sees it: its family, its configured population size
   (`nwhales`, `nwolves`, `npar`, `nhawks`, `npop`, `lambda_`) and, for ES, its parent count `mu`.
   */
  datatype Optimizer = Optimizer(family: Family, size: nat, mu: nat)

  /** The family's name, used to name populations. */
  function Name(f: Family): string
  {
    match f
    case WOA => "WOA"
    case GWO => "GWO"
    case PSO => "PSO"
    case MFO => "MFO"
    case HHO => "HHO"
    case DE => "DE"
    case ES => "ES"
  }

  /** Family names are distinct and contain no digits. */
  lemma NamesDistinctLetters(f: Family, h: Family)
    ensures Name(f) == Name(h) ==> f == h
    ensures 2 <= |Name(f)| <= 3
    ensures forall i :: 0 <= i < |Name(f)| ==> 'A' <= Name(f)[i] <= 'Z'
  {
  }

  /** Configured population size (`get_algo_nmembers`); `None` for MFO. */
  function ConfiguredSize(o: Optimizer): (r: Option<nat>)
    ensures r.None? <==> o.family == MFO
    ensures r.Some? ==> r.value == o.size
  {
    if o.family == MFO then None else Some(o.size)
  }

  /** Fitness evaluations per member per run of `ngen` generations, when the family has a formula. */
  function PerMemberCost(f: Family, ngen: nat): Option<nat>
  {
    match f
    case WOA => Some(ngen)
    case GWO => Some(ngen)
    case PSO => Some(ngen + 1)
    case DE => Some(2 * ngen)
    case ES => Some(ngen + 1)
    case HHO => Some(2 * ngen)
    case MFO => None
  }

  /**
   Fitness evaluations spent by `ngen` generations on `n` members (`get_algo_ngtonevals`).
   Every family evaluates each member at least once and at most twice per generation, plus
   possibly once for the initial population; MFO has no formula.
   */
  function EvalCount(f: Family, ngen: nat, n: nat): (r: Option<nat>)
    ensures r.None? <==> f == MFO
    ensures r.Some? ==> ngen * n <= r.value <= 2 * (ngen + 1) * n
    ensures r.Some? && n == 0 ==> r.value == 0
  {
    match PerMemberCost(f, ngen)
    case None => None
    case Some(c) =>
      MulMonotone(ngen, c, n);
      MulMonotone(c, 2 * (ngen + 1), n);
      Some(c * n)
  }

  lemma MulMonotone(a: nat, b: nat, n: nat)
    requires a <= b
    ensures a * n <= b * n
  {
  }

  /** The cost is additive over members: evaluations are paid member by member. */
  lemma EvalCountAdditive(f: Family, ngen: nat, a: nat, b: nat)
    requires f != MFO
    ensures EvalCount(f, ngen, a + b).value == EvalCount(f, ngen, a).value + EvalCount(f, ngen, b).value
  {
    var c := PerMemberCost(f, ngen).value;
    assert c * (a + b) == c * a + c * b;
  }

  /**
   Whether `n` members are enough to run an evolution phase (`eval_algo_popnumber`): five for
   the swarm families and DE, `mu` parents for ES, and no answer (`None`, which is falsy) for MFO.
   */
  function Runnable(o: Optimizer, n: nat): (r: Option<bool>)
    ensures r.None? <==> o.family == MFO
    ensures o.family in {WOA, GWO, PSO, HHO, DE} ==> (r == Some(true) <==> n >= 5)
    ensures o.family == ES ==> (r == Some(true) <==> n >= o.mu)
  {
    match o.family
    case MFO => None
    case ES => Some(n >= o.mu)
    case _ => Some(n >= 5)
  }

  /** A population large enough to evolve stays so as it grows. */
  lemma RunnableMonotone(o: Optimizer, n: nat, m: nat)
    requires Runnable(o, n) == Some(true) && n <= m
    ensures Runnable(o, m) == Some(true)
  {
  }
}
