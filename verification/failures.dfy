/**
 The exceptions the ensemble optimizer (neorl/hybrid/aeo.py) can raise while it runs, one
 constructor per distinct cause. A model function returns `Err(f)` exactly where the
 original program raises.
 */
module Failures {

  datatype Failure =
      /** A population too small to evolve on the first cycle: nothing recorded yet. */
    | StartTooSmall
      /** `max`/`min` of the final fitnesses of a strategy that returned no members. */
    | EmptyFinalPopulation
      /** `fitness`/`last_ngen` read before the population ever evolved. */
    | NoFitnessYet
      /** The evaluation-count formula is `None` for this family (MFO), so it cannot be called. */
    | NoCostFormula
      /** `order[0]` on `order=None` with a rank weighting. */
    | OrderMissing
      /** `kf=None` used in rank-weight arithmetic. */
    | KfMissing
      /** Every rank weight is zero, so the normalised weights are NaN. */
    | ZeroWeights
      /** More members requested than there are non-zero rank weights. */
    | TooFewNonZeroWeights
      /** `(Ncyc - 1)` or `(1 - Ncyc)` is zero in an annealing schedule. */
    | SingleCycleSchedule
      /** Strengths normalised by a sum that is zero. */
    | ZeroStrengthSum
      /** A binomial probability outside [0, 1], or one that is not a real number. */
    | BinomialProbability
      /** A multinomial probability outside [0, 1], or one that is not a real number. */
    | MultinomialProbability
      /** `alpha` logged before any cycle has assigned it (the first cycle had fmax == fmin). */
    | AlphaUnbound
      /** `max` over the fitnesses of an ensemble with no populations. */
    | NoPopulations
      /** Strength normalised against a cycle whose best and worst fitness coincide. */
    | ZeroFitnessRange
      /** `x0` and `pop0` of different lengths. */
    | AssignmentLengthMismatch
      /** `x0` given without `pop0` (`len(None)`). */
    | AssignmentMissing
      /** Initial sizes needed but `npop0` missing or holding `None` (`sum` fails). */
    | SizesMissing
}
