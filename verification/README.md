# A Dafny model of NEORL's ensemble optimizer core

This project models three pieces of the NEORL optimization library:

- The Animorphic Ensemble Optimizer (AEO) in `neorl/hybrid/aeo.py`. Several populations are
  each driven by their own optimizer (WOA, GWO, PSO, MFO, HHO, DE or ES). A run is a sequence
  of cycles, and every cycle does four things:
  - Each population evolves for a fixed number of generations.
  - The cycle decides how many members each population exports, using a binomial draw over
    annealed, optionally burdened strengths.
  - The exported members are removed by rank weights or uniformly (`wtd_remove`).
  - The exports are routed to destination populations. With `ret` true they go through one
    shuffled pool; with `ret` false a population never receives its own exports.

  The model also covers the constructor's validation, the annealing schedules, the initial
  split of members among the populations, and the naming of populations.
- The differential evolution core used by the PESA hybrid in
  `build/lib/neorl/hybrid/pesacore/de.py`: bound clipping, the initial population, donor
  vectors, binomial crossover, greedy selection, and extraction of the best member and of the
  ranked population.
- The discrete-variable helpers in `build/lib/neorl/evolu/discrete.py`:
  - `mutate_discrete` with its `nearest_int`, `sigmoid` and `minmax` rules and the final clip.
  - The grid encoding and decoding of bounds and individuals.

Conventions:

- Floats are `real`.
- Python exceptions are `Err` values of a `Result`.
- Randomness and outside computations are inputs to the model:
  - The optimizers' runs, `**` on floats and Python's `sorted` are inputs.
  - The numpy and `random` draws are inputs; in AEO they arrive as an `Oracles` record
    constrained by `ValidOracles`.
  - In DE and in `mutate_discrete` they are plain parameters.
- Each module follows one part of the source:

| module | source part |
|---|---|
| `Options` | constructor validation |
| `Algorithms` | per-family tables |
| `Schedules` | `get_alphabeta`, `get_q` and the binomial probability |
| `Populations` | the `Population` class and `wtd_remove` |
| `Routing` | destination selection |
| `Naming` | population names |
| `InitialSplit` | the start of `evolute` |
| `Ensemble` | the cycle loop |
| `DiffEvolution` | `de.py` |
| `Discrete` | `discrete.py` |

Behaviours of the code that the model keeps:

- With rank weighting, `export` reorders members and fitnesses by fitness even when the
  count is 0. Only uniform weighting leaves the population unchanged on a count of 0
  (`Populations.Export`).
- A tied cycle (`fmax == fmin`) is not always harmless. Line 679 logs `alpha`, which only the
  migrating branch assigns, so a run whose first cycle is tied fails, and a later tied cycle
  logs the previous cycle's alpha (see Findings). `Ensemble.ExportNumbersAsWritten` models
  that step as written. The cycle loop (`Ensemble.Leave`, `Migrate`, `Cycle` and `Run`) is
  built on the corrected `Ensemble.ExportNumbers`, which computes alpha in every cycle.
- With `kf = 0`, rank weighting gives the first rank weight 0 or, for a lone member, no
  number at all. A population of one member gets weight 0 under 'log' weighting (the
  denominator `raj_logfact(1)` is small but not zero) and NaN under 'lin' and 'exp' (both
  denominators are exactly 0). Either way every normalised weight is NaN, and
  `np.random.choice` fails even for a count of 0.
- With the 'improve' measure a strength can be negative: a population that did not improve
  scores `(0 - fworst) / (fbest - fworst)`, which is below 0 when the worst fitness is
  positive. Raised to an alpha or beta that is not a whole number, it is complex (NaN for a
  numpy float), and the next binomial or multinomial draw raises. The model marks such a
  power `None` (`Ensemble.Power`) and fails at that draw.
- MFO is accepted by the family dispatch, but it has no size, no evaluation-count formula and
  no population-size rule. An MFO population therefore cannot start from configured sizes,
  and every run that contains an MFO population fails in its first evolution phase: the
  missing size rule reads as "too small" (`Populations.Evolve`, `StartTooSmall`), before
  any strength is computed (`Populations.MfoNeverStarts`, `Ensemble.MfoStopsFirstPhase`).

## Model

| member | source | states |
|---|---|---|
| Options.Validate | neorl/hybrid/aeo.py:380-469 | construction succeeds exactly when every check passes; otherwise the error is the first failing check in the constructor's order, and every earlier check passes |
| Options.FirstFailing | neorl/hybrid/aeo.py:380-469 | the reported check fails, and every check before it in constructor order passes; no result means all remaining checks pass |
| Options.Parsed | neorl/hybrid/aeo.py:413-469 | accepted arguments become options that agree with the raw values: fixed alpha and beta are non-negative, booleans stay booleans, and `order`/`kf` may be `None` |
| Options.KfAcceptsNumericEquals | neorl/hybrid/aeo.py:442-444 | `kf` uses Python's numeric equality: `True` selects variant 1 and `0.0` selects variant 0; `2` and the string "0" are refused |
| Options.IntegerAlphaRefused | neorl/hybrid/aeo.py:413-416 | an integer alpha is refused even when it is non-negative: only floats and 'up'/'down' are accepted |
| Options.CheckOrderIsByRank | neorl/hybrid/aeo.py:380-469 | each check's rank is its position in the constructor's sequence of checks |
| Algorithms.NamesDistinctLetters | neorl/hybrid/aeo.py:45-62 | family names are distinct, two or three letters long, and contain no digits |
| Algorithms.ConfiguredSize | neorl/hybrid/aeo.py:128-145 | every family but MFO reports its configured population size; MFO gets `None` |
| Algorithms.EvalCount | neorl/hybrid/aeo.py:147-164 | only MFO has no evaluation formula; the others charge between ngen·n and 2(ngen+1)·n evaluations, and 0 for no members |
| Algorithms.EvalCountAdditive | neorl/hybrid/aeo.py:147-164 | the evaluation count is additive over members |
| Algorithms.Runnable | neorl/hybrid/aeo.py:166-174 | a swarm family or DE needs at least 5 members, ES needs at least `mu`, and MFO gets no answer |
| Algorithms.RunnableMonotone | neorl/hybrid/aeo.py:166-174 | a population large enough to evolve stays large enough as it grows |
| Schedules.AlphaBeta | neorl/hybrid/aeo.py:508-514 | a fixed exponent is returned as it is; 'up' goes from 0 at cycle 1 to 1 at the last cycle and 'down' the reverse, both inside [0, 1]; annealing fails on a one-cycle run |
| Schedules.Progress | neorl/hybrid/aeo.py:511-512 | the annealing progress is 0 at the first cycle, 1 at the last, and within [0, 1] in between |
| Schedules.DownComplementsUp | neorl/hybrid/aeo.py:511-514 | 'down' is 1 minus 'up' at every cycle |
| Schedules.AlphaBetaMonotone | neorl/hybrid/aeo.py:511-514 | 'up' never decreases over the cycles and 'down' never increases |
| Schedules.Q | neorl/hybrid/aeo.py:516-522 | a fixed q is returned as it is; 'up' goes from -1 to 1 and 'down' from 1 to -1, both inside [-1, 1]; annealing fails on a one-cycle run |
| Schedules.QIsRescaledProgress | neorl/hybrid/aeo.py:520-522 | both q formulas are the annealing progress rescaled from [0, 1] to [-1, 1] |
| Schedules.QFollowsAlpha | neorl/hybrid/aeo.py:508-522 | an annealed q is 2·alpha − 1 for the same schedule direction |
| Schedules.ExportProbability | neorl/hybrid/aeo.py:668 | the binomial probability stays in [0, 1] for a strength in [0, 1] and a skew in [-1, 1]; it is 1/2 without skew, 1 − s at q = 1 and s at q = −1 |
| Populations.NewPopulation | neorl/hybrid/aeo.py:180-195 | a new population holds the given members, index-aligned, with an empty fitness log and no generation count |
| Populations.Receive | neorl/hybrid/aeo.py:337-341 | immigrants are appended after the existing members in order, each with a NaN (`Missing`) fitness; alignment and the log are kept |
| Populations.ReceiveNothing | neorl/hybrid/aeo.py:337-341 | receiving nothing changes nothing |
| Populations.ReceiveTwice | neorl/hybrid/aeo.py:337-341 | receiving two batches in turn is the same as receiving them together |
| Populations.Best | neorl/hybrid/aeo.py:223-226 | the phase's fitness is one of the final fitnesses: the largest when maximizing, the smallest when minimizing |
| Populations.Evolve | neorl/hybrid/aeo.py:201-239 | a population too small to evolve reports its last logged fitness and fails if it has none; otherwise the run's final rows replace the members and the best final fitness is appended to the log; the cached `n` is left alone |
| Populations.MfoNeverStarts | neorl/hybrid/aeo.py:166-174 | an MFO population has no size rule, so with nothing logged its phase fails as too small |
| Populations.EvolveLogAppendOnly | neorl/hybrid/aeo.py:201-239 | a successful phase keeps the earlier log entries and adds at most one |
| Populations.RawStrength | neorl/hybrid/aeo.py:248-251 | 'improve' with two log entries is the last improvement floored at 0; otherwise the signal is the current fitness |
| Populations.Normalize | neorl/hybrid/aeo.py:242-254 | the cycle's best fitness maps to 1 and its worst to 0 in either mode, and values in range map into [0, 1] |
| Populations.Strength | neorl/hybrid/aeo.py:241-273 | strength fails exactly when no fitness is logged, the cycle is tied, there is no cost formula, or no generation count exists; burdening divides by 1 + evaluations, shrinking toward 0 |
| Populations.StrengthInUnitRange | neorl/hybrid/aeo.py:241-273 | the fitness strength of a population inside the cycle's range lies in [0, 1], burdened or not |
| Populations.StrengthOfLeaderAndLaggard | neorl/hybrid/aeo.py:241-273 | the unburdened fitness strength is exactly 1 for the cycle's best population and exactly 0 for its worst |
| Populations.WtdRemove | neorl/hybrid/aeo.py:67-78 | popping the drawn positions from the highest down removes exactly those positions; the rest keep their order, and rest plus removed is a permutation of the list |
| Populations.EffectiveOrder | neorl/hybrid/aeo.py:287-293 | an annealed order uses its first direction before half the run and the reverse after; plain orders are kept |
| Populations.AnnealedOrdersOpposite | neorl/hybrid/aeo.py:287-293 | 'awb' and 'abw' always point in opposite directions |
| Populations.OrderPutsWorstOrBestFirst | neorl/hybrid/aeo.py:297-306 | after sorting, 'wb' puts the worst member first and 'bw' the best, in either mode |
| Populations.RemoveDrawn | neorl/hybrid/aeo.py:322-332 | removal fails exactly when numpy refuses the request; otherwise the survivors are the members at the positions not drawn, in their original order and with their own fitnesses, and the exports are the members at the drawn positions, highest position first; an empty population is unchanged; the first member stays under `kf = 0` |
| Populations.DrawingNothingKeepsAll | neorl/hybrid/aeo.py:277-285 | drawing 0 members without zero weights leaves the population unchanged |
| Populations.SortKeepsMembers | neorl/hybrid/aeo.py:297-306 | sorting the zipped fitness and member pairs keeps the same members, as many as before; an empty population sorts to itself |
| Populations.Export | neorl/hybrid/aeo.py:275-335 | uniform export fails only when more members are requested than exist; rank export also fails without `order` or `kf`; on success the drawn positions, taken in the members' order as they stand (uniform) or as sorted (rank), leave highest first, and everybody else stays in that order with their fitnesses; uniform export of 0 changes nothing; with `kf = 0` the first sorted member always stays |
| Routing.Slices | neorl/hybrid/aeo.py:706-708 | allotments that add up to the pool cut it into consecutive slices of exactly those lengths, which together are the pool |
| Routing.Distribute | neorl/hybrid/aeo.py:706-708 | population i receives the i-th slice of the pool |
| Routing.DistributeLandsEachOnce | neorl/hybrid/aeo.py:695-708 | each population keeps its members as a prefix, and the arrivals taken in population order are exactly the pool |
| Routing.DistributeConserves | neorl/hybrid/aeo.py:695-708 | with `ret` true the ensemble grows by exactly the pool |
| Routing.DistributeNothing | neorl/hybrid/aeo.py:695-708 | an empty pool leaves every population unchanged |
| Routing.Others | neorl/hybrid/aeo.py:711-716 | the destination list for group j holds every population index except j, once each, in order |
| Routing.Without | neorl/hybrid/aeo.py:714 | the strengths of the other populations, in the order of their indices |
| Routing.Deliver | neorl/hybrid/aeo.py:717-721 | a group is shared out over its target populations, and populations that are not targets are untouched |
| Routing.OwnGroupNeverReturns | neorl/hybrid/aeo.py:710-722 | population j never receives members of its own export group |
| Routing.DeliverConserves | neorl/hybrid/aeo.py:717-721 | sharing out a group whose allotment adds up to its size grows the ensemble by exactly the group |
| Routing.DeliverNothing | neorl/hybrid/aeo.py:717-721 | sharing out an empty group changes nothing |
| Routing.RouteNoReturn | neorl/hybrid/aeo.py:710-722 | groups are shared out in population order; the number of populations is unchanged |
| Routing.RouteNoReturnConserves | neorl/hybrid/aeo.py:710-722 | with `ret` false the ensemble grows by exactly the routed groups |
| Routing.RouteNothing | neorl/hybrid/aeo.py:710-722 | routing only empty groups changes nothing |
| Routing.RouteNoReturnKeepsAligned | neorl/hybrid/aeo.py:710-722 | routing keeps every population's fitnesses aligned with its members |
| Routing.AddAt | neorl/hybrid/aeo.py:722 | adding an allotment at its target positions raises the total by the allotment's sum |
| Routing.Holder | neorl/hybrid/aeo.py:712-724 | the logged totals add up to everything the groups were allotted |
| Routing.HolderCountsExports | neorl/hybrid/aeo.py:712-724 | the logged allotment `A` adds up to the number of members exported in the cycle |
| Routing.AllottedEqualsExported | neorl/hybrid/aeo.py:713-722 | when each allotment adds up to its group's size, all allotments together add up to all groups together |
| Naming.Digits | neorl/hybrid/aeo.py:572 | `str(i)` is a non-empty string of decimal digits |
| Naming.ParseDigitsOfDigits | neorl/hybrid/aeo.py:572 | `str(i)` read back as a number is i |
| Naming.ZFill3 | neorl/hybrid/aeo.py:572 | `zfill(3)` left-pads with zeros to width three and keeps longer strings |
| Naming.SuffixRoundTrip | neorl/hybrid/aeo.py:572-574 | a zero-padded counter reads back as the counter |
| Naming.SuffixInjective | neorl/hybrid/aeo.py:572-574 | different counters give different suffixes |
| Naming.FreeSuffix | neorl/hybrid/aeo.py:571-573 | the `while` loop stops at the first counter from its start whose name is free; every counter before it is taken |
| Naming.NextName | neorl/hybrid/aeo.py:566-575 | a new name is never already taken; it is the bare family name when that is free, and otherwise the family name with a counter of at least 2 |
| Naming.PopNames | neorl/hybrid/aeo.py:564-575 | there is one name per population, all names are distinct, and each is chosen given the names before it |
| Naming.NamesNamedAfter | neorl/hybrid/aeo.py:564-575 | every name is its family's name, possibly followed by a counter |
| Naming.FirstUseIsBare | neorl/hybrid/aeo.py:567-569 | the first population of a family is named after the family alone |
| Naming.LaterUseIsSuffixed | neorl/hybrid/aeo.py:570-575 | a later population of a family gets the smallest counter from 2 up that is not in use yet |
| Naming.BareFreeBeforeFirstUse | neorl/hybrid/aeo.py:564-575 | before a family's first population, its bare name is unused |
| Naming.BareNameOnlyFromSameFamily | neorl/hybrid/aeo.py:564-575 | a bare family name can only have been given to a population of that family |
| InitialSplit.Expand | neorl/hybrid/aeo.py:548-549 | the assignment list names population i exactly `npop0[i]` times and names nothing else |
| InitialSplit.SplitFor | neorl/hybrid/aeo.py:554-557 | population i gets exactly the given members assigned to i; `zip` stops at the shorter list |
| InitialSplit.ConfiguredSizes | neorl/hybrid/aeo.py:539-540 | configured sizes exist exactly when no optimizer is MFO, and each equals the optimizer's size |
| InitialSplit.Populate | neorl/hybrid/aeo.py:552-559 | there is one new aligned population per optimizer, holding the members assigned to it |
| InitialSplit.Start | neorl/hybrid/aeo.py:539-559 | given members need an assignment of equal length; sampled starts need sizes, given or configured; population i starts with `npop0[i]` members, the configured size, or its number of assignments |
| InitialSplit.CountsPartition | neorl/hybrid/aeo.py:553-557 | when every assignment names a population, the populations' counts add up to the number of members |
| InitialSplit.SampledStartKeepsEveryone | neorl/hybrid/aeo.py:547-559 | a sampled start holds exactly the sum of `npop0` members |
| InitialSplit.GivenStartKeepsEveryone | neorl/hybrid/aeo.py:542-559 | a given start with valid assignments loses no member |
| Ensemble.EvolveAll | neorl/hybrid/aeo.py:652 | populations evolve in order, each with its own optimizer run; a failing phase reports the error of the first population that fails, and every population before it evolved |
| Ensemble.MfoStopsFirstPhase | neorl/hybrid/aeo.py:201-206 | a fresh ensemble holding an MFO population fails its first evolution phase, with a too-small start or an empty final population as the first error |
| Ensemble.EvolveAllKeepsSizes | neorl/hybrid/aeo.py:652 | an evolution phase keeps every population's size and alignment |
| Ensemble.PowStrengths | neorl/hybrid/aeo.py:663 | each population's strength raised to alpha, or marked as not a real number for a negative strength and a fractional alpha; the step fails exactly when some strength fails, with the error of the first population whose strength fails |
| Ensemble.Power | neorl/hybrid/aeo.py:663 | `x ** a` is a real number exactly for a non-negative base or a whole exponent, and is then the power |
| Ensemble.DrawExports | neorl/hybrid/aeo.py:668-669 | the draws succeed exactly when every binomial probability is in [0, 1]; population j draws over its own size |
| Ensemble.ExportNumbersAsWritten | neorl/hybrid/aeo.py:656-679 | as written: a tied cycle exports nobody and logs the alpha of the last migrating cycle, failing when there is none; a migrating cycle uses this cycle's alpha |
| Ensemble.ExportNumbers | neorl/hybrid/aeo.py:656-679 | corrected: migration happens exactly when fmax ≠ fmin; the logged alpha is always this cycle's; a tied cycle exports nobody and never fails for want of an alpha; counts never exceed population sizes |
| Ensemble.SkewedDraws | neorl/hybrid/aeo.py:664-669 | the draw succeeds only when every strength raised to alpha is a real number; a zero-sum failure means real powers summing to zero; each count drawn is bounded by its population's size |
| Ensemble.Migrating | neorl/hybrid/aeo.py:661-673 | the migrating branch draws one count per population, each bounded by that population's size, with this cycle's alpha; it succeeds only when every strength raised to alpha is a real number |
| Ensemble.NegativeImproveStrength | neorl/hybrid/aeo.py:241-254 | with fitness logs [2, 1] when maximising and a cycle range [1, 3], the 'improve' strength is −0.5, whose square root is not a real number |
| Ensemble.NonRealPowerStopsMigration | neorl/hybrid/aeo.py:661-669 | a negative strength raised to a fractional alpha makes the migrating branch fail |
| Ensemble.LeaderStrengthPositive | neorl/hybrid/aeo.py:241-273 | the population holding the best fitness has a positive fitness strength, burdened or not |
| Ensemble.FitnessPowersSumPositive | neorl/hybrid/aeo.py:663-664 | under the fitness measure every power is a real number and the powers sum to more than zero |
| Ensemble.FitnessMeasureNeverZeroSum | neorl/hybrid/aeo.py:661-669 | under the fitness measure the migrating branch never fails on a zero strength sum |
| Ensemble.CorrectionOnlyFillsTheGap | neorl/hybrid/aeo.py:656-679 | wherever the loop as written succeeds, the corrected version makes the same decisions |
| Ensemble.TiedFirstCycleFails | neorl/hybrid/aeo.py:656-679 | two populations tied on cycle 1 make the loop as written fail, while the corrected version succeeds |
| Ensemble.LonePopulationFailsAsWritten | neorl/hybrid/aeo.py:656-679 | as written, an ensemble of one population always fails on its first cycle |
| Ensemble.ExportProbabilitiesValid | neorl/hybrid/aeo.py:663-669 | non-negative strengths and an annealed q give binomial probabilities in [0, 1], so the draw cannot fail |
| Ensemble.SinglePopulationIsFlat | neorl/hybrid/aeo.py:656-658 | a single population never migrates |
| Ensemble.ExportOf | neorl/hybrid/aeo.py:683 | one population's export keeps it aligned and loses no member; the members at the positions `np.random.choice` drew leave, highest first, and the rest stay in order |
| Wrappers.Collect | neorl/hybrid/aeo.py:683 | the populations' steps succeed together exactly when each succeeds, with their results in order; otherwise the phase fails with the error of the first that fails, and every earlier one succeeded |
| Ensemble.ExportAllAccounts | neorl/hybrid/aeo.py:683 | each population exports exactly its drawn count, and the kept members plus the exports are the ensemble before |
| Ensemble.DestStrengths | neorl/hybrid/aeo.py:686-692 | beta is evaluated every cycle; destination strengths are 1 when nobody migrates, and otherwise each population's 'b' strength raised to beta, marked as not a real number for a negative strength and a fractional beta |
| Ensemble.PoolRoute | neorl/hybrid/aeo.py:695-708 | with `ret` true, routing fails exactly on a zero strength sum or an invalid probability; the allotment adds up to the exports; the ensemble grows by the exports; members are kept as prefixes; nothing changes when nothing is exported |
| Ensemble.GroupDraw | neorl/hybrid/aeo.py:713-718 | a group's draw fails when another population's strength is not a real number, and otherwise exactly on a zero sum or invalid probabilities over the other populations; the shuffled group is a permutation, and its allotment covers the others and adds up to its size |
| Ensemble.DrawGroups | neorl/hybrid/aeo.py:713-718 | the groups are drawn in population order; a failing routing reports the error of the first group whose draw fails, and every earlier group drew |
| Ensemble.GroupRoute | neorl/hybrid/aeo.py:710-724 | with `ret` false, routing fails exactly when some group's draw fails, with the first failing group's error; with two or more populations the logged `A` and the ensemble's growth both equal the exports; alignment holds |
| Ensemble.GroupsMatchOuts | neorl/hybrid/aeo.py:713-718 | each drawn group is a permutation of that population's exports |
| Ensemble.GroupRouteFacts | neorl/hybrid/aeo.py:710-724 | the no-return routing conserves members and keeps alignment; it changes nothing when nothing is exported |
| Ensemble.RouteExports | neorl/hybrid/aeo.py:695-724 | with `ret` true a destination strength that is not a real number fails the draw; both routings keep alignment and conserve members, and neither changes anything when nothing is exported |
| Ensemble.Migrate | neorl/hybrid/aeo.py:654-724 | the corrected loop (alpha computed every cycle, see Findings): after evolution, a cycle neither creates nor loses members; `A` accounts for every export; migration happens iff fmax ≠ fmin; alpha and beta are the cycle's |
| Ensemble.Leave | neorl/hybrid/aeo.py:656-683 | the corrected loop (alpha computed every cycle, see Findings): after the exports, what stays plus what left is the ensemble before; the numbers exported add up to what left; nobody leaves in a tied cycle; a lone population never migrates, where the code as written fails on its first cycle |
| Ensemble.Settle | neorl/hybrid/aeo.py:685-724 | destination selection puts every export into some population, and the logged `A` adds up to the exports |
| Ensemble.Cycle | neorl/hybrid/aeo.py:650-725 | the corrected loop (alpha computed every cycle, see Findings): a cycle keeps the number of populations and the total membership, and keeps every population aligned; `A` accounts for every export; a tied cycle moves nobody; a lone population never migrates; no populations is an error |
| Ensemble.CycleFacts | neorl/hybrid/aeo.py:656-683 | a tied cycle exports nothing and keeps sizes, and a lone population is always tied |
| Ensemble.StoppedAsAskedCons | neorl/hybrid/aeo.py:726-730 | a cycle that did not meet the stopping rule, followed by a correctly stopped rest of the run, is a correctly stopped run |
| Ensemble.Run | neorl/hybrid/aeo.py:650-732 | the corrected loop (alpha computed every cycle, see Findings): cycles run in order from 1 and stop after the last cycle or the first one whose stopping check holds; total membership and alignment are preserved |
| DiffEvolution.NewSettings | build/lib/neorl/hybrid/pesacore/de.py:37-50 | construction succeeds exactly when `npop > 3` |
| DiffEvolution.ClipOne | build/lib/neorl/hybrid/pesacore/de.py:56-68 | with ordered bounds one component yields exactly one value inside them, and an in-range value is kept |
| DiffEvolution.EnsureBounds | build/lib/neorl/hybrid/pesacore/de.py:52-70 | with ordered bounds the result has one component per variable, each clamped to its bounds |
| DiffEvolution.InBoundsUnchanged | build/lib/neorl/hybrid/pesacore/de.py:52-70 | a vector inside its bounds is returned unchanged |
| DiffEvolution.EnsureBoundsIdempotent | build/lib/neorl/hybrid/pesacore/de.py:52-70 | clipping twice is clipping once |
| DiffEvolution.ReversedBoundLengthens | build/lib/neorl/hybrid/pesacore/de.py:59-68 | a reversed bound pair makes both conditionals append, so the vector grows |
| DiffEvolution.InitialPopulation | build/lib/neorl/hybrid/pesacore/de.py:94-108 | a given start must have `npop` members and is used as is; otherwise `npop` members are generated |
| DiffEvolution.Partners | build/lib/neorl/hybrid/pesacore/de.py:166-172 | the three partners of member j are distinct members other than j |
| DiffEvolution.PartnersReachEveryTriple | build/lib/neorl/hybrid/pesacore/de.py:166-172 | any three distinct members other than j are the partners of some valid sample, so the partners range over exactly those triples |
| DiffEvolution.Donor | build/lib/neorl/hybrid/pesacore/de.py:176-179 | the donor is x1 + F·(x2 − x3) componentwise, as long as the shortest partner |
| DiffEvolution.DonorMirror | build/lib/neorl/hybrid/pesacore/de.py:176-179 | swapping x2 and x3 mirrors the donor about x1 componentwise, so equal partners give x1 |
| DiffEvolution.DonorWithinReach | build/lib/neorl/hybrid/pesacore/de.py:176-180 | with partners in bounds and F >= 0, each donor component lies within F times the bound's width outside the bounds, which is why clipping follows |
| DiffEvolution.Crossover | build/lib/neorl/hybrid/pesacore/de.py:186-193 | the trial is as long as the target; component k comes from the donor iff its coin is at most CR |
| DiffEvolution.CrossoverExtremes | build/lib/neorl/hybrid/pesacore/de.py:186-193 | coins all above CR give the target; coins all at or below CR give the donor |
| DiffEvolution.Select | build/lib/neorl/hybrid/pesacore/de.py:225-233 | a trial replaces its target only when it scores strictly higher; the recorded score is the better of the two |
| DiffEvolution.SelectedScoresBelongToSurvivors | build/lib/neorl/hybrid/pesacore/de.py:214-233 | each recorded score is the fitness of the member kept and at least both the target's and the trial's fitness, and the member kept is the target or its own trial, so the score is the better of the two |
| DiffEvolution.Trial | build/lib/neorl/hybrid/pesacore/de.py:166-193 | a trial vector has one component per variable |
| DiffEvolution.Trials | build/lib/neorl/hybrid/pesacore/de.py:160-196 | every trial of a generation is built from the population as it was at the generation's start |
| DiffEvolution.Scores | build/lib/neorl/hybrid/pesacore/de.py:214-219 | the score list is the fitness of each vector in order |
| DiffEvolution.Generation | build/lib/neorl/hybrid/pesacore/de.py:151-233 | after a generation, each member's score is the fitness of the member kept and never below the target's or the trial's fitness, and each member kept is the target or its own trial, so the kept score is the better of the trial and the target |
| DiffEvolution.Generations | build/lib/neorl/hybrid/pesacore/de.py:151-242 | after the remaining generations, every slot's score is the fitness of its final member and never below the fitness its member had at the start |
| DiffEvolution.BestOf | build/lib/neorl/hybrid/pesacore/de.py:240-241 | the best score is the largest, and the best member is at the first position holding it |
| DiffEvolution.OutcomeOf | build/lib/neorl/hybrid/pesacore/de.py:240-267 | for a final population scored by its fitness, the ranked map has one entry per member, each score is its member's fitness and at most the best score, every slot's score is at least the fitness of the member it started with, and the best member and score are the ranked entry at the first position holding the best score |
| DiffEvolution.WholeRun | build/lib/neorl/hybrid/pesacore/de.py:151-242 | after all generations, counting the first, every slot's score is the fitness of its final member and never below the fitness of the member it started with |
| DiffEvolution.Finish | build/lib/neorl/hybrid/pesacore/de.py:151-267 | running the generations from a start population gives `npop` ranked entries scored by the fitness, the best at the first position holding the highest score, and every slot at least as fit as where it started |
| DiffEvolution.Ranked | build/lib/neorl/hybrid/pesacore/de.py:262-265 | the returned map sends each position to its member and score, and holds nothing else |
| DiffEvolution.RankedSize | build/lib/neorl/hybrid/pesacore/de.py:262-265 | the map has one entry per member |
| DiffEvolution.Evolute | build/lib/neorl/hybrid/pesacore/de.py:125-267 | a run fails exactly on a wrong-sized start or zero generations; otherwise it returns `npop` ranked entries scored by the fitness; the best member and score are the ranked entry at the first position holding the highest score; every slot's final score is at least the fitness of the member that started in it |
| Discrete.Trunc | build/lib/neorl/evolu/discrete.py:29-33 | `int()` truncates toward zero |
| Discrete.TruncOfInteger | build/lib/neorl/evolu/discrete.py:29-30 | truncation leaves integers alone |
| Discrete.Range | build/lib/neorl/evolu/discrete.py:48 | `range(lb, ub + 1)` lists lb, lb+1, …, ub and is empty when lb > ub |
| Discrete.Remove | build/lib/neorl/evolu/discrete.py:49 | `list.remove` succeeds exactly when the value is present and takes out one occurrence |
| Discrete.ChoiceIndex | build/lib/neorl/evolu/discrete.py:50 | `random.choice` picks a position inside the list |
| Discrete.Replacement | build/lib/neorl/evolu/discrete.py:48-50 | the replacement is another integer of the range; it fails with ValueError when the value is outside the range and with IndexError when the value is the range's only one |
| Discrete.RangeOnce | build/lib/neorl/evolu/discrete.py:48-49 | every value of a range occurs exactly once |
| Discrete.SigmoidFires | build/lib/neorl/evolu/discrete.py:39-47 | the sigmoid rule always mutates when x_min = x_max, and otherwise mutates exactly when the drawn decision says so |
| Discrete.MinMaxFires | build/lib/neorl/evolu/discrete.py:58-66 | the minmax rule is forced when abs(x_min) + x_max = 0 and never fires otherwise when rand ≥ alpha; with rand < alpha it fires iff the normalized value is at least 1/2, that is 2(x + x_min) ≥ den for a positive denominator and ≤ den for a negative one |
| Discrete.Clip | build/lib/neorl/evolu/discrete.py:75-79 | the result lies in [lb, ub] when lb ≤ ub, in-range values are kept, and reversed bounds give ub |
| Discrete.ClipIdempotent | build/lib/neorl/evolu/discrete.py:75-79 | clipping twice is clipping once |
| Discrete.MutateDiscrete | build/lib/neorl/evolu/discrete.py:15-81 | unknown methods (tanh too) fail; every result lies within the truncated bounds; a rule that does not fire gives the clipped truncation; a rule that fires succeeds exactly for an in-range value of a range with two or more values, and then always changes the value |
| Discrete.FlatSigmoidAlwaysMoves | build/lib/neorl/evolu/discrete.py:39-50 | for a flat individual the sigmoid rule always moves an in-range value to another integer of the range |
| Discrete.IndexMap | build/lib/neorl/evolu/discrete.py:99-101 | the map sends each position of the grid to its choice and holds nothing else |
| Discrete.Encode | build/lib/neorl/evolu/discrete.py:90-105 | keys and order are kept; each grid becomes the integer span 0..len−1 with a map position ↦ choice; other bounds are kept; only grid keys have maps |
| Discrete.AsIndex | build/lib/neorl/evolu/discrete.py:114-115 | an integer is a key of the grid map; a string never is |
| Discrete.Decode | build/lib/neorl/evolu/discrete.py:109-119 | decoding succeeds exactly when the individual covers every variable and every grid entry is a key of its map; grid entries are looked up and other entries copied |
| Discrete.IndexOf | build/lib/neorl/evolu/discrete.py:109-119 | the position found holds the value looked for |
| Discrete.Indices | build/lib/neorl/evolu/discrete.py:90-119 | a grid point's index form has in-range integer positions for the grid variables and copies the rest |
| Discrete.DecodeIndices | build/lib/neorl/evolu/discrete.py:90-119 | decoding the index form of a grid point under the encoding's maps gives the point back |
| Discrete.DecodeWithinSpan | build/lib/neorl/evolu/discrete.py:90-119 | an individual inside the encoded spans always decodes, to the choices at its positions |

## Left out

- Logging: the xarray log, the printing and the `verbose` output are not modelled. The values
  the cycle log holds are in `Ensemble.CycleLog`.
- Floating point: all arithmetic is on exact reals. There are no NaNs, infinities or rounding.
  A NaN fitness is the `Missing` constructor.
- The rank-weight formulas (`log`, `lin`, `exp`) and `raj_logfact` are not modelled. Only the
  fact that `kf = 0` gives the first rank weight 0 is kept, because that decides which draws
  numpy refuses.
- Python's `**` on floats, `math.exp` in the sigmoid rule, and every random draw (numpy's
  binomial, multinomial and choice; `random.shuffle`, `random.sample`, `random.random`,
  `random.choice`) are inputs. Only the properties in `Ensemble.ValidOracles` and the
  `requires` clauses are assumed of them. For `**` these are the exact-real facts: powers of
  a positive base are positive, `x ** 0` is 1, `x ** 1` is `x`, and `0 ** a` is 0 for a
  positive `a`. Underflow of a tiny positive power to 0.0 is not modelled.
- Ensemble.Run: runs the corrected loop, in which alpha is computed every cycle. The loop as
  written differs only at the exportation step, which `Ensemble.ExportNumbersAsWritten`
  models; a run threading the previous cycle's alpha through every cycle is not modelled.
- Ensemble.Cycle: is one cycle of the corrected loop, with alpha computed in that cycle; the
  as-written cycle, which fails when tied in the first cycle and otherwise logs a stale
  alpha, is modelled only at its exportation step (`Ensemble.ExportNumbersAsWritten`).
- Ensemble.Migrate: is the corrected migration step, whose export counts come from
  `Ensemble.ExportNumbers` with this cycle's alpha rather than the step as written.
- Ensemble.Leave: is the corrected exportation step, built on `Ensemble.ExportNumbers`; the
  as-written step is `Ensemble.ExportNumbersAsWritten`.
- `random.choice` is modelled as taking the position ⌊u·n⌋ for a draw u in [0, 1). This is a
  valid position, but not CPython's exact algorithm.
- The optimizers' own `evolute` and `clone_algo_obj` are not modelled. A run is an input that
  returns one (position, fitness) row per member.
- `init_sample` and DE's `GenIndv` are inputs (`sample`, `gen`). The integer, float and grid
  sampling and the "unknown data type" exception are not modelled.
- `ensure_consistency` returns at its first line, so it has no effect and is not modelled.
- Seeding (`random.seed`, `np.random.seed`) and `ncores` parallelism are not modelled. DE's
  process pool computes the same scores as the serial loop.
- DiffEvolution.EnsureBounds: requires the vector to be at least as long as the bounds. A
  shorter vector makes the source raise IndexError, but the generation loop only passes
  donors of full length.
- DiffEvolution.EnsureBounds: grid bounds are not modelled. Comparing a number with a grid
  tuple raises in Python; bounds here are numeric pairs.
- DiffEvolution.Evolute: requires ordered bounds, members with one component per variable,
  and valid sample draws. Reversed bounds lengthen the donor (`ReversedBoundLengthens`), and
  mismatched members make `ensure_bounds` or the crossover index out of range.
- The fitness wrappers (`fit_worker`, `fitcheck`) are not modelled. Fitness is a function
  input.
- Discrete.MutateDiscrete: the sigmoid rule's decision is a boolean input, because its
  probability needs `math.exp`. Only the forced case (x_min = x_max) is modelled exactly.
- Discrete.Decode: dictionary lookups accept an integer, or a float equal to an integer,
  as the key. Booleans used as keys are not modelled.
- The final ensemble-level `stop_criteria` is an input function of the cycle number. The
  source calls it with no arguments, so any state it consults is outside the model.

## Findings

| source | as written | input that shows it | evidently intended | confidence | as-written member | corrected member |
|---|---|---|---|---|---|---|
| neorl/hybrid/aeo.py:679 | `alpha` is logged every cycle, but only the migrating branch (line 662) assigns it. A tied first cycle therefore raises UnboundLocalError, and a later tied cycle logs the previous cycle's alpha. | Two populations whose first cycle ends with best fitnesses [0.5, 0.5]. Also any ensemble with a single population, which is always tied with itself. | alpha computed for the current cycle whether or not anybody migrates, as beta is at line 686. | high; not executed | Ensemble.ExportNumbersAsWritten (shown by Ensemble.TiedFirstCycleFails and Ensemble.LonePopulationFailsAsWritten) | Ensemble.ExportNumbers (related by Ensemble.CorrectionOnlyFillsTheGap) |
