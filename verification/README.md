# MFlux flux reconciliation, modelled in Dafny

MFlux predicts the 29 central-carbon fluxes of a bacterium from its culture conditions with
one machine-learning regressor per flux, and then reconciles the predictions with the
metabolic network. The reconciliation in `libflux.py` is a quadratic program. Its objective
stays as close as possible to the prediction. Its constraints are twelve network inequalities
that depend on the substrates, ten mass balances, and the user's upper and lower flux bounds.
After the solve, two fluxes are overridden by rules.

This project models that reconciliation core:

- `Domain` (`domain.dfy`): the two index spaces. Fluxes are numbered 1..29 and substrates
  1..14. Flux and substrate vectors are fixed-length sequences of reals. The module also
  holds the exceptions the code can raise.
- `LinAlg` (`linalg.dfy`): dot products, negation and sums.
- `Network` (`network.dfy`): the inequality and equality matrices and their right-hand
  sides, from `quadprog_adjust`. Each row is written as the sequence of element assignments
  the source performs. The rows are densified, and the inequalities are negated from the
  paper's `>=` form into the solver's `<=` form. Lemmas relate every matrix row to an
  explicit linear expression over the fluxes.
- `Objective` (`objective.dfy`): `P` and `q`, without and with label scalers. They are
  proved to encode a weighted least-squares distance to the prediction.
- `Boundaries` (`boundaries.dfy`): the request dictionary and its insertion order, the
  default lower bounds for fluxes 9 and 27 from `process_boundaries`, and
  `populate_boundary_inequalities`.
- `Rules` (`rules.dfy`): `rule_adjust`.
- `SubstrateInput` (`substrates.dfy`): the 14-entry substrate map built in `process_input`.
- `Reconcile` (`reconcile.dfy`): the assembled QP and the whole pipeline as `predict` runs
  it, which is `quadprog_adjust` followed by `rule_adjust`. The solver
  (`cvxopt.solvers.qp`) is a parameter of type `QP -> SolverOutcome`, so every property of
  the pipeline holds for any solver.

Two behaviours of the code are kept as written:

- A request key with a prefix other than `lb`/`ub` is not rejected. The code prints
  "wrong boundary" and still appends an all-zero row with right-hand side `v`.
  `Boundaries.BoundaryRow` does the same, and `Boundaries.BoundaryRowMeaning` shows that
  such a row holds for every flux vector when `v >= 0` and for none when `v < 0`.
- Infeasibility is not a typed error. The code reads `Solv['x']` without looking at the
  solver's status. The model therefore returns whatever point the solver gives back, and
  fails only when the solver raises. `Reconcile.GlucoseUpperBoundInfeasible` shows that
  the docstring example of `quadprog_adjust` (libflux.py:78: glucose as the only
  substrate, request `{"ub1": 50}`) has no feasible point. What the code then returns is up
  to the solver.

## Model

| member | source | states |
|---|---|---|
| Network.IneqMatrix | libflux.py:102-124 | the base inequality matrix has 12 rows, each the negated, densified `>=`-form row |
| Network.IneqRhs | libflux.py:135-139 | the inequality right-hand sides are 12 entries, not negated |
| Network.EqMatrix | libflux.py:148-160 | the equality matrix has 10 rows and does not depend on the substrates |
| Network.EqRhs | libflux.py:163-172 | the equality right-hand sides are 10 entries, each 100 times substrate ratios |
| Network.PppActive | libflux.py:110-112 | no contract of its own: it is the source's row-5 condition, lactate + glutamate + acetate + citrate + pyruvate >= 0.5; Network.PppRowActivation states what it switches |
| Network.GeTerms | libflux.py:102-122 | the `>=`-form row i has at most five assignments and is empty exactly for row 5 with the switch off; Network.GeTermsWellFormed and Network.GeTermsMeaning give the assignments their meaning |
| Network.EqTerms | libflux.py:149-158 | equality row i has one to four assignments; Network.EqTermsWellFormed and Network.EqTermsMeaning give them their meaning |
| Network.GeTermsWellFormed | libflux.py:102-122 | each inequality row assigns a flux in 1..29 at most once, so densifying it loses nothing |
| Network.EqTermsWellFormed | libflux.py:149-158 | each equality row assigns a flux in 1..29 at most once |
| Network.DenseRowDot | libflux.py:102-122 | performing a row's element assignments on a zero row yields a row whose dot product with x is the sum of coefficient times flux |
| Network.GeTermsMeaning | libflux.py:103-122 | the assignments of inequality row i denote the paper's `>=`-form expression of row i |
| Network.EqTermsMeaning | libflux.py:149-158 | the assignments of equality row i denote mass balance i |
| Network.IneqRowMeaning | libflux.py:102-124 | row i of the solver's inequality matrix times x is minus the `>=`-form expression of row i (the negation at line 124) |
| Network.EqRowMeaning | libflux.py:148-160 | row i of the equality matrix times x is mass-balance expression i |
| Network.BaseInequalitiesHoldIff | libflux.py:102-139 | `Aineq x <= bineq` holds exactly when the twelve written-out inequalities hold, e.g. -x1 + x2 + x10 <= 0 and -x2 + x3 - 2 x16 <= 100 fructose |
| Network.MassBalancesFromRows | libflux.py:148-172 | `Aeq x = beq` implies the ten written-out mass balances |
| Network.RowsFromMassBalances | libflux.py:148-172 | the ten written-out mass balances imply `Aeq x = beq` |
| Network.MassBalancesHoldIff | libflux.py:148-172 | `Aeq x = beq` holds exactly when the ten mass balances hold, e.g. x1 = 100 (glucose + galactose) |
| Network.PppRowActivation | libflux.py:110-113 | inequality row 5 is all zero exactly when lactate + glutamate + acetate + citrate + pyruvate < 0.5; otherwise it is -1 at flux 6, +1 at flux 7 and flux 28, zero elsewhere; its right-hand side is always 0 |
| Network.StructureIndependentOfSubstrates | libflux.py:102-122 | every inequality row other than row 5 is the same for all substrate maps, and the whole matrix is the same when the row-5 switch agrees |
| Objective.BuildObjective | libflux.py:174-188 | the objective has 29 rows of `P` |
| Objective.ObjectiveShape | libflux.py:174-184 | without scalers P is the identity and q = -f; with scale factors s, P = diag(s²) and q = -s²·f |
| Objective.ObjectiveIsWeightedDeviation | libflux.py:174-188 | ½xᵀPx + qᵀx equals half the weighted squared distance from x to the prediction, minus the same for the zero vector |
| Objective.ObjectiveOrdersByDeviation | libflux.py:174-188 | the solver prefers x to y exactly when x is closer to the prediction in the weighted distance |
| Objective.ObjectiveConvex | libflux.py:174-188 | P is positive semi-definite, and the prediction has the least objective value of all flux vectors |
| Objective.QuadFormIsWeightedSquares | libflux.py:175-178 | xᵀPx is the weighted sum of squares of x |
| Objective.DeviationNonNegative | libflux.py:174-179 | the weighted squared distance is never negative |
| Objective.DeviationZeroImpliesEqual | libflux.py:174-179 | with no zero scale factor, the weighted distance is zero only at the prediction itself |
| Objective.MidpointDeviation | libflux.py:174-179 | at the midpoint of x and y the weighted distance is the average of the two distances minus a quarter of the weighted distance between x and y (strict convexity) |
| Boundaries.PutGet | libflux.py:331-333 | dict assignment: the key now maps to the value, other keys keep theirs, keys stay distinct |
| Boundaries.PutPositions | libflux.py:331-333 | dict assignment keeps existing entries in place and appends a new key at the end |
| Boundaries.PutAppendsOrOverwrites | libflux.py:331-333 | dict assignment of a new key appends exactly that entry; other keys' entries stay where they were |
| Boundaries.DefaultLowerBounds | libflux.py:330-333 | lb9 is 0 when acetate is 0 and lb27 is 0 when lactate is 0, overwriting a user bound; every other request is unchanged; existing entries keep their order, and the new defaults follow them, lb9 before lb27 |
| Boundaries.Column | libflux.py:275-277 | `Row_vector[Flux_ID-1]` is a valid position exactly for Flux_ID in -28..29, counting negative positions from the end; otherwise IndexError |
| Boundaries.BoundaryRowMeaning | libflux.py:271-281 | an `ubK` row holds exactly when x_K <= v, an `lbK` row exactly when x_K >= v, an unknown prefix's row exactly when 0 <= v |
| Boundaries.BoundaryRow | libflux.py:271-281 | one entry's row fails exactly when its prefix is `lb`/`ub` and its flux number is outside -28..29, with IndexError(Flux_ID - 1); the right-hand side is -v for `lb` and v otherwise |
| Boundaries.CollectRows | libflux.py:268-281 | on success one row and one right-hand side per entry; an error is the error of some entry's row |
| Boundaries.BoundaryRowsOf | libflux.py:265-285 | an error exactly when the row loop fails; on success no rows exactly for an empty dict, otherwise one row and one right-hand side per entry |
| Boundaries.CollectRowsErrPersists | libflux.py:270-281 | once an entry raises, the whole loop raises that error |
| Boundaries.CollectRowsSpec | libflux.py:268-285 | one 29-column row and one right-hand side per entry, in dictionary order, each the entry's own row; an error exactly when some `lb`/`ub` entry names a flux outside -28..29 |
| Boundaries.PopulateBoundaryInequalities | libflux.py:255-293 | the loop returns no rows for an empty dict and otherwise the rows of CollectRowsSpec |
| Rules.RuleAdjusted | libflux.py:414-417 | the result obeys both rules: flux 9 = -100 acetate when acetate is nonzero, flux 27 = -100 lactate when lactate is nonzero |
| Rules.RuleAdjustedChangesOnlyOverrides | libflux.py:414-419 | every other flux, and flux 9 or 27 when its ratio is zero, is unchanged |
| Rules.RuleAdjustedFixpoint | libflux.py:414-419 | a vector is unchanged exactly when it obeys the rules; applying the rules twice equals applying them once |
| Rules.RuleAdjust | libflux.py:395-419 | the in-place update leaves the array equal to RuleAdjusted of its old contents |
| SubstrateInput.SubstratesFromInput | libflux.py:366-368 | KeyError for the first index outside 1..14, then for the second; otherwise each substrate holds the ratios added to it (both when the indices coincide) and the ratios sum to ratio_first + ratio_sec |
| Reconcile.Stack | libflux.py:128-145 | no contract of its own: `numpy.vstack` of base and boundary rows; Reconcile.StackedRowsHold and Reconcile.QPDimensions state what stacking keeps |
| Reconcile.BuildQP | libflux.py:128-190 | no contract of its own: the six arguments handed to `cvxopt.solvers.qp`; Reconcile.QPDimensions and Reconcile.FeasibleIff state what they mean |
| Reconcile.QuadprogAdjust | libflux.py:100-198 | no contract of its own: boundary rows first, then the solver; Reconcile.ReconcileOutcome states its error paths and result |
| Reconcile.Reconcile | libflux.py:484-485 | no contract of its own: `quadprog_adjust` then `rule_adjust`; Reconcile.ReconcileOutcome and Reconcile.ReconcileRulePrecedence state what it returns |
| Reconcile.QPDimensions | libflux.py:100-172 | the solver receives 12 + n inequality rows (the base rows first) for n requests, 10 equalities and a 29-row P |
| Reconcile.StackedRowsHold | libflux.py:129-146 | the stacked system holds exactly when both parts hold |
| Reconcile.BoundaryRowsHold | libflux.py:255-293 | the boundary rows hold exactly when every requested bound holds |
| Reconcile.FeasibleIff | libflux.py:100-172 | a point is feasible for the assembled QP exactly when it satisfies the mass balances, the base inequalities and every requested bound |
| Reconcile.FeasibleRespectsBounds | libflux.py:129-146 | a feasible point respects every `ubK` and `lbK` request for K in 1..29 |
| Reconcile.FeasibleFixesGlucoseUptake | libflux.py:149-164 | every feasible point has flux 1 = 100 (glucose + galactose) |
| Reconcile.GlucoseUpperBoundInfeasible | libflux.py:100-172 | with glucose as the only substrate and the request ub1 = 50, no flux vector is feasible |
| Reconcile.ReconcileRulePrecedence | libflux.py:484-485 | for any solver, a nonzero acetate or lactate ratio fixes flux 9 or flux 27 in the result |
| Reconcile.ReconcileOutcome | libflux.py:100-198 | a bad request fails before the solver is consulted, a solver exception fails the call, and otherwise the solver's point comes back with only fluxes 9 and 27 possibly replaced |
| Reconcile.NoAcetateFlux9NonNegative | libflux.py:330-331 | with no acetate and the default lb9 = 0 in the request, a feasible solver point gives a final flux 9 >= 0 |
| Reconcile.ReconcileIdempotentOnConsistent | libflux.py:174-198 | with no zero scale factor, a prediction that already satisfies network, bounds and rules comes back unchanged from an optimal solver |
| Reconcile.MidpointFeasible | libflux.py:100-172 | the feasible set of the assembled QP is convex: the midpoint of two feasible points is feasible |
| Reconcile.OptimumUnique | libflux.py:174-190 | with no zero scale factor the QP has at most one optimum: a feasible point no worse than an optimal one is that point |
| Reconcile.LoweredUpperBound | libflux.py:271-281 | lowering the value of one `ubK` request keeps every entry well formed; the lowered bounds imply the original ones and x_K <= the new value, and the original ones with x_K <= the new value imply the lowered ones |
| Reconcile.TighterUpperBoundLowersFlux | libflux.py:100-198 | with no zero scale factor, lowering one `ubK` request never raises flux K in the optimum, and leaves the optimum unchanged when the old optimum already meets the new value |

## Left out

- The request keys are held already split into prefix and number. The string slicing
  `Polarity_Id[:2]`, `int(Polarity_Id[2:])` and its ValueError are not modelled.
- A missing key in the flux or substrate dictionaries (KeyError in `quadprog_adjust` or
  `rule_adjust`) cannot occur. Vectors have a fixed length of 29 or 14, so every key is
  present.
- `int()` truncation of the substrate indices in `process_input`: the indices are integers
  already.
- Floating point: all values are exact reals. The 0.5 threshold of the row-5 switch and the
  `!= 0` tests of the rules are compared exactly.
- The solver's internals: tolerances, convergence and the status it reports beside its
  point are not modelled. The code never reads that status.
- The unused `Ubs`/`Lbs` arrays, the Debug table and `pushLastWords` output.
- `predict`, `print_influxes`, `special_species` and `test`. These cover pickle loading,
  sklearn encoding and inference, timing, and HTML output.
- The CGI field extraction, `html.escape` and `float()` parsing in `process_boundaries`,
  and the `clp` species check in `process_input`. These are request I/O and an external
  module. `clp` is not part of this model.
- The printed "wrong boundary" message.
- The conversion of the solution array to a dictionary keyed 1..29. The model keeps the
  vector.
- Reconcile.QuadprogAdjust, Reconcile.Reconcile: the solver's answer is taken as given. No
  optimality is assumed, except in Reconcile.ReconcileIdempotentOnConsistent,
  Reconcile.OptimumUnique and Reconcile.TighterUpperBoundLowersFlux, which state optimality
  as a hypothesis. Existence of an optimum is not modelled.
