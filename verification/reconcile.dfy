/** The whole reconciliation (quadprog_adjust, libflux.py:26-214, then rule_adjust as
    predict calls them at libflux.py:484-485): network rows and boundary rows are stacked,
    the objective is built, the QP goes to an external solver, and the rules override the
    acetate and lactate fluxes. The solver is a parameter: nothing is assumed about it. */
module Reconcile {
  import opened Domain
  import opened LinAlg
  import opened Network
  import opened Boundaries
  import opened Objective
  import opened Rules

  /** The arguments of cvxopt.solvers.qp(P, q, G, h, A, b): minimise 1/2 x^T P x + q^T x
      subject to G x <= h and A x = b. */
  datatype QP = QP(P: seq<FluxVector>, q: FluxVector, G: seq<FluxVector>, h: seq<real>,
                   A: seq<FluxVector>, b: seq<real>)

  /** What comes back from the solver: the point in Solv['x'], whatever the status
      reported beside it, or an exception. */
  datatype SolverOutcome = Solved(x: FluxVector) | Raised

  /** `numpy.vstack` of the base rows with the boundary rows, when there are any. */
  function Stack(base: seq<FluxVector>, baseRhs: seq<real>, extra: BoundaryRows): (seq<FluxVector>, seq<real>)
  {
    match extra
    case NoRows => (base, baseRhs)
    case Rows(a, b) => (base + a, baseRhs + b)
  }

  function BuildQP(s: Substrates, f: FluxVector, rows: BoundaryRows, scales: Option<FluxVector>): QP
  {
    var o := BuildObjective(f, scales);
    var (g, h) := Stack(IneqMatrix(s), IneqRhs(s), rows);
    QP(o.P, o.q, g, h, EqMatrix(), EqRhs(s))
  }

  /** quadprog_adjust: the boundary rows are built first, so a bad request fails before the
      solver runs; a solver exception propagates; otherwise the solver's point is returned. */
  function QuadprogAdjust(s: Substrates, f: FluxVector, d: BoundaryDict, scales: Option<FluxVector>,
                          solver: QP -> SolverOutcome): Result<FluxVector>
  {
    match BoundaryRowsOf(d)
    case Err(e) => Err(e)
    case Ok(rows) =>
      match solver(BuildQP(s, f, rows, scales))
      case Raised => Err(SolverFailure)
      case Solved(x) => Ok(x)
  }

  /** The reconciled fluxes: quadprog_adjust followed by rule_adjust. */
  function Reconcile(s: Substrates, f: FluxVector, d: BoundaryDict, scales: Option<FluxVector>,
                     solver: QP -> SolverOutcome): Result<FluxVector>
  {
    match QuadprogAdjust(s, f, d, scales, solver)
    case Err(e) => Err(e)
    case Ok(x) => Ok(RuleAdjusted(x, s))
  }

  /** Every row of G x <= h holds. */
  ghost predicate RowsHold(G: seq<FluxVector>, h: seq<real>, x: FluxVector) {
    |G| == |h| && forall i :: 0 <= i < |G| ==> Dot(G[i], x) <= h[i]
  }

  /** x satisfies every inequality and every equality of the QP. */
  ghost predicate Feasible(qp: QP, x: FluxVector) {
    && RowsHold(qp.G, qp.h, x)
    && |qp.A| == |qp.b|
    && (forall i :: 0 <= i < |qp.A| ==> Dot(qp.A[i], x) == qp.b[i])
  }

  /** What a request entry asks of x. */
  ghost predicate BoundHolds(t: BoundToken, v: real, x: FluxVector)
    requires BoundaryRow(t, v).Ok?
  {
    if t.prefix == "lb" then x[Column(t.fluxId).value] >= v
    else if t.prefix == "ub" then x[Column(t.fluxId).value] <= v
    else 0.0 <= v
  }

  /** Every entry of the request is well formed and asks something x gives. */
  ghost predicate BoundsHold(d: BoundaryDict, x: FluxVector) {
    forall i :: 0 <= i < |d| ==> BoundaryRow(d[i].0, d[i].1).Ok? && BoundHolds(d[i].0, d[i].1, x)
  }

  /** The system handed to the solver has the shape cvxopt expects: 12 base inequalities
      followed by one row per request, 10 equalities, a 29 x 29 P. */
  lemma QPDimensions(s: Substrates, f: FluxVector, d: BoundaryDict, scales: Option<FluxVector>)
    requires BoundaryRowsOf(d).Ok?
    ensures var qp := BuildQP(s, f, BoundaryRowsOf(d).value, scales);
      && |qp.G| == 12 + |d| && |qp.h| == 12 + |d|
      && qp.G[..12] == IneqMatrix(s) && qp.h[..12] == IneqRhs(s)
      && |qp.A| == 10 && |qp.b| == 10 && |qp.P| == FluxCount
  {
    CollectRowsSpec(d);
  }

  /** Stacking two systems: the stacked rows hold exactly when both parts do. */
  lemma StackedRowsHold(G1: seq<FluxVector>, h1: seq<real>, G2: seq<FluxVector>, h2: seq<real>, x: FluxVector)
    requires |G1| == |h1| && |G2| == |h2|
    ensures RowsHold(G1 + G2, h1 + h2, x) <==> RowsHold(G1, h1, x) && RowsHold(G2, h2, x)
  {
    if RowsHold(G1 + G2, h1 + h2, x) {
      forall i | 0 <= i < |G1| ensures Dot(G1[i], x) <= h1[i] {
        assert (G1 + G2)[i] == G1[i] && (h1 + h2)[i] == h1[i];
      }
      forall i | 0 <= i < |G2| ensures Dot(G2[i], x) <= h2[i] {
        assert (G1 + G2)[|G1| + i] == G2[i] && (h1 + h2)[|h1| + i] == h2[i];
      }
    }
    if RowsHold(G1, h1, x) && RowsHold(G2, h2, x) {
      forall i | 0 <= i < |G1 + G2| ensures Dot((G1 + G2)[i], x) <= (h1 + h2)[i] {
        if i >= |G1| {
          assert (G1 + G2)[i] == G2[i - |G1|] && (h1 + h2)[i] == h2[i - |G1|];
        }
      }
    }
  }

  /** The boundary rows hold exactly when every requested bound does. */
  lemma BoundaryRowsHold(d: BoundaryDict, x: FluxVector)
    requires CollectRows(d).Ok?
    ensures RowsHold(CollectRows(d).value.0, CollectRows(d).value.1, x) <==> BoundsHold(d, x)
  {
    CollectRowsSpec(d);
    forall i | 0 <= i < |d|
      ensures (Dot(CollectRows(d).value.0[i], x) <= CollectRows(d).value.1[i]) <==> BoundHolds(d[i].0, d[i].1, x)
    {
      BoundaryRowMeaning(d[i].0, d[i].1, x);
    }
  }

  /** Feasibility of the assembled QP means: the ten mass balances, the twelve base
      inequalities, and every requested bound. */
  lemma FeasibleIff(s: Substrates, f: FluxVector, d: BoundaryDict, scales: Option<FluxVector>, x: FluxVector)
    requires BoundaryRowsOf(d).Ok?
    ensures Feasible(BuildQP(s, f, BoundaryRowsOf(d).value, scales), x) <==>
      MassBalances(s, x) && RowsHold(IneqMatrix(s), IneqRhs(s), x) && BoundsHold(d, x)
  {
    MassBalancesHoldIff(s, x);
    if |d| > 0 {
      CollectRowsSpec(d);
      var (a, b) := CollectRows(d).value;
      StackedRowsHold(IneqMatrix(s), IneqRhs(s), a, b, x);
      BoundaryRowsHold(d, x);
    }
  }

  /** A feasible point respects every requested upper and lower bound on a flux 1..29. */
  lemma FeasibleRespectsBounds(s: Substrates, f: FluxVector, d: BoundaryDict, scales: Option<FluxVector>,
                               x: FluxVector, k: int, v: real)
    requires BoundaryRowsOf(d).Ok? && 1 <= k <= FluxCount
    ensures (Feasible(BuildQP(s, f, BoundaryRowsOf(d).value, scales), x) &&
             Get(d, BoundToken("ub", k)) == Some(v)) ==> Flux(x, k) <= v
    ensures (Feasible(BuildQP(s, f, BoundaryRowsOf(d).value, scales), x) &&
             Get(d, BoundToken("lb", k)) == Some(v)) ==> Flux(x, k) >= v
  {
    FeasibleIff(s, f, d, scales, x);
    if Get(d, BoundToken("ub", k)) == Some(v) {
      var i := GetIndex(d, BoundToken("ub", k));
    }
    if Get(d, BoundToken("lb", k)) == Some(v) {
      var i := GetIndex(d, BoundToken("lb", k));
    }
  }

  /** Where a present key sits in the dictionary. */
  lemma {:induction false} GetIndex(d: BoundaryDict, t: BoundToken) returns (i: nat)
    requires Get(d, t).Some?
    ensures i < |d| && d[i] == (t, Get(d, t).value)
    decreases |d|
  {
    if d[0].0 == t {
      i := 0;
    } else {
      var j := GetIndex(d[1..], t);
      i := j + 1;
    }
  }

  /** Equality 1 ties flux 1 to the glucose and galactose uptake. */
  lemma FeasibleFixesGlucoseUptake(s: Substrates, f: FluxVector, d: BoundaryDict, scales: Option<FluxVector>,
                                   x: FluxVector)
    requires BoundaryRowsOf(d).Ok?
    ensures Feasible(BuildQP(s, f, BoundaryRowsOf(d).value, scales), x) ==>
      Flux(x, 1) == 100.0 * (Ratio(s, Glucose) + Ratio(s, Galactose))
  {
    FeasibleIff(s, f, d, scales, x);
  }

  /** So with glucose as the only substrate an upper bound of 50 on flux 1 leaves the QP
      without any feasible point, whatever the solver then reports. */
  lemma GlucoseUpperBoundInfeasible(f: FluxVector, scales: Option<FluxVector>, x: FluxVector)
    ensures var s: Substrates := seq(SubstrateCount, k => if k == 0 then 1.0 else 0.0);
      var d := [(BoundToken("ub", 1), 50.0)];
      BoundaryRowsOf(d).Ok? && !Feasible(BuildQP(s, f, BoundaryRowsOf(d).value, scales), x)
  {
    var s: Substrates := seq(SubstrateCount, k => if k == 0 then 1.0 else 0.0);
    var d := [(BoundToken("ub", 1), 50.0)];
    CollectRowsSpec(d);
    FeasibleRespectsBounds(s, f, d, scales, x, 1, 50.0);
    FeasibleFixesGlucoseUptake(s, f, d, scales, x);
  }

  /** Rule precedence: whatever the solver returned, a nonzero acetate ratio r makes
      flux 9 exactly -100 r and a nonzero lactate ratio does the same for flux 27. */
  lemma ReconcileRulePrecedence(s: Substrates, f: FluxVector, d: BoundaryDict, scales: Option<FluxVector>,
                                solver: QP -> SolverOutcome)
    requires Reconcile(s, f, d, scales, solver).Ok?
    ensures var v := Reconcile(s, f, d, scales, solver).value;
      && (Ratio(s, Acetate) != 0.0 ==> Flux(v, 9) == -100.0 * Ratio(s, Acetate))
      && (Ratio(s, Lactate) != 0.0 ==> Flux(v, 27) == -100.0 * Ratio(s, Lactate))
  {
  }

  /** Errors are never masked and nothing partial is returned: a bad request fails before the
      solver is consulted, a solver exception fails the call, and a solved point comes back
      with only the rule-determined fluxes replaced. */
  lemma ReconcileOutcome(s: Substrates, f: FluxVector, d: BoundaryDict, scales: Option<FluxVector>,
                         solver: QP -> SolverOutcome)
    ensures BoundaryRowsOf(d).Err? ==> Reconcile(s, f, d, scales, solver) == Err(BoundaryRowsOf(d).error)
    ensures BoundaryRowsOf(d).Ok? && solver(BuildQP(s, f, BoundaryRowsOf(d).value, scales)).Raised? ==>
      Reconcile(s, f, d, scales, solver) == Err(SolverFailure)
    ensures BoundaryRowsOf(d).Ok? && solver(BuildQP(s, f, BoundaryRowsOf(d).value, scales)).Solved? ==>
      var x := solver(BuildQP(s, f, BoundaryRowsOf(d).value, scales)).x;
      && Reconcile(s, f, d, scales, solver).Ok?
      && forall k :: 1 <= k <= FluxCount && k != 9 && k != 27 ==>
           Flux(Reconcile(s, f, d, scales, solver).value, k) == Flux(x, k)
  {
    if BoundaryRowsOf(d).Ok? && solver(BuildQP(s, f, BoundaryRowsOf(d).value, scales)).Solved? {
      RuleAdjustedChangesOnlyOverrides(solver(BuildQP(s, f, BoundaryRowsOf(d).value, scales)).x, s);
    }
  }

  /** With no acetate the default request lb9 = 0 is present, so a feasible solver point
      yields a reconciled flux 9 that is not negative (no rule overrides it). */
  lemma NoAcetateFlux9NonNegative(s: Substrates, f: FluxVector, d: BoundaryDict, scales: Option<FluxVector>,
                                  solver: QP -> SolverOutcome)
    requires Ratio(s, Acetate) == 0.0 && Get(d, LowerBound9) == Some(0.0)
    requires BoundaryRowsOf(d).Ok?
    requires solver(BuildQP(s, f, BoundaryRowsOf(d).value, scales)).Solved?
    requires Feasible(BuildQP(s, f, BoundaryRowsOf(d).value, scales), solver(BuildQP(s, f, BoundaryRowsOf(d).value, scales)).x)
    ensures Reconcile(s, f, d, scales, solver).Ok? && Flux(Reconcile(s, f, d, scales, solver).value, 9) >= 0.0
  {
    var x := solver(BuildQP(s, f, BoundaryRowsOf(d).value, scales)).x;
    FeasibleRespectsBounds(s, f, d, scales, x, 9, 0.0);
    RuleAdjustedChangesOnlyOverrides(x, s);
  }

  /** x is a point the QP allows and no allowed point has a smaller objective. */
  ghost predicate Optimal(qp: QP, x: FluxVector)
    requires |qp.P| == FluxCount
  {
    Feasible(qp, x) &&
    forall y :: Feasible(qp, y) ==> ObjectiveValue(Objective(qp.P, qp.q), x) <= ObjectiveValue(Objective(qp.P, qp.q), y)
  }

  /** Reconciliation leaves a consistent prediction alone: when every flux has positive
      weight, the prediction already satisfies the network, the requested bounds and the
      rules, and the solver returns an optimal point, the result is the prediction itself. */
  lemma ReconcileIdempotentOnConsistent(s: Substrates, f: FluxVector, d: BoundaryDict, scales: Option<FluxVector>,
                                        solver: QP -> SolverOutcome)
    requires PositiveWeights(scales) && BoundaryRowsOf(d).Ok?
    requires Feasible(BuildQP(s, f, BoundaryRowsOf(d).value, scales), f) && SatisfiesRules(f, s)
    requires solver(BuildQP(s, f, BoundaryRowsOf(d).value, scales)).Solved?
    requires Optimal(BuildQP(s, f, BoundaryRowsOf(d).value, scales), solver(BuildQP(s, f, BoundaryRowsOf(d).value, scales)).x)
    ensures Reconcile(s, f, d, scales, solver) == Ok(f)
  {
    var qp := BuildQP(s, f, BoundaryRowsOf(d).value, scales);
    var x := solver(qp).x;
    assert Objective(qp.P, qp.q) == BuildObjective(f, scales);
    ObjectiveOrdersByDeviation(f, scales, x, f);
    DeviationSelfZero(scales, f, FluxCount);
    DeviationNonNegative(scales, x, f, FluxCount);
    DeviationZeroImpliesEqual(scales, x, f, FluxCount);
    assert x == x[..FluxCount] && f == f[..FluxCount];
    RuleAdjustedFixpoint(f, s);
  }

  /** The feasible set is convex: the midpoint of two feasible points is feasible. */
  lemma MidpointFeasible(qp: QP, x: FluxVector, y: FluxVector)
    requires Feasible(qp, x) && Feasible(qp, y)
    ensures Feasible(qp, Midpoint(x, y))
  {
    var m := Midpoint(x, y);
    forall i | 0 <= i < |qp.G| ensures Dot(qp.G[i], m) <= qp.h[i] {
      DotMidpoint(qp.G[i], x, y);
    }
    forall i | 0 <= i < |qp.A| ensures Dot(qp.A[i], m) == qp.b[i] {
      DotMidpoint(qp.A[i], x, y);
    }
  }

  /** With no zero scale factor the QP has at most one optimum: a feasible point that does
      no worse than an optimal one is that optimal point. */
  lemma OptimumUnique(s: Substrates, f: FluxVector, rows: BoundaryRows, scales: Option<FluxVector>,
                      x: FluxVector, y: FluxVector)
    requires PositiveWeights(scales)
    requires Optimal(BuildQP(s, f, rows, scales), x) && Feasible(BuildQP(s, f, rows, scales), y)
    requires ObjectiveValue(BuildObjective(f, scales), y) <= ObjectiveValue(BuildObjective(f, scales), x)
    ensures x == y
  {
    var qp := BuildQP(s, f, rows, scales);
    var o := BuildObjective(f, scales);
    assert Objective(qp.P, qp.q) == o;
    var m := Midpoint(x, y);
    MidpointFeasible(qp, x, y);
    assert ObjectiveValue(o, x) <= ObjectiveValue(o, m);
    ObjectiveOrdersByDeviation(f, scales, x, m);
    ObjectiveOrdersByDeviation(f, scales, y, x);
    MidpointDeviation(scales, x, y, f, FluxCount);
    DeviationNonNegative(scales, x, y, FluxCount);
    DeviationZeroImpliesEqual(scales, x, y, FluxCount);
    assert x == x[..FluxCount] && y == y[..FluxCount];
  }

  /** Lowering the value of an `ubK` request: the lowered request is as well formed as the
      original, a point meeting all lowered bounds meets all original ones, and a point
      meeting the original ones meets the lowered ones when its flux K is within the new
      value. */
  lemma LoweredUpperBound(d: BoundaryDict, i: nat, k: int, w: real, y: FluxVector)
    requires 1 <= k <= FluxCount && i < |d| && d[i].0 == BoundToken("ub", k) && w <= d[i].1
    ensures BoundsHold(d[i := (BoundToken("ub", k), w)], y) ==> BoundsHold(d, y) && Flux(y, k) <= w
    ensures BoundsHold(d, y) && Flux(y, k) <= w ==> BoundsHold(d[i := (BoundToken("ub", k), w)], y)
  {
    var d' := d[i := (BoundToken("ub", k), w)];
    assert Column(k).value == k - 1;
    if BoundsHold(d', y) {
      assert BoundHolds(d'[i].0, d'[i].1, y);
      forall j | 0 <= j < |d| ensures BoundaryRow(d[j].0, d[j].1).Ok? && BoundHolds(d[j].0, d[j].1, y) {
        if j != i {
          assert d'[j] == d[j];
        }
      }
    }
    if BoundsHold(d, y) && Flux(y, k) <= w {
      assert BoundaryRow(d[i].0, d[i].1).Ok?;
      forall j | 0 <= j < |d'| ensures BoundaryRow(d'[j].0, d'[j].1).Ok? && BoundHolds(d'[j].0, d'[j].1, y) {
        if j != i {
          assert d'[j] == d[j];
        }
      }
    }
  }

  /** Boundary monotonicity: with no zero scale factor, lowering the value of one `ubK`
      request never raises flux K in the optimum, and leaves the optimum unchanged when the
      old optimum already meets the lowered value. */
  lemma TighterUpperBoundLowersFlux(s: Substrates, f: FluxVector, d: BoundaryDict, scales: Option<FluxVector>,
                                    i: nat, k: int, w: real, rows: BoundaryRows, rows': BoundaryRows,
                                    x: FluxVector, x': FluxVector)
    requires PositiveWeights(scales) && 1 <= k <= FluxCount
    requires i < |d| && d[i].0 == BoundToken("ub", k) && w <= d[i].1
    requires BoundaryRowsOf(d) == Ok(rows) && BoundaryRowsOf(d[i := (BoundToken("ub", k), w)]) == Ok(rows')
    requires Optimal(BuildQP(s, f, rows, scales), x) && Optimal(BuildQP(s, f, rows', scales), x')
    ensures Flux(x', k) <= Flux(x, k)
    ensures Flux(x, k) <= w ==> x' == x
  {
    var d' := d[i := (BoundToken("ub", k), w)];
    var qp, qp' := BuildQP(s, f, rows, scales), BuildQP(s, f, rows', scales);
    var o := BuildObjective(f, scales);
    FeasibleIff(s, f, d, scales, x);
    FeasibleIff(s, f, d, scales, x');
    FeasibleIff(s, f, d', scales, x);
    FeasibleIff(s, f, d', scales, x');
    LoweredUpperBound(d, i, k, w, x);
    LoweredUpperBound(d, i, k, w, x');
    if Flux(x, k) <= w {
      assert Feasible(qp, x') && Feasible(qp', x);
      assert Objective(qp.P, qp.q) == o && Objective(qp'.P, qp'.q) == o;
      assert ObjectiveValue(o, x) <= ObjectiveValue(o, x');
      OptimumUnique(s, f, rows', scales, x', x);
    }
  }
}
