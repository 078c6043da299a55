/** The QP objective anchoring the solution to the ML prediction (libflux.py:174-188):
    minimize 1/2 x^T P x + q^T x with P diagonal. */
module Objective {
  import opened Domain
  import opened LinAlg

  datatype Objective = Objective(P: seq<FluxVector>, q: FluxVector)

  /** Weight of flux j (0-based): 1 without label scalers, the squared scale factor of
      Label_scalers[j + 1] with them. */
  function Weight(scales: Option<FluxVector>, j: nat): real
    requires j < FluxCount
  {
    match scales
    case None => 1.0
    case Some(s) => s[j] * s[j]
  }

  /** P = diag(w) (the identity without scalers, diag(s^2) with them), q = -w * f. */
  function BuildObjective(f: FluxVector, scales: Option<FluxVector>): (o: Objective)
    ensures |o.P| == FluxCount
  {
    Objective(
      seq(FluxCount, i requires 0 <= i < FluxCount =>
        var row: FluxVector := ZeroRow()[i := Weight(scales, i)]; row),
      seq(FluxCount, i requires 0 <= i < FluxCount => -(Weight(scales, i) * f[i])))
  }

  /** The objective as cvxopt receives it: without scalers P is the identity and q is the
      negated prediction; with scale factors s, P = diag(s^2) and q = -s^2 * prediction. */
  lemma ObjectiveShape(f: FluxVector, scales: Option<FluxVector>)
    ensures var o := BuildObjective(f, scales);
      scales.None? ==>
        (forall i, j :: 0 <= i < FluxCount && 0 <= j < FluxCount ==>
          o.P[i][j] == if i == j then 1.0 else 0.0) &&
        (forall i :: 0 <= i < FluxCount ==> o.q[i] == -f[i])
    ensures var o := BuildObjective(f, scales);
      scales.Some? ==>
        (forall i, j :: 0 <= i < FluxCount && 0 <= j < FluxCount ==>
          o.P[i][j] == if i == j then scales.value[i] * scales.value[i] else 0.0) &&
        (forall i :: 0 <= i < FluxCount ==> o.q[i] == -(scales.value[i] * scales.value[i] * f[i]))
  {
  }

  /** x^T P x over the first n rows. */
  function QuadForm(P: seq<FluxVector>, x: FluxVector, n: nat): real
    requires n <= |P| && n <= FluxCount
  {
    if n == 0 then 0.0 else QuadForm(P, x, n - 1) + x[n - 1] * Dot(P[n - 1], x)
  }

  /** 1/2 x^T P x + q^T x, the quantity cvxopt.solvers.qp minimises. */
  function ObjectiveValue(o: Objective, x: FluxVector): real
    requires |o.P| == FluxCount
  {
    0.5 * QuadForm(o.P, x, FluxCount) + Dot(o.q, x)
  }

  /** Weighted squared deviation of x from the prediction f over the first n fluxes. */
  function Deviation(scales: Option<FluxVector>, x: FluxVector, f: FluxVector, n: nat): real
    requires n <= FluxCount
  {
    if n == 0 then 0.0
    else Deviation(scales, x, f, n - 1) + Weight(scales, n - 1) * (x[n - 1] - f[n - 1]) * (x[n - 1] - f[n - 1])
  }

  lemma WeightNonNegative(scales: Option<FluxVector>, j: nat)
    requires j < FluxCount
    ensures Weight(scales, j) >= 0.0
  {
    if scales.Some? {
      var s := scales.value[j];
      assert s * s >= 0.0 by {
        if s < 0.0 { assert s * s == (-s) * (-s); }
      }
    }
  }

  /** How far the objective over the first n fluxes is from half the deviation difference. */
  ghost function Gap(f: FluxVector, scales: Option<FluxVector>, x: FluxVector, n: nat): real
    requires n <= FluxCount
  {
    var o := BuildObjective(f, scales);
    0.5 * QuadForm(o.P, x, n) + Dot(o.q[..n], x[..n]) -
    0.5 * (Deviation(scales, x, f, n) - Deviation(scales, ZeroRow(), f, n))
  }

  lemma GapStep(f: FluxVector, scales: Option<FluxVector>, x: FluxVector, n: nat)
    requires 0 < n <= FluxCount
    ensures Gap(f, scales, x, n) == Gap(f, scales, x, n - 1)
  {
    var o := BuildObjective(f, scales);
    var i := n - 1;
    assert o.q[..n][..i] == o.q[..i] && x[..n][..i] == x[..i];
    FluxContribution(f, scales, x, i);
  }

  lemma {:induction false} GapZero(f: FluxVector, scales: Option<FluxVector>, x: FluxVector, n: nat)
    requires n <= FluxCount
    ensures Gap(f, scales, x, n) == 0.0
  {
    if n > 0 {
      GapZero(f, scales, x, n - 1);
      GapStep(f, scales, x, n);
    }
  }

  /** One flux's share of the objective equals its share of the deviation. */
  lemma FluxContribution(f: FluxVector, scales: Option<FluxVector>, x: FluxVector, i: nat)
    requires i < FluxCount
    ensures var o := BuildObjective(f, scales);
      0.5 * (x[i] * Dot(o.P[i], x)) + o.q[i] * x[i] ==
      0.5 * (Weight(scales, i) * (x[i] - f[i]) * (x[i] - f[i]) -
             Weight(scales, i) * (ZeroRow()[i] - f[i]) * (ZeroRow()[i] - f[i]))
  {
    var o := BuildObjective(f, scales);
    var w := Weight(scales, i);
    assert o.P[i] == ZeroRow()[i := w];
    DotUnit(i, w, x);
    assert o.q[i] == -(w * f[i]);
    assert ZeroRow()[i] == 0.0;
    TermIdentity(w, x[i], f[i]);
  }

  lemma TermIdentity(w: real, xi: real, fi: real)
    ensures 0.5 * (xi * (w * xi)) + -(w * fi) * xi ==
      0.5 * (w * (xi - fi) * (xi - fi) - w * (0.0 - fi) * (0.0 - fi))
  {
    calc {
      w * (xi - fi) * (xi - fi) - w * (0.0 - fi) * (0.0 - fi);
      w * (xi * xi - 2.0 * xi * fi + fi * fi) - w * (fi * fi);
      w * (xi * xi) - 2.0 * (w * fi) * xi;
    }
  }

  /** The objective is the weighted least-squares distance to the prediction, up to a
      constant: 1/2 x^T P x + q^T x = 1/2 sum w_i (x_i - f_i)^2 - 1/2 sum w_i f_i^2. */
  lemma ObjectiveIsWeightedDeviation(f: FluxVector, scales: Option<FluxVector>, x: FluxVector)
    ensures ObjectiveValue(BuildObjective(f, scales), x) ==
      0.5 * (Deviation(scales, x, f, FluxCount) - Deviation(scales, ZeroRow(), f, FluxCount))
  {
    var o := BuildObjective(f, scales);
    GapZero(f, scales, x, FluxCount);
    assert o.q[..FluxCount] == o.q && x[..FluxCount] == x;
  }

  /** So the QP prefers x to y exactly when x deviates less from the prediction. */
  lemma ObjectiveOrdersByDeviation(f: FluxVector, scales: Option<FluxVector>, x: FluxVector, y: FluxVector)
    ensures ObjectiveValue(BuildObjective(f, scales), x) <= ObjectiveValue(BuildObjective(f, scales), y)
      <==> Deviation(scales, x, f, FluxCount) <= Deviation(scales, y, f, FluxCount)
  {
    ObjectiveIsWeightedDeviation(f, scales, x);
    ObjectiveIsWeightedDeviation(f, scales, y);
  }

  lemma {:induction false} DeviationNonNegative(scales: Option<FluxVector>, x: FluxVector, f: FluxVector, n: nat)
    requires n <= FluxCount
    ensures Deviation(scales, x, f, n) >= 0.0
  {
    if n > 0 {
      DeviationNonNegative(scales, x, f, n - 1);
      WeightNonNegative(scales, n - 1);
      var d := x[n - 1] - f[n - 1];
      assert d * d >= 0.0 by {
        if d < 0.0 { assert d * d == (-d) * (-d); }
      }
      assert Weight(scales, n - 1) * d * d == Weight(scales, n - 1) * (d * d);
    }
  }

  /** P is positive semi-definite, so the QP handed to the solver is convex; and the
      prediction itself has the least objective value of all flux vectors. */
  lemma ObjectiveConvex(f: FluxVector, scales: Option<FluxVector>, x: FluxVector)
    ensures QuadForm(BuildObjective(f, scales).P, x, FluxCount) >= 0.0
    ensures ObjectiveValue(BuildObjective(f, scales), f) <= ObjectiveValue(BuildObjective(f, scales), x)
  {
    ObjectiveIsWeightedDeviation(f, scales, x);
    ObjectiveIsWeightedDeviation(f, scales, f);
    DeviationNonNegative(scales, x, f, FluxCount);
    DeviationSelfZero(scales, f, FluxCount);
    QuadFormIsWeightedSquares(f, scales, x, FluxCount);
    DeviationNonNegative(scales, x, ZeroRow(), FluxCount);
  }

  lemma {:induction false} QuadFormIsWeightedSquares(f: FluxVector, scales: Option<FluxVector>, x: FluxVector, n: nat)
    requires n <= FluxCount
    ensures QuadForm(BuildObjective(f, scales).P, x, n) == Deviation(scales, x, ZeroRow(), n)
  {
    if n > 0 {
      QuadFormIsWeightedSquares(f, scales, x, n - 1);
      var i := n - 1;
      var w := Weight(scales, i);
      DotUnit(i, w, x);
      assert BuildObjective(f, scales).P[i] == ZeroRow()[i := w];
      assert ZeroRow()[i] == 0.0;
      assert x[i] * (w * x[i]) == w * (x[i] - 0.0) * (x[i] - 0.0);
    }
  }

  lemma {:induction false} DeviationSelfZero(scales: Option<FluxVector>, f: FluxVector, n: nat)
    requires n <= FluxCount
    ensures Deviation(scales, f, f, n) == 0.0
  {
    if n > 0 {
      DeviationSelfZero(scales, f, n - 1);
    }
  }

  /** Every flux carries a positive weight: no scalers, or no zero scale factor. */
  predicate PositiveWeights(scales: Option<FluxVector>) {
    scales.None? || forall j :: 0 <= j < FluxCount ==> scales.value[j] != 0.0
  }

  /** With positive weights the deviation vanishes only at the prediction itself, so the
      prediction is the unique minimiser of the objective. */
  lemma {:induction false} DeviationZeroImpliesEqual(scales: Option<FluxVector>, x: FluxVector, f: FluxVector, n: nat)
    requires n <= FluxCount && PositiveWeights(scales)
    requires Deviation(scales, x, f, n) == 0.0
    ensures x[..n] == f[..n]
  {
    if n > 0 {
      var i := n - 1;
      DeviationNonNegative(scales, x, f, i);
      var d := x[i] - f[i];
      WeightedSquarePositive(scales, i, d);
      assert Deviation(scales, x, f, n) == Deviation(scales, x, f, i) + Weight(scales, i) * d * d;
      assert d == 0.0;
      DeviationZeroImpliesEqual(scales, x, f, i);
      assert x[..n] == x[..i] + [x[i]] && f[..n] == f[..i] + [f[i]];
    }
  }

  /** `r > 0`, kept as a named predicate so that the solver matches a positive product as
      one term instead of rewriting it. */
  predicate Positive(r: real) {
    r > 0.0
  }

  lemma SquarePositive(c: real)
    requires c != 0.0
    ensures Positive(c * c)
  {
    if c < 0.0 {
      assert (-c) * (-c) == c * c;
      assert (-c) * (-c) > 0.0;
    } else {
      assert c * c > 0.0;
    }
  }

  lemma WeightPositive(scales: Option<FluxVector>, j: nat)
    requires j < FluxCount && PositiveWeights(scales)
    ensures Weight(scales, j) > 0.0
  {
    if scales.Some? {
      var c := scales.value[j];
      SquarePositive(c);
      assert Weight(scales, j) == c * c;
      assert Positive(Weight(scales, j));
    }
  }

  /** A nonzero deviation of a positively weighted flux costs something. */
  lemma WeightedSquarePositive(scales: Option<FluxVector>, j: nat, d: real)
    requires j < FluxCount && PositiveWeights(scales)
    ensures d != 0.0 ==> Positive(Weight(scales, j) * d * d)
  {
    var w := Weight(scales, j);
    WeightPositive(scales, j);
    if d != 0.0 {
      SquarePositive(d);
      assert w * (d * d) > 0.0;
      assert w * d * d == w * (d * d);
    }
  }

  /** One weighted square at the midpoint of a and b: the average of the two squares minus
      a quarter of the square of their distance. */
  lemma MidpointSquare(w: real, a: real, b: real, c: real, mid: real)
    requires mid == 0.5 * (a + b)
    ensures w * (mid - c) * (mid - c) ==
      0.5 * (w * (a - c) * (a - c)) + 0.5 * (w * (b - c) * (b - c)) - 0.25 * (w * (a - b) * (a - b))
  {
    var p := a - c;
    var q := b - c;
    assert mid - c == 0.5 * (p + q);
    assert a - b == p - q;
    assert (0.5 * (p + q)) * (0.5 * (p + q)) == 0.25 * (p * p) + 0.5 * (p * q) + 0.25 * (q * q);
    assert (p - q) * (p - q) == p * p - 2.0 * (p * q) + q * q;
    assert w * (0.5 * (p + q)) * (0.5 * (p + q)) == w * ((0.5 * (p + q)) * (0.5 * (p + q)));
    assert w * p * p == w * (p * p);
    assert w * q * q == w * (q * q);
    assert w * (p - q) * (p - q) == w * ((p - q) * (p - q));
  }

  /** The weighted deviation is strictly convex along segments: at the midpoint of x and y
      it is the average of the two deviations minus a quarter of the weighted distance
      between x and y. */
  lemma {:induction false} MidpointDeviation(scales: Option<FluxVector>, x: FluxVector, y: FluxVector, f: FluxVector, n: nat)
    requires n <= FluxCount
    ensures Deviation(scales, Midpoint(x, y), f, n) ==
      0.5 * Deviation(scales, x, f, n) + 0.5 * Deviation(scales, y, f, n) - 0.25 * Deviation(scales, x, y, n)
  {
    if n > 0 {
      MidpointDeviation(scales, x, y, f, n - 1);
      MidpointStep(scales, x, y, Midpoint(x, y), f, n);
    }
  }

  /** The midpoint identity gains the same amount on both sides when flux n is added, m
      being halfway between x and y at that flux. */
  lemma MidpointStep(scales: Option<FluxVector>, x: FluxVector, y: FluxVector, m: FluxVector, f: FluxVector, n: nat)
    requires 0 < n <= FluxCount && m[n - 1] == 0.5 * (x[n - 1] + y[n - 1])
    ensures Deviation(scales, m, f, n) - (0.5 * Deviation(scales, x, f, n) + 0.5 * Deviation(scales, y, f, n) - 0.25 * Deviation(scales, x, y, n)) ==
      Deviation(scales, m, f, n - 1) - (0.5 * Deviation(scales, x, f, n - 1) + 0.5 * Deviation(scales, y, f, n - 1) - 0.25 * Deviation(scales, x, y, n - 1))
  {
    var i, w := n - 1, Weight(scales, n - 1);
    MidpointSquare(w, x[i], y[i], f[i], m[i]);
    DeviationUnfold(scales, m, f, n);
    DeviationUnfold(scales, x, f, n);
    DeviationUnfold(scales, y, f, n);
    DeviationUnfold(scales, x, y, n);
    StepDifference(Deviation(scales, m, f, n), Deviation(scales, m, f, i), w * (m[i] - f[i]) * (m[i] - f[i]),
                   Deviation(scales, x, f, n), Deviation(scales, x, f, i), w * (x[i] - f[i]) * (x[i] - f[i]),
                   Deviation(scales, y, f, n), Deviation(scales, y, f, i), w * (y[i] - f[i]) * (y[i] - f[i]),
                   Deviation(scales, x, y, n), Deviation(scales, x, y, i), w * (x[i] - y[i]) * (x[i] - y[i]));
  }

  lemma DeviationUnfold(scales: Option<FluxVector>, x: FluxVector, f: FluxVector, n: nat)
    requires 0 < n <= FluxCount
    ensures Deviation(scales, x, f, n) ==
      Deviation(scales, x, f, n - 1) + Weight(scales, n - 1) * (x[n - 1] - f[n - 1]) * (x[n - 1] - f[n - 1])
  {
  }

  /** Linear bookkeeping for MidpointStep: four sums that each grow by one term, the terms
      themselves related by the midpoint identity. */
  lemma StepDifference(m1: real, m0: real, tm: real, x1: real, x0: real, tx: real,
                       y1: real, y0: real, ty: real, z1: real, z0: real, tz: real)
    requires m1 == m0 + tm && x1 == x0 + tx && y1 == y0 + ty && z1 == z0 + tz
    requires tm == 0.5 * tx + 0.5 * ty - 0.25 * tz
    ensures m1 - (0.5 * x1 + 0.5 * y1 - 0.25 * z1) == m0 - (0.5 * x0 + 0.5 * y0 - 0.25 * z0)
  {
  }
}
