/** The fixed metabolic-network constraints handed to the QP solver (libflux.py:102-172):
    12 base inequalities whose coefficients are written in the paper's ">=" form and then
    negated into the solver's "<=" form, and 10 mass-balance equalities. Only the
    right-hand sides, and whether inequality 5 is populated, depend on the substrates. */
module Network {
  import opened Domain
  import opened LinAlg

  /** One element assignment `M[row, flux] = coef` of the source's zero-initialised matrix. */
  datatype Term = Term(flux: nat, coef: real)

  ghost predicate InRange(ts: seq<Term>) {
    forall i :: 0 <= i < |ts| ==> 1 <= ts[i].flux <= FluxCount
  }

  /** Every flux is assigned at most once in a row, and inside the row. */
  ghost predicate WellFormed(ts: seq<Term>) {
    InRange(ts) && forall i, j :: 0 <= i < j < |ts| ==> ts[i].flux != ts[j].flux
  }

  /** The row obtained by performing the assignments, in order, on a zero row; flux k
      lands at position k - 1 (the source's "+1 then slice" padding removed). */
  function DenseRow(ts: seq<Term>): (r: FluxVector)
    requires InRange(ts)
    decreases |ts|
  {
    if |ts| == 0 then ZeroRow()
    else DenseRow(ts[..|ts| - 1])[ts[|ts| - 1].flux - 1 := ts[|ts| - 1].coef]
  }

  /** The linear form the terms denote: the sum of coef * x[flux]. */
  function SparseDot(ts: seq<Term>, x: FluxVector): real
    requires InRange(ts)
    decreases |ts|
  {
    if |ts| == 0 then 0.0
    else SparseDot(ts[..|ts| - 1], x) + ts[|ts| - 1].coef * Flux(x, ts[|ts| - 1].flux)
  }

  lemma {:induction false} DenseRowUnassigned(ts: seq<Term>, k: nat)
    requires InRange(ts) && k < FluxCount
    requires forall i :: 0 <= i < |ts| ==> ts[i].flux != k + 1
    ensures DenseRow(ts)[k] == 0.0
    decreases |ts|
  {
    if |ts| > 0 {
      DenseRowUnassigned(ts[..|ts| - 1], k);
    }
  }

  /** Densifying a well-formed row does not change the linear form it denotes. */
  lemma {:induction false} DenseRowDot(ts: seq<Term>, x: FluxVector)
    requires WellFormed(ts)
    ensures Dot(DenseRow(ts), x) == SparseDot(ts, x)
    decreases |ts|
  {
    if |ts| == 0 {
      DotZero(ZeroRow(), x);
    } else {
      var p, t := ts[..|ts| - 1], ts[|ts| - 1];
      assert WellFormed(p) by {
        assert forall i :: 0 <= i < |p| ==> p[i] == ts[i];
      }
      assert forall i :: 0 <= i < |p| ==> p[i].flux != t.flux by {
        assert forall i :: 0 <= i < |p| ==> p[i] == ts[i];
      }
      DenseRowDot(p, x);
      DenseRowUnassigned(p, t.flux - 1);
      DotUpdate(DenseRow(p), x, t.flux - 1, t.coef);
      assert DenseRow(ts) == DenseRow(p)[t.flux - 1 := t.coef];
      assert SparseDot(ts, x) == SparseDot(p, x) + t.coef * x[t.flux - 1];
    }
  }

  /** Inequality row 5 (pentose phosphate pathway) is populated only when the ratios of
      lactate, glutamate, acetate, citrate and pyruvate add up to at least one half. */
  predicate PppActive(s: Substrates) {
    Ratio(s, Lactate) + Ratio(s, Glutamate) + Ratio(s, Acetate) + Ratio(s, Citrate) + Ratio(s, Pyruvate) >= 0.5
  }

  /** Assignments into row i (1..12) of the ">="-form inequality matrix, in source order. */
  function GeTerms(i: nat, pppActive: bool): (ts: seq<Term>)
    requires 1 <= i <= 12
    ensures |ts| <= 5
    ensures ts == [] <==> i == 5 && !pppActive
  {
    if i == 1 then [Term(1, 1.0), Term(2, -1.0), Term(10, -1.0)]
    else if i == 2 then [Term(2, 1.0), Term(3, -1.0), Term(16, 2.0)]
    else if i == 3 then [Term(3, 1.0), Term(4, 1.0), Term(5, -1.0), Term(14, 1.0), Term(25, 1.0)]
    else if i == 4 then [Term(5, 1.0), Term(6, -1.0)]
    else if i == 5 then (if pppActive then [Term(6, 1.0), Term(7, -1.0), Term(28, -1.0)] else [])
    else if i == 6 then [Term(7, 1.0), Term(8, -1.0), Term(25, 1.0), Term(27, -1.0), Term(29, 1.0)]
    else if i == 7 then [Term(8, 1.0), Term(9, -1.0), Term(17, -1.0), Term(24, -1.0), Term(26, -1.0)]
    else if i == 8 then [Term(13, 1.0), Term(14, -1.0)]
    else if i == 9 then [Term(16, 1.0), Term(15, -1.0)]
    else if i == 10 then [Term(19, 1.0), Term(20, -1.0)]
    else if i == 11 then [Term(23, 1.0), Term(17, -1.0), Term(28, 1.0)]
    else [Term(21, -1.0), Term(22, 1.0)]
  }

  /** Assignments into row i (1..10) of the equality matrix, in source order. */
  function EqTerms(i: nat): (ts: seq<Term>)
    requires 1 <= i <= 10
    ensures 1 <= |ts| <= 4
  {
    if i == 1 then [Term(1, 1.0)]
    else if i == 2 then [Term(3, 1.0), Term(4, -1.0)]
    else if i == 3 then [Term(11, 1.0), Term(12, -1.0), Term(13, -1.0)]
    else if i == 4 then [Term(14, 1.0), Term(16, -1.0)]
    else if i == 5 then [Term(10, 1.0), Term(11, -1.0), Term(25, -1.0)]
    else if i == 6 then [Term(18, 1.0), Term(17, -1.0)]
    else if i == 7 then [Term(15, 1.0), Term(12, -1.0), Term(14, 1.0)]
    else if i == 8 then [Term(24, 1.0), Term(18, -1.0), Term(19, 1.0)]
    else if i == 9 then [Term(22, -1.0), Term(23, 1.0), Term(24, -1.0), Term(29, 1.0)]
    else [Term(20, 1.0), Term(24, 1.0), Term(21, -1.0)]
  }

  lemma GeTermsWellFormed(i: nat, pppActive: bool)
    requires 1 <= i <= 12
    ensures WellFormed(GeTerms(i, pppActive))
  {
  }

  lemma EqTermsWellFormed(i: nat)
    requires 1 <= i <= 10
    ensures WellFormed(EqTerms(i))
  {
  }

  /** The base inequality matrix in "<=" form: every ">="-form row densified and negated. */
  function IneqMatrix(s: Substrates): (a: seq<FluxVector>)
    ensures |a| == 12
  {
    seq(12, i requires 0 <= i < 12 =>
      GeTermsWellFormed(i + 1, PppActive(s));
      Negated(DenseRow(GeTerms(i + 1, PppActive(s)))))
  }

  /** Right-hand sides of the base inequalities; these are not negated. */
  function IneqRhs(s: Substrates): (b: seq<real>)
    ensures |b| == 12
  {
    [0.0, 100.0 * Ratio(s, Fructose), 0.0, 0.0, 0.0, 100.0 * Ratio(s, Pyruvate),
     0.0, 0.0, 0.0, 100.0 * Ratio(s, Glutamate), 0.0, 0.0]
  }

  /** The equality matrix; it does not depend on the substrates at all. */
  function EqMatrix(): (a: seq<FluxVector>)
    ensures |a| == 10
  {
    seq(10, i requires 0 <= i < 10 =>
      EqTermsWellFormed(i + 1);
      DenseRow(EqTerms(i + 1)))
  }

  /** Right-hand sides of the equalities: 100 times substrate ratios. */
  function EqRhs(s: Substrates): (b: seq<real>)
    ensures |b| == 10
  {
    [100.0 * (Ratio(s, Glucose) + Ratio(s, Galactose)), -100.0 * Ratio(s, Glycerol), 0.0, 0.0,
     -100.0 * Ratio(s, Gluconate), 100.0 * Ratio(s, Citrate), 100.0 * Ratio(s, Xylose), 0.0,
     100.0 * Ratio(s, Malate), -100.0 * Ratio(s, Succinate)]
  }

  /** The paper's ">=" form of inequality i, written out as a linear expression over the
      fluxes (reference definition, independent of the matrices). */
  function GeForm(i: nat, pppActive: bool, x: FluxVector): real
    requires 1 <= i <= 12
  {
    if i == 1 then Flux(x, 1) - Flux(x, 2) - Flux(x, 10)
    else if i == 2 then Flux(x, 2) - Flux(x, 3) + 2.0 * Flux(x, 16)
    else if i == 3 then Flux(x, 3) + Flux(x, 4) - Flux(x, 5) + Flux(x, 14) + Flux(x, 25)
    else if i == 4 then Flux(x, 5) - Flux(x, 6)
    else if i == 5 then (if pppActive then Flux(x, 6) - Flux(x, 7) - Flux(x, 28) else 0.0)
    else if i == 6 then Flux(x, 7) - Flux(x, 8) + Flux(x, 25) - Flux(x, 27) + Flux(x, 29)
    else if i == 7 then Flux(x, 8) - Flux(x, 9) - Flux(x, 17) - Flux(x, 24) - Flux(x, 26)
    else if i == 8 then Flux(x, 13) - Flux(x, 14)
    else if i == 9 then Flux(x, 16) - Flux(x, 15)
    else if i == 10 then Flux(x, 19) - Flux(x, 20)
    else if i == 11 then Flux(x, 23) - Flux(x, 17) + Flux(x, 28)
    else Flux(x, 22) - Flux(x, 21)
  }

  /** Mass balance i written out as a linear expression over the fluxes. */
  function EqForm(i: nat, x: FluxVector): real
    requires 1 <= i <= 10
  {
    if i == 1 then Flux(x, 1)
    else if i == 2 then Flux(x, 3) - Flux(x, 4)
    else if i == 3 then Flux(x, 11) - Flux(x, 12) - Flux(x, 13)
    else if i == 4 then Flux(x, 14) - Flux(x, 16)
    else if i == 5 then Flux(x, 10) - Flux(x, 11) - Flux(x, 25)
    else if i == 6 then Flux(x, 18) - Flux(x, 17)
    else if i == 7 then Flux(x, 15) - Flux(x, 12) + Flux(x, 14)
    else if i == 8 then Flux(x, 24) - Flux(x, 18) + Flux(x, 19)
    else if i == 9 then Flux(x, 23) - Flux(x, 22) - Flux(x, 24) + Flux(x, 29)
    else Flux(x, 20) + Flux(x, 24) - Flux(x, 21)
  }

  /** Term j of a row applied to x, or 0 past the end of the row. */
  function TermValue(ts: seq<Term>, j: nat, x: FluxVector): real
    requires InRange(ts)
  {
    if j < |ts| then ts[j].coef * Flux(x, ts[j].flux) else 0.0
  }

  /** Dropping the last term of a row removes exactly that term's value. */
  lemma TermValueOfPrefix(ts: seq<Term>, j: nat, x: FluxVector)
    requires InRange(ts) && |ts| > 0
    ensures InRange(ts[..|ts| - 1])
    ensures TermValue(ts, j, x) ==
      TermValue(ts[..|ts| - 1], j, x) + (if j == |ts| - 1 then ts[j].coef * Flux(x, ts[j].flux) else 0.0)
  {
  }

  /** SparseDot of a short row spelled out term by term. */
  lemma {:induction false} SparseDotUnfold(ts: seq<Term>, x: FluxVector)
    requires InRange(ts) && |ts| <= 5
    ensures SparseDot(ts, x) ==
      TermValue(ts, 0, x) + TermValue(ts, 1, x) + TermValue(ts, 2, x) + TermValue(ts, 3, x) + TermValue(ts, 4, x)
    decreases |ts|
  {
    if |ts| > 0 {
      var p := ts[..|ts| - 1];
      TermValueOfPrefix(ts, 0, x);
      TermValueOfPrefix(ts, 1, x);
      TermValueOfPrefix(ts, 2, x);
      TermValueOfPrefix(ts, 3, x);
      TermValueOfPrefix(ts, 4, x);
      SparseDotUnfold(p, x);
    }
  }

  lemma GeTermsMeaning(i: nat, pppActive: bool, x: FluxVector)
    requires 1 <= i <= 12
    ensures SparseDot(GeTerms(i, pppActive), x) == GeForm(i, pppActive, x)
  {
    SparseDotUnfold(GeTerms(i, pppActive), x);
  }

  lemma EqTermsMeaning(i: nat, x: FluxVector)
    requires 1 <= i <= 10
    ensures SparseDot(EqTerms(i), x) == EqForm(i, x)
  {
    SparseDotUnfold(EqTerms(i), x);
  }

  lemma {:induction false} DenseRowAssigned(ts: seq<Term>, j: nat)
    requires WellFormed(ts) && j < |ts|
    ensures DenseRow(ts)[ts[j].flux - 1] == ts[j].coef
    decreases |ts|
  {
    if j < |ts| - 1 {
      DenseRowAssigned(ts[..|ts| - 1], j);
    }
  }

  /** Row i of the built inequality matrix, applied to x, is the negation of the paper's
      ">=" form: coefficients are negated once, whatever the substrates. */
  lemma IneqRowMeaning(s: Substrates, i: nat, x: FluxVector)
    requires 1 <= i <= 12
    ensures Dot(IneqMatrix(s)[i - 1], x) == -GeForm(i, PppActive(s), x)
  {
    var ts := GeTerms(i, PppActive(s));
    GeTermsWellFormed(i, PppActive(s));
    DotNegated(DenseRow(ts), x);
    DenseRowDot(ts, x);
    GeTermsMeaning(i, PppActive(s), x);
  }

  /** Row i of the equality matrix, applied to x, is mass balance i. */
  lemma EqRowMeaning(i: nat, x: FluxVector)
    requires 1 <= i <= 10
    ensures Dot(EqMatrix()[i - 1], x) == EqForm(i, x)
  {
    EqTermsWellFormed(i);
    DenseRowDot(EqTerms(i), x);
    EqTermsMeaning(i, x);
  }

  /** x satisfies the 12 base rows "A x <= b" exactly when it satisfies these inequalities;
      e.g. row 1 reads -x1 + x2 + x10 <= 0, and only rows 2, 6 and 10 have a nonzero bound. */
  lemma BaseInequalitiesHoldIff(s: Substrates, x: FluxVector)
    ensures (forall i :: 0 <= i < 12 ==> Dot(IneqMatrix(s)[i], x) <= IneqRhs(s)[i]) <==> (
      && -Flux(x, 1) + Flux(x, 2) + Flux(x, 10) <= 0.0
      && -Flux(x, 2) + Flux(x, 3) - 2.0 * Flux(x, 16) <= 100.0 * Ratio(s, Fructose)
      && -Flux(x, 3) - Flux(x, 4) + Flux(x, 5) - Flux(x, 14) - Flux(x, 25) <= 0.0
      && -Flux(x, 5) + Flux(x, 6) <= 0.0
      && (PppActive(s) ==> -Flux(x, 6) + Flux(x, 7) + Flux(x, 28) <= 0.0)
      && -Flux(x, 7) + Flux(x, 8) - Flux(x, 25) + Flux(x, 27) - Flux(x, 29) <= 100.0 * Ratio(s, Pyruvate)
      && -Flux(x, 8) + Flux(x, 9) + Flux(x, 17) + Flux(x, 24) + Flux(x, 26) <= 0.0
      && -Flux(x, 13) + Flux(x, 14) <= 0.0
      && -Flux(x, 16) + Flux(x, 15) <= 0.0
      && -Flux(x, 19) + Flux(x, 20) <= 100.0 * Ratio(s, Glutamate)
      && -Flux(x, 23) + Flux(x, 17) - Flux(x, 28) <= 0.0
      && Flux(x, 21) - Flux(x, 22) <= 0.0)
  {
    IneqRowMeaning(s, 1, x);
    IneqRowMeaning(s, 2, x);
    IneqRowMeaning(s, 3, x);
    IneqRowMeaning(s, 4, x);
    IneqRowMeaning(s, 5, x);
    IneqRowMeaning(s, 6, x);
    IneqRowMeaning(s, 7, x);
    IneqRowMeaning(s, 8, x);
    IneqRowMeaning(s, 9, x);
    IneqRowMeaning(s, 10, x);
    IneqRowMeaning(s, 11, x);
    IneqRowMeaning(s, 12, x);
    if forall i :: 0 <= i < 12 ==> Dot(IneqMatrix(s)[i], x) <= IneqRhs(s)[i] {
    } else {
      var i :| 0 <= i < 12 && Dot(IneqMatrix(s)[i], x) > IneqRhs(s)[i];
      IneqRowMeaning(s, i + 1, x);
    }
  }

  /** The ten mass balances of the network, written out. */
  ghost predicate MassBalances(s: Substrates, x: FluxVector) {
    && Flux(x, 1) == 100.0 * (Ratio(s, Glucose) + Ratio(s, Galactose))
    && Flux(x, 3) - Flux(x, 4) == -100.0 * Ratio(s, Glycerol)
    && Flux(x, 11) - Flux(x, 12) - Flux(x, 13) == 0.0
    && Flux(x, 14) - Flux(x, 16) == 0.0
    && Flux(x, 10) - Flux(x, 11) - Flux(x, 25) == -100.0 * Ratio(s, Gluconate)
    && Flux(x, 18) - Flux(x, 17) == 100.0 * Ratio(s, Citrate)
    && Flux(x, 15) - Flux(x, 12) + Flux(x, 14) == 100.0 * Ratio(s, Xylose)
    && Flux(x, 24) - Flux(x, 18) + Flux(x, 19) == 0.0
    && Flux(x, 23) - Flux(x, 22) - Flux(x, 24) + Flux(x, 29) == 100.0 * Ratio(s, Malate)
    && Flux(x, 20) + Flux(x, 24) - Flux(x, 21) == -100.0 * Ratio(s, Succinate)
  }

  lemma MassBalancesFromRows(s: Substrates, x: FluxVector)
    requires forall i :: 0 <= i < 10 ==> Dot(EqMatrix()[i], x) == EqRhs(s)[i]
    ensures MassBalances(s, x)
  {
    EqRowMeaning(1, x);
    EqRowMeaning(2, x);
    EqRowMeaning(3, x);
    EqRowMeaning(4, x);
    EqRowMeaning(5, x);
    EqRowMeaning(6, x);
    EqRowMeaning(7, x);
    EqRowMeaning(8, x);
    EqRowMeaning(9, x);
    EqRowMeaning(10, x);
  }

  lemma RowsFromMassBalances(s: Substrates, x: FluxVector)
    requires MassBalances(s, x)
    ensures forall i :: 0 <= i < 10 ==> Dot(EqMatrix()[i], x) == EqRhs(s)[i]
  {
    forall i | 0 <= i < 10
      ensures Dot(EqMatrix()[i], x) == EqRhs(s)[i]
    {
      EqRowMeaning(i + 1, x);
    }
  }

  /** x satisfies the 10 equality rows "A x = b" exactly when the mass balances hold;
      in particular equality 1 fixes x1 to 100 * (glucose + galactose). */
  lemma MassBalancesHoldIff(s: Substrates, x: FluxVector)
    ensures (forall i :: 0 <= i < 10 ==> Dot(EqMatrix()[i], x) == EqRhs(s)[i]) <==> MassBalances(s, x)
  {
    if forall i :: 0 <= i < 10 ==> Dot(EqMatrix()[i], x) == EqRhs(s)[i] {
      MassBalancesFromRows(s, x);
    }
    if MassBalances(s, x) {
      RowsFromMassBalances(s, x);
    }
  }

  /** Inequality 5 is the all-zero row exactly when the substrate condition fails; its bound
      is always 0. When populated it carries -1 at flux 6 and +1 at fluxes 7 and 28. */
  lemma PppRowActivation(s: Substrates)
    ensures IneqRhs(s)[4] == 0.0
    ensures (IneqMatrix(s)[4] == ZeroRow()) <==> !PppActive(s)
    ensures PppActive(s) ==>
      IneqMatrix(s)[4][5] == -1.0 && IneqMatrix(s)[4][6] == 1.0 && IneqMatrix(s)[4][27] == 1.0 &&
      forall j :: 0 <= j < FluxCount && j != 5 && j != 6 && j != 27 ==> IneqMatrix(s)[4][j] == 0.0
  {
    var ts := GeTerms(5, PppActive(s));
    GeTermsWellFormed(5, PppActive(s));
    assert IneqMatrix(s)[4] == Negated(DenseRow(ts));
    if PppActive(s) {
      DenseRowAssigned(ts, 0);
      DenseRowAssigned(ts, 1);
      DenseRowAssigned(ts, 2);
      forall j | 0 <= j < FluxCount && j != 5 && j != 6 && j != 27
        ensures DenseRow(ts)[j] == 0.0
      {
        DenseRowUnassigned(ts, j);
      }
    } else {
      assert Negated(ZeroRow()) == ZeroRow();
    }
  }

  /** The matrices do not depend on the substrate values, apart from whether row 5 is on. */
  lemma StructureIndependentOfSubstrates(s1: Substrates, s2: Substrates)
    ensures forall i :: 0 <= i < 12 && i != 4 ==> IneqMatrix(s1)[i] == IneqMatrix(s2)[i]
    ensures PppActive(s1) == PppActive(s2) ==> IneqMatrix(s1) == IneqMatrix(s2)
  {
    forall i | 0 <= i < 12 && i != 4
      ensures IneqMatrix(s1)[i] == IneqMatrix(s2)[i]
    {
      assert GeTerms(i + 1, PppActive(s1)) == GeTerms(i + 1, PppActive(s2));
    }
  }
}
