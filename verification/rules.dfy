/** Post-solve overrides (rule_adjust, libflux.py:395-419): a measured acetate or lactate
    uptake fixes flux 9 or flux 27 exactly, whatever the solver returned. */
module Rules {
  import opened Domain

  /** The fluxes the rules pin down, and to what. */
  ghost predicate SatisfiesRules(v: FluxVector, s: Substrates) {
    && (Ratio(s, Acetate) != 0.0 ==> Flux(v, 9) == -100.0 * Ratio(s, Acetate))
    && (Ratio(s, Lactate) != 0.0 ==> Flux(v, 27) == -100.0 * Ratio(s, Lactate))
  }

  /** The flux vector after the overrides. */
  function RuleAdjusted(v: FluxVector, s: Substrates): (r: FluxVector)
    ensures SatisfiesRules(r, s)
  {
    var afterAcetate: FluxVector :=
      if Ratio(s, Acetate) != 0.0 then v[9 - 1 := -100.0 * Ratio(s, Acetate)] else v;
    if Ratio(s, Lactate) != 0.0 then afterAcetate[27 - 1 := -100.0 * Ratio(s, Lactate)] else afterAcetate
  }

  /** Only the overridden entries change: every other flux, and flux 9 or 27 when its
      ratio is zero, keeps the solver's value. */
  lemma RuleAdjustedChangesOnlyOverrides(v: FluxVector, s: Substrates)
    ensures forall k :: 1 <= k <= FluxCount ==>
      Flux(RuleAdjusted(v, s), k) ==
        if k == 9 && Ratio(s, Acetate) != 0.0 then -100.0 * Ratio(s, Acetate)
        else if k == 27 && Ratio(s, Lactate) != 0.0 then -100.0 * Ratio(s, Lactate)
        else Flux(v, k)
  {
  }

  /** A flux vector is left unchanged exactly when it already obeys the rules; in
      particular applying the rules twice is the same as applying them once. */
  lemma RuleAdjustedFixpoint(v: FluxVector, s: Substrates)
    ensures RuleAdjusted(v, s) == v <==> SatisfiesRules(v, s)
    ensures RuleAdjusted(RuleAdjusted(v, s), s) == RuleAdjusted(v, s)
  {
    if SatisfiesRules(v, s) {
      RuleAdjustedChangesOnlyOverrides(v, s);
      assert forall j :: 0 <= j < FluxCount ==> RuleAdjusted(v, s)[j] == Flux(RuleAdjusted(v, s), j + 1);
    }
    var r := RuleAdjusted(v, s);
    RuleAdjustedChangesOnlyOverrides(r, s);
    assert forall j :: 0 <= j < FluxCount ==> RuleAdjusted(r, s)[j] == Flux(RuleAdjusted(r, s), j + 1);
  }

  /** rule_adjust proper: overwrites the solution dictionary in place. */
  method RuleAdjust(influxes: array<real>, s: Substrates)
    requires influxes.Length == FluxCount
    modifies influxes
    ensures influxes[..] == RuleAdjusted(old(influxes[..]), s)
  {
    if Ratio(s, Acetate) != 0.0 {
      influxes[9 - 1] := -100.0 * Ratio(s, Acetate);
    }
    if Ratio(s, Lactate) != 0.0 {
      influxes[27 - 1] := -100.0 * Ratio(s, Lactate);
    }
  }
}
