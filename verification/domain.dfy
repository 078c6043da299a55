/** Index spaces of the reconciliation engine.
    Fluxes are numbered 1..29 and substrates 1..14 in the domain (as the Python dictionaries
    key them); vectors store domain index k at position k - 1. This module is the single
    translation layer between the two numberings. */
module Domain {

  const FluxCount: int := 29
  const SubstrateCount: int := 14

  // Substrate numbering used by every function of libflux.py (Substrate2Index)
  const Glucose: nat := 1
  const Fructose: nat := 2
  const Galactose: nat := 3
  const Gluconate: nat := 4
  const Glutamate: nat := 5
  const Citrate: nat := 6
  const Xylose: nat := 7
  const Succinate: nat := 8
  const Malate: nat := 9
  const Lactate: nat := 10
  const Pyruvate: nat := 11
  const Glycerol: nat := 12
  const Acetate: nat := 13
  const NaHCO3: nat := 14

  /** One value per flux: a prediction, a solution, a row of a constraint matrix or a
      vector of scale factors. */
  type FluxVector = v: seq<real> | |v| == FluxCount witness seq(29, _ => 0.0)

  /** One ratio per substrate. */
  type Substrates = s: seq<real> | |s| == SubstrateCount witness seq(14, _ => 0.0)

  /** The all-zero row (numpy.zeros(29)). */
  function ZeroRow(): (z: FluxVector)
    ensures forall j :: 0 <= j < FluxCount ==> z[j] == 0.0
  {
    seq(FluxCount, _ => 0.0)
  }

  /** Ratio of substrate k, 1 <= k <= 14. */
  function Ratio(s: Substrates, k: nat): real
    requires 1 <= k <= SubstrateCount
  {
    s[k - 1]
  }

  /** Value of flux k, 1 <= k <= 29. */
  function Flux(v: FluxVector, k: nat): real
    requires 1 <= k <= FluxCount
  {
    v[k - 1]
  }

  /** The exceptions the modelled Python code can raise. */
  datatype Error =
    | KeyError(key: int)      // a dictionary lookup of a missing key
    | IndexError(index: int)  // a numpy index outside the row
    | SolverFailure           // the QP solver raised or returned no point

  datatype Option<+T> = None | Some(value: T)

  datatype Result<+T> = Ok(value: T) | Err(error: Error)
}
