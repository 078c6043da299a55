/** The substrate-ratio map built from the request (process_input, libflux.py:363-368):
    14 zero entries, then the first and the second carbon source added to their slots. */
module SubstrateInput {
  import opened Domain
  import opened LinAlg

  /** The ratio the construction leaves at substrate k. */
  function Share(k: int, first: int, ratioFirst: real, second: int, ratioSecond: real): real {
    (if k == first then ratioFirst else 0.0) + (if k == second then ratioSecond else 0.0)
  }

  /** `Substrates[first] += ratioFirst; Substrates[second] += ratioSecond` on a fresh
      14-entry map keyed 1..14; an index outside 1..14 is a KeyError. When first and second
      coincide the two ratios add up in one slot. */
  method SubstratesFromInput(first: int, ratioFirst: real, second: int, ratioSecond: real)
    returns (r: Result<Substrates>)
    ensures r.Ok? <==> 1 <= first <= SubstrateCount && 1 <= second <= SubstrateCount
    ensures !(1 <= first <= SubstrateCount) ==> r == Err(KeyError(first))
    ensures 1 <= first <= SubstrateCount && !(1 <= second <= SubstrateCount) ==> r == Err(KeyError(second))
    ensures r.Ok? ==> forall k :: 1 <= k <= SubstrateCount ==>
      Ratio(r.value, k) == Share(k, first, ratioFirst, second, ratioSecond)
    ensures r.Ok? ==> Sum(r.value) == ratioFirst + ratioSecond
  {
    var substrates := new real[SubstrateCount](_ => 0.0);
    SumZero(substrates[..]);
    if !(1 <= first <= SubstrateCount) {
      return Err(KeyError(first));
    }
    ghost var before := substrates[..];
    substrates[first - 1] := substrates[first - 1] + ratioFirst;
    assert substrates[..] == before[first - 1 := before[first - 1] + ratioFirst];
    SumUpdate(before, first - 1, before[first - 1] + ratioFirst);
    if !(1 <= second <= SubstrateCount) {
      return Err(KeyError(second));
    }
    before := substrates[..];
    substrates[second - 1] := substrates[second - 1] + ratioSecond;
    assert substrates[..] == before[second - 1 := before[second - 1] + ratioSecond];
    SumUpdate(before, second - 1, before[second - 1] + ratioSecond);
    r := Ok(substrates[..]);
  }
}
