/** User-requested flux bounds: the ordered dictionary that holds them, the default lower
    bounds for fluxes 9 and 27 (libflux.py:330-333), and the extra inequality rows built from
    them (populate_boundary_inequalities, libflux.py:255-293). */
module Boundaries {
  import opened Domain
  import opened LinAlg

  /** A request key such as "ub8" or "lb29", held as its two-letter prefix and the integer
      that follows it. */
  datatype BoundToken = BoundToken(prefix: string, fluxId: int)

  /** A Python dict from request keys to bound values: insertion-ordered, keys distinct. */
  type BoundaryDict = seq<(BoundToken, real)>

  ghost predicate DistinctKeys(d: BoundaryDict) {
    forall i, j :: 0 <= i < j < |d| ==> d[i].0 != d[j].0
  }

  /** d[k], or None when k is absent. */
  function Get(d: BoundaryDict, k: BoundToken): Option<real>
    decreases |d|
  {
    if |d| == 0 then None
    else if d[0].0 == k then Some(d[0].1)
    else Get(d[1..], k)
  }

  /** d[k] = v: overwrite in place when k is present, otherwise append. */
  function Put(d: BoundaryDict, k: BoundToken, v: real): BoundaryDict
    decreases |d|
  {
    if |d| == 0 then [(k, v)]
    else if d[0].0 == k then [(k, v)] + d[1..]
    else [d[0]] + Put(d[1..], k, v)
  }

  lemma {:induction false} GetMissing(d: BoundaryDict, k: BoundToken)
    requires forall i :: 0 <= i < |d| ==> d[i].0 != k
    ensures Get(d, k) == None
    decreases |d|
  {
    if |d| > 0 {
      GetMissing(d[1..], k);
    }
  }

  /** Assignment into a dict: the key now maps to the value, every other key keeps its
      value, and keys stay distinct. */
  lemma {:induction false} PutGet(d: BoundaryDict, k: BoundToken, v: real)
    requires DistinctKeys(d)
    ensures DistinctKeys(Put(d, k, v))
    ensures Get(Put(d, k, v), k) == Some(v)
    ensures forall k' :: k' != k ==> Get(Put(d, k, v), k') == Get(d, k')
    decreases |d|
  {
    if |d| == 0 {
    } else if d[0].0 == k {
      GetMissing(d[1..], k);
      var r := Put(d, k, v);
      assert r[1..] == d[1..];
    } else {
      PutGet(d[1..], k, v);
      PutPositions(d[1..], k, v);
      var r := Put(d, k, v);
      assert r[1..] == Put(d[1..], k, v);
      forall i, j | 0 <= i < j < |r| ensures r[i].0 != r[j].0 {
        if i == 0 {
          assert r[j] in Put(d[1..], k, v);
          if r[j].0 == d[0].0 {
            assert Get(Put(d[1..], k, v), d[0].0) != None by { GetPresent(Put(d[1..], k, v), j - 1); }
            GetMissing(d[1..], d[0].0);
          }
        }
      }
    }
  }

  lemma {:induction false} GetPresent(d: BoundaryDict, i: nat)
    requires i < |d|
    ensures Get(d, d[i].0) != None
    decreases i
  {
    if i > 0 && d[0].0 != d[i].0 {
      GetPresent(d[1..], i - 1);
    }
  }

  /** Existing entries keep their positions, and the dict grows by one entry exactly when
      the key was new. */
  lemma {:induction false} PutPositions(d: BoundaryDict, k: BoundToken, v: real)
    ensures |Put(d, k, v)| == |d| + (if Get(d, k).None? then 1 else 0)
    ensures forall i :: 0 <= i < |d| ==> Put(d, k, v)[i].0 == d[i].0
    decreases |d|
  {
    if |d| > 0 && d[0].0 != k {
      PutPositions(d[1..], k, v);
    }
  }

  /** A new key goes to the end; assigning a key overwrites only that key's entry. */
  lemma {:induction false} PutAppendsOrOverwrites(d: BoundaryDict, k: BoundToken, v: real)
    ensures Get(d, k).None? ==> Put(d, k, v) == d + [(k, v)]
    ensures |d| <= |Put(d, k, v)|
    ensures forall i :: 0 <= i < |d| && d[i].0 != k ==> Put(d, k, v)[i] == d[i]
    decreases |d|
  {
    if |d| > 0 && d[0].0 != k {
      PutAppendsOrOverwrites(d[1..], k, v);
      assert d == [d[0]] + d[1..];
    }
  }

  const LowerBound9: BoundToken := BoundToken("lb", 9)
  const LowerBound27: BoundToken := BoundToken("lb", 27)

  /** Without acetate flux 9 gets the lower bound 0, without lactate flux 27 does; a bound
      the user gave for them is overwritten in place, all other requests are untouched. */
  method DefaultLowerBounds(features: BoundaryDict, s: Substrates) returns (r: BoundaryDict)
    requires DistinctKeys(features)
    ensures DistinctKeys(r)
    ensures Get(r, LowerBound9) == if Ratio(s, Acetate) == 0.0 then Some(0.0) else Get(features, LowerBound9)
    ensures Get(r, LowerBound27) == if Ratio(s, Lactate) == 0.0 then Some(0.0) else Get(features, LowerBound27)
    ensures forall k :: k != LowerBound9 && k != LowerBound27 ==> Get(r, k) == Get(features, k)
    ensures |features| <= |r| <= |features| + 2
    ensures forall i :: 0 <= i < |features| ==> r[i].0 == features[i].0
    ensures r[|features|..] ==
      (if Ratio(s, Acetate) == 0.0 && Get(features, LowerBound9).None? then [(LowerBound9, 0.0)] else []) +
      (if Ratio(s, Lactate) == 0.0 && Get(features, LowerBound27).None? then [(LowerBound27, 0.0)] else [])
  {
    r := features;
    if Ratio(s, Acetate) == 0.0 {
      PutGet(r, LowerBound9, 0.0);
      PutPositions(r, LowerBound9, 0.0);
      PutAppendsOrOverwrites(r, LowerBound9, 0.0);
      r := Put(r, LowerBound9, 0.0);
    }
    assert r[|features|..] ==
      if Ratio(s, Acetate) == 0.0 && Get(features, LowerBound9).None? then [(LowerBound9, 0.0)] else [];
    if Ratio(s, Lactate) == 0.0 {
      PutGet(r, LowerBound27, 0.0);
      PutPositions(r, LowerBound27, 0.0);
      PutAppendsOrOverwrites(r, LowerBound27, 0.0);
      ghost var before := r;
      r := Put(r, LowerBound27, 0.0);
      if Get(before, LowerBound27).None? {
        assert r[|features|..] == before[|features|..] + [(LowerBound27, 0.0)];
      } else {
        assert r[|features|..] == before[|features|..];
      }
    }
  }

  /** Position written by `Row_vector[Flux_ID - 1]` in a 29-entry numpy row: a negative
      position counts from the end, one outside -29..28 raises IndexError. */
  function Column(fluxId: int): (r: Result<nat>)
    ensures r.Ok? <==> -FluxCount < fluxId <= FluxCount
    ensures r.Ok? ==> r.value < FluxCount && (r.value - (fluxId - 1)) % FluxCount == 0
    ensures r.Err? ==> r.error == IndexError(fluxId - 1)
  {
    var p := fluxId - 1;
    if 0 <= p < FluxCount then Ok(p)
    else if -FluxCount <= p < 0 then Ok(p + FluxCount)
    else Err(IndexError(p))
  }

  /** The "<=" row and right-hand side for one request: "lb" gives -1 at the flux and -v,
      "ub" gives +1 and v; any other prefix only prints "wrong boundary" and keeps the zero
      row with right-hand side v. */
  function BoundaryRow(t: BoundToken, v: real): (r: Result<(FluxVector, real)>)
    ensures r.Ok? <==> (t.prefix != "lb" && t.prefix != "ub") || Column(t.fluxId).Ok?
    ensures r.Err? ==> r.error == IndexError(t.fluxId - 1)
    ensures r.Ok? ==> r.value.1 == if t.prefix == "lb" then -v else v
  {
    if t.prefix == "lb" then
      match Column(t.fluxId)
      case Ok(c) => var row: FluxVector := ZeroRow()[c := -1.0]; Ok((row, -v))
      case Err(e) => Err(e)
    else if t.prefix == "ub" then
      match Column(t.fluxId)
      case Ok(c) => var row: FluxVector := ZeroRow()[c := 1.0]; Ok((row, v))
      case Err(e) => Err(e)
    else
      Ok((ZeroRow(), v))
  }

  /** What a boundary row asks of a flux vector x: "ub" bounds its flux from above by v,
      "lb" from below by v, and the row of an unknown prefix holds for every x when v >= 0
      and for none when v < 0. */
  lemma BoundaryRowMeaning(t: BoundToken, v: real, x: FluxVector)
    requires BoundaryRow(t, v).Ok?
    ensures var (row, b) := BoundaryRow(t, v).value;
      (Dot(row, x) <= b) <==>
        if t.prefix == "lb" then x[Column(t.fluxId).value] >= v
        else if t.prefix == "ub" then x[Column(t.fluxId).value] <= v
        else 0.0 <= v
  {
    if t.prefix == "lb" || t.prefix == "ub" {
      DotUnit(Column(t.fluxId).value, if t.prefix == "lb" then -1.0 else 1.0, x);
    } else {
      DotZero(ZeroRow(), x);
    }
  }

  /** The rows of d's entries, in dictionary order, or the first IndexError. */
  function CollectRows(d: BoundaryDict): (r: Result<(seq<FluxVector>, seq<real>)>)
    ensures r.Ok? ==> |r.value.0| == |d| && |r.value.1| == |d|
    ensures r.Err? ==> exists i :: 0 <= i < |d| && BoundaryRow(d[i].0, d[i].1) == Err(r.error)
    decreases |d|
  {
    if |d| == 0 then Ok(([], []))
    else
      match CollectRows(d[..|d| - 1])
      case Err(e) => Err(e)
      case Ok((a, b)) =>
        match BoundaryRow(d[|d| - 1].0, d[|d| - 1].1)
        case Err(e) => Err(e)
        case Ok((row, rhs)) => Ok((a + [row], b + [rhs]))
  }

  /** The extra inequality rows, or none at all (Python's `None, None`) for an empty dict. */
  datatype BoundaryRows = NoRows | Rows(a: seq<FluxVector>, b: seq<real>)

  function BoundaryRowsOf(d: BoundaryDict): (r: Result<BoundaryRows>)
    ensures r.Err? <==> CollectRows(d).Err?
    ensures r.Ok? ==> (r.value.NoRows? <==> |d| == 0)
    ensures r.Ok? && r.value.Rows? ==> |r.value.a| == |d| && |r.value.b| == |d|
  {
    if |d| == 0 then Ok(NoRows)
    else
      match CollectRows(d)
      case Err(e) => Err(e)
      case Ok((a, b)) => Ok(Rows(a, b))
  }

  lemma {:induction false} CollectRowsErrPersists(d: BoundaryDict, n: nat, e: Error)
    requires n <= |d| && CollectRows(d[..n]) == Err(e)
    ensures CollectRows(d) == Err(e)
    decreases |d| - n
  {
    if n < |d| {
      assert d[..n + 1][..n] == d[..n];
      CollectRowsErrPersists(d, n + 1, e);
    } else {
      assert d[..n] == d;
    }
  }

  /** One row and one right-hand side per entry, each the entry's own row; every entry
      with prefix "lb" or "ub" must name a flux in -28..29. */
  lemma {:induction false} CollectRowsSpec(d: BoundaryDict)
    ensures CollectRows(d).Ok? <==>
      forall i :: 0 <= i < |d| ==> BoundaryRow(d[i].0, d[i].1).Ok?
    ensures CollectRows(d).Ok? ==>
      var (a, b) := CollectRows(d).value;
      |a| == |d| && |b| == |d| &&
      forall i :: 0 <= i < |d| ==> BoundaryRow(d[i].0, d[i].1) == Ok((a[i], b[i]))
    decreases |d|
  {
    if |d| > 0 {
      var p := d[..|d| - 1];
      CollectRowsSpec(p);
      assert forall i :: 0 <= i < |p| ==> p[i] == d[i];
    }
  }

  /** populate_boundary_inequalities: no rows for an empty dict; otherwise one 29-column
      row and one right-hand side per entry, in dictionary order, unless an "lb"/"ub" entry
      names a flux outside -28..29. */
  method PopulateBoundaryInequalities(d: BoundaryDict) returns (r: Result<BoundaryRows>)
    ensures r == BoundaryRowsOf(d)
  {
    if d == [] {
      return Ok(NoRows);
    }
    var rows: seq<FluxVector> := [];
    var rhs: seq<real> := [];
    var i := 0;
    while i < |d|
      invariant 0 <= i <= |d|
      invariant CollectRows(d[..i]) == Ok((rows, rhs))
    {
      var (token, bound) := d[i];
      var row := ZeroRow();
      assert d[..i + 1][..i] == d[..i];
      if token.prefix == "lb" {
        bound := -1.0 * bound;
        var c := Column(token.fluxId);
        if c.Err? {
          CollectRowsErrPersists(d, i + 1, c.error);
          return Err(c.error);
        }
        row := row[c.value := -1.0];
      } else if token.prefix == "ub" {
        var c := Column(token.fluxId);
        if c.Err? {
          CollectRowsErrPersists(d, i + 1, c.error);
          return Err(c.error);
        }
        row := row[c.value := 1.0];
      }
      // any other prefix: "wrong boundary" is printed and the zero row is kept
      rows := rows + [row];
      rhs := rhs + [bound];
      i := i + 1;
    }
    assert d[..i] == d;
    r := Ok(Rows(rows, rhs));
  }
}
