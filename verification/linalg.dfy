/** Dot products of rows with flux vectors, and how they react to single-entry updates:
    the constraint builders fill zero rows one entry at a time. */
module LinAlg {
  import opened Domain

  function Dot(a: seq<real>, x: seq<real>): real
    requires |a| == |x|
    decreases |a|
  {
    if |a| == 0 then 0.0 else Dot(a[..|a| - 1], x[..|x| - 1]) + a[|a| - 1] * x[|x| - 1]
  }

  function Negated(a: seq<real>): (r: seq<real>)
    ensures |r| == |a|
    ensures forall j :: 0 <= j < |a| ==> r[j] == -a[j]
  {
    seq(|a|, j requires 0 <= j < |a| => -a[j])
  }

  lemma {:induction false} DotZero(a: seq<real>, x: seq<real>)
    requires |a| == |x|
    requires forall j :: 0 <= j < |a| ==> a[j] == 0.0
    ensures Dot(a, x) == 0.0
  {
    if |a| > 0 {
      DotZero(a[..|a| - 1], x[..|x| - 1]);
    }
  }

  /** Overwriting entry k of a row changes its dot product by the change times x[k]. */
  lemma {:induction false} DotUpdate(a: seq<real>, x: seq<real>, k: nat, c: real)
    requires |a| == |x| && k < |a|
    ensures Dot(a[k := c], x) == Dot(a, x) + (c - a[k]) * x[k]
  {
    var n := |a| - 1;
    if k == n {
      assert a[k := c][..n] == a[..n];
    } else {
      assert a[k := c][..n] == a[..n][k := c];
      DotUpdate(a[..n], x[..n], k, c);
    }
  }

  lemma {:induction false} DotNegated(a: seq<real>, x: seq<real>)
    requires |a| == |x|
    ensures Dot(Negated(a), x) == -Dot(a, x)
  {
    if |a| > 0 {
      var n := |a| - 1;
      assert Negated(a)[..n] == Negated(a[..n]);
      DotNegated(a[..n], x[..n]);
    }
  }

  /** A row that is zero except for coefficient c at position k selects c * x[k]. */
  lemma DotUnit(k: nat, c: real, x: FluxVector)
    requires k < FluxCount
    ensures Dot(ZeroRow()[k := c], x) == c * x[k]
  {
    DotZero(ZeroRow(), x);
    DotUpdate(ZeroRow(), x, k, c);
  }

  function Sum(s: seq<real>): real
    decreases |s|
  {
    if |s| == 0 then 0.0 else s[0] + Sum(s[1..])
  }

  lemma {:induction false} SumUpdate(s: seq<real>, k: nat, c: real)
    requires k < |s|
    ensures Sum(s[k := c]) == Sum(s) + (c - s[k])
  {
    if k == 0 {
      assert s[k := c][1..] == s[1..];
    } else {
      assert s[k := c][1..] == s[1..][k - 1 := c];
      SumUpdate(s[1..], k - 1, c);
    }
  }

  lemma {:induction false} SumZero(s: seq<real>)
    requires forall j :: 0 <= j < |s| ==> s[j] == 0.0
    ensures Sum(s) == 0.0
  {
    if |s| > 0 {
      SumZero(s[1..]);
    }
  }

  /** The point halfway between two flux vectors. */
  function Midpoint(x: FluxVector, y: FluxVector): (m: FluxVector)
    ensures forall j :: 0 <= j < FluxCount ==> m[j] == 0.5 * (x[j] + y[j])
  {
    seq(FluxCount, j requires 0 <= j < FluxCount => 0.5 * (x[j] + y[j]))
  }

  /** A linear form takes the average of its values at the midpoint. */
  lemma {:induction false} DotMidpointPrefix(a: seq<real>, x: FluxVector, y: FluxVector, n: nat)
    requires n <= |a| == FluxCount
    ensures Dot(a[..n], Midpoint(x, y)[..n]) == 0.5 * Dot(a[..n], x[..n]) + 0.5 * Dot(a[..n], y[..n])
  {
    if n > 0 {
      var m := Midpoint(x, y);
      assert a[..n][..n - 1] == a[..n - 1];
      assert m[..n][..n - 1] == m[..n - 1];
      assert x[..n][..n - 1] == x[..n - 1];
      assert y[..n][..n - 1] == y[..n - 1];
      DotMidpointPrefix(a, x, y, n - 1);
      assert a[n - 1] * m[n - 1] == 0.5 * (a[n - 1] * x[n - 1]) + 0.5 * (a[n - 1] * y[n - 1]);
    }
  }

  lemma DotMidpoint(a: seq<real>, x: FluxVector, y: FluxVector)
    requires |a| == FluxCount
    ensures Dot(a, Midpoint(x, y)) == 0.5 * Dot(a, x) + 0.5 * Dot(a, y)
  {
    DotMidpointPrefix(a, x, y, FluxCount);
    assert a[..FluxCount] == a && x[..FluxCount] == x && y[..FluxCount] == y;
    assert Midpoint(x, y)[..FluxCount] == Midpoint(x, y);
  }
}
