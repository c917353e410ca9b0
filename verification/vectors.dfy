/** Vectors of reals: sums, positivity, and normalisation onto the simplex. */
module Vectors {

  /** The sum of a vector (std::accumulate from 0.0, read over the reals). */
  function Sum(s: seq<real>): real
  {
    if |s| == 0 then 0.0 else s[0] + Sum(s[1..])
  }

  predicate AllPositive(s: seq<real>) {
    forall i :: 0 <= i < |s| ==> s[i] > 0.0
  }

  /** The validation loop of the Dirichlet: scan left to right and stop at the
      first element that is not strictly positive. */
  function ScanPositive(s: seq<real>): (ok: bool)
    ensures ok <==> AllPositive(s)
  {
    |s| == 0 || (s[0] > 0.0 && ScanPositive(s[1..]))
  }

  /** The integer counts read as reals, as the source converts them. */
  function Reals(c: seq<int>): (r: seq<real>)
    ensures |r| == |c|
    ensures forall i :: 0 <= i < |c| ==> r[i] == c[i] as real
  {
    seq(|c|, i requires 0 <= i < |c| => c[i] as real)
  }

  function Repeat(a: real, k: nat): (r: seq<real>)
    ensures |r| == k
    ensures forall i :: 0 <= i < k ==> r[i] == a
  {
    seq(k, _ => a)
  }

  function Scale(v: seq<real>, t: real): (r: seq<real>)
    ensures |r| == |v|
    ensures forall i :: 0 <= i < |v| ==> r[i] == v[i] * t
  {
    seq(|v|, i requires 0 <= i < |v| => v[i] * t)
  }

  function Divide(v: seq<real>, t: real): (r: seq<real>)
    requires t != 0.0
    ensures |r| == |v|
    ensures forall i :: 0 <= i < |v| ==> r[i] == v[i] / t
  {
    seq(|v|, i requires 0 <= i < |v| => v[i] / t)
  }

  /** Elementwise sum of two vectors of the same length. */
  function Add(a: seq<real>, b: seq<real>): (r: seq<real>)
    requires |a| == |b|
    ensures |r| == |a|
    ensures forall i :: 0 <= i < |a| ==> r[i] == a[i] + b[i]
  {
    seq(|a|, i requires 0 <= i < |a| => a[i] + b[i])
  }

  /** A vector divided by its own total: the shared step of the Dirichlet mean
      and the Categorical normalisation. */
  function Proportions(v: seq<real>): (p: seq<real>)
    requires Sum(v) != 0.0
    ensures |p| == |v|
    ensures Sum(p) == 1.0
    ensures forall i :: 0 <= i < |v| ==> p[i] * Sum(v) == v[i]
    ensures Sum(v) == 1.0 ==> p == v
  {
    SumDivide(v, Sum(v));
    DivideSelf(Sum(v));
    DivideByOne(v);
    Divide(v, Sum(v))
  }

  lemma {:induction false} SumDivide(v: seq<real>, t: real)
    requires t != 0.0
    ensures Sum(Divide(v, t)) == Sum(v) / t
  {
    if |v| > 0 {
      assert Divide(v, t)[1..] == Divide(v[1..], t);
      SumDivide(v[1..], t);
    }
  }

  /** Peeling the first element off a suffix sum. */
  lemma SumFrom(s: seq<real>, i: int)
    requires 0 <= i < |s|
    ensures Sum(s[i..]) == s[i] + Sum(s[i + 1..])
  {
    assert s[i..][1..] == s[i + 1..];
  }

  lemma {:induction false} SumScale(v: seq<real>, t: real)
    ensures Sum(Scale(v, t)) == Sum(v) * t
  {
    if |v| > 0 {
      forall j | 0 <= j < |v| - 1
        ensures Scale(v, t)[1..][j] == Scale(v[1..], t)[j]
      {
        assert Scale(v, t)[1..][j] == v[j + 1] * t;
      }
      assert Scale(v, t)[1..] == Scale(v[1..], t);
      SumScale(v[1..], t);
    }
  }

  lemma {:induction false} SumAdd(a: seq<real>, b: seq<real>)
    requires |a| == |b|
    ensures Sum(Add(a, b)) == Sum(a) + Sum(b)
  {
    if |a| > 0 {
      assert Add(a, b)[1..] == Add(a[1..], b[1..]);
      SumAdd(a[1..], b[1..]);
    }
  }

  lemma {:induction false} SumRepeat(a: real, k: nat)
    ensures Sum(Repeat(a, k)) == k as real * a
  {
    if k > 0 {
      assert Repeat(a, k)[1..] == Repeat(a, k - 1);
      SumRepeat(a, k - 1);
    }
  }

  /** The sum of a vector of positive reals is positive; of the empty vector, zero. */
  lemma {:induction false} SumPositive(s: seq<real>)
    requires AllPositive(s)
    ensures Sum(s) >= 0.0
    ensures |s| >= 1 ==> Sum(s) > 0.0
  {
    if |s| > 0 {
      SumPositive(s[1..]);
    }
  }

  /** In a vector of positive reals every element is at most the total, and
      strictly below it as soon as there is another element. */
  lemma {:induction false} ElementBelowSum(s: seq<real>, i: int)
    requires AllPositive(s)
    requires 0 <= i < |s|
    ensures s[i] <= Sum(s)
    ensures |s| == 1 ==> s[i] == Sum(s)
    ensures |s| >= 2 ==> s[i] < Sum(s)
  {
    SumPositive(s[1..]);
    if i > 0 {
      ElementBelowSum(s[1..], i - 1);
    }
  }

  /** Proportions only depend on the shape of a vector, not on its scale. */
  lemma ProportionsScaleInvariant(v: seq<real>, t: real)
    requires Sum(v) != 0.0
    requires t != 0.0
    ensures Sum(Scale(v, t)) == Sum(v) * t
    ensures Proportions(Scale(v, t)) == Proportions(v)
  {
    SumScale(v, t);
    DivideScale(v, Sum(v), t);
    assert Proportions(Scale(v, t)) == Divide(Scale(v, t), Sum(v) * t);
  }

  lemma DivideScale(v: seq<real>, s: real, t: real)
    requires s != 0.0 && t != 0.0
    ensures Divide(Scale(v, t), s * t) == Divide(v, s)
  {
    forall i | 0 <= i < |v|
      ensures Divide(Scale(v, t), s * t)[i] == Divide(v, s)[i]
    {
      ScaledQuotient(v[i], Scale(v, t)[i], s, t);
    }
  }

  lemma ScaledQuotient(a: real, b: real, s: real, t: real)
    requires s != 0.0 && t != 0.0
    requires b == a * t
    ensures b / (s * t) == a / s
  {
    CancelFactor(a, s, t);
  }

  /** Normalising a vector of positive entries keeps every entry positive. */
  lemma ProportionsPositive(v: seq<real>)
    requires AllPositive(v)
    requires |v| >= 1
    ensures Sum(v) > 0.0
    ensures AllPositive(Proportions(v))
  {
    SumPositive(v);
    var s := Sum(v);
    assert Proportions(v) == Divide(v, s);
    forall i | 0 <= i < |v|
      ensures Divide(v, s)[i] > 0.0
    {
      QuotientPositive(v[i], s);
    }
  }

  lemma QuotientPositive(a: real, s: real)
    requires a > 0.0 && s > 0.0
    ensures a / s > 0.0
  {
  }

  lemma DivideSelf(s: real)
    requires s != 0.0
    ensures s / s == 1.0
  {
  }

  lemma DivideByOne(v: seq<real>)
    ensures Divide(v, 1.0) == v
  {
    assert forall i :: 0 <= i < |v| ==> Divide(v, 1.0)[i] == v[i];
  }

  lemma CancelFactor(x: real, s: real, t: real)
    requires s != 0.0 && t != 0.0
    ensures (x * t) / (s * t) == x / s
  {
    var y := x / s;
    assert x == y * s;
    assert x * t == y * (s * t);
  }

  /** A vector of equal entries is the uniform distribution once normalised. */
  lemma ProportionsRepeat(a: real, k: nat)
    requires a != 0.0
    requires k >= 1
    ensures Sum(Repeat(a, k)) == k as real * a
    ensures Proportions(Repeat(a, k)) == Repeat(1.0 / k as real, k)
  {
    SumRepeat(a, k);
    assert Proportions(Repeat(a, k)) == Divide(Repeat(a, k), k as real * a);
    forall i | 0 <= i < k
      ensures Proportions(Repeat(a, k))[i] == Repeat(1.0 / k as real, k)[i]
    {
      UniformShare(a, k as real);
    }
  }

  lemma UniformShare(a: real, n: real)
    requires a != 0.0 && n != 0.0
    ensures a / (n * a) == 1.0 / n
  {
    CancelFactor(1.0, n, a);
  }
}
