/** The Dirichlet distribution over probability vectors: its concentration
    parameters, closed-form moments, reparameterisation and log-density. */
module DirichletDistribution {
  import opened Results
  import opened Vectors

  /** How far the coordinates of a point may sum away from 1 before logPdf
      rejects it. */
  const SimplexTolerance: real := 0.000001

  /** A Dirichlet distribution is its vector of concentration parameters; the
      private random generator used only for sampling is not modelled. */
  datatype Dirichlet = Dirichlet(alpha: seq<real>)

  /** The class invariant: at least one category, every concentration positive. */
  predicate Valid(d: Dirichlet) {
    |d.alpha| >= 1 && AllPositive(d.alpha)
  }

  function Dimension(d: Dirichlet): nat {
    |d.alpha|
  }

  /** The constructor: rejects an empty vector, then any parameter <= 0. */
  function Make(alpha: seq<real>): (r: Result<Dirichlet>)
    ensures r.Success? <==> |alpha| >= 1 && AllPositive(alpha)
    ensures r.Success? ==> r.value.alpha == alpha && Valid(r.value)
    ensures |alpha| == 0 ==> r == Failure(EmptyConcentration)
    ensures |alpha| >= 1 && r.Failure? ==> r.error == NonPositiveConcentration
  {
    if |alpha| == 0 then Failure(EmptyConcentration)
    else if !ScanPositive(alpha) then Failure(NonPositiveConcentration)
    else Success(Dirichlet(alpha))
  }

  /** Replaces the parameters in place: the length is checked first, then the
      positivity of every entry; only then is the vector replaced. */
  function SetAlpha(d: Dirichlet, newAlpha: seq<real>): (r: Result<Dirichlet>)
    ensures r.Success? <==> |newAlpha| == Dimension(d) && AllPositive(newAlpha)
    ensures r.Success? ==> r.value.alpha == newAlpha && Dimension(r.value) == Dimension(d)
    ensures r.Success? && Valid(d) ==> Valid(r.value)
    ensures |newAlpha| != Dimension(d) ==> r == Failure(DimensionChanged)
    ensures |newAlpha| == Dimension(d) && r.Failure? ==> r.error == NonPositiveConcentration
  {
    if |newAlpha| != |d.alpha| then Failure(DimensionChanged)
    else if !ScanPositive(newAlpha) then Failure(NonPositiveConcentration)
    else Success(Dirichlet(newAlpha))
  }

  /** The mean: each concentration over the total concentration. */
  function Mean(d: Dirichlet): (m: seq<real>)
    requires Valid(d)
    ensures |m| == Dimension(d)
    ensures Sum(m) == 1.0
    ensures AllPositive(m)
    ensures forall i :: 0 <= i < |m| ==> m[i] * Sum(d.alpha) == d.alpha[i]
  {
    ProportionsPositive(d.alpha);
    Proportions(d.alpha)
  }

  /** One entry of the mean, stated against any expressions equal to the
      total concentration and to the entry's own concentration. */
  lemma MeanEntry(d: Dirichlet, m: seq<real>, i: int, total: real, a: real)
    requires Valid(d) && m == Mean(d)
    requires 0 <= i < |d.alpha|
    requires Sum(d.alpha) == total && d.alpha[i] == a
    ensures m[i] * total == a
  {
    var x := m[i];
    assert x * Sum(d.alpha) == d.alpha[i];
  }

  /** Variance of one coordinate with concentration `a` out of a total `s`. */
  function CoordinateVariance(a: real, s: real): real
    requires s > 0.0
  {
    (a * (s - a)) / (s * s * (s + 1.0))
  }

  /** The coordinate variance is the Bernoulli variance of the mean m = a / s
      shrunk by s + 1; it vanishes exactly when the coordinate holds all the
      mass. */
  lemma CoordinateVarianceFacts(a: real, s: real, m: real)
    requires 0.0 < a <= s
    requires m * s == a
    ensures CoordinateVariance(a, s) >= 0.0
    ensures CoordinateVariance(a, s) == 0.0 <==> a == s
    ensures CoordinateVariance(a, s) == ShrunkBernoulli(m, s)
  {
    CoordinateVarianceSign(a, s);
    CoordinateVarianceOfMean(a, s, m);
  }

  lemma CoordinateVarianceSign(a: real, s: real)
    requires 0.0 < a <= s
    ensures CoordinateVariance(a, s) >= 0.0
    ensures CoordinateVariance(a, s) == 0.0 <==> a == s
  {
    var q := s * s;
    ProductSign(s, s);
    ProductSign(q, s + 1.0);
    ProductSign(a, s - a);
    QuotientSign(a * (s - a), q * (s + 1.0));
  }

  lemma CoordinateVarianceOfMean(a: real, s: real, m: real)
    requires 0.0 < a <= s
    requires m * s == a
    ensures CoordinateVariance(a, s) == ShrunkBernoulli(m, s)
  {
    var q := s * s;
    var b := m * (1.0 - m);
    var num := a * (s - a);
    var den := q * (s + 1.0);
    ProductSign(s, s);
    ProductSign(q, s + 1.0);
    assert CoordinateVariance(a, s) == num / den;
    NumeratorFactor(a, s, m);
    Commute(q, s + 1.0);
    DivideEqual(num, den, b * q, (s + 1.0) * q);
    CancelFactor(b, s + 1.0, q);
  }

  lemma DivideEqual(x: real, y: real, x2: real, y2: real)
    requires x == x2 && y == y2 && y != 0.0
    ensures x / y == x2 / y2
  {
  }

  lemma Commute(x: real, y: real)
    ensures x * y == y * x
  {
  }

  lemma NumeratorFactor(a: real, s: real, m: real)
    requires m * s == a
    ensures a * (s - a) == (m * (1.0 - m)) * (s * s)
  {
    assert s - a == s * (1.0 - m);
    assert a * (s - a) == (m * s) * (s * (1.0 - m));
  }

  lemma ProductSign(x: real, y: real)
    requires x > 0.0 && y >= 0.0
    ensures x * y >= 0.0
    ensures x * y == 0.0 <==> y == 0.0
    ensures y > 0.0 ==> x * y > 0.0
  {
  }

  lemma QuotientSign(x: real, y: real)
    requires x >= 0.0 && y > 0.0
    ensures x / y >= 0.0
    ensures x / y == 0.0 <==> x == 0.0
  {
  }

  /** The Bernoulli variance m (1 - m) of a coordinate with mean m, shrunk by
      the total concentration s plus one. */
  function ShrunkBernoulli(m: real, s: real): real
    requires s + 1.0 != 0.0
  {
    m * (1.0 - m) / (s + 1.0)
  }

  /** The closed-form variance of every coordinate. */
  function Variance(d: Dirichlet): (v: seq<real>)
    requires Valid(d)
    ensures Sum(d.alpha) > 0.0
    ensures |v| == Dimension(d)
    ensures forall i :: 0 <= i < |v| ==> v[i] >= 0.0
    ensures forall i :: 0 <= i < |v| ==> v[i] == ShrunkBernoulli(Mean(d)[i], Sum(d.alpha))
    ensures Dimension(d) == 1 ==> forall i :: 0 <= i < |v| ==> v[i] == 0.0
    ensures Dimension(d) >= 2 ==> forall i :: 0 <= i < |v| ==> v[i] > 0.0
  {
    SumPositive(d.alpha);
    seq(|d.alpha|, i requires 0 <= i < |d.alpha| => VarianceAt(d, i))
  }

  /** The variance of coordinate i. */
  function VarianceAt(d: Dirichlet, i: int): (v: real)
    requires Valid(d) && 0 <= i < |d.alpha|
    ensures Sum(d.alpha) > 0.0
    ensures v >= 0.0
    ensures v == ShrunkBernoulli(Mean(d)[i], Sum(d.alpha))
    ensures v == 0.0 <==> |d.alpha| == 1
  {
    VarianceEntry(d, i, Sum(d.alpha), d.alpha[i], Mean(d)[i]);
    CoordinateVariance(d.alpha[i], Sum(d.alpha))
  }

  lemma VarianceEntry(d: Dirichlet, i: int, s: real, a: real, m: real)
    requires Valid(d) && 0 <= i < |d.alpha|
    requires s == Sum(d.alpha) && a == d.alpha[i] && m == Mean(d)[i]
    ensures s > 0.0
    ensures CoordinateVariance(a, s) >= 0.0
    ensures CoordinateVariance(a, s) == ShrunkBernoulli(m, s)
    ensures CoordinateVariance(a, s) == 0.0 <==> |d.alpha| == 1
  {
    ElementBelowSum(d.alpha, i);
    MeanEntry(d, Mean(d), i, s, a);
    CoordinateVarianceFacts(a, s, m);
  }

  /** A coordinate that is not strictly inside (0, 1). */
  predicate OffInterior(r: real) {
    r <= 0.0 || r >= 1.0
  }

  /** The terms (alpha_i - 1) ln x_i of the unnormalised log-density. */
  function DensityTerms(alpha: seq<real>, x: seq<real>, ln: real -> real): (t: seq<real>)
    requires |alpha| == |x|
    ensures |t| == |x|
  {
    seq(|x|, i requires 0 <= i < |x| => (alpha[i] - 1.0) * ln(x[i]))
  }

  /** The logPdf loop from coordinate i on, with `acc` accumulated so far: it
      stops at the first coordinate off the open interval. */
  function LogPdfFrom(alpha: seq<real>, x: seq<real>, ln: real -> real, i: nat, acc: real): (r: LogValue)
    requires |alpha| == |x|
    requires i <= |x|
    ensures r == if exists j :: i <= j < |x| && OffInterior(x[j]) then NegInf
                 else Finite(acc + Sum(DensityTerms(alpha, x, ln)[i..]))
    decreases |x| - i
  {
    if i == |x| then Finite(acc)
    else if OffInterior(x[i]) then NegInf
    else
      SumFrom(DensityTerms(alpha, x, ln), i);
      LogPdfFrom(alpha, x, ln, i + 1, acc + (alpha[i] - 1.0) * ln(x[i]))
  }

  /** The unnormalised log-density; the multivariate Beta normalising constant
      is deliberately left out. */
  function LogPdf(d: Dirichlet, x: seq<real>, ln: real -> real): (r: Result<LogValue>)
    ensures |x| != Dimension(d) ==> r == Failure(DimensionMismatch)
    ensures |x| == Dimension(d) ==>
      (r.Failure? <==> (Sum(x) - 1.0 > SimplexTolerance || 1.0 - Sum(x) > SimplexTolerance))
    ensures |x| == Dimension(d) && r.Failure? ==> r.error == NotOnSimplex
    ensures r.Success? && (exists j :: 0 <= j < |x| && OffInterior(x[j])) ==> r.value == NegInf
    ensures r.Success? && (forall j :: 0 <= j < |x| ==> !OffInterior(x[j])) ==>
      r.value == Finite(Sum(DensityTerms(d.alpha, x, ln)))
  {
    if |x| != |d.alpha| then Failure(DimensionMismatch)
    else
      var total := Sum(x);
      if (if total >= 1.0 then total - 1.0 else 1.0 - total) > SimplexTolerance then Failure(NotOnSimplex)
      else
        var r := LogPdfFrom(d.alpha, x, ln, 0, 0.0);
        assert DensityTerms(d.alpha, x, ln)[0..] == DensityTerms(d.alpha, x, ln);
        Success(r)
  }
}
