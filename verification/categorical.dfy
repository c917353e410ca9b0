/** The categorical distribution: a normalised probability vector and the
    log-likelihood of a vector of category counts under it. */
module CategoricalDistribution {
  import opened Results
  import opened Vectors

  datatype Categorical = Categorical(probs: seq<real>)

  /** What construction guarantees: at least one category and a total of one.
      Entries are not checked for sign, so a negative entry can survive. */
  predicate Valid(c: Categorical) {
    |c.probs| >= 1 && Sum(c.probs) == 1.0
  }

  /** The private normalisation step: rejects a non-positive total, otherwise
      divides every entry by the total. */
  function Normalise(v: seq<real>): (r: Result<seq<real>>)
    ensures r.Success? <==> Sum(v) > 0.0
    ensures r.Failure? ==> r.error == NonPositiveTotal
    ensures r.Success? ==> |r.value| == |v| && Sum(r.value) == 1.0
    ensures r.Success? ==> forall i :: 0 <= i < |v| ==> r.value[i] * Sum(v) == v[i]
    ensures Sum(v) == 1.0 ==> r == Success(v)
  {
    if Sum(v) <= 0.0 then Failure(NonPositiveTotal)
    else Success(Proportions(v))
  }

  /** The constructor: rejects an empty vector, then normalises. */
  function Make(v: seq<real>): (r: Result<Categorical>)
    ensures r.Success? <==> |v| >= 1 && Sum(v) > 0.0
    ensures |v| == 0 ==> r == Failure(EmptyProbabilities)
    ensures |v| >= 1 && r.Failure? ==> r.error == NonPositiveTotal
    ensures r.Success? ==> Valid(r.value) && |r.value.probs| == |v|
    ensures r.Success? ==> forall i :: 0 <= i < |v| ==> r.value.probs[i] * Sum(v) == v[i]
    ensures |v| >= 1 && Sum(v) == 1.0 ==> r == Success(Categorical(v))
  {
    if |v| == 0 then Failure(EmptyProbabilities)
    else
      var p :- Normalise(v);
      Success(Categorical(p))
  }

  /** An observed category (positive count) that was given no probability. */
  predicate ImpossibleAt(p: real, count: int) {
    p <= 0.0 && count > 0
  }

  /** The contribution of one category: count * ln p when the count is
      positive, nothing otherwise. */
  function CountTerms(probs: seq<real>, counts: seq<int>, ln: real -> real): (t: seq<real>)
    requires |probs| == |counts|
    ensures |t| == |counts|
    ensures forall i :: 0 <= i < |counts| && counts[i] <= 0 ==> t[i] == 0.0
  {
    seq(|counts|, i requires 0 <= i < |counts| =>
      if counts[i] > 0 then counts[i] as real * ln(probs[i]) else 0.0)
  }

  /** The log_likelihood loop from category i on, with `acc` accumulated so
      far: it returns negative infinity at the first impossible category. */
  function LogLikelihoodFrom(probs: seq<real>, counts: seq<int>, ln: real -> real, i: nat, acc: real): (r: LogValue)
    requires |probs| == |counts|
    requires i <= |counts|
    ensures r == if exists j :: i <= j < |counts| && ImpossibleAt(probs[j], counts[j]) then NegInf
                 else Finite(acc + Sum(CountTerms(probs, counts, ln)[i..]))
    decreases |counts| - i
  {
    if i == |counts| then Finite(acc)
    else if ImpossibleAt(probs[i], counts[i]) then NegInf
    else
      SumFrom(CountTerms(probs, counts, ln), i);
      var acc' := if counts[i] > 0 then acc + counts[i] as real * ln(probs[i]) else acc;
      LogLikelihoodFrom(probs, counts, ln, i + 1, acc')
  }

  /** Log-likelihood of a count vector: negative infinity as soon as one
      observed category has no probability, whatever the other categories hold;
      otherwise the sum of count * ln p over the observed categories. */
  function LogLikelihood(c: Categorical, counts: seq<int>, ln: real -> real): (r: Result<LogValue>)
    ensures r.Failure? <==> |counts| != |c.probs|
    ensures r.Failure? ==> r.error == CountsLengthMismatch
    ensures r.Success? ==>
      (r.value == NegInf <==> exists j :: 0 <= j < |counts| && ImpossibleAt(c.probs[j], counts[j]))
    ensures r.Success? && r.value.Finite? ==> r.value.value == Sum(CountTerms(c.probs, counts, ln))
  {
    if |counts| != |c.probs| then Failure(CountsLengthMismatch)
    else
      var r := LogLikelihoodFrom(c.probs, counts, ln, 0, 0.0);
      assert CountTerms(c.probs, counts, ln)[0..] == CountTerms(c.probs, counts, ln);
      Success(r)
  }

  /** Observing nothing has likelihood one: an all-zero count vector of the
      right length gives exactly zero. */
  lemma {:induction false} NoObservationsLogLikelihood(c: Categorical, counts: seq<int>, ln: real -> real)
    requires |counts| == |c.probs|
    requires forall i :: 0 <= i < |counts| ==> counts[i] == 0
    ensures LogLikelihood(c, counts, ln) == Success(Finite(0.0))
  {
    var t := CountTerms(c.probs, counts, ln);
    assert t == Repeat(0.0, |counts|);
    SumRepeat(0.0, |counts|);
  }
}
