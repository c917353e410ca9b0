/** The conjugate Categorical–Dirichlet pair: a Dirichlet posterior over the
    category probabilities, the Categorical point estimate kept equal to its
    mean, and the prior-provenance tag that the initialisers rewrite. */
module ConjugateCategoricalDirichlet {
  import opened Results
  import opened Vectors
  import D = DirichletDistribution
  import C = CategoricalDistribution

  /** How the current prior was produced. */
  datatype PriorType = Jeffreys | EqualAlpha | ManualAlphas | ManualProbs

  /** The Jeffreys concentration per category. */
  const JeffreysAlpha: real := 0.5

  /** The value written to the scalar alpha when the prior is derived from an
      observation distribution. */
  const ManualProbsSingleAlpha: real := -1.0

  /** The object's state. `singleAlpha` is None while the field has never been
      written (the manual-alphas constructor leaves it uninitialised). */
  datatype Model = Model(
    priorType: PriorType,
    singleAlpha: Option<real>,
    manualAlphas: seq<real>,
    parameter: D.Dirichlet,
    observation: C.Categorical)

  /** The state after a mutating call and whether the call completed or threw.
      A call that throws part-way leaves whatever it had already written. */
  datatype Step = Step(state: Model, status: Status)

  /** The class invariant: a valid posterior, the observation model equal to its
      mean, and the scalar and manual alphas meaningful under the tags that
      report them. */
  predicate Inv(m: Model) {
    && D.Valid(m.parameter)
    && m.observation.probs == D.Mean(m.parameter)
    && (m.priorType == Jeffreys ==> m.singleAlpha == Some(JeffreysAlpha))
    && (m.priorType == EqualAlpha ==> m.singleAlpha.Some? && m.singleAlpha.value > 0.0)
    && (m.priorType == ManualAlphas ==>
          |m.manualAlphas| == D.Dimension(m.parameter) && AllPositive(m.manualAlphas))
  }

  /** The observation distribution built from the Dirichlet mean. */
  function Observe(d: D.Dirichlet): (c: C.Categorical)
    requires D.Valid(d)
    ensures C.Valid(c)
    ensures c.probs == D.Mean(d)
  {
    C.Make(D.Mean(d)).value
  }

  /** Installs a new posterior and rebuilds the observation distribution from
      its mean: the one invariant-restoring step every mutator ends with. */
  function Rebuild(m: Model, d: D.Dirichlet): (r: Model)
    requires D.Valid(d)
    ensures r.parameter == d && r.observation.probs == D.Mean(d)
    ensures r.priorType == m.priorType && r.singleAlpha == m.singleAlpha
    ensures r.manualAlphas == m.manualAlphas
  {
    m.(parameter := d, observation := Observe(d))
  }

  /** initialise(K): the tag and the scalar are written before the Dirichlet is
      built, so K = 0 throws with the tag already switched to Jeffreys. */
  function Initialise(m: Model, k: nat): (s: Step)
    ensures s.state.priorType == Jeffreys && s.state.singleAlpha == Some(JeffreysAlpha)
    ensures s.state.manualAlphas == m.manualAlphas
    ensures s.status.Done? <==> k >= 1
    ensures s.status.Done? ==> Inv(s.state) && s.state.parameter.alpha == Repeat(JeffreysAlpha, k)
    ensures s.status.Failed? ==>
      && s.status.error == EmptyConcentration
      && s.state.parameter == m.parameter
      && s.state.observation == m.observation
    ensures Inv(m) ==> Inv(s.state)
  {
    var tagged := m.(priorType := Jeffreys, singleAlpha := Some(JeffreysAlpha));
    match D.Make(Repeat(JeffreysAlpha, k))
    case Failure(e) => Step(tagged, Failed(e))
    case Success(d) => Step(Rebuild(tagged, d), Done)
  }

  /** initialise(alphas): the Dirichlet is validated first; on success the tag
      and the manual alphas are written, the scalar alpha is left as it was. */
  function InitialiseManual(m: Model, alphas: seq<real>): (s: Step)
    ensures s.status.Done? <==> |alphas| >= 1 && AllPositive(alphas)
    ensures s.status.Failed? ==> s.state == m
    ensures |alphas| == 0 ==> s.status == Failed(EmptyConcentration)
    ensures |alphas| >= 1 && s.status.Failed? ==> s.status.error == NonPositiveConcentration
    ensures s.status.Done? ==>
      && Inv(s.state)
      && s.state.priorType == ManualAlphas
      && s.state.parameter.alpha == alphas
      && s.state.manualAlphas == alphas
      && s.state.singleAlpha == m.singleAlpha
    ensures Inv(m) ==> Inv(s.state)
  {
    match D.Make(alphas)
    case Failure(e) => Step(m, Failed(e))
    case Success(d) => Step(Rebuild(m, d).(priorType := ManualAlphas, manualAlphas := alphas), Done)
  }

  /** initialise(K, a): delegates to initialise(alphas) with K copies of a, which
      also records them as the manual alphas, then retags as EqualAlpha. */
  function InitialiseEqual(m: Model, k: nat, a: real): (s: Step)
    ensures s.status.Done? <==> k >= 1 && a > 0.0
    ensures s.status.Failed? ==> s.state == m
    ensures k == 0 ==> s.status == Failed(EmptyConcentration)
    ensures k >= 1 && s.status.Failed? ==> s.status.error == NonPositiveConcentration
    ensures s.status.Done? ==>
      && Inv(s.state)
      && s.state.priorType == EqualAlpha
      && s.state.singleAlpha == Some(a)
      && s.state.parameter.alpha == Repeat(a, k)
      && s.state.manualAlphas == Repeat(a, k)
    ensures Inv(m) ==> Inv(s.state)
  {
    var s := InitialiseManual(m, Repeat(a, k));
    if s.status.Failed? then s
    else Step(s.state.(priorType := EqualAlpha, singleAlpha := Some(a)), Done)
  }

  /** The total concentration of a Jeffreys prior over k categories. */
  function JeffreysMass(k: nat): (t: real)
    ensures k >= 1 ==> t > 0.0
  {
    k as real * JeffreysAlpha
  }

  /** initialiseJeffreysFromObservationDistribution (and its alias
      setJeffreysFromObservationDistribution): a Jeffreys-sized total mass of
      K / 2 shared out in proportion to the given probabilities. The tag and the
      scalar are written first, so a zero probability throws after the retag. */
  function InitialiseFromObservation(m: Model, obs: C.Categorical): (s: Step)
    requires C.Valid(obs)
    ensures s.state.priorType == ManualProbs
    ensures s.state.singleAlpha == Some(ManualProbsSingleAlpha)
    ensures s.state.manualAlphas == m.manualAlphas
    ensures s.status.Done? <==> AllPositive(obs.probs)
    ensures s.status.Failed? ==>
      && s.status.error == NonPositiveConcentration
      && s.state.parameter == m.parameter
      && s.state.observation == m.observation
    ensures s.status.Done? ==>
      && Inv(s.state)
      && D.Dimension(s.state.parameter) == |obs.probs|
      && s.state.parameter.alpha == Scale(obs.probs, JeffreysMass(|obs.probs|))
      && Sum(s.state.parameter.alpha) == JeffreysMass(|obs.probs|)
      && s.state.observation == obs
    ensures Inv(m) ==> Inv(s.state)
  {
    var tagged := m.(priorType := ManualProbs, singleAlpha := Some(ManualProbsSingleAlpha));
    ScalePositive(obs.probs, JeffreysMass(|obs.probs|));
    match D.Make(Scale(obs.probs, JeffreysMass(|obs.probs|)))
    case Failure(e) => Step(tagged, Failed(e))
    case Success(d) =>
      ProportionsScaleInvariant(obs.probs, JeffreysMass(|obs.probs|));
      Step(Rebuild(tagged, d), Done)
  }

  /** Deriving the prior from the uniform observation distribution gives back
      the Jeffreys concentrations, under the ManualProbs tag. */
  lemma UniformObservationIsJeffreys(m: Model, k: nat)
    requires k >= 1
    ensures C.Valid(C.Categorical(Repeat(1.0 / k as real, k)))
    ensures var s := InitialiseFromObservation(m, C.Categorical(Repeat(1.0 / k as real, k)));
      && s.status.Done?
      && s.state.parameter.alpha == Repeat(JeffreysAlpha, k)
      && s.state.priorType == ManualProbs
  {
    var probs := Repeat(1.0 / k as real, k);
    SumRepeat(1.0 / k as real, k);
    assert k as real * (1.0 / k as real) == 1.0;
    forall i | 0 <= i < k
      ensures Scale(probs, JeffreysMass(k))[i] == Repeat(JeffreysAlpha, k)[i]
    {
      ShareOfMass(k as real);
    }
    assert Scale(probs, JeffreysMass(k)) == Repeat(JeffreysAlpha, k);
  }

  lemma ShareOfMass(n: real)
    requires n > 0.0
    ensures (1.0 / n) * (n * JeffreysAlpha) == JeffreysAlpha
  {
  }

  /** Scaling by a positive factor keeps exactly the positive entries positive. */
  lemma ScalePositive(v: seq<real>, t: real)
    requires t > 0.0
    ensures AllPositive(Scale(v, t)) <==> AllPositive(v)
  {
    forall i | 0 <= i < |v|
      ensures Scale(v, t)[i] > 0.0 <==> v[i] > 0.0
    {
      var x := v[i];
      assert Scale(v, t)[i] == x * t;
      if x > 0.0 {
        assert x * t > 0.0;
      } else {
        assert x * t <= 0.0;
      }
    }
  }

  /** setJeffreysPrior: initialise(K) with the current number of categories. */
  function SetJeffreysPrior(m: Model): (s: Step)
    ensures D.Dimension(s.state.parameter) == D.Dimension(m.parameter)
    ensures s.state.priorType == Jeffreys && s.state.singleAlpha == Some(JeffreysAlpha)
    ensures Inv(m) ==>
      && s.status.Done?
      && Inv(s.state)
      && s.state.parameter.alpha == Repeat(JeffreysAlpha, D.Dimension(m.parameter))
  {
    Initialise(m, D.Dimension(m.parameter))
  }

  /** setAllParameterAlphasTo(a): initialise(K, a) with the current number of
      categories. */
  function SetAllParameterAlphasTo(m: Model, a: real): (s: Step)
    ensures D.Dimension(s.state.parameter) == D.Dimension(m.parameter)
    ensures s.status.Failed? ==> s.state == m
    ensures Inv(m) ==> (s.status.Done? <==> a > 0.0) && Inv(s.state)
    ensures D.Dimension(m.parameter) == 0 ==> s.status == Failed(EmptyConcentration)
    ensures D.Dimension(m.parameter) >= 1 && s.status.Failed? ==>
      s.status.error == NonPositiveConcentration
    ensures s.status.Done? ==>
      && s.state.priorType == EqualAlpha
      && s.state.singleAlpha == Some(a)
      && s.state.parameter.alpha == Repeat(a, D.Dimension(m.parameter))
  {
    InitialiseEqual(m, D.Dimension(m.parameter), a)
  }

  /** The conjugate posterior parameters: each count added to its concentration. */
  function Posterior(alpha: seq<real>, counts: seq<int>): (r: seq<real>)
    requires |alpha| == |counts|
    ensures |r| == |alpha|
    ensures forall i :: 0 <= i < |alpha| ==> r[i] == alpha[i] + counts[i] as real
    ensures Sum(r) == Sum(alpha) + Sum(Reals(counts))
  {
    SumAdd(alpha, Reals(counts));
    Add(alpha, Reals(counts))
  }

  /** updateFromObservations: checks the length, adds the counts to the alphas
      through setAlpha (which rejects a non-positive result), then rebuilds the
      observation distribution. The tag and the stored scalars never change. */
  function UpdateFromObservations(m: Model, counts: seq<int>): (s: Step)
    requires D.Valid(m.parameter)
    ensures D.Valid(s.state.parameter)
    ensures |counts| != D.Dimension(m.parameter) ==> s == Step(m, Failed(CountsLengthMismatch))
    ensures s.status.Done? <==>
      |counts| == D.Dimension(m.parameter) &&
      forall i :: 0 <= i < |counts| ==> m.parameter.alpha[i] + counts[i] as real > 0.0
    ensures s.status.Failed? ==> s.state == m
    ensures |counts| == D.Dimension(m.parameter) && s.status.Failed? ==>
      s.status.error == NonPositiveConcentration
    ensures s.status.Done? ==>
      && D.Dimension(s.state.parameter) == D.Dimension(m.parameter)
      && (forall i :: 0 <= i < |counts| ==>
            s.state.parameter.alpha[i] == m.parameter.alpha[i] + counts[i] as real)
      && Sum(s.state.parameter.alpha) == Sum(m.parameter.alpha) + Sum(Reals(counts))
      && s.state.observation.probs == D.Mean(s.state.parameter)
      && s.state.priorType == m.priorType
      && s.state.singleAlpha == m.singleAlpha
      && s.state.manualAlphas == m.manualAlphas
    ensures Inv(m) ==> Inv(s.state)
  {
    if |counts| != D.Dimension(m.parameter) then Step(m, Failed(CountsLengthMismatch))
    else
      match D.SetAlpha(m.parameter, Posterior(m.parameter.alpha, counts))
      case Failure(e) => Step(m, Failed(e))
      case Success(d) => Step(Rebuild(m, d), Done)
  }

  /** `probs` is the posterior mean after observing `counts` under `alpha`:
      (alpha_i + count_i) over (total alpha + total count). */
  predicate IsPosteriorMean(probs: seq<real>, alpha: seq<real>, counts: seq<int>) {
    && |probs| == |alpha| == |counts|
    && forall i :: 0 <= i < |counts| ==>
         probs[i] * PosteriorTotal(alpha, counts) == alpha[i] + counts[i] as real
  }

  /** Total concentration plus total count. */
  function PosteriorTotal(alpha: seq<real>, counts: seq<int>): real {
    Sum(alpha) + Sum(Reals(counts))
  }

  /** After a successful update the observation distribution is the posterior mean. */
  lemma UpdatePosteriorMean(m: Model, counts: seq<int>)
    requires D.Valid(m.parameter)
    requires UpdateFromObservations(m, counts).status.Done?
    ensures IsPosteriorMean(UpdateFromObservations(m, counts).state.observation.probs, m.parameter.alpha, counts)
  {
    var s := UpdateFromObservations(m, counts);
    assert Sum(s.state.parameter.alpha) == PosteriorTotal(m.parameter.alpha, counts);
    PosteriorMeanOf(s.state.parameter, s.state.observation.probs, m.parameter.alpha, counts);
  }

  lemma PosteriorMeanOf(d: D.Dirichlet, probs: seq<real>, alpha: seq<real>, counts: seq<int>)
    requires |alpha| == |counts|
    requires D.Valid(d) && probs == D.Mean(d) && |d.alpha| == |alpha|
    requires forall i :: 0 <= i < |alpha| ==> d.alpha[i] == alpha[i] + counts[i] as real
    requires Sum(d.alpha) == PosteriorTotal(alpha, counts)
    ensures IsPosteriorMean(probs, alpha, counts)
  {
    forall i | 0 <= i < |counts|
      ensures probs[i] * PosteriorTotal(alpha, counts) == alpha[i] + counts[i] as real
    {
      D.MeanEntry(d, probs, i, PosteriorTotal(alpha, counts), alpha[i] + counts[i] as real);
    }
  }

  /** Two count vectors observed together, category by category. */
  function CombineCounts(c1: seq<int>, c2: seq<int>): (c: seq<int>)
    requires |c1| == |c2|
    ensures |c| == |c1|
    ensures forall i :: 0 <= i < |c1| ==> c[i] == c1[i] + c2[i]
    ensures Reals(c) == Add(Reals(c1), Reals(c2))
  {
    var c := seq(|c1|, i requires 0 <= i < |c1| => c1[i] + c2[i]);
    assert Reals(c) == Add(Reals(c1), Reals(c2)) by {
      forall i | 0 <= i < |c1|
        ensures Reals(c)[i] == Add(Reals(c1), Reals(c2))[i]
      {
      }
    }
    c
  }

  /** Updates compose additively: two successful updates in a row leave the
      same state as one update with the combined counts, and with non-negative
      counts both updates always succeed. */
  lemma {:induction false} UpdatesCompose(m: Model, c1: seq<int>, c2: seq<int>)
    requires D.Valid(m.parameter)
    requires |c1| == |c2|
    ensures var s1 := UpdateFromObservations(m, c1);
      s1.status.Done? && UpdateFromObservations(s1.state, c2).status.Done? ==>
        UpdateFromObservations(m, CombineCounts(c1, c2)) == UpdateFromObservations(s1.state, c2)
    ensures (|c1| == D.Dimension(m.parameter) &&
             forall i :: 0 <= i < |c1| ==> c1[i] >= 0 && c2[i] >= 0) ==>
        && UpdateFromObservations(m, c1).status.Done?
        && UpdateFromObservations(UpdateFromObservations(m, c1).state, c2).status.Done?
  {
    var s1 := UpdateFromObservations(m, c1);
    if s1.status.Done? && UpdateFromObservations(s1.state, c2).status.Done? {
      var s2 := UpdateFromObservations(s1.state, c2);
      var once := UpdateFromObservations(m, CombineCounts(c1, c2));
      var alpha := Posterior(m.parameter.alpha, CombineCounts(c1, c2));
      forall i | 0 <= i < |c1|
        ensures alpha[i] == s2.state.parameter.alpha[i]
      {
        assert CombineCounts(c1, c2)[i] as real == c1[i] as real + c2[i] as real;
      }
      assert alpha == s2.state.parameter.alpha;
      assert once.status.Done?;
      assert once.state.parameter == s2.state.parameter;
    }
  }

  /** The terms lnΓ(c_i + α_i) − lnΓ(α_i) of the Dirichlet–multinomial marginal. */
  function MarginalTerms(alpha: seq<real>, counts: seq<int>, lnGamma: real -> real): (t: seq<real>)
    requires |alpha| == |counts|
    ensures |t| == |alpha|
  {
    seq(|alpha|, i requires 0 <= i < |alpha| =>
      lnGamma(counts[i] as real + alpha[i]) - lnGamma(alpha[i]))
  }

  /** The marginal-likelihood loop from category i on, carrying the running
      alpha total, count total and log-likelihood. */
  function MarginalFrom(alpha: seq<real>, counts: seq<int>, lnGamma: real -> real,
                        i: nat, alphaTotal: real, countTotal: real, acc: real): (r: real)
    requires |alpha| == |counts|
    requires i <= |alpha|
    ensures r == acc + Sum(MarginalTerms(alpha, counts, lnGamma)[i..])
                 + lnGamma(alphaTotal + Sum(alpha[i..]))
                 - lnGamma((countTotal + Sum(Reals(counts)[i..])) + (alphaTotal + Sum(alpha[i..])))
    decreases |alpha| - i
  {
    if i == |alpha| then
      assert alpha[i..] == [] && Reals(counts)[i..] == [];
      assert MarginalTerms(alpha, counts, lnGamma)[i..] == [];
      acc + lnGamma(alphaTotal) - lnGamma(countTotal + alphaTotal)
    else
      SumFrom(MarginalTerms(alpha, counts, lnGamma), i);
      SumFrom(alpha, i);
      SumFrom(Reals(counts), i);
      assert alphaTotal + Sum(alpha[i..]) == (alphaTotal + alpha[i]) + Sum(alpha[i + 1..]);
      assert (countTotal + Sum(Reals(counts)[i..])) + (alphaTotal + Sum(alpha[i..]))
          == ((countTotal + counts[i] as real) + Sum(Reals(counts)[i + 1..])) + ((alphaTotal + alpha[i]) + Sum(alpha[i + 1..]));
      MarginalFrom(alpha, counts, lnGamma, i + 1,
                   alphaTotal + alpha[i], countTotal + counts[i] as real,
                   acc + (lnGamma(counts[i] as real + alpha[i]) - lnGamma(alpha[i])))
  }

  /** getLogLikelihoodFromObservations: the Dirichlet–multinomial (Pólya) log
      marginal likelihood of the counts under the current alphas. It is a pure
      query: it returns a value and no new state. */
  function GetLogLikelihoodFromObservations(m: Model, counts: seq<int>, lnGamma: real -> real): (r: Result<real>)
    ensures r.Failure? <==> |counts| != D.Dimension(m.parameter)
    ensures r.Failure? ==> r.error == CountsLengthMismatch
    ensures r.Success? ==>
      r.value == Sum(MarginalTerms(m.parameter.alpha, counts, lnGamma))
                 + lnGamma(Sum(m.parameter.alpha))
                 - lnGamma(Sum(Reals(counts)) + Sum(m.parameter.alpha))
  {
    if |counts| != D.Dimension(m.parameter) then Failure(CountsLengthMismatch)
    else
      var alpha := m.parameter.alpha;
      assert alpha[0..] == alpha;
      assert Reals(counts)[0..] == Reals(counts);
      assert MarginalTerms(alpha, counts, lnGamma)[0..] == MarginalTerms(alpha, counts, lnGamma);
      assert 0.0 + Sum(alpha[0..]) == Sum(alpha);
      assert (0.0 + Sum(Reals(counts)[0..])) + (0.0 + Sum(alpha[0..])) == Sum(Reals(counts)) + Sum(alpha);
      Success(MarginalFrom(alpha, counts, lnGamma, 0, 0.0, 0.0, 0.0))
  }

  /** Observing nothing is certain: an all-zero count vector of the right
      length has log marginal likelihood exactly zero. */
  lemma {:induction false} NoObservationsMarginal(m: Model, counts: seq<int>, lnGamma: real -> real)
    requires |counts| == D.Dimension(m.parameter)
    requires forall i :: 0 <= i < |counts| ==> counts[i] == 0
    ensures GetLogLikelihoodFromObservations(m, counts, lnGamma) == Success(0.0)
  {
    assert MarginalTerms(m.parameter.alpha, counts, lnGamma) == Repeat(0.0, |counts|);
    assert Reals(counts) == Repeat(0.0, |counts|);
    SumRepeat(0.0, |counts|);
  }

  /** getSingleAlpha: defined only under the Jeffreys and EqualAlpha tags. */
  function GetSingleAlpha(m: Model): (r: Result<real>)
    requires Inv(m)
    ensures r.Success? <==> m.priorType == Jeffreys || m.priorType == EqualAlpha
    ensures r.Failure? ==> r.error == NoSingleAlpha && !r.error.IsInvalidArgument()
    ensures m.priorType == Jeffreys ==> r == Success(JeffreysAlpha)
    ensures m.priorType == EqualAlpha ==> r.Success? && r.value > 0.0
    ensures r.Success? ==> m.singleAlpha == Some(r.value)
  {
    if m.priorType == Jeffreys || m.priorType == EqualAlpha then Success(m.singleAlpha.value)
    else Failure(NoSingleAlpha)
  }

  /** The scalar written by setAllParameterAlphasTo(a) is the one getSingleAlpha
      reads back, and after setJeffreysPrior it reads 0.5. */
  lemma SingleAlphaReadBack(m: Model, a: real)
    requires Inv(m)
    ensures a > 0.0 ==> GetSingleAlpha(SetAllParameterAlphasTo(m, a).state) == Success(a)
    ensures GetSingleAlpha(SetJeffreysPrior(m).state) == Success(JeffreysAlpha)
  {
  }

  /** getNumCategories reads the observation distribution's length, which the
      invariant ties to the Dirichlet's dimension. */
  function GetNumCategories(m: Model): (n: nat)
    requires Inv(m)
    ensures n == D.Dimension(m.parameter) && n >= 1
  {
    |m.observation.probs|
  }

  /** getAlphas: the current concentrations, one per category, which the
      observation probabilities reproduce once normalised. */
  function GetAlphas(m: Model): (a: seq<real>)
    requires Inv(m)
    ensures |a| == GetNumCategories(m)
    ensures AllPositive(a)
    ensures forall i :: 0 <= i < |a| ==> m.observation.probs[i] * Sum(m.parameter.alpha) == a[i]
  {
    m.parameter.alpha
  }

  /** Copy construction and assignment: every field copied, both distributions
      rebuilt from their contents, nothing shared. */
  function Copy(m: Model): (r: Model)
    ensures r == m
  {
    Model(m.priorType, m.singleAlpha, m.manualAlphas,
          D.Dirichlet(m.parameter.alpha), C.Categorical(m.observation.probs))
  }

  /** The members before a constructor's body runs: no distributions yet
      (represented as empty), no manual alphas, and the scalar never written.
      The tag is overwritten by every successful initialiser. */
  const Unconstructed: Model :=
    Model(Jeffreys, None, [], D.Dirichlet([]), C.Categorical([]))

  /** A constructor either completes with the initialised state or throws. */
  function Construct(s: Step): Result<Model> {
    if s.status.Done? then Success(s.state) else Failure(s.status.error)
  }

  /** The default constructor: two categories under the Jeffreys prior. */
  function NewDefault(): (m: Model)
    ensures Inv(m)
    ensures m.priorType == Jeffreys
    ensures GetSingleAlpha(m) == Success(0.5)
    ensures GetNumCategories(m) == 2
    ensures m.parameter.alpha == [0.5, 0.5]
    ensures m.observation.probs == [0.5, 0.5]
  {
    var s := Initialise(Unconstructed, 2);
    ProportionsRepeat(JeffreysAlpha, 2);
    assert Repeat(JeffreysAlpha, 2) == [0.5, 0.5];
    s.state
  }

  /** Construction with K categories under the Jeffreys prior. */
  function NewWithCategories(k: nat): (r: Result<Model>)
    ensures r.Success? <==> k >= 1
    ensures r.Failure? ==> r.error == EmptyConcentration
    ensures r.Success? ==>
      && Inv(r.value)
      && r.value.priorType == Jeffreys
      && GetSingleAlpha(r.value) == Success(JeffreysAlpha)
      && r.value.parameter.alpha == Repeat(JeffreysAlpha, k)
      && r.value.observation.probs == Repeat(1.0 / k as real, k)
  {
    var s := Initialise(Unconstructed, k);
    if k >= 1 then ProportionsRepeat(JeffreysAlpha, k); Construct(s)
    else Construct(s)
  }

  /** Construction with K categories all of concentration a. */
  function NewWithEqualAlpha(k: nat, a: real): (r: Result<Model>)
    ensures r.Success? <==> k >= 1 && a > 0.0
    ensures k == 0 ==> r == Failure(EmptyConcentration)
    ensures k >= 1 && r.Failure? ==> r.error == NonPositiveConcentration
    ensures r.Success? ==>
      && Inv(r.value)
      && r.value.priorType == EqualAlpha
      && GetSingleAlpha(r.value) == Success(a)
      && r.value.parameter.alpha == Repeat(a, k)
      && r.value.manualAlphas == Repeat(a, k)
      && r.value.observation.probs == Repeat(1.0 / k as real, k)
  {
    var s := InitialiseEqual(Unconstructed, k, a);
    if k >= 1 && a > 0.0 then ProportionsRepeat(a, k); Construct(s)
    else Construct(s)
  }

  /** Construction from an explicit alpha vector. */
  function NewWithAlphas(alphas: seq<real>): (r: Result<Model>)
    ensures r.Success? <==> |alphas| >= 1 && AllPositive(alphas)
    ensures |alphas| == 0 ==> r == Failure(EmptyConcentration)
    ensures |alphas| >= 1 && r.Failure? ==> r.error == NonPositiveConcentration
    ensures r.Success? ==>
      && Inv(r.value)
      && r.value.priorType == ManualAlphas
      && GetSingleAlpha(r.value) == Failure(NoSingleAlpha)
      && r.value.parameter.alpha == alphas
      && r.value.manualAlphas == alphas
      && (forall i :: 0 <= i < |alphas| ==> r.value.observation.probs[i] * Sum(alphas) == alphas[i])
  {
    Construct(InitialiseManual(Unconstructed, alphas))
  }
}
