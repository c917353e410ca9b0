# bayes_tree inference core in Dafny

This project models the Bayesian core of `bayes_tree`, which is a conjugate pair made of three parts:

- **Dirichlet distribution.** It holds a vector of concentration parameters and provides:
  - validated construction and `setAlpha`;
  - the closed-form mean and variance;
  - the unnormalised log-density `logPdf`.
- **Categorical distribution.** Its constructor normalises a weight vector onto the simplex. `log_likelihood` scores a vector of category counts and returns negative infinity for an impossible outcome.
- **Conjugate Categorical–Dirichlet pair.** It is a small state machine over the prior-provenance tag `Jeffreys | EqualAlpha | ManualAlphas | ManualProbs`:
  - the initialisers rewrite the tag;
  - `updateFromObservations` performs the posterior update `alpha += counts`;
  - the observation distribution is kept equal to the Dirichlet mean;
  - `getLogLikelihoodFromObservations` is the Dirichlet–multinomial marginal likelihood.

## How the model reads the C++

- Modules:
  - `Results`: the error cases and the `Result`, `Status`, `Option` and `LogValue` types.
  - `Vectors`: sums, positivity and normalisation of real vectors.
  - `DirichletDistribution`, `CategoricalDistribution` and `ConjugateCategoricalDirichlet`: one module per class.
- `double` is read as `real`. Sums are exact.
- `std::log` and `std::lgamma` are arbitrary functions `ln`, `lnGamma: real -> real`, passed as parameters. Every property proved about them therefore holds for any choice of those functions.
- Negative infinity is `LogValue.NegInf`.
- Every `std::invalid_argument` is a `Failure` carrying one `Error` constructor per kind of check. The `std::logic_error` of `getSingleAlpha` is `NoSingleAlpha`.
- Value semantics replace `unique_ptr`: a pair is the record `Model(priorType, singleAlpha, manualAlphas, parameter, observation)`.
- A mutating member of the pair returns a `Step`, which holds the new state and whether the call completed or threw. A call that throws part-way therefore shows what it had already written.
- `single_alpha_` is an `Option`. `None` means it was never written, which is the case after the manual-alphas constructor. The invariant `Inv` guarantees it is only read while it holds a value.
- The loops of `logPdf`, `log_likelihood` and `getLogLikelihoodFromObservations` are tail-recursive accumulator functions (`LogPdfFrom`, `LogLikelihoodFrom`, `MarginalFrom`). Their contracts give the closed-form sums that the loops compute.
- A constructor runs its initialiser on `Unconstructed` (no distributions yet, scalar unset). It then turns the `Step` into a `Result`.

Behaviours of the code worth knowing:

- The Categorical constructor does not reject negative entries; it only rejects an empty vector or a non-positive total (`src/categorical_distribution.cpp:10-25`). `Valid` therefore asks only for at least one entry and a total of one.
- `initialise(int)` writes the tag and the scalar before it builds the Dirichlet (`src/conjugate_categorical_dirichlet.cpp:50-54`). The same holds for `initialiseJeffreysFromObservationDistribution` (`:84-85` before `:99`). A failed call therefore leaves the tag changed but the distributions as they were; the call is not validate-then-commit. `Initialise` and `InitialiseFromObservation` state this.
- `initialise(K, a)` delegates to `initialise(alphas)`, so it also records `[a]×K` as the manual alphas.
- `getNumCategories` reads the length of the observation distribution, not the Dirichlet dimension. The invariant proves the two are equal.

## Model

| member | source | states |
|---|---|---|
| Vectors.ScanPositive | src/dirichlet_distribution.cpp:15-19 | the left-to-right validation loop accepts exactly the vectors whose every entry is strictly positive |
| Vectors.Proportions | src/dirichlet_distribution.cpp:50-57 | dividing a vector by its total keeps the length, the entries sum to 1, entry i times the total is the i-th input, and a vector already summing to 1 is returned unchanged |
| Vectors.ProportionsScaleInvariant | src/conjugate_categorical_dirichlet.cpp:90-102 | scaling a vector by a non-zero factor multiplies its total by that factor and leaves its normalisation unchanged |
| Vectors.ProportionsRepeat | src/conjugate_categorical_dirichlet.cpp:53-57 | K equal non-zero concentrations total K·a and normalise to the uniform vector 1/K |
| DirichletDistribution.Make | src/dirichlet_distribution.cpp:8-20 | construction succeeds exactly when alpha is non-empty and all positive; the empty check comes first; on success the stored alpha is the input and the class invariant holds |
| DirichletDistribution.SetAlpha | src/dirichlet_distribution.cpp:73-83 | a length change is rejected first, then any entry <= 0; on success the alpha is exactly the new vector, the dimension is unchanged and the invariant is kept |
| DirichletDistribution.Mean | src/dirichlet_distribution.cpp:50-57 | the mean has K entries, all positive, summing to 1, with entry i times the total concentration equal to alpha_i |
| DirichletDistribution.CoordinateVarianceFacts | src/dirichlet_distribution.cpp:62-64 | alpha_i(S−alpha_i)/(S²(S+1)) is non-negative, is zero exactly when alpha_i = S, and equals m(1−m)/(S+1) for the mean m = alpha_i/S |
| DirichletDistribution.VarianceAt | src/dirichlet_distribution.cpp:59-67 | the variance of coordinate i is non-negative, equals mean_i(1−mean_i)/(S+1), and is zero exactly when K = 1 |
| DirichletDistribution.Variance | src/dirichlet_distribution.cpp:59-67 | the variance vector has K entries, all >= 0, each the shrunk Bernoulli variance of the mean; all are zero when K = 1 and all positive when K >= 2 |
| DirichletDistribution.LogPdfFrom | src/dirichlet_distribution.cpp:99-107 | the density loop returns negative infinity if any remaining coordinate is <= 0 or >= 1, otherwise the accumulator plus the remaining terms (alpha_i − 1)·ln x_i |
| DirichletDistribution.LogPdf | src/dirichlet_distribution.cpp:89-108 | a point of the wrong length is rejected before the sum is looked at; with the right length it fails exactly when the sum is more than 1e-6 away from 1; otherwise it returns negative infinity if some coordinate lies outside (0, 1), and the sum of (alpha_i − 1)·ln x_i when none does |
| CategoricalDistribution.Normalise | src/categorical_distribution.cpp:18-25 | normalisation fails exactly when the total is <= 0; otherwise the result has the same length, sums to 1 and is proportional to the input; a vector already summing to 1 is unchanged |
| CategoricalDistribution.Make | src/categorical_distribution.cpp:8-15 | construction fails on an empty vector and then on a non-positive total; on success the probabilities are the input divided by its total, and rebuilding from an instance's own probabilities reproduces it |
| CategoricalDistribution.LogLikelihoodFrom | src/categorical_distribution.cpp:37-45 | the loop returns negative infinity if a remaining category has p <= 0 and a positive count, otherwise the accumulator plus count·ln p over the remaining categories with positive counts |
| CategoricalDistribution.LogLikelihood | src/categorical_distribution.cpp:33-45 | it fails exactly on a length mismatch; it is negative infinity exactly when some category with p <= 0 has a positive count, whatever the other categories hold; otherwise it is the sum of count·ln p over positive counts, and zero or negative counts contribute nothing |
| CategoricalDistribution.NoObservationsLogLikelihood | src/categorical_distribution.cpp:37-44 | an all-zero count vector of the right length scores exactly 0 |
| ConjugateCategoricalDirichlet.Observe | src/conjugate_categorical_dirichlet.cpp:209-212 | the rebuilt observation distribution is a valid Categorical whose probabilities are the Dirichlet mean |
| ConjugateCategoricalDirichlet.Rebuild | src/conjugate_categorical_dirichlet.cpp:209-212 | installing a posterior sets the observation probabilities to its mean and leaves the tag, the scalar alpha and the manual alphas alone |
| ConjugateCategoricalDirichlet.Initialise | src/conjugate_categorical_dirichlet.cpp:49-58 | the tag becomes Jeffreys and the scalar 0.5 whatever happens; the call succeeds exactly when K >= 1, with alphas [0.5]×K and the invariant; with K = 0 it throws and leaves both distributions as they were |
| ConjugateCategoricalDirichlet.InitialiseManual | src/conjugate_categorical_dirichlet.cpp:70-78 | it succeeds exactly for a non-empty all-positive vector, and then the tag is ManualAlphas and the alphas and the manual alphas are the input; a failure changes nothing |
| ConjugateCategoricalDirichlet.InitialiseEqual | src/conjugate_categorical_dirichlet.cpp:61-67 | it succeeds exactly when K >= 1 and a > 0, and then the tag is EqualAlpha, the scalar is a, and the alphas and the manual alphas are both [a]×K; K = 0 fails with `EmptyConcentration`, otherwise a <= 0 fails with `NonPositiveConcentration` (both invalid-argument errors), and a failure changes nothing |
| ConjugateCategoricalDirichlet.InitialiseFromObservation | src/conjugate_categorical_dirichlet.cpp:81-103 | the tag becomes ManualProbs and the scalar −1 whatever happens; it succeeds exactly when every input probability is positive, and then the alphas are the probabilities scaled by 0.5·K, they total 0.5·K, and the observation distribution is the input |
| ConjugateCategoricalDirichlet.ScalePositive | src/conjugate_categorical_dirichlet.cpp:93-99 | scaling by the positive Jeffreys mass keeps exactly the positive entries positive, so the Dirichlet is rejected exactly when some probability is <= 0 |
| ConjugateCategoricalDirichlet.UniformObservationIsJeffreys | src/conjugate_categorical_dirichlet.cpp:84-102 | deriving the prior from the uniform distribution over K categories succeeds and yields the Jeffreys alphas [0.5]×K, under the ManualProbs tag |
| ConjugateCategoricalDirichlet.SetJeffreysPrior | src/conjugate_categorical_dirichlet.cpp:105-107 | resetting to the Jeffreys prior keeps K, always succeeds from a valid state, and gives alphas [0.5]×K |
| ConjugateCategoricalDirichlet.SetAllParameterAlphasTo | src/conjugate_categorical_dirichlet.cpp:109-111 | it keeps K; from a valid state it succeeds exactly when a > 0, giving tag EqualAlpha and alphas [a]×K; with K >= 1 the failure is the invalid-argument `NonPositiveConcentration` (with K = 0 it is `EmptyConcentration`), and a failure changes nothing |
| ConjugateCategoricalDirichlet.Posterior | src/conjugate_categorical_dirichlet.cpp:127-133 | each count is added to its concentration, and the totals add up |
| ConjugateCategoricalDirichlet.UpdateFromObservations | src/conjugate_categorical_dirichlet.cpp:119-140 | a length mismatch throws with no state change; otherwise it succeeds exactly when every alpha_i + count_i > 0; on success alpha_i grows by count_i, the observation probabilities are the new mean, and the tag, scalar and manual alphas are unchanged; any failure changes nothing; the invariant is preserved |
| ConjugateCategoricalDirichlet.UpdatePosteriorMean | src/conjugate_categorical_dirichlet.cpp:131-139 | after a successful update each observation probability times (total alpha + total count) equals alpha_i + count_i |
| ConjugateCategoricalDirichlet.UpdatesCompose | src/conjugate_categorical_dirichlet.cpp:131-136 | updating with c1 then c2 leaves the same state as one update with c1 + c2, and with non-negative counts both updates always succeed |
| ConjugateCategoricalDirichlet.MarginalFrom | src/conjugate_categorical_dirichlet.cpp:155-166 | the marginal-likelihood loop and its final correction compute the closed form from the running alpha total, count total and accumulator |
| ConjugateCategoricalDirichlet.GetLogLikelihoodFromObservations | src/conjugate_categorical_dirichlet.cpp:143-169 | it fails exactly on a length mismatch, and otherwise returns Σ[lnΓ(c_i + α_i) − lnΓ(α_i)] + lnΓ(Σα) − lnΓ(Σc + Σα); it returns no new state |
| ConjugateCategoricalDirichlet.NoObservationsMarginal | src/conjugate_categorical_dirichlet.cpp:153-168 | an all-zero count vector has log marginal likelihood exactly 0, whatever lnΓ is |
| ConjugateCategoricalDirichlet.GetSingleAlpha | src/conjugate_categorical_dirichlet.cpp:184-189 | it succeeds exactly under the Jeffreys and EqualAlpha tags and then returns the stored scalar alpha: 0.5 under Jeffreys, the positive a of initialise(K, a) under EqualAlpha; otherwise it is the logic error, not an invalid-argument error |
| ConjugateCategoricalDirichlet.SingleAlphaReadBack | src/conjugate_categorical_dirichlet.cpp:184-189 | after setAllParameterAlphasTo(a) with a > 0 getSingleAlpha returns a, and after setJeffreysPrior it returns 0.5 |
| ConjugateCategoricalDirichlet.GetNumCategories | src/conjugate_categorical_dirichlet.cpp:191-193 | the observation length it reads equals the Dirichlet dimension and is at least 1 |
| ConjugateCategoricalDirichlet.GetAlphas | src/conjugate_categorical_dirichlet.cpp:195-197 | the alphas are one positive value per category, and the observation probabilities reproduce them once multiplied by their total |
| ConjugateCategoricalDirichlet.Copy | src/conjugate_categorical_dirichlet.cpp:26-46 | copy construction and assignment give a state equal to the source in every field, so K, tag and alphas carry over |
| ConjugateCategoricalDirichlet.NewDefault | src/conjugate_categorical_dirichlet.cpp:6-9 | the default object has K = 2, tag Jeffreys, scalar alpha 0.5, alphas [0.5, 0.5] and observation [0.5, 0.5] |
| ConjugateCategoricalDirichlet.NewWithCategories | src/conjugate_categorical_dirichlet.cpp:11-14 | it succeeds exactly when K >= 1, under the Jeffreys prior with alphas [0.5]×K and the uniform observation 1/K |
| ConjugateCategoricalDirichlet.NewWithEqualAlpha | src/conjugate_categorical_dirichlet.cpp:16-19 | it succeeds exactly when K >= 1 and a > 0; the tag is EqualAlpha, the scalar is a, alphas and manual alphas are [a]×K, and the observation is uniform |
| ConjugateCategoricalDirichlet.NewWithAlphas | src/conjugate_categorical_dirichlet.cpp:21-24 | it succeeds exactly for a non-empty all-positive vector; the tag is ManualAlphas, the scalar alpha is unavailable, and the observation is the input normalised |

## Left out

- Random sampling (`sample()` and `sample(n)` with the Mersenne Twister and gamma draws in `src/dirichlet_distribution.cpp:22-48`) is left out because it is nondeterministic library code. The generator seed in the Dirichlet constructor is dropped for the same reason.
- IEEE-754 rounding, NaN and overflow are not modelled: arithmetic is exact over the reals. Because of this the 1e-6 tolerance test in `logPdf` is exact. So is the equality between the observation distribution and the Dirichlet mean.
- `std::log` and `std::lgamma` are left as arbitrary functions. No property of the logarithm or of lnΓ is assumed. The test that a larger consistent sample has a higher marginal likelihood depends on lnΓ numerics, so it is not stated.
- The console output of the Categorical constructor is I/O and is not modelled.
- `unique_ptr` ownership is replaced by value semantics. That makes copy and assignment plain copies, and self-assignment has no separate case.
- The non-const accessors `getParameterDistribution()` and `getObservationDistribution()` are not modelled. They let callers change a sub-distribution behind the pair's back, which breaks the mean invariant. Only the pair's own operations are modelled.
- The const accessors `probs`, `getAlpha`, `getPriorType` and the const distribution getters are the fields of the datatypes. They have no members of their own. `dimension()` is `DirichletDistribution.Dimension`, the length of alpha; it has no contract of its own and is used in the contracts of `SetAlpha`, `LogPdf` and the pair's updates.
- Negative `num_categories` is excluded by the type `nat`. The C++ passes it to the `std::vector` constructor, whose behaviour then depends on the library.
- The header declares `normalise` while the source defines `normalize`. This is a build issue, not behaviour; the model uses `Normalise`.
- The `BayesTree` placeholder and the Python bindings are not part of the inference core.
- DirichletDistribution.LogPdf: the normalising constant of the Dirichlet density is not part of the result, matching the source, which returns the unnormalised log-density.
- ConjugateCategoricalDirichlet.InitialiseFromObservation: the input must be a valid Categorical (at least one category, total one). That is what the C++ type's constructor guarantees for every instance a caller can pass.
