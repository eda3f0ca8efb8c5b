# Hypergeometric calculator: a verified model of its numeric engine

The calculator takes four whole numbers:
- a population size N;
- the number K of successes in it;
- a sample size n;
- a desired number of successes k.

From them it reports the chance of drawing exactly k successes, and the chances of fewer than k, at most k, more than k and at least k. The sample is drawn without replacement.

The engine has three parts:
- a brute-force greatest common divisor;
- a binomial coefficient, computed as a running fraction that is reduced by its gcd after every step;
- a `Deck` object. It validates the four inputs, computes the point mass P(X = j) as a product of draw ratios, and walks up and down from k to build the two cumulative sums.

The model has three modules, one file each:

- `combinatorics.dfy` (`Combinatorics`): these definitions are the references the code is proved against:
  - factorials;
  - falling factorials x^(j) = x·(x−1)···(x−j+1);
  - the binomial coefficient by Pascal's rule.

  The module also holds the imperative `Gcd` and `Ncr`, each with its loop invariants.
- `vandermonde.dfy` (`Vandermonde`): the falling-factorial form of Vandermonde's identity, (x+y)^(n) = Σ_j C(n,j)·x^(j)·y^(n−j). This identity is what makes the point masses sum to 1.
- `distribution.dfy` (`Distribution`):
  - the point mass P(j) = C(n,j)·K^(j)·(N−K)^(n−j) / N^(n), and range sums of it;
  - class `Deck` with the eight fields of the source and its methods;
  - `Calculate`, which derives the five displayed quantities.

Probabilities are Dafny `real`, which is exact rational arithmetic. Every method of `Deck` other than the constructor and `ConstructorFailure` has no `modifies` clause. So `Probability`, `OrGreater` and `OrLess` leave every field unchanged, as the source's comment on local copies promises. Inside `Probability`, each division by the local population counter is checked to have a non-zero divisor. The loop invariants pin that counter to N − (draws so far). That is at least 1 at every division, since fewer than n ≤ N draws precede it. After the last draw the counter may reach N − n = 0, but it is no longer divided by.

## Model

| member | source | states |
|---|---|---|
| Combinatorics.Gcd | scripts/hypergeom.js:16-27 | for a, b ≥ 1 the result is a positive common divisor that every common divisor is at most; if either argument is below 1 the loop never runs and the result is 1 |
| Combinatorics.Falling | scripts/hypergeom.js:49-73 | the falling factorial is at least 1 while all factors are positive, and is 0 once a factor is 0 |
| Combinatorics.FallingChoose | scripts/hypergeom.js:29-34 | n^(r) = C(n, r)·r!, the simplified form of nCr the source's comment gives |
| Combinatorics.FallingFact | scripts/hypergeom.js:29-34 | n^(r)·(n−r)! = n! |
| Combinatorics.ChooseFactorial | scripts/hypergeom.js:29-34 | C(n, r)·r!·(n−r)! = n!, i.e. nCr = n!/(r!(n−r)!) |
| Combinatorics.ChooseSymmetric | scripts/hypergeom.js:38-44 | C(n, r) = C(n, n−r), so the substitution r := n − r leaves the result unchanged |
| Combinatorics.ChooseEdges | scripts/hypergeom.js:44-52 | C(n, n) = 1, and C(n, r) = 0 for r > n |
| Combinatorics.ReducedCoprime | scripts/hypergeom.js:66-70 | dividing two positive numbers by their gcd leaves two positive numbers whose gcd is 1, with nothing lost in the division |
| Combinatorics.ReductionStep | scripts/hypergeom.js:61-74 | one loop turn keeps top·s^(i) = bottom·n^(i) for the next i, keeps top and bottom positive, and keeps them coprime |
| Combinatorics.ReducedFractionIsChoose | scripts/hypergeom.js:78-83 | a fraction in lowest terms equal to n^(s)/s! has bottom 1 and top C(n, s), which is why returning top is exact |
| Combinatorics.Ncr | scripts/hypergeom.js:36-90 | for 0 ≤ r ≤ n the result is exactly C(n, r); this covers the symmetry substitution, the r = 0 branch and the gcd-reduced loop |
| Combinatorics.FiveCardHands | scripts/hypergeom.js:36-90 | C(52, 5) = 2598960 |
| Vandermonde.ShiftedPartialSum | scripts/hypergeom.js:111-113 | multiplying a partial expansion by (x + y − n) gives the next expansion's partial sum plus its boundary term |
| Vandermonde.FallingVandermonde | scripts/hypergeom.js:111-113 | Σ_{j=0..n} C(n, j)·x^(j)·y^(n−j) = (x+y)^(n) |
| Distribution.PointMass | scripts/hypergeom.js:139-169 | the point mass is never negative, and it is 0 when j > K or n − j > N − K |
| Distribution.MassSum | scripts/hypergeom.js:172-197 | a range sum of point masses is never negative |
| Distribution.MassSumPeel | scripts/hypergeom.js:186-197 | a range sum equals its lowest point mass plus the rest, the order in which the downward walk adds |
| Distribution.MassSumSplit | scripts/hypergeom.js:172-197 | adjacent ranges add up to the joined range |
| Distribution.MassSumTerms | scripts/hypergeom.js:139-169 | a prefix sum of point masses is the matching partial Vandermonde sum divided by N^(n) |
| Distribution.TotalMass | scripts/hypergeom.js:111-113 | the point masses over 0..n add up to exactly 1 |
| Distribution.MassSumAtMostOne | scripts/hypergeom.js:111-113 | every range sum, and every point mass, lies in [0, 1] |
| Distribution.CumulativeIdentities | scripts/hypergeom.js:111-113 | at-most-k and at-least-k each contain P(k) and are at least P(k); at-most + at-least − exact = 1; fewer-than-k + at-least-k = 1 |
| Distribution.ReportedQuantitiesBounded | scripts/hypergeom.js:255-259 | the five displayed quantities of a valid deck all lie in [0, 1] |
| Distribution.MassBeyondSuccesses | scripts/hypergeom.js:151-157 | point masses that would need more successes than K vanish, so their range sums are 0 |
| Distribution.NoSuccessesPossible | scripts/hypergeom.js:172-197 | with K = 0: the exact chance of 0 successes is 1, and so are at-most-0 and at-least-0 (e.g. N = 10, n = 5, k = 0) |
| Distribution.EmptyDeck | scripts/hypergeom.js:99-101 | the input (0, 0, 0, 0) is accepted and its exact chance is 1 |
| Distribution.DrawProductFalling | scripts/hypergeom.js:151-166 | the product of i successive draw ratios x/y·(x−1)/(y−1)··· equals x^(i)/y^(i) |
| Distribution.DrawStep | scripts/hypergeom.js:153 | one loop turn multiplies the running product by the next ratio, which extends the draw product by one draw |
| Distribution.RealFallingSplit | scripts/hypergeom.js:160-166 | N^(j+t) = N^(j)·(N−j)^(t): the second loop's divisors continue where the first loop's stopped |
| Distribution.DrawsFalling | scripts/hypergeom.js:151-166 | the two loops' products are K^(j)/N^(j) and (N−K)^(t)/(N−j)^(t) |
| Distribution.ScaledDraws | scripts/hypergeom.js:168 | the success product times the failure product times C(n, j) is the point mass |
| Distribution.Deck.constructor | scripts/hypergeom.js:96-122 | valid input (N ≥ K, N ≥ n, N ≥ k, K ≥ k, n ≥ k, all ≥ 0) is stored, popFailures is N − K, exactChance = P(k), orGreaterInclusiveChance = Σ_{j=k..n} P(j), orLessInclusiveChance = Σ_{j=0..k} P(j); any other input leaves all eight fields 0 |
| Distribution.Deck.ConstructorFailure | scripts/hypergeom.js:125-136 | all eight fields become 0 |
| Distribution.Deck.Probability | scripts/hypergeom.js:139-169 | for 0 ≤ j ≤ n on a valid deck the result is exactly C(n, j)·K^(j)·(N−K)^(n−j)/N^(n) |
| Distribution.Deck.OrGreater | scripts/hypergeom.js:172-183 | the result is the given value plus P(k+1) + … + P(n) |
| Distribution.Deck.OrLess | scripts/hypergeom.js:186-197 | the result is the given value plus P(0) + … + P(k−1) |
| Distribution.Calculate | scripts/hypergeom.js:246-259 | for a valid deck the five quantities are P(k), Σ_{j<k}, Σ_{j≤k}, Σ_{j>k} and Σ_{j≥k}; fewer-than + at-least = 1 and at-most + more-than = 1; an invalid input reports five zeros; all five always lie in [0, 1] |

## Left out

- The DOM lookups and the click, change and Enter-key listeners (lines 10, 13, 205-217) are user-interface wiring.
- Lines 231-243 clean the browser's input: `parseInt(...) || 0`, and negatives replaced by 0. That is string handling on form values. `Calculate` takes four `nat`s instead.
- The output formatting is not modelled: `toFixed(18)`, `parseFloat` and the `innerHTML` writes (lines 255-259).
- Floating point is not modelled. The ratio products in `probability` are exact rationals here, so nothing is claimed about IEEE-754 rounding.
- Integers are unbounded. JavaScript loses exactness beyond 2^53 in `ncr`'s `top` and `bottom`, and that loss is not modelled.
- The `try`/`catch` fallbacks (lines 47, 86-89, 103, 116-119) are unreachable, because division by zero does not throw in JavaScript. They are replaced by preconditions: 0 ≤ r ≤ n for `Ncr`, and a valid deck with 0 ≤ j ≤ n for `Probability`.
- Combinatorics.Ncr: requires 0 ≤ r ≤ n. With r > n the substitution turns r negative, and with r < 0 the `while (r)` loop counts down from below zero and never stops. The `Deck` never calls it that way.
- Distribution.Deck.constructor: the default argument values (line 96, each parameter defaulting to 0) are not modelled. `calculate` always passes all four arguments (line 245), so the constructor always receives them.
- Distribution.Deck.Exact, Distribution.Deck.OrGreaterInclusive, Distribution.Deck.OrLessInclusive: the three getters (lines 200-202) are plain field reads and carry no contract.
- Distribution.Deck.constructor: a rejected input sets exactChance to 0. Nothing relates that 0 to a probability, and the source does the same.
