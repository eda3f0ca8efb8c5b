/** The hypergeometric distribution engine: the parameter set (the "deck"), the
    point mass P(X = j) and the two cumulative walks built on it. Probabilities
    are exact rationals (`real`).

    Two recursive products are defined twice: `FallingProduct` and
    `DrawRatios` recurse, and `RealFalling` and `DrawProduct` are the same
    values under a non-recursive name. Every real-valued lemma states its
    contract with the non-recursive name, so a proof meets the recursion only
    where it steps through it one factor at a time: in `RealFallingStep` and
    `DrawStep`, and in the inductions `RealFallingCast` and
    `DrawProductFalling`. Likewise, each small algebra lemma (`MulAssocReal`,
    `StepAssoc`, `Regroup`, `FirstPhase`, `Substitute`) proves one regrouping
    of real products apart from the products around it. Both keep the
    solver's nonlinear real arithmetic small. */
module Distribution {
  import opened Combinatorics
  import opened Vandermonde

  /** The check the Deck constructor makes of its four inputs, as written:
      N ≥ K, N ≥ n, N ≥ k, K ≥ k, n ≥ k and all four non-negative. */
  predicate ValidParams(N: int, K: int, n: int, k: int)
  {
    N >= K && N >= n && N >= k && K >= k && n >= k &&
    N >= 0 && K >= 0 && n >= 0 && k >= 0
  }

  /** A population of N items holding K successes, sampled n at a time without
      replacement. */
  predicate Population(N: int, K: int, n: int)
  {
    0 <= K <= N && 0 <= n <= N
  }

  /** x^(j) multiplied out factor by factor over the reals, as the calculator's
      loops do. */
  function FallingProduct(x: int, j: nat): (r: real)
    ensures 0 <= x ==> r >= 0.0
    ensures j <= x ==> r >= 1.0
    ensures 0 <= x < j ==> r == 0.0
  {
    if j == 0 then 1.0
    else
      var rest := FallingProduct(x, j - 1);
      assert j <= x ==> rest >= 1.0 && (x - j + 1) as real >= 1.0 && rest * (x - j + 1) as real >= rest;
      rest * (x - j + 1) as real
  }

  /** x^(j) as an exact real. Real-valued statements mention it only through
      this non-recursive view. */
  function RealFalling(x: int, j: nat): (r: real)
    ensures 0 <= x ==> r >= 0.0
    ensures j <= x ==> r >= 1.0
    ensures 0 <= x < j ==> r == 0.0
  {
    FallingProduct(x, j)
  }

  /** C(n, r) as an exact real. */
  function RealChoose(n: nat, r: nat): (c: real)
    ensures c >= 0.0
  {
    Choose(n, r) as real
  }

  lemma ChooseAsReal(c: int, n: nat, r: nat)
    requires c == Choose(n, r)
    ensures c as real == RealChoose(n, r)
  {
  }

  /** The Vandermonde term C(n, j)·x^(j)·y^(n−j), multiplied out over the reals. */
  function RealTerm(x: int, y: int, n: nat, j: nat): real
    requires j <= n
  {
    RealChoose(n, j) * RealFalling(x, j) * RealFalling(y, n - j)
  }

  /** Terms(x, y, n, hi), the partial Vandermonde sum, as an exact real. */
  function RealTerms(x: int, y: int, n: nat, hi: nat): real
    requires hi <= n + 1
  {
    Terms(x, y, n, hi) as real
  }

  lemma QuotientNonnegative(c: real, f: real, g: real, d: real)
    requires c >= 0.0 && f >= 0.0 && g >= 0.0 && d >= 1.0
    ensures c * f * g / d >= 0.0
    ensures f == 0.0 || g == 0.0 ==> c * f * g / d == 0.0
  {
    assert c * f >= 0.0;
    assert c * f * g >= 0.0;
  }

  /** P(X = j) = C(n, j)·K^(j)·(N−K)^(n−j) / N^(n), with falling factorials. It is
      never negative and is 0 when the sample would need more successes than
      the population has, or more failures. */
  function PointMass(N: int, K: int, n: int, j: int): (p: real)
    requires Population(N, K, n) && 0 <= j <= n
    ensures p >= 0.0
    ensures j > K || n - j > N - K ==> p == 0.0
  {
    QuotientNonnegative(RealChoose(n, j), RealFalling(K, j), RealFalling(N - K, n - j), RealFalling(N, n));
    RealChoose(n, j) * RealFalling(K, j) * RealFalling(N - K, n - j) / RealFalling(N, n)
  }

  lemma CastMul(a: int, b: int, e: int)
    requires e == a * b
    ensures e as real == a as real * b as real
  {
  }

  /** The real product agrees with the integer falling factorial. */
  lemma {:induction false} RealFallingCast(x: int, j: nat)
    ensures RealFalling(x, j) == Falling(x, j) as real
  {
    if j > 0 {
      var i := j - 1;
      RealFallingCast(x, i);
      RealFallingStep(x, i, j, (x - i) as real);
      CastMul(Falling(x, i), x - i, Falling(x, j));
    }
  }

  lemma CastProduct(a: int, b: int, c: int, t: int, ra: real, rb: real, rc: real, rt: real)
    requires ra == a as real
    requires rb == b as real
    requires rc == c as real
    requires t == a * b * c
    requires rt == ra * rb * rc
    ensures t as real == rt
  {
    CastMul(a, b, a * b);
    CastMul(a * b, c, t);
  }

  lemma RealTermFactors(x: int, y: int, n: nat, j: nat)
    requires j <= n
    ensures RealTerm(x, y, n, j) == RealChoose(n, j) * RealFalling(x, j) * RealFalling(y, n - j)
  {
  }

  /** The integer Vandermonde term, read over the reals, is RealTerm. */
  lemma TermCast(x: int, y: int, n: nat, j: nat)
    requires j <= n
    ensures Term(x, y, n, j) as real == RealTerm(x, y, n, j)
  {
    RealTermFactors(x, y, n, j);
    RealFallingCast(x, j);
    RealFallingCast(y, n - j);
    CastProduct(Choose(n, j), Falling(x, j), Falling(y, n - j), Term(x, y, n, j),
                RealChoose(n, j), RealFalling(x, j), RealFalling(y, n - j), RealTerm(x, y, n, j));
  }

  /** One more term of the partial Vandermonde sum, over the reals. */
  lemma RealTermsStep(x: int, y: int, n: nat, hi: nat, h: nat)
    requires 0 < hi <= n + 1 && h == hi - 1
    ensures RealTerms(x, y, n, hi) == RealTerms(x, y, n, h) + RealTerm(x, y, n, h)
  {
    TermCast(x, y, n, h);
  }

  /** The point mass is the j-th Vandermonde term over N^(n). */
  lemma PointMassTerm(N: int, K: int, n: int, j: int)
    requires Population(N, K, n) && 0 <= j <= n
    ensures PointMass(N, K, n, j) == RealTerm(K, N - K, n, j) / RealFalling(N, n)
  {
  }

  /** Σ_{j=lo..hi−1} P(X = j), a sum over a range of success counts. */
  function MassSum(N: int, K: int, n: int, lo: int, hi: int): (s: real)
    requires Population(N, K, n) && 0 <= lo && hi <= n + 1
    ensures s >= 0.0
    decreases hi - lo
  {
    if hi <= lo then 0.0 else MassSum(N, K, n, lo, hi - 1) + PointMass(N, K, n, hi - 1)
  }

  /** A range sum can be taken apart at its low end as well as its high end. */
  lemma {:induction false} MassSumPeel(N: int, K: int, n: int, lo: int, hi: int)
    requires Population(N, K, n) && 0 <= lo < hi <= n + 1
    ensures MassSum(N, K, n, lo, hi) == PointMass(N, K, n, lo) + MassSum(N, K, n, lo + 1, hi)
    decreases hi - lo
  {
    if lo + 1 < hi {
      MassSumPeel(N, K, n, lo, hi - 1);
    }
  }

  /** Adjacent ranges add up: Σ_{lo..mid−1} + Σ_{mid..hi−1} = Σ_{lo..hi−1}. */
  lemma {:induction false} MassSumSplit(N: int, K: int, n: int, lo: int, mid: int, hi: int)
    requires Population(N, K, n) && 0 <= lo <= mid <= hi <= n + 1
    ensures MassSum(N, K, n, lo, hi) == MassSum(N, K, n, lo, mid) + MassSum(N, K, n, mid, hi)
    decreases hi - mid
  {
    if mid < hi {
      MassSumSplit(N, K, n, lo, mid, hi - 1);
    }
  }

  lemma RatioSum(a: real, b: real, d: real)
    requires d >= 1.0
    ensures a / d + b / d == (a + b) / d
  {
  }

  /** A prefix sum of point masses is the matching partial Vandermonde sum over N^(n). */
  lemma {:induction false} MassSumTerms(N: int, K: int, n: int, hi: int)
    requires Population(N, K, n) && 0 <= hi <= n + 1
    ensures MassSum(N, K, n, 0, hi) == RealTerms(K, N - K, n, hi) / RealFalling(N, n)
  {
    if hi > 0 {
      MassSumTerms(N, K, n, hi - 1);
      PointMassTerm(N, K, n, hi - 1);
      RealTermsStep(K, N - K, n, hi, hi - 1);
      RatioSum(RealTerms(K, N - K, n, hi - 1), RealTerm(K, N - K, n, hi - 1), RealFalling(N, n));
    }
  }

  /** The point masses over 0..n add up to exactly 1 (Vandermonde's identity). */
  lemma TotalMass(N: int, K: int, n: int)
    requires Population(N, K, n)
    ensures MassSum(N, K, n, 0, n + 1) == 1.0
  {
    MassSumTerms(N, K, n, n + 1);
    FallingVandermonde(K, N - K, n);
    assert K + (N - K) == N;
    RealFallingCast(N, n);
    assert RealTerms(K, N - K, n, n + 1) == RealFalling(N, n);
    SelfRatio(RealFalling(N, n));
  }

  lemma SelfRatio(d: real)
    requires d >= 1.0
    ensures d / d == 1.0
  {
  }

  /** Every range sum of point masses, and so every point mass, lies in [0, 1]. */
  lemma MassSumAtMostOne(N: int, K: int, n: int, lo: int, hi: int)
    requires Population(N, K, n) && 0 <= lo <= hi <= n + 1
    ensures 0.0 <= MassSum(N, K, n, lo, hi) <= 1.0
    ensures lo <= n ==> PointMass(N, K, n, lo) <= 1.0
  {
    TotalMass(N, K, n);
    MassSumSplit(N, K, n, 0, lo, n + 1);
    MassSumSplit(N, K, n, lo, hi, n + 1);
    if lo <= n {
      MassSumPeel(N, K, n, lo, n + 1);
    }
  }

  /** What the two walks add up to, for a valid deck. The "k or more" and "k or
      fewer" sums each contain P(k), so each is at least P(k); together they
      count every level in 0..n once, with k twice, so that
      at-most + at-least − exact = 1, and "fewer than k" + "k or more" = 1. */
  lemma CumulativeIdentities(N: int, K: int, n: int, k: int)
    requires ValidParams(N, K, n, k)
    ensures MassSum(N, K, n, 0, k + 1) == MassSum(N, K, n, 0, k) + PointMass(N, K, n, k)
    ensures MassSum(N, K, n, k, n + 1) == PointMass(N, K, n, k) + MassSum(N, K, n, k + 1, n + 1)
    ensures MassSum(N, K, n, 0, k + 1) >= PointMass(N, K, n, k)
    ensures MassSum(N, K, n, k, n + 1) >= PointMass(N, K, n, k)
    ensures MassSum(N, K, n, 0, k + 1) + MassSum(N, K, n, k, n + 1) - PointMass(N, K, n, k) == 1.0
    ensures MassSum(N, K, n, 0, k) + MassSum(N, K, n, k, n + 1) == 1.0
    ensures MassSum(N, K, n, 0, k + 1) + MassSum(N, K, n, k + 1, n + 1) == 1.0
  {
    TotalMass(N, K, n);
    MassSumPeel(N, K, n, k, n + 1);
    MassSumSplit(N, K, n, 0, k, n + 1);
  }

  /** The five reported quantities all lie in [0, 1] for a valid deck. */
  lemma ReportedQuantitiesBounded(N: int, K: int, n: int, k: int)
    requires ValidParams(N, K, n, k)
    ensures 0.0 <= PointMass(N, K, n, k) <= 1.0
    ensures 0.0 <= MassSum(N, K, n, 0, k) <= 1.0
    ensures 0.0 <= MassSum(N, K, n, 0, k + 1) <= 1.0
    ensures 0.0 <= MassSum(N, K, n, k + 1, n + 1) <= 1.0
    ensures 0.0 <= MassSum(N, K, n, k, n + 1) <= 1.0
  {
    MassSumAtMostOne(N, K, n, k, n + 1);
    MassSumAtMostOne(N, K, n, 0, k);
    MassSumAtMostOne(N, K, n, 0, k + 1);
    MassSumAtMostOne(N, K, n, k + 1, n + 1);
  }

  /** From q = a/b and p = q·(u/v) follows p = (a·u)/(b·v). */
  lemma RatioProduct(p: real, q: real, a: real, b: real, u: real, v: real, au: real, bv: real)
    requires b >= 1.0 && v >= 1.0
    requires q == a / b && p == q * (u / v) && au == a * u && bv == b * v
    ensures p == au / bv
  {
    assert (a / b) * (u / v) == (a * u) / (b * v);
  }

  /** x^(i+1) = x^(i)·(x − i), read over the reals. */
  lemma RealFallingStep(x: int, i: nat, k: nat, u: real)
    requires k == i + 1 && u == (x - i) as real
    ensures RealFalling(x, k) == RealFalling(x, i) * u
  {
  }

  lemma StepAssoc(a: real, b: real, c: real, d: real, e: real, u: real)
    requires a == b * u && b == c * d && e == d * u
    ensures a == c * e
  {
  }

  /** y^(s) = y^(i)·m^(t) for s = i + t and m = y − i, read over the reals. */
  lemma {:induction false} RealFallingSplit(y: int, i: nat, t: nat, s: nat, m: int)
    requires s == i + t && m == y - i
    ensures RealFalling(y, s) == RealFalling(y, i) * RealFalling(m, t)
    decreases t
  {
    if t == 0 {
      assert RealFalling(m, 0) == 1.0;
    } else {
      var u := (y - (s - 1)) as real;
      RealFallingSplit(y, i, t - 1, s - 1, m);
      RealFallingStep(y, s - 1, s, u);
      RealFallingStep(m, t - 1, t, u);
      StepAssoc(RealFalling(y, s), RealFalling(y, s - 1), RealFalling(y, i),
                RealFalling(m, t - 1), RealFalling(m, t), u);
    }
  }

  /** The running product of Deck.Probability's loops:
      x/y · (x−1)/(y−1) · … · (x−i+1)/(y−i+1), the chance that i draws without
      replacement from y items, x of them marked, are all marked. */
  function DrawRatios(x: int, y: int, i: nat): real
    requires i <= y
  {
    if i == 0 then 1.0 else DrawRatios(x, y, i - 1) * ((x - (i - 1)) as real / (y - (i - 1)) as real)
  }

  /** DrawRatios under a non-recursive name, which is how the real-valued
      contracts below refer to it. */
  function DrawProduct(x: int, y: int, i: nat): real
    requires i <= y
  {
    DrawRatios(x, y, i)
  }

  /** The draw product over i draws is the one over i − 1 draws times the
      ratio of the i-th draw. */
  lemma DrawUnfold(x: int, y: int, i: nat, h: nat)
    requires 0 < i <= y && h == i - 1
    ensures DrawProduct(x, y, i) == DrawProduct(x, y, h) * ((x - h) as real / (y - h) as real)
  {
  }

  /** The draw product is a ratio of falling factorials, x^(i) / y^(i). */
  lemma {:induction false} DrawProductFalling(x: int, y: int, i: nat)
    requires i <= y
    ensures DrawProduct(x, y, i) == RealFalling(x, i) / RealFalling(y, i)
  {
    if i > 0 {
      var h := i - 1;
      var u, v := (x - h) as real, (y - h) as real;
      DrawProductFalling(x, y, h);
      DrawUnfold(x, y, i, h);
      RealFallingStep(x, h, i, u);
      RealFallingStep(y, h, i, v);
      RatioProduct(DrawProduct(x, y, i), DrawProduct(x, y, h), RealFalling(x, h), RealFalling(y, h),
                   u, v, RealFalling(x, i), RealFalling(y, i));
    }
  }

  lemma MulAssocReal(a: real, b: real, w: real)
    ensures (a * b) * w == a * (b * w)
  {
  }

  /** One pass through either loop of Deck.Probability: multiplying
      prob = a·DrawProduct(x, y, i) by the next ratio u/v = (x − i)/(y − i). */
  lemma DrawStep(prob: real, a: real, x: int, y: int, i: nat, u: int, v: int)
    requires i < y && u == x - i && v == y - i && prob == a * DrawProduct(x, y, i)
    ensures prob * (u as real / v as real) == a * DrawProduct(x, y, i + 1)
  {
    MulAssocReal(a, DrawProduct(x, y, i), u as real / v as real);
  }

  /** Between the two loops of Deck.Probability: with no failure drawn yet the
      failure product is 1. */
  lemma FirstPhase(prob: real, fk: real, one: real)
    requires one == 1.0 && prob == 1.0 * fk
    ensures prob == fk * one
  {
  }

  lemma Regroup(a: real, b: real, c: real, d: real, e: real, g: real)
    requires b >= 1.0 && d >= 1.0 && g == b * d
    ensures (a / b) * (c / d) * e == e * a * c / g
  {
  }

  /** The counts Deck.Probability has reached after its two loops: j successes
      drawn out of K, and t = n − j failures out of F = N − K drawn from the
      M = N − j items then left. */
  predicate Phases(N: int, K: int, n: int, j: int, F: int, M: int, t: int)
  {
    Population(N, K, n) && 0 <= j <= n && F == N - K && M == N - j && t == n - j
  }

  /** The last step of Deck.Probability: j successes out of K, then t = n − j
      failures out of F = N − K from the M = N − j items left, times C(n, j), is
      the point mass. */
  lemma ScaledDraws(prob: real, c: int, N: nat, K: nat, n: nat, j: nat, F: nat, M: nat, t: nat)
    requires Phases(N, K, n, j, F, M, t)
    requires prob == DrawProduct(K, N, j) * DrawProduct(F, M, t) && c == Choose(n, j)
    ensures prob * c as real == PointMass(N, K, n, j)
  {
    ChooseAsReal(c, n, j);
    DrawsTimesChoose(prob, c, N, K, n, j, F, M, t);
  }

  /** ScaledDraws once C(n, j) has been read over the reals. */
  lemma DrawsTimesChoose(prob: real, c: int, N: nat, K: nat, n: nat, j: nat, F: nat, M: nat, t: nat)
    requires Phases(N, K, n, j, F, M, t)
    requires prob == DrawProduct(K, N, j) * DrawProduct(F, M, t) && c as real == RealChoose(n, j)
    ensures prob * c as real == PointMass(N, K, n, j)
  {
    DrawsFalling(prob, N, K, n, j, F, M, t);
    RealFallingSplit(N, j, t, n, M);
    DrawsAsPointMass(N, K, n, j, F, M, t);
    Substitute(prob, RealChoose(n, j), RealFalling(K, j) / RealFalling(N, j), RealFalling(F, t) / RealFalling(M, t));
    PointMassAt(N, K, n, j, F, M, t);
  }

  /** Both draw products as ratios of falling factorials. */
  lemma DrawsFalling(prob: real, N: nat, K: nat, n: nat, j: nat, F: nat, M: nat, t: nat)
    requires Phases(N, K, n, j, F, M, t)
    requires prob == DrawProduct(K, N, j) * DrawProduct(F, M, t)
    ensures prob == (RealFalling(K, j) / RealFalling(N, j)) * (RealFalling(F, t) / RealFalling(M, t))
  {
    DrawProductFalling(K, N, j);
    DrawProductFalling(F, M, t);
  }

  lemma Substitute(prob: real, c: real, x: real, y: real)
    requires prob == x * y
    ensures prob * c == x * y * c
  {
  }

  /** The product of the two ratios of falling factorials, times C(n, j), is
      C(n, j)·K^(j)·F^(t) / N^(n), given N^(n) = N^(j)·M^(t). */
  lemma DrawsAsPointMass(N: nat, K: nat, n: nat, j: nat, F: nat, M: nat, t: nat)
    requires Phases(N, K, n, j, F, M, t)
    requires RealFalling(N, n) == RealFalling(N, j) * RealFalling(M, t)
    ensures (RealFalling(K, j) / RealFalling(N, j)) * (RealFalling(F, t) / RealFalling(M, t)) * RealChoose(n, j)
         == RealChoose(n, j) * RealFalling(K, j) * RealFalling(F, t) / RealFalling(N, n)
  {
    Regroup(RealFalling(K, j), RealFalling(N, j), RealFalling(F, t), RealFalling(M, t),
            RealChoose(n, j), RealFalling(N, n));
  }

  /** The point mass with N − K and n − j named. */
  lemma PointMassAt(N: nat, K: nat, n: nat, j: nat, F: nat, M: nat, t: nat)
    requires Phases(N, K, n, j, F, M, t)
    ensures PointMass(N, K, n, j) == RealChoose(n, j) * RealFalling(K, j) * RealFalling(F, t) / RealFalling(N, n)
  {
  }

  /** The parameter set with its three results. The constructor validates its
      inputs and computes the results; an invalid input leaves every field 0. */
  class Deck {
    var popSize: int
    var popSuccesses: int
    var sampleSize: int
    var desiredSuccesses: int
    var popFailures: int
    var exactChance: real
    var orGreaterInclusiveChance: real
    var orLessInclusiveChance: real

    /** The parameter fields pass the constructor's check and popFailures = N − K. */
    ghost predicate Valid()
      reads this
    {
      ValidParams(popSize, popSuccesses, sampleSize, desiredSuccesses) &&
      popFailures == popSize - popSuccesses
    }

    /** The state left by a rejected input: all eight fields 0. */
    ghost predicate Zeroed()
      reads this
    {
      popSize == 0 && popSuccesses == 0 && sampleSize == 0 && desiredSuccesses == 0 &&
      popFailures == 0 && exactChance == 0.0 &&
      orGreaterInclusiveChance == 0.0 && orLessInclusiveChance == 0.0
    }

    constructor (N: int, K: int, n: int, k: int)
      ensures Valid()
      ensures ValidParams(N, K, n, k) ==>
        popSize == N && popSuccesses == K && sampleSize == n && desiredSuccesses == k &&
        popFailures == N - K
      ensures ValidParams(N, K, n, k) ==>
        exactChance == PointMass(N, K, n, k) &&
        orGreaterInclusiveChance == MassSum(N, K, n, k, n + 1) &&
        orLessInclusiveChance == MassSum(N, K, n, 0, k + 1)
      ensures !ValidParams(N, K, n, k) ==> Zeroed()
    {
      new;
      if ValidParams(N, K, n, k) {
        popSize := N;
        popSuccesses := K;
        sampleSize := n;
        desiredSuccesses := k;
        popFailures := N - K;
        exactChance := Probability(desiredSuccesses);
        orGreaterInclusiveChance := OrGreater(exactChance);
        orLessInclusiveChance := OrLess(exactChance);
        CumulativeIdentities(N, K, n, k);
      } else {
        ConstructorFailure();
      }
    }

    /** Sets all eight fields to 0. */
    method ConstructorFailure()
      modifies this
      ensures Zeroed() && Valid()
    {
      popSize := 0;
      popSuccesses := 0;
      sampleSize := 0;
      desiredSuccesses := 0;
      popFailures := 0;
      exactChance := 0.0;
      orGreaterInclusiveChance := 0.0;
      orLessInclusiveChance := 0.0;
    }

    /** P(X = j) as the product of the successive draw ratios K/N, (K−1)/(N−1), …
        for the j successes and then (N−K−…)/(N−j−…) for the n − j failures, times
        C(n, j). It works on local copies and changes no field; the divisor
        runs through N, N−1, …, N−n+1 and is never 0. */
    method Probability(j: int) returns (p: real)
      requires Valid()
      requires 0 <= j <= sampleSize
      ensures p == PointMass(popSize, popSuccesses, sampleSize, j)
    {
      ghost var N: nat, K: nat, n: nat, F: nat, jj: nat := popSize, popSuccesses, sampleSize, popFailures, j;
      var localPopSize := popSize;
      var localPopSuccesses := popSuccesses;
      var localPopFailures := popFailures;
      var current := j;
      var sampleFailures := sampleSize - j;
      var prob := 1.0;
      var combination := Ncr(sampleSize, j);

      ghost var drawn: nat := 0;
      while current > 0
        invariant current == jj - drawn && current >= 0
        invariant localPopSuccesses == K - drawn && localPopSize == N - drawn
        invariant prob == 1.0 * DrawProduct(K, N, drawn)
      {
        DrawStep(prob, 1.0, K, N, drawn, localPopSuccesses, localPopSize);
        prob := prob * (localPopSuccesses as real / localPopSize as real);
        localPopSuccesses := localPopSuccesses - 1;
        localPopSize := localPopSize - 1;
        current := current - 1;
        drawn := drawn + 1;
      }

      ghost var fk, M: nat := DrawProduct(K, N, jj), N - jj;
      FirstPhase(prob, fk, DrawProduct(F, M, 0));
      drawn := 0;
      while sampleFailures > 0
        invariant sampleFailures == n - jj - drawn && sampleFailures >= 0
        invariant localPopFailures == F - drawn && localPopSize == M - drawn
        invariant prob == fk * DrawProduct(F, M, drawn)
      {
        DrawStep(prob, fk, F, M, drawn, localPopFailures, localPopSize);
        prob := prob * (localPopFailures as real / localPopSize as real);
        localPopFailures := localPopFailures - 1;
        localPopSize := localPopSize - 1;
        sampleFailures := sampleFailures - 1;
        drawn := drawn + 1;
      }

      ScaledDraws(prob, combination, N, K, n, jj, F, M, drawn);
      p := prob * combination as real;
    }

    /** Adds P(k+1), …, P(n) onto the given exact value, stepping a local copy of
        the desired-successes count upwards. */
    method OrGreater(exact: real) returns (total: real)
      requires Valid()
      ensures total == exact + MassSum(popSize, popSuccesses, sampleSize, desiredSuccesses + 1, sampleSize + 1)
    {
      var tempDesiredSuccesses := desiredSuccesses;
      total := exact;
      while tempDesiredSuccesses < sampleSize
        invariant desiredSuccesses <= tempDesiredSuccesses <= sampleSize
        invariant total == exact + MassSum(popSize, popSuccesses, sampleSize, desiredSuccesses + 1, tempDesiredSuccesses + 1)
      {
        tempDesiredSuccesses := tempDesiredSuccesses + 1;
        var p := Probability(tempDesiredSuccesses);
        total := total + p;
      }
    }

    /** Adds P(k−1), …, P(0) onto the given exact value, stepping a local copy of
        the desired-successes count downwards. */
    method OrLess(exact: real) returns (total: real)
      requires Valid()
      ensures total == exact + MassSum(popSize, popSuccesses, sampleSize, 0, desiredSuccesses)
    {
      var tempDesiredSuccesses := desiredSuccesses;
      total := exact;
      while tempDesiredSuccesses > 0
        invariant 0 <= tempDesiredSuccesses <= desiredSuccesses
        invariant total == exact + MassSum(popSize, popSuccesses, sampleSize, tempDesiredSuccesses, desiredSuccesses)
      {
        tempDesiredSuccesses := tempDesiredSuccesses - 1;
        var p := Probability(tempDesiredSuccesses);
        MassSumPeel(popSize, popSuccesses, sampleSize, tempDesiredSuccesses, desiredSuccesses);
        total := total + p;
      }
    }

    function Exact(): real
      reads this
    {
      exactChance
    }

    function OrGreaterInclusive(): real
      reads this
    {
      orGreaterInclusiveChance
    }

    function OrLessInclusive(): real
      reads this
    {
      orLessInclusiveChance
    }
  }

  /** Builds a deck from four non-negative inputs and derives the five reported
      quantities: exactly k, fewer than k, k or fewer, more than k, k or more. */
  method Calculate(N: nat, K: nat, n: nat, k: nat)
    returns (exact: real, lessThan: real, orLess: real, greaterThan: real, orGreater: real)
    ensures ValidParams(N, K, n, k) ==>
      exact == PointMass(N, K, n, k) &&
      lessThan == MassSum(N, K, n, 0, k) && orLess == MassSum(N, K, n, 0, k + 1) &&
      greaterThan == MassSum(N, K, n, k + 1, n + 1) && orGreater == MassSum(N, K, n, k, n + 1)
    ensures ValidParams(N, K, n, k) ==> lessThan + orGreater == 1.0 && orLess + greaterThan == 1.0
    ensures !ValidParams(N, K, n, k) ==>
      exact == 0.0 && lessThan == 0.0 && orLess == 0.0 && greaterThan == 0.0 && orGreater == 0.0
    ensures 0.0 <= exact <= 1.0 && 0.0 <= lessThan <= 1.0 && 0.0 <= orLess <= 1.0
    ensures 0.0 <= greaterThan <= 1.0 && 0.0 <= orGreater <= 1.0
  {
    var deck := new Deck(N, K, n, k);
    exact := deck.Exact();
    lessThan := deck.OrLessInclusive() - deck.Exact();
    orLess := deck.OrLessInclusive();
    greaterThan := deck.OrGreaterInclusive() - deck.Exact();
    orGreater := deck.OrGreaterInclusive();
    if ValidParams(N, K, n, k) {
      CumulativeIdentities(N, K, n, k);
      ReportedQuantitiesBounded(N, K, n, k);
    }
  }

  /** Point masses past the number of successes vanish, so any range of them
      sums to zero. */
  lemma {:induction false} MassBeyondSuccesses(N: int, K: int, n: int, lo: int, hi: int)
    requires Population(N, K, n) && K < lo && hi <= n + 1
    ensures MassSum(N, K, n, lo, hi) == 0.0
    decreases hi - lo
  {
    if lo < hi {
      MassBeyondSuccesses(N, K, n, lo, hi - 1);
    }
  }

  /** With no successes in the population, zero successes is certain: its point
      mass, the prefix sum up to it and the suffix sum from it are all 1. */
  lemma NoSuccessesPossible(N: int, K: int, n: int)
    requires Population(N, K, n) && K == 0
    ensures PointMass(N, K, n, 0) == 1.0
    ensures MassSum(N, K, n, 0, 1) == 1.0 && MassSum(N, K, n, 0, n + 1) == 1.0
  {
    TotalMass(N, K, n);
    MassSumSplit(N, K, n, 0, 1, n + 1);
    MassBeyondSuccesses(N, K, n, 1, n + 1);
  }

  /** The all-zero input passes the constructor's check, and its exact chance is 1. */
  lemma EmptyDeck()
    ensures ValidParams(0, 0, 0, 0) && PointMass(0, 0, 0, 0) == 1.0
  {
    NoSuccessesPossible(0, 0, 0);
  }
}
