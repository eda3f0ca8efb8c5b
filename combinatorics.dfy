/** Exact integer arithmetic of the calculator: factorials, falling factorials,
    binomial coefficients, the brute-force greatest common divisor and the
    gcd-reduced running fraction that computes C(n, r). */
module Combinatorics {

  /** n! */
  function Fact(n: nat): (f: nat)
    ensures f >= 1
  {
    if n == 0 then 1 else n * Fact(n - 1)
  }

  /** The falling factorial x·(x−1)···(x−j+1) of j factors; the empty product is 1.
      It is positive while the factors stay positive and vanishes once a factor is 0. */
  function Falling(x: int, j: nat): (f: int)
    ensures j <= x ==> f >= 1
    ensures 0 <= x < j ==> f == 0
  {
    if j == 0 then 1
    else
      var rest := Falling(x, j - 1);
      assert j <= x ==> rest >= 1 && (x - j + 1) >= 1 && rest * (x - j + 1) >= rest;
      rest * (x - j + 1)
  }

  /** The binomial coefficient, by Pascal's rule: the reference definition of C(n, r). */
  function Choose(n: nat, r: nat): nat
  {
    if r == 0 then 1
    else if n == 0 then 0
    else Choose(n - 1, r - 1) + Choose(n - 1, r)
  }

  lemma MulCancel(a: int, b: int, c: int)
    requires c != 0 && a * c == b * c
    ensures a == b
  {
  }

  lemma MulAssoc(a: int, b: int, c: int)
    ensures (a * b) * c == a * (b * c)
  {
  }

  lemma PascalArith(a: int, b: int, c: int, r: int, w: int)
    requires c == a + (r - 1) * b && a == b * w
    ensures c * w == a * (w - 1) + r * a
  {
    assert c * w == a * w + (r - 1) * (b * w);
  }

  lemma ChooseArith(c1: int, c2: int, f1: int, f2: int, fr1: int, r: int)
    requires f1 == c1 * fr1 && f2 == c2 * (r * fr1)
    ensures (c1 + c2) * (r * fr1) == r * f1 + f2
  {
    assert (c1 + c2) * (r * fr1) == c1 * (r * fr1) + c2 * (r * fr1);
    assert c1 * (r * fr1) == r * (c1 * fr1);
  }

  /** Falling(n, r)·(n−r)! = n!: a falling factorial of n is n! with its tail cut off. */
  lemma {:induction false} FallingFact(n: nat, r: nat)
    requires r <= n
    ensures Falling(n, r) * Fact(n - r) == Fact(n)
  {
    if r > 0 {
      FallingFact(n, r - 1);
      var f, m, t := Falling(n, r - 1), n - r + 1, Fact(n - r);
      assert Falling(n, r) == f * m;
      assert Fact(n - (r - 1)) == m * t;
      MulAssoc(f, m, t);
    }
  }

  /** Pascal's rule for falling factorials: (n+1)^(r) = n^(r) + r·n^(r−1). */
  lemma {:induction false} FallingPascal(n: int, r: nat)
    requires r >= 1
    ensures Falling(n + 1, r) == Falling(n, r) + r * Falling(n, r - 1)
  {
    if r > 1 {
      FallingPascal(n, r - 1);
      var a, b, c := Falling(n, r - 1), Falling(n, r - 2), Falling(n + 1, r - 1);
      assert a == b * (n - r + 2);
      assert Falling(n + 1, r) == c * (n - r + 2);
      assert Falling(n, r) == a * (n - r + 1);
      PascalArith(a, b, c, r, n - r + 2);
    }
  }

  /** A falling factorial of r factors is C(n, r)·r!; in particular r! divides it. */
  lemma {:induction false} FallingChoose(n: nat, r: nat)
    ensures Falling(n, r) == Choose(n, r) * Fact(r)
  {
    if r == 0 {
    } else if n == 0 {
      assert Falling(0, r) == 0;
    } else {
      FallingChoose(n - 1, r - 1);
      FallingChoose(n - 1, r);
      FallingPascal(n - 1, r);
      assert Fact(r) == r * Fact(r - 1);
      ChooseArith(Choose(n - 1, r - 1), Choose(n - 1, r), Falling(n - 1, r - 1), Falling(n - 1, r), Fact(r - 1), r);
    }
  }

  /** C(n, r) = n! / (r!·(n−r)!), stated without division. */
  lemma ChooseFactorial(n: nat, r: nat)
    requires r <= n
    ensures Choose(n, r) * Fact(r) * Fact(n - r) == Fact(n)
  {
    FallingFact(n, r);
    FallingChoose(n, r);
  }

  /** C(n, r) = C(n, n−r): the substitution r := n − r leaves the count unchanged. */
  lemma ChooseSymmetric(n: nat, r: nat)
    requires r <= n
    ensures Choose(n, r) == Choose(n, n - r)
  {
    var c1, c2, a, b := Choose(n, r), Choose(n, n - r), Fact(r), Fact(n - r);
    ChooseFactorial(n, r);
    assert n - (n - r) == r;
    ChooseFactorial(n, n - r);
    MulAssoc(c1, a, b);
    MulAssoc(c2, b, a);
    assert a * b == b * a && a * b >= 1;
    MulCancel(c1, c2, a * b);
  }

  /** C(n, n) = 1 and C(n, r) = 0 once r exceeds n. */
  lemma {:induction false} ChooseEdges(n: nat, r: nat)
    ensures Choose(n, n) == 1
    ensures r > n ==> Choose(n, r) == 0
  {
    ChooseSymmetric(n, n);
    if r > n {
      FallingChoose(n, r);
      MulCancel(Choose(n, r), 0, Fact(r));
    }
  }

  lemma FallingFiftyTwoFive()
    ensures Falling(52, 5) == 311875200
  {
  }

  /** The number of five-card hands from a 52-card deck, C(52, 5) = 2598960.
      The deck and hand sizes are parameters pinned by `requires` rather than
      literals: on literal arguments the verifier may evaluate the Pascal
      recursion of `Choose` term by term, which is far more work than the
      proof below through falling factorials. */
  lemma FiveCardHands(deck: nat, hand: nat)
    requires deck == 52 && hand == 5
    ensures Choose(deck, hand) == 2598960
  {
    FallingChoose(deck, hand);
    FallingFiftyTwoFive();
    FactFive();
    ScaleCancel(Choose(deck, hand), Fact(hand), Falling(deck, hand));
  }

  /** From p = c·f with f = 5! and p = 52^(5), the quotient c is 2598960. */
  lemma ScaleCancel(c: int, f: int, p: int)
    requires f == 120 && p == 311875200 && p == c * f
    ensures c == 2598960
  {
    assert c * 120 == 311875200;
  }

  lemma FactFive()
    ensures Fact(5) == 120
  {
  }

  // ---------------------------------------------------------------------------
  // Greatest common divisor

  /** d is a positive divisor of x. */
  predicate Divides(d: int, x: int)
  {
    d >= 1 && x % d == 0
  }

  /** g is the greatest common (positive) divisor of a and b. */
  ghost predicate IsGcd(g: int, a: int, b: int)
  {
    Divides(g, a) && Divides(g, b) &&
    forall d :: Divides(d, a) && Divides(d, b) ==> d <= g
  }

  lemma DivisorBound(d: int, x: int)
    requires Divides(d, x) && x >= 1
    ensures d <= x
  {
  }

  lemma MultipleMod(m: int, q: int)
    requires m >= 1
    ensures (m * q) % m == 0 && (m * q) / m == q
  {
    var x := m * q;
    var d, r := x / m, x % m;
    assert x == m * d + r && 0 <= r < m;
    var k := q - d;
    assert m * (1 - k) == m - r && m * (k + 1) == r + m;
    PositiveFactor(m, 1 - k, m - r);
    PositiveFactor(m, k + 1, r + m);
  }

  /** Brute-force gcd: tries every i from 1 up to the smaller argument and keeps
      the last common divisor. With an argument below 1 the loop never runs and
      the result is 1, not the other argument. */
  method Gcd(a: int, b: int) returns (g: int)
    ensures a >= 1 && b >= 1 ==> IsGcd(g, a, b)
    ensures a < 1 || b < 1 ==> g == 1
  {
    g := 1;
    var i := 1;
    while i <= a && i <= b
      invariant 1 <= i
      invariant Divides(g, a) && Divides(g, b)
      invariant forall d :: 1 <= d < i && Divides(d, a) && Divides(d, b) ==> d <= g
      invariant (a < 1 || b < 1) ==> g == 1
      decreases a - i
    {
      if a % i == 0 && b % i == 0 {
        g := i;
      }
      i := i + 1;
    }
    if a >= 1 && b >= 1 {
      forall d | Divides(d, a) && Divides(d, b)
        ensures d <= g
      {
        DivisorBound(d, a);
        DivisorBound(d, b);
      }
    }
  }

  lemma DivQuotient(d: int, x: int)
    requires Divides(d, x)
    ensures x == d * (x / d)
  {
  }

  lemma PositiveFactor(g: int, p: int, x: int)
    requires g >= 1 && x >= 1 && x == g * p
    ensures p >= 1
  {
  }

  /** A divisor d of x / g, where g divides x, gives the divisor d·g of x. */
  lemma DivisorLifts(d: int, g: int, x: int)
    requires Divides(g, x) && Divides(d, x / g)
    ensures Divides(d * g, x)
  {
    var p := x / g;
    var p' := p / d;
    DivQuotient(g, x);
    DivQuotient(d, p);
    assert x == g * (d * p');
    MulAssoc(d, g, p');
    assert x == (d * g) * p';
    MultipleMod(d * g, p');
  }

  /** Dividing two positive numbers by their gcd leaves two positive coprime numbers. */
  lemma ReducedCoprime(a: int, b: int, g: int)
    requires a >= 1 && b >= 1 && IsGcd(g, a, b)
    ensures a / g >= 1 && b / g >= 1
    ensures a / g * g == a && b / g * g == b
    ensures IsGcd(1, a / g, b / g)
  {
    var p, q := a / g, b / g;
    DivQuotient(g, a);
    DivQuotient(g, b);
    PositiveFactor(g, p, a);
    PositiveFactor(g, q, b);
    forall d | Divides(d, p) && Divides(d, q)
      ensures d <= 1
    {
      DivisorLifts(d, g, a);
      DivisorLifts(d, g, b);
      assert d * g <= g;
    }
  }

  /** One reduction step keeps top/bottom equal to fn/fs: if top·fs = bottom·fn then
      (top·a / g)·(fs·b) = (bottom·b / g)·(fn·a). */
  lemma RatioStep(top: int, bottom: int, fs: int, fn: int, a: int, b: int, g: int)
    requires top * fs == bottom * fn && g >= 1
    requires top * a / g * g == top * a && bottom * b / g * g == bottom * b
    ensures (top * a / g) * (fs * b) == (bottom * b / g) * (fn * a)
  {
    var t, u := top * a / g, bottom * b / g;
    calc {
      t * (fs * b) * g;
      (t * g) * (fs * b);
      (top * a) * (fs * b);
      (top * fs) * (a * b);
      (bottom * fn) * (a * b);
      (bottom * b) * (fn * a);
      (u * g) * (fn * a);
      u * (fn * a) * g;
    }
    MulCancel(t * (fs * b), u * (fn * a), g);
  }

  lemma ProductPositive(a: int, b: int)
    requires a >= 1 && b >= 1
    ensures a * b >= 1
  {
  }

  /** One turn of the loop in Ncr: after i steps top/bottom equals
      Falling(n, i)/Falling(s, i) in lowest terms; multiplying in the next
      factors n − i and s − i and dividing by the gcd keeps both facts for i + 1. */
  lemma ReductionStep(top: int, bottom: int, n: nat, s: nat, i: nat, g: int)
    requires i < s <= n && top >= 1 && bottom >= 1
    requires top * Falling(s, i) == bottom * Falling(n, i)
    requires IsGcd(g, top * (n - i), bottom * (s - i))
    ensures top * (n - i) / g >= 1 && bottom * (s - i) / g >= 1
    ensures IsGcd(1, top * (n - i) / g, bottom * (s - i) / g)
    ensures (top * (n - i) / g) * Falling(s, i + 1) == (bottom * (s - i) / g) * Falling(n, i + 1)
  {
    ProductPositive(top, n - i);
    ProductPositive(bottom, s - i);
    ReducedCoprime(top * (n - i), bottom * (s - i), g);
    RatioStep(top, bottom, Falling(s, i), Falling(n, i), n - i, s - i, g);
    assert Falling(s, i + 1) == Falling(s, i) * (s - i);
    assert Falling(n, i + 1) == Falling(n, i) * (n - i);
  }

  /** When the loop in Ncr ends, a fraction in lowest terms equal to
      Falling(n, s)/s! = C(n, s) must be C(n, s)/1. */
  lemma ReducedFractionIsChoose(top: int, bottom: int, n: nat, s: nat)
    requires s <= n && top >= 1 && bottom >= 1
    requires IsGcd(1, top, bottom)
    requires top * Falling(s, s) == bottom * Falling(n, s)
    ensures bottom == 1 && top == Choose(n, s)
  {
    var c, f := Choose(n, s), Fact(s);
    FallingFact(s, s);
    FallingChoose(n, s);
    assert top * f == bottom * (c * f);
    MulAssoc(bottom, c, f);
    MulCancel(top, bottom * c, f);
    MultipleMod(bottom, c);
    assert Divides(bottom, top) && Divides(bottom, bottom);
  }

  /** C(n, r) by the running fraction top/bottom = n·(n−1)··· / r·(r−1)···, reduced
      by its gcd after every step, after first replacing r by n − r when that is
      smaller. The fraction stays in lowest terms, so bottom ends at 1 and top is
      the exact count. */
  method Ncr(n: int, r: int) returns (c: int)
    requires 0 <= r <= n
    ensures c == Choose(n, r)
  {
    var n', r' := n, r;
    if n' - r' < r' {
      r' := n' - r';
    }
    ghost var s := r';
    var top, bottom := 1, 1;
    if r' != 0 {
      while r' != 0
        invariant 0 <= r' <= s <= n
        invariant n' == n - (s - r')
        invariant top >= 1 && bottom >= 1
        invariant IsGcd(1, top, bottom)
        invariant top * Falling(s, s - r') == bottom * Falling(n, s - r')
        decreases r'
      {
        ghost var i, top0, bottom0 := s - r', top, bottom;
        ProductPositive(top, n');
        ProductPositive(bottom, r');
        top := top * n';
        bottom := bottom * r';
        var g := Gcd(top, bottom);
        ReductionStep(top0, bottom0, n, s, i, g);
        top := top / g;
        bottom := bottom / g;
        n' := n' - 1;
        r' := r' - 1;
      }
      ReducedFractionIsChoose(top, bottom, n, s);
    } else {
      top := 1;
    }
    c := top;
    ChooseSymmetric(n, r);
  }
}
