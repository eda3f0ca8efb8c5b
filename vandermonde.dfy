/** The falling-factorial form of Vandermonde's identity,
      (x + y)^(n) = Σ_{j=0..n} C(n, j)·x^(j)·y^(n−j),
    which is what makes the point masses of a hypergeometric distribution add up to 1. */
module Vandermonde {
  import opened Combinatorics

  /** The j-th term C(n, j)·x^(j)·y^(n−j) of the expansion. */
  function Term(x: int, y: int, n: nat, j: nat): int
    requires j <= n
  {
    Choose(n, j) * Falling(x, j) * Falling(y, n - j)
  }

  /** The partial sum of the first hi terms, Σ_{j=0..hi−1} Term(x, y, n, j). */
  function Terms(x: int, y: int, n: nat, hi: nat): int
    requires hi <= n + 1
  {
    if hi == 0 then 0 else Terms(x, y, n, hi - 1) + Term(x, y, n, hi - 1)
  }

  lemma BaseArith(w: int, x: int, y: int, n: int, fy: int)
    requires w == x + y - n
    ensures w * fy == fy * (y - n) + x * fy
  {
  }

  lemma StepArith(w: int, a: int, tp: int, c0: int, c: int, fx: int, fy: int, u: int, v: int)
    requires u + v == w
    requires w * a == tp + c0 * fx * (fy * u)
    ensures w * (a + c * fx * fy) == tp + (c0 + c) * fx * (fy * u) + c * (fx * v) * fy
  {
    calc {
      w * (a + c * fx * fy);
      w * a + w * (c * fx * fy);
      tp + c0 * fx * (fy * u) + (u + v) * (c * fx * fy);
      tp + c0 * fx * (fy * u) + c * fx * (fy * u) + c * (fx * v) * fy;
      tp + (c0 + c) * fx * (fy * u) + c * (fx * v) * fy;
    }
  }

  /** Multiplying the first m + 1 terms of the n-th expansion by (x + y − n) gives
      the first m + 1 terms of the (n+1)-th expansion, plus a boundary term. */
  lemma {:induction false} ShiftedPartialSum(x: int, y: int, n: nat, m: nat)
    requires m <= n
    ensures (x + y - n) * Terms(x, y, n, m + 1)
         == Terms(x, y, n + 1, m + 1) + Choose(n, m) * Falling(x, m + 1) * Falling(y, n - m)
  {
    var w := x + y - n;
    if m == 0 {
      var fy := Falling(y, n);
      assert Terms(x, y, n, 1) == fy;
      assert Terms(x, y, n + 1, 1) == Falling(y, n + 1) == fy * (y - n);
      assert Choose(n, 0) * Falling(x, 1) * Falling(y, n) == x * fy;
      BaseArith(w, x, y, n, fy);
    } else {
      ShiftedPartialSum(x, y, n, m - 1);
      var a, tp := Terms(x, y, n, m), Terms(x, y, n + 1, m);
      var c0, c := Choose(n, m - 1), Choose(n, m);
      var fx, fy := Falling(x, m), Falling(y, n - m);
      assert n - (m - 1) == n - m + 1 == (n + 1) - m;
      assert Falling(y, n - m + 1) == fy * (y - (n - m));
      assert Falling(x, m + 1) == fx * (x - m);
      assert Choose(n + 1, m) == c0 + c;
      assert Terms(x, y, n, m + 1) == a + c * fx * fy;
      assert Terms(x, y, n + 1, m + 1) == tp + (c0 + c) * fx * (fy * (y - (n - m)));
      StepArith(w, a, tp, c0, c, fx, fy, y - (n - m), x - m);
    }
  }

  /** (x + y)^(n) = Σ_{j=0..n} C(n, j)·x^(j)·y^(n−j). */
  lemma {:induction false} FallingVandermonde(x: int, y: int, n: nat)
    ensures Terms(x, y, n, n + 1) == Falling(x + y, n)
  {
    if n == 0 {
      assert Terms(x, y, 0, 1) == Term(x, y, 0, 0) == 1;
    } else {
      var k := n - 1;
      FallingVandermonde(x, y, k);
      ShiftedPartialSum(x, y, k, k);
      ChooseEdges(k, k);
      ChooseEdges(n, n);
      var fx := Falling(x, n);
      assert Falling(y, 0) == 1;
      assert Term(x, y, n, n) == fx;
      assert Choose(k, k) * Falling(x, k + 1) * Falling(y, k - k) == fx;
      assert Terms(x, y, n, n + 1) == Terms(x, y, n, n) + fx;
      assert Falling(x + y, n) == Falling(x + y, k) * (x + y - k);
    }
  }
}
