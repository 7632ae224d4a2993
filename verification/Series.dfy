/** Finite real series: sums, inner products, population covariance and weighted combinations. */
module Series {
  import Arith

  function Sum(s: seq<real>): real {
    if |s| == 0 then 0.0 else Sum(s[..|s| - 1]) + s[|s| - 1]
  }

  function Dot(x: seq<real>, y: seq<real>): real
    requires |x| == |y|
  {
    if |x| == 0 then 0.0 else Dot(x[..|x| - 1], y[..|y| - 1]) + x[|x| - 1] * y[|y| - 1]
  }

  /** `a * x + y`, element by element. */
  function Axpy(a: real, x: seq<real>, y: seq<real>): (r: seq<real>)
    requires |x| == |y|
    ensures |r| == |x|
    ensures forall j :: 0 <= j < |x| ==> r[j] == a * x[j] + y[j]
  {
    seq(|x|, j requires 0 <= j < |x| => a * x[j] + y[j])
  }

  function Const(n: nat, c: real): (r: seq<real>)
    ensures |r| == n
  {
    seq(n, _ => c)
  }

  function Mean(x: seq<real>): real
    requires |x| > 0
  {
    Sum(x) / |x| as real
  }

  /** The sum of `(x[j] - mx) * (y[j] - my)`. */
  function CrossDev(x: seq<real>, mx: real, y: seq<real>, my: real): real
    requires |x| == |y|
  {
    if |x| == 0 then 0.0
    else CrossDev(x[..|x| - 1], mx, y[..|y| - 1], my) + (x[|x| - 1] - mx) * (y[|y| - 1] - my)
  }

  /** Population covariance. */
  function Cov(x: seq<real>, y: seq<real>): real
    requires |x| == |y| > 0
  {
    CrossDev(x, Mean(x), y, Mean(y)) / |x| as real
  }

  function Var(x: seq<real>): real
    requires |x| > 0
  {
    Cov(x, x)
  }

  /** The weighted series: its j-th element is the sum over i of `ws[i] * xs[i][j]`. */
  function Combine(ws: seq<real>, xs: seq<seq<real>>, n: nat): (r: seq<real>)
    requires |ws| == |xs| && forall i :: 0 <= i < |xs| ==> |xs[i]| == n
    ensures |r| == n
  {
    if |ws| == 0 then Const(n, 0.0)
    else Axpy(ws[|ws| - 1], xs[|xs| - 1], Combine(ws[..|ws| - 1], xs[..|xs| - 1], n))
  }

  lemma AxpyPrefix(a: real, x: seq<real>, y: seq<real>, n: nat)
    requires |x| == |y| && n <= |x|
    ensures Axpy(a, x, y)[..n] == Axpy(a, x[..n], y[..n])
  {
    var p, q := Axpy(a, x, y)[..n], Axpy(a, x[..n], y[..n]);
    forall j | 0 <= j < n
      ensures p[j] == q[j]
    {
      assert x[..n][j] == x[j] && y[..n][j] == y[j];
    }
  }

  lemma {:induction false} SumAxpy(a: real, x: seq<real>, y: seq<real>)
    requires |x| == |y|
    ensures Sum(Axpy(a, x, y)) == a * Sum(x) + Sum(y)
  {
    if |x| > 0 {
      var n := |x| - 1;
      AxpyPrefix(a, x, y, n);
      SumAxpy(a, x[..n], y[..n]);
    }
  }

  lemma {:induction false} DotAxpy(a: real, x: seq<real>, y: seq<real>, z: seq<real>)
    requires |x| == |y| == |z|
    ensures Dot(Axpy(a, x, y), z) == a * Dot(x, z) + Dot(y, z)
  {
    if |x| > 0 {
      var n := |x| - 1;
      AxpyPrefix(a, x, y, n);
      DotAxpy(a, x[..n], y[..n], z[..n]);
      assert (a * x[n] + y[n]) * z[n] == a * (x[n] * z[n]) + y[n] * z[n];
    }
  }

  lemma {:induction false} DotSymmetric(x: seq<real>, y: seq<real>)
    requires |x| == |y|
    ensures Dot(x, y) == Dot(y, x)
  {
    if |x| > 0 {
      DotSymmetric(x[..|x| - 1], y[..|y| - 1]);
    }
  }

  lemma {:induction false} CrossDevExpanded(x: seq<real>, mx: real, y: seq<real>, my: real)
    requires |x| == |y|
    ensures CrossDev(x, mx, y, my) == Dot(x, y) - my * Sum(x) - mx * Sum(y) + |x| as real * (mx * my)
  {
    if |x| > 0 {
      var n := |x| - 1;
      CrossDevExpanded(x[..n], mx, y[..n], my);
      assert (x[n] - mx) * (y[n] - my) == x[n] * y[n] - my * x[n] - mx * y[n] + mx * my;
      assert (n + 1) as real * (mx * my) == n as real * (mx * my) + mx * my;
    }
  }

  lemma MeanTimes(x: seq<real>)
    requires |x| > 0
    ensures Mean(x) * |x| as real == Sum(x)
  {
  }

  lemma CovTimes(x: seq<real>, y: seq<real>)
    requires |x| == |y| > 0
    ensures Cov(x, y) * |x| as real == CrossDev(x, Mean(x), y, Mean(y))
  {
  }

  /** `Cov` is the mean product minus the product of the means. */
  lemma CovExpanded(x: seq<real>, y: seq<real>)
    requires |x| == |y| > 0
    ensures Cov(x, y) * |x| as real == Dot(x, y) - |x| as real * (Mean(x) * Mean(y))
  {
    CrossDevExpanded(x, Mean(x), y, Mean(y));
    MeanTimes(x);
    MeanTimes(y);
    CovTimes(x, y);
    MeanProducts(Mean(x), Mean(y), |x| as real);
  }

  lemma MeanProducts(mx: real, my: real, n: real)
    ensures my * (mx * n) == n * (mx * my) == mx * (my * n)
  {
  }

  lemma CovSymmetric(x: seq<real>, y: seq<real>)
    requires |x| == |y| > 0
    ensures Cov(x, y) == Cov(y, x)
  {
    CovExpanded(x, y);
    CovExpanded(y, x);
    DotSymmetric(x, y);
  }

  lemma CovLinear(a: real, x: seq<real>, y: seq<real>, z: seq<real>)
    requires |x| == |y| == |z| > 0
    ensures Cov(Axpy(a, x, y), z) == a * Cov(x, z) + Cov(y, z)
  {
    hide *;
    var n := |x| as real;
    var p := Axpy(a, x, y);
    MeanAxpy(a, x, y);
    DotAxpy(a, x, y, z);
    CovExpanded(p, z);
    CovExpanded(x, z);
    CovExpanded(y, z);
    CovLinearArithmetic(a, n, Mean(x), Mean(y), Mean(z), Dot(x, z), Dot(y, z), Cov(x, z), Cov(y, z), Cov(p, z));
  }

  lemma MeanAxpy(a: real, x: seq<real>, y: seq<real>)
    requires |x| == |y| > 0
    ensures Mean(Axpy(a, x, y)) == a * Mean(x) + Mean(y)
  {
    hide *;
    var n, p := |x| as real, Axpy(a, x, y);
    SumAxpy(a, x, y);
    MeanTimes(x);
    MeanTimes(y);
    MeanTimes(p);
    MeanArithmetic(a, n, Mean(x), Mean(y), Mean(p));
  }

  lemma MeanArithmetic(a: real, n: real, mx: real, my: real, mp: real)
    requires n > 0.0 && mp * n == a * (mx * n) + my * n
    ensures mp == a * mx + my
  {
    assert (a * mx + my) * n == a * (mx * n) + my * n;
    Arith.CancelEqual(mp, a * mx + my, n);
  }

  lemma CovLinearArithmetic(a: real, n: real, mx: real, my: real, mz: real, xz: real, yz: real, cx: real, cy: real,
                            cp: real)
    requires n > 0.0
    requires cx * n == xz - n * (mx * mz) && cy * n == yz - n * (my * mz)
    requires cp * n == a * xz + yz - n * ((a * mx + my) * mz)
    ensures cp == a * cx + cy
  {
    assert (a * cx + cy) * n == a * (cx * n) + cy * n;
    assert n * ((a * mx + my) * mz) == a * (n * (mx * mz)) + n * (my * mz);
    Arith.CancelEqual(cp, a * cx + cy, n);
  }

  lemma {:induction false} SquareSumNonNegative(x: seq<real>, m: real)
    ensures CrossDev(x, m, x, m) >= 0.0
  {
    if |x| > 0 {
      SquareSumNonNegative(x[..|x| - 1], m);
      var d := x[|x| - 1] - m;
      assert d * d >= 0.0;
    }
  }

  lemma VarNonNegative(x: seq<real>)
    requires |x| > 0
    ensures Var(x) >= 0.0
  {
    SquareSumNonNegative(x, Mean(x));
  }

  /** Variance of `a * x + y`. */
  lemma VarAxpy(a: real, x: seq<real>, y: seq<real>)
    requires |x| == |y| > 0
    ensures Var(Axpy(a, x, y)) == a * a * Var(x) + 2.0 * a * Cov(x, y) + Var(y)
  {
    var p := Axpy(a, x, y);
    CovLinear(a, x, y, p);
    CovSymmetric(x, p);
    CovSymmetric(y, p);
    CovLinear(a, x, y, x);
    CovLinear(a, x, y, y);
    CovSymmetric(x, y);
    assert a * (a * Var(x) + Cov(x, y)) == a * a * Var(x) + a * Cov(x, y);
  }

  /** Cauchy-Schwarz for the population covariance. */
  lemma CauchySchwarz(x: seq<real>, y: seq<real>)
    requires |x| == |y| > 0
    ensures Cov(x, y) * Cov(x, y) <= Var(x) * Var(y)
  {
    var c, v, w := Cov(x, y), Var(x), Var(y);
    VarNonNegative(x);
    VarNonNegative(y);
    if v > 0.0 {
      var t := -c / v;
      VarAxpy(t, x, y);
      VarNonNegative(Axpy(t, x, y));
      assert t * v == -c;
      assert t * t * v == t * (t * v) == -(t * c);
      assert w + t * c >= 0.0;
      assert v * (w + t * c) == v * w + (t * v) * c;
      assert v * (w + t * c) >= 0.0;
    } else {
      VarAxpy(1.0, x, y);
      ZeroVarZeroCov(x, y);
    }
  }

  lemma ZeroVarZeroCov(x: seq<real>, y: seq<real>)
    requires |x| == |y| > 0 && Var(x) == 0.0
    ensures Cov(x, y) == 0.0
  {
    var c, w := Cov(x, y), Var(y);
    if c != 0.0 {
      var t := -(w + 1.0) / (2.0 * c);
      VarAxpy(t, x, y);
      VarNonNegative(Axpy(t, x, y));
      VertexTimes(w + 1.0, c);
      assert false;
    }
  }

  lemma VertexTimes(u: real, c: real)
    requires c != 0.0
    ensures 2.0 * (-u / (2.0 * c)) * c == -u
  {
    assert -u / (2.0 * c) * (2.0 * c) == -u;
  }
}
