/** The estimates of the regression in klib/ntp.c: the fitted offset and slope are the
    unbiased linear estimates of least variance, and the squares of their standard errors
    are those variances. */
module Estimation {
  import opened Powers
  import opened Regression

  // ---- sums ----

  predicate Mix(r: real, a: real, b: real, p: real, q: real) {
    r == p * a + q * b
  }

  predicate Mixes(r: seq<real>, a: seq<real>, b: seq<real>, p: real, q: real) {
    |r| == |a| == |b| && forall i | 0 <= i < |r| :: Mix(r[i], a[i], b[i], p, q)
  }

  lemma {:induction false} TotalMixes(r: seq<real>, a: seq<real>, b: seq<real>, p: real, q: real, n: nat)
    requires Mixes(r, a, b, p, q) && n <= |r|
    ensures Mix(Total(r, n), Total(a, n), Total(b, n), p, q)
  {
    if n > 0 {
      TotalMixes(r, a, b, p, q, n - 1);
      assert Mix(r[n - 1], a[n - 1], b[n - 1], p, q);
      MixAdd(Total(r, n - 1), Total(a, n - 1), Total(b, n - 1), r[n - 1], a[n - 1], b[n - 1], p, q);
    }
  }

  lemma MixAdd(r: real, a: real, b: real, s: real, c: real, d: real, p: real, q: real)
    requires Mix(r, a, b, p, q) && Mix(s, c, d, p, q)
    ensures Mix(r + s, a + c, b + d, p, q)
  {
  }

  /** e is p a + q b. */
  predicate Blend(e: seq<real>, a: seq<real>, b: seq<real>, p: real, q: real) {
    |e| == |a| == |b| && forall i | 0 <= i < |e| :: Mix(e[i], a[i], b[i], p, q)
  }

  lemma BlendTerm(e: real, a: real, b: real, y: real, v: real, p: real, q: real)
    requires Mix(e, a, b, p, q)
    ensures Mix(e * y * v, a * y * v, b * y * v, p, q)
  {
  }

  /** Weighted products are linear. */
  lemma BlendProduct(e: seq<real>, a: seq<real>, b: seq<real>, y: seq<real>, v: seq<real>, p: real, q: real)
    requires Blend(e, a, b, p, q) && |e| == |y| == |v|
    ensures Mix(WeightedProduct(e, y, v), WeightedProduct(a, y, v), WeightedProduct(b, y, v), p, q)
  {
    forall i | 0 <= i < |e| ensures Mix(e[i] * y[i] * v[i], a[i] * y[i] * v[i], b[i] * y[i] * v[i], p, q) {
      BlendTerm(e[i], a[i], b[i], y[i], v[i], p, q);
    }
    TotalMixes(WeightedProducts(e, y, v), WeightedProducts(a, y, v), WeightedProducts(b, y, v), p, q, |e|);
  }

  lemma Symmetric(a: seq<real>, b: seq<real>, v: seq<real>)
    requires |a| == |b| == |v|
    ensures WeightedProduct(a, b, v) == WeightedProduct(b, a, v)
  {
    forall i | 0 <= i < |a| ensures a[i] * b[i] * v[i] == b[i] * a[i] * v[i] { Swap(a[i], b[i], v[i]); }
    TotalFrame(WeightedProducts(a, b, v), WeightedProducts(b, a, v), |a|);
  }

  lemma Swap(a: real, b: real, v: real)
    ensures a * b * v == b * a * v
  {
  }

  function Ones(n: nat): (s: seq<real>) {
    seq(n, i => 1.0)
  }

  lemma ProductOnes(a: seq<real>, v: seq<real>)
    requires |a| == |v|
    ensures WeightedProduct(Ones(|a|), a, v) == WeightedSum(a, v)
  {
    TotalFrame(WeightedProducts(Ones(|a|), a, v), Weighted(a, v), |a|);
  }

  lemma OnesOnes(v: seq<real>)
    ensures WeightedProduct(Ones(|v|), Ones(|v|), v) == Total(v, |v|)
  {
    TotalFrame(WeightedProducts(Ones(|v|), Ones(|v|), v), v, |v|);
  }

  // ---- estimates ----

  /** The sum of e_i v_i y_i, as an estimate from offsets y on the line c0 + c1 x, is
      at0 c0 + at1 c1 whatever the line is. */
  predicate Estimates(d: Data, e: seq<real>, at0: real, at1: real)
    requires Valid(d)
  {
    |e| == |d.x| && WeightedProduct(e, Ones(|d.x|), d.v) == at0 && WeightedProduct(e, d.x, d.v) == at1
  }

  lemma EstimatesLine(d: Data, e: seq<real>, at0: real, at1: real, c0: real, c1: real)
    requires Valid(d) && Estimates(d, e, at0, at1) && Blend(d.y, Ones(|d.x|), d.x, c0, c1)
    ensures WeightedProduct(e, d.y, d.v) == at0 * c0 + at1 * c1
  {
    var ones := Ones(|d.x|);
    BlendProduct(d.y, ones, d.x, e, d.v, c0, c1);
    Symmetric(d.y, e, d.v);
    Symmetric(ones, e, d.v);
    Symmetric(d.x, e, d.v);
  }

  /** With independent errors of variance s w_i in the offsets, where v_i is 1 / w_i, the
      variance of the estimate is s times the sum of e_i e_i v_i. */
  function Variance(d: Data, e: seq<real>): (s: real)
    requires Valid(d) && |e| == |d.x|
  {
    WeightedProduct(e, e, d.v)
  }

  function Differences(f: seq<real>, e: seq<real>): (u: seq<real>)
    requires |f| == |e|
  {
    seq(|f|, i requires 0 <= i < |f| == |e| => f[i] - e[i])
  }

  lemma SquareAbove(f: real, e: real, v: real)
    requires v > 0.0
    ensures f * f * v >= e * e * v + 2.0 * ((f - e) * e * v)
  {
    var u := f - e;
    SquareTimes(u, v);
    Expand(e, u, v);
  }

  lemma Expand(e: real, u: real, v: real)
    ensures (u + e) * (u + e) * v == u * u * v + e * e * v + 2.0 * (u * e * v)
  {
    assert (u + e) * (u + e) == u * u + e * e + 2.0 * (u * e);
  }

  lemma {:induction false} TotalAbove(r: seq<real>, a: seq<real>, b: seq<real>, n: nat)
    requires n <= |r| == |a| == |b| && forall i | 0 <= i < |r| :: r[i] >= a[i] + 2.0 * b[i]
    ensures Total(r, n) >= Total(a, n) + 2.0 * Total(b, n)
  {
    if n > 0 { TotalAbove(r, a, b, n - 1); }
  }

  /** Any estimate of the same quantity has at least the variance of one that is a blend of
      a constant and the times. */
  lemma LeastVariance(d: Data, e: seq<real>, f: seq<real>, at0: real, at1: real, p: real, q: real)
    requires Valid(d) && Estimates(d, e, at0, at1) && Estimates(d, f, at0, at1)
    requires Blend(e, Ones(|d.x|), d.x, p, q)
    ensures Variance(d, f) >= Variance(d, e)
  {
    var u, ones, v := Differences(f, e), Ones(|d.x|), d.v;
    DifferenceProduct(f, e, ones, v);
    DifferenceProduct(f, e, d.x, v);
    BlendProduct(e, ones, d.x, u, v, p, q);
    Symmetric(u, ones, v);
    Symmetric(u, d.x, v);
    Symmetric(u, e, v);
    Vanishes(WeightedProduct(e, u, v), p, q);
    forall i | 0 <= i < |e| ensures f[i] * f[i] * v[i] >= e[i] * e[i] * v[i] + 2.0 * (u[i] * e[i] * v[i]) {
      SquareAbove(f[i], e[i], v[i]);
    }
    TotalAbove(WeightedProducts(f, f, v), WeightedProducts(e, e, v), WeightedProducts(u, e, v), |e|);
  }

  lemma Vanishes(r: real, p: real, q: real)
    requires Mix(r, 0.0, 0.0, p, q)
    ensures r == 0.0
  {
  }

  lemma DifferenceProduct(f: seq<real>, e: seq<real>, y: seq<real>, v: seq<real>)
    requires |f| == |e| == |y| == |v|
    ensures WeightedProduct(Differences(f, e), y, v) == WeightedProduct(f, y, v) - WeightedProduct(e, y, v)
  {
    BlendProduct(Differences(f, e), f, e, y, v, 1.0, -1.0);
  }

  // ---- the fitted line ----

  /** p + q (x - xbar): the estimates of a fit are sums with such factors. */
  function Effect(x: seq<real>, xbar: real, p: real, q: real): (e: seq<real>) {
    seq(|x|, i requires 0 <= i < |x| => p + q * (x[i] - xbar))
  }

  lemma EffectTerm(x: real, xbar: real, p: real, q: real)
    ensures Mix(p + q * (x - xbar), 1.0, x - xbar, p, q) && Mix(p + q * (x - xbar), 1.0, x, p - q * xbar, q)
  {
  }

  lemma EffectBlends(x: seq<real>, xbar: real, p: real, q: real)
    ensures Blend(Effect(x, xbar, p, q), Ones(|x|), Deviations(x, xbar), p, q)
    ensures Blend(Effect(x, xbar, p, q), Ones(|x|), x, p - q * xbar, q)
  {
    forall i | 0 <= i < |x|
      ensures Mix(p + q * (x[i] - xbar), 1.0, x[i] - xbar, p, q)
      ensures Mix(p + q * (x[i] - xbar), 1.0, x[i], p - q * xbar, q)
    {
      EffectTerm(x[i], xbar, p, q);
    }
  }

  /** Deviations from the mean weigh nothing. */
  lemma Centred(x: seq<real>, v: seq<real>, xbar: real)
    requires |x| == |v| && IsMean(xbar, Total(v, |v|), WeightedSum(x, v))
    ensures WeightedProduct(Deviations(x, xbar), Ones(|x|), v) == 0.0
  {
    var ones := Ones(|x|);
    BlendProduct(Deviations(x, xbar), x, ones, ones, v, 1.0, -xbar);
    Symmetric(x, ones, v);
    ProductOnes(x, v);
    OnesOnes(v);
  }

  /** So a product with them does not change if a constant is taken off the other factor. */
  lemma CentredProduct(dx: seq<real>, a: seq<real>, v: seq<real>, mean: real)
    requires |dx| == |a| == |v| && WeightedProduct(dx, Ones(|a|), v) == 0.0
    ensures WeightedProduct(dx, a, v) == WeightedProduct(dx, Deviations(a, mean), v)
  {
    var da, ones := Deviations(a, mean), Ones(|a|);
    BlendProduct(a, da, ones, dx, v, 1.0, mean);
    Symmetric(a, dx, v);
    Symmetric(da, dx, v);
    Symmetric(ones, dx, v);
    TimesZero(WeightedProduct(a, dx, v), WeightedProduct(da, dx, v), mean);
  }

  lemma TimesZero(r: real, a: real, q: real)
    requires Mix(r, a, 0.0, 1.0, q)
    ensures r == a
  {
  }

  /** The sums of a fit, with the inverse g of the spread of the times and the inverse h of
      the total weight. */
  predicate Sums(d: Data, b1: real, xbar: real, ybar: real, g: real, h: real)
    requires Valid(d)
  {
    var dx, ones := Deviations(d.x, xbar), Ones(|d.x|);
    && WeightedProduct(dx, ones, d.v) == 0.0
    && Scales(g, WeightedProduct(dx, d.x, d.v), 1.0) && Scales(g, WeightedProduct(dx, dx, d.v), 1.0)
    && Scales(g, WeightedProduct(dx, d.y, d.v), b1)
    && Scales(h, WeightedProduct(ones, ones, d.v), 1.0) && Scales(h, WeightedProduct(ones, d.x, d.v), xbar)
    && Scales(h, WeightedProduct(ones, d.y, d.v), ybar)
  }

  predicate Scales(g: real, a: real, r: real) {
    g * a == r
  }

  lemma ScalesBack(g: real, s: real, a: real, b: real)
    requires Scales(g, s, 1.0) && IsSlope(b, s, a)
    ensures Scales(g, a, b)
  {
    assert g * (b * s) == b * (g * s);
  }

  lemma FitSums(d: Data, b0: real, b1: real, xbar: real, ybar: real, g: real, h: real)
    requires Valid(d) && Fit(d, b0, b1, xbar, ybar)
    requires Scales(g, WeightedProduct(Deviations(d.x, xbar), Deviations(d.x, xbar), d.v), 1.0)
    requires Scales(h, Total(d.v, |d.v|), 1.0)
    ensures Sums(d, b1, xbar, ybar, g, h)
  {
    var dx, dy, ones, w := Deviations(d.x, xbar), Deviations(d.y, ybar), Ones(|d.x|), Total(d.v, |d.v|);
    Centred(d.x, d.v, xbar);
    CentredProduct(dx, d.x, d.v, xbar);
    CentredProduct(dx, d.y, d.v, ybar);
    ScalesBack(g, WeightedProduct(dx, dx, d.v), WeightedProduct(dx, dy, d.v), b1);
    OnesOnes(d.v);
    ProductOnes(d.x, d.v);
    ProductOnes(d.y, d.v);
    ScalesBack(h, w, WeightedSum(d.x, d.v), xbar);
    ScalesBack(h, w, WeightedSum(d.y, d.v), ybar);
  }

  /** The slope is an unbiased estimate, and its variance is that of a sum over the spread. */
  lemma SlopeError(d: Data, b1: real, xbar: real, ybar: real, g: real, h: real)
    requires Valid(d) && Sums(d, b1, xbar, ybar, g, h)
    ensures var e := Effect(d.x, xbar, 0.0, g);
      && WeightedProduct(e, d.y, d.v) == b1 && Estimates(d, e, 0.0, 1.0) && Variance(d, e) == g
  {
    var e, dx, ones, v := Effect(d.x, xbar, 0.0, g), Deviations(d.x, xbar), Ones(|d.x|), d.v;
    EffectBlends(d.x, xbar, 0.0, g);
    BlendProduct(e, ones, dx, d.y, v, 0.0, g);
    BlendProduct(e, ones, dx, ones, v, 0.0, g);
    BlendProduct(e, ones, dx, d.x, v, 0.0, g);
    BlendProduct(e, ones, dx, dx, v, 0.0, g);
    BlendProduct(e, ones, dx, e, v, 0.0, g);
    Symmetric(dx, e, v);
  }

  /** And so is the offset; its variance has a share of the slope's. */
  lemma OffsetError(d: Data, b1: real, xbar: real, ybar: real, g: real, h: real)
    requires Valid(d) && Sums(d, b1, xbar, ybar, g, h)
    ensures var e := Effect(d.x, xbar, h, -xbar * g);
      && WeightedProduct(e, d.y, d.v) == ybar - b1 * xbar && Estimates(d, e, 1.0, 0.0)
      && Variance(d, e) == h + xbar * xbar * g
  {
    var q := -xbar * g;
    var e, dx, ones, v := Effect(d.x, xbar, h, q), Deviations(d.x, xbar), Ones(|d.x|), d.v;
    EffectBlends(d.x, xbar, h, q);
    BlendProduct(e, ones, dx, d.y, v, h, q);
    Together(WeightedProduct(e, d.y, v), WeightedProduct(ones, d.y, v), WeightedProduct(dx, d.y, v),
             h, g, xbar, ybar, b1);
    BlendProduct(e, ones, dx, ones, v, h, q);
    BlendProduct(e, ones, dx, d.x, v, h, q);
    Together(WeightedProduct(e, d.x, v), WeightedProduct(ones, d.x, v), WeightedProduct(dx, d.x, v),
             h, g, xbar, xbar, 1.0);
    BlendProduct(e, ones, dx, dx, v, h, q);
    Symmetric(ones, dx, v);
    Together(WeightedProduct(e, dx, v), WeightedProduct(ones, dx, v), WeightedProduct(dx, dx, v),
             h, g, xbar, 0.0, 1.0);
    BlendProduct(e, ones, dx, e, v, h, q);
    Symmetric(ones, e, v);
    Symmetric(dx, e, v);
    OwnVariance(WeightedProduct(e, e, v), WeightedProduct(ones, e, v), WeightedProduct(dx, e, v), h, g, xbar);
  }

  lemma Together(r: real, a: real, b: real, h: real, g: real, xbar: real, m: real, s: real)
    requires Mix(r, a, b, h, -xbar * g) && Scales(h, a, m) && Scales(g, b, s)
    ensures r == m - s * xbar
  {
    assert -xbar * g * b == -xbar * (g * b);
  }

  lemma OwnVariance(r: real, a: real, b: real, h: real, g: real, xbar: real)
    requires Mix(r, a, b, h, -xbar * g) && a == 1.0 && b == -xbar
    ensures r == h + xbar * xbar * g
  {
  }

  // ---- the computation ----

  /** b is the unbiased linear estimate of at0 c0 + at1 c1 with the least variance, and
      `variance` is that variance for a mean square error s. */
  ghost predicate BestEstimate(d: Data, b: real, at0: real, at1: real, s: real, variance: real)
    requires Valid(d)
  {
    exists e :: IsBestEstimate(d, e, b, at0, at1, s, variance)
  }

  ghost predicate IsBestEstimate(d: Data, e: seq<real>, b: real, at0: real, at1: real, s: real, variance: real)
    requires Valid(d)
  {
    && Estimates(d, e, at0, at1) && b == WeightedProduct(e, d.y, d.v) && Scales(s, Variance(d, e), variance)
    && forall f | Estimates(d, f, at0, at1) :: Variance(d, f) >= Variance(d, e)
  }

  lemma EffectIsBest(d: Data, xbar: real, p: real, q: real, b: real, at0: real, at1: real, s: real, variance: real)
    requires Valid(d) && Estimates(d, Effect(d.x, xbar, p, q), at0, at1)
    requires b == WeightedProduct(Effect(d.x, xbar, p, q), d.y, d.v)
    requires Scales(s, Variance(d, Effect(d.x, xbar, p, q)), variance)
    ensures BestEstimate(d, b, at0, at1, s, variance)
  {
    var e := Effect(d.x, xbar, p, q);
    EffectBlends(d.x, xbar, p, q);
    forall f | Estimates(d, f, at0, at1) ensures Variance(d, f) >= Variance(d, e) {
      LeastVariance(d, e, f, at0, at1, p - q * xbar, q);
    }
    assert IsBestEstimate(d, e, b, at0, at1, s, variance);
  }

  lemma ScalesSame(s: real, a: real, b: real, r: real)
    requires a == b && Scales(s, b, r)
    ensures Scales(s, a, r)
  {
  }

  lemma SlopeIsBest(d: Data, b1: real, xbar: real, ybar: real, g: real, h: real, s: real, variance: real)
    requires Valid(d) && Sums(d, b1, xbar, ybar, g, h) && Scales(s, g, variance)
    ensures BestEstimate(d, b1, 0.0, 1.0, s, variance)
  {
    SlopeError(d, b1, xbar, ybar, g, h);
    ScalesSame(s, Variance(d, Effect(d.x, xbar, 0.0, g)), g, variance);
    EffectIsBest(d, xbar, 0.0, g, b1, 0.0, 1.0, s, variance);
  }

  lemma OffsetIsBest(d: Data, b0: real, b1: real, xbar: real, ybar: real, g: real, h: real, s: real, variance: real)
    requires Valid(d) && Sums(d, b1, xbar, ybar, g, h) && b0 == ybar - b1 * xbar
    requires Scales(s, h + xbar * xbar * g, variance)
    ensures BestEstimate(d, b0, 1.0, 0.0, s, variance)
  {
    OffsetError(d, b1, xbar, ybar, g, h);
    ScalesSame(s, Variance(d, Effect(d.x, xbar, h, -xbar * g)), h + xbar * xbar * g, variance);
    EffectIsBest(d, xbar, h, -xbar * g, b0, 1.0, 0.0, s, variance);
  }

  /** The variances as they are computed. */
  lemma StandardErrors(d: Data, b0: real, b1: real, xbar: real, ybar: real, wsum: real, xss: real, s: real)
    requires Valid(d) && Fit(d, b0, b1, xbar, ybar) && wsum == Total(d.v, |d.v|) > 0.0
    requires xss == WeightedProduct(Deviations(d.x, xbar), Deviations(d.x, xbar), d.v) && xss > 0.0
    ensures BestEstimate(d, b1, 0.0, 1.0, s, Ratio(s, xss))
    ensures BestEstimate(d, b0, 1.0, 0.0, s, OffsetVariance(s, wsum, Ratio(s, xss), xbar))
  {
    var g, h := Ratio(1.0, xss), Ratio(1.0, wsum);
    Inverts(xss);
    Inverts(wsum);
    FitSums(d, b0, b1, xbar, ybar, g, h);
    RatioTimes(s, xss);
    SlopeIsBest(d, b1, xbar, ybar, g, h, s, Ratio(s, xss));
    ShareOut(s, wsum, xss, xbar);
    OffsetIsBest(d, b0, b1, xbar, ybar, g, h, s, OffsetVariance(s, wsum, Ratio(s, xss), xbar));
  }

  function OffsetVariance(s: real, wsum: real, slopeVar: real, xbar: real): (r: real)
    requires wsum != 0.0
  {
    Ratio(s, wsum) + slopeVar * (xbar * xbar)
  }

  lemma Inverts(b: real)
    requires b > 0.0
    ensures Scales(Ratio(1.0, b), b, 1.0)
  {
  }

  lemma RatioTimes(s: real, b: real)
    requires b > 0.0
    ensures Scales(s, Ratio(1.0, b), Ratio(s, b))
  {
  }

  lemma ShareOut(s: real, wsum: real, xss: real, xbar: real)
    requires wsum > 0.0 && xss > 0.0
    ensures Scales(s, Ratio(1.0, wsum) + xbar * xbar * Ratio(1.0, xss), OffsetVariance(s, wsum, Ratio(s, xss), xbar))
  {
    RatioTimes(s, wsum);
    RatioTimes(s, xss);
    Distributes(s, Ratio(1.0, wsum), Ratio(1.0, xss), xbar * xbar);
  }

  lemma Distributes(s: real, h: real, g: real, x: real)
    ensures s * (h + x * g) == s * h + s * g * x
  {
  }

  /** The line through the means with the slope that solves the covariance equation. */
  method FitLine(d: Data, w: seq<real>)
    returns (b0: real, b1: real, xbar: real, ghost ybar: real, wsum: real, xss: real)
    requires Valid(d) && |d.x| > 0 && Inverse(d.v, w)
    ensures Fit(d, b0, b1, xbar, ybar) && wsum == Total(d.v, |d.v|) > 0.0
    ensures xss == WeightedProduct(Deviations(d.x, xbar), Deviations(d.x, xbar), d.v) >= 0.0
    ensures xss == 0.0 <==> AllEqual(d.x)
  {
    var mean, xy;
    xbar, mean, wsum := Means(d.x, d.y, w, d.v);
    xy, xss := DeviationSums(d.x, d.y, w, d.v, xbar, mean);
    NoSpread(Deviations(d.x, xbar), Deviations(d.y, mean), d.v);
    SpreadMeans(d.x, d.v, xbar);
    b1 := if xss == 0.0 then 0.0 else Ratio(xy, xss);
    b0 := mean - b1 * xbar;
    ybar := mean;
  }

  lemma FittedIsBest(d: Data, b0: real, b1: real, xbar: real, ybar: real)
    requires Valid(d) && Fit(d, b0, b1, xbar, ybar)
    ensures BestLine(d, b0, b1)
  {
    forall c0, c1 ensures SquaredResidual(d, b0, b1) <= SquaredResidual(d, c0, c1) {
      FitIsBest(d, b0, b1, xbar, ybar, c0, c1);
    }
  }

  /** The square root of nonnegative numbers. */
  ghost predicate IsSqrt(sqrt: real -> real) {
    forall v | v >= 0.0 :: sqrt(v) >= 0.0 && Square(sqrt(v)) == v
  }

  function Product(a: real, b: real): (r: real) {
    a * b
  }

  function Square(x: real): (r: real) {
    Product(x, x)
  }

  /** b is the best estimate of its quantity, and sd the square root of its variance. */
  ghost predicate StandardError(d: Data, b: real, at0: real, at1: real, s: real, sd: real)
    requires Valid(d)
  {
    sd >= 0.0 && BestEstimate(d, b, at0, at1, s, Square(sd))
  }

  lemma StandardErrorIs(d: Data, b: real, at0: real, at1: real, s: real, variance: real, sd: real)
    requires Valid(d) && BestEstimate(d, b, at0, at1, s, variance) && sd >= 0.0 && Square(sd) == variance
    ensures StandardError(d, b, at0, at1, s, sd)
  {
  }

  lemma RatioSquare(p: real, q: real, s: real, x: real)
    requires x > 0.0 && q >= 0.0 && p >= 0.0 && Square(p) == s && Square(q) == x
    ensures q != 0.0 && Ratio(p, q) >= 0.0 && Square(Ratio(p, q)) == Ratio(s, x)
  {
    assert q > 0.0;
    RatioNonnegative(p, q);
    ProductSquare(Ratio(p, q), q);
    SameQuotient(Square(Ratio(p, q)), Ratio(s, x), x);
  }

  lemma ProductSquare(r: real, x: real)
    ensures Square(r * x) == Square(r) * Square(x)
  {
    assert (r * x) * (r * x) == r * (r * x) * x;
  }

  lemma SameQuotient(a: real, b: real, x: real)
    requires x > 0.0 && a * x == b * x
    ensures a == b
  {
    TimesGrows(a, b, x);
    TimesGrows(b, a, x);
  }

  lemma RatioNonnegative(s: real, b: real)
    requires s >= 0.0 && b > 0.0
    ensures Ratio(s, b) >= 0.0
  {
    TimesGrows(0.0, Ratio(s, b), b);
  }

  lemma SquareNonnegative(x: real)
    ensures Square(x) >= 0.0
  {
  }

  lemma SquarePositive(x: real)
    requires x != 0.0
    ensures Square(x) > 0.0
  {
    SameSigns(x, x);
  }

  lemma SameSigns(a: real, b: real)
    requires (a < 0.0 && b < 0.0) || (a > 0.0 && b > 0.0)
    ensures Product(a, b) > 0.0
  {
  }

  /** The two square roots. */
  method Roots(s: real, wsum: real, xss: real, xbar: real, sqrt: real -> real)
    returns (offsetSd: real, slopeSd: real)
    requires s >= 0.0 && wsum > 0.0 && xss >= 0.0 && (xss == 0.0 ==> s == 0.0) && IsSqrt(sqrt)
    ensures offsetSd >= 0.0 && slopeSd >= 0.0
    ensures xss > 0.0 ==> Square(slopeSd) == Ratio(s, xss)
    ensures xss > 0.0 ==> Square(offsetSd) == OffsetVariance(s, wsum, Ratio(s, xss), xbar)
    ensures xss == 0.0 ==> offsetSd == slopeSd == 0.0
  {
    slopeSd := 0.0;
    ZeroRatio(s, wsum);
    if s != 0.0 {
      RatioSquare(sqrt(s), sqrt(xss), s, xss);
      slopeSd := Ratio(sqrt(s), sqrt(xss));
    } else if xss > 0.0 {
      ZeroRatio(s, xss);
    }
    var tmp := slopeSd * xbar;
    ProductSquare(slopeSd, xbar);
    SquareNonnegative(tmp);
    RatioNonnegative(s, wsum);
    offsetSd := sqrt(Ratio(s, wsum) + Square(tmp));
    if offsetSd != 0.0 { SquarePositive(offsetSd); }
  }

  /** The standard errors of offset and slope. */
  method StandardDeviations(d: Data, ghost b0: real, ghost b1: real, xbar: real, ghost ybar: real,
                            wsum: real, xss: real, s: real, sqrt: real -> real)
    returns (offsetSd: real, slopeSd: real)
    requires Valid(d) && Fit(d, b0, b1, xbar, ybar) && wsum == Total(d.v, |d.v|) > 0.0 && IsSqrt(sqrt)
    requires xss == WeightedProduct(Deviations(d.x, xbar), Deviations(d.x, xbar), d.v) >= 0.0
    requires s >= 0.0 && (xss == 0.0 ==> s == 0.0)
    ensures xss != 0.0 ==> StandardError(d, b0, 1.0, 0.0, s, offsetSd) && StandardError(d, b1, 0.0, 1.0, s, slopeSd)
    ensures xss == 0.0 ==> offsetSd == slopeSd == 0.0
  {
    offsetSd, slopeSd := Roots(s, wsum, xss, xbar, sqrt);
    if xss > 0.0 {
      StandardErrors(d, b0, b1, xbar, ybar, wsum, xss, s);
      StandardErrorIs(d, b1, 0.0, 1.0, s, Ratio(s, xss), slopeSd);
      StandardErrorIs(d, b0, 1.0, 0.0, s, OffsetVariance(s, wsum, Ratio(s, xss), xbar), offsetSd);
    }
  }

  lemma ZeroRatio(s: real, b: real)
    requires b > 0.0
    ensures s == 0.0 <==> Ratio(s, b) == 0.0
  {
  }

  /** The mean square error is the squared residual over the degrees of freedom. */
  predicate IsMse(d: Data, b0: real, b1: real, mse: real)
    requires Valid(d)
  {
    mse * (|d.x| - 2) as real == SquaredResidual(d, b0, b1)
  }

  method MeanSquareError(d: Data, w: seq<real>, b0: real, b1: real) returns (mse: real)
    requires Valid(d) && |d.x| >= MIN_SAMPLES && Inverse(d.v, w) && BestLine(d, b0, b1)
    ensures mse >= 0.0 && IsMse(d, b0, b1, mse) && (AllEqual(d.x) ==> (mse == 0.0 <==> AllEqual(d.y)))
  {
    var sum := ErrorSum(d, w, b0, b1);
    mse := Ratio(sum, (|d.x| - 2) as real);
    SquaresNonnegative(Residuals(d, b0, b1), d.v);
    RatioNonnegative(sum, (|d.x| - 2) as real);
    ZeroRatio(sum, (|d.x| - 2) as real);
    if AllEqual(d.x) { EqualTimesFit(d, b0, b1); }
  }

  /** The fit for prepared samples. */
  method Estimate(d: Data, w: seq<real>, sqrt: real -> real)
    returns (ok: bool, b0: real, b1: real, offsetSd: real, slopeSd: real, mse: real)
    requires Valid(d) && |d.x| >= MIN_SAMPLES && Inverse(d.v, w) && IsSqrt(sqrt)
    ensures ok <==> (AllEqual(d.x) ==> AllEqual(d.y))
    ensures BestLine(d, b0, b1) && IsMse(d, b0, b1, mse)
    ensures ok && !AllEqual(d.x) ==>
      StandardError(d, b0, 1.0, 0.0, mse, offsetSd) && StandardError(d, b1, 0.0, 1.0, mse, slopeSd)
    ensures ok && AllEqual(d.x) ==> mse == offsetSd == slopeSd == 0.0
  {
    var xbar, wsum, xss;
    ghost var ybar;
    b0, b1, xbar, ybar, wsum, xss := FitLine(d, w);
    FittedIsBest(d, b0, b1, xbar, ybar);
    mse := MeanSquareError(d, w, b0, b1);
    ok, offsetSd, slopeSd := !(xss == 0.0 && mse != 0.0), 0.0, 0.0;
    if ok { offsetSd, slopeSd := StandardDeviations(d, b0, b1, xbar, ybar, wsum, xss, mse, sqrt); }
  }

  /** The factor by which the error of the slope is enlarged for few samples. */
  function SkewFactor(n: nat): (f: real)
    requires n >= MIN_SAMPLES
  {
    (4 + 256 / Pow2(n - MIN_SAMPLES)) as real
  }

  /** The factor is 4 plus 256 halved for every sample beyond the fourth, and 4 from the
      thirteenth on. */
  lemma SkewShrinks(n: nat, k: nat) returns (q: nat)
    requires n >= MIN_SAMPLES && k == n - MIN_SAMPLES
    ensures SkewFactor(n) == 4.0 + q as real
    ensures if k <= 8 then q * Pow2(k) == 256 else q == 0
  {
    Pow2Low();
    q := 256 / Pow2(k);
    if k > 8 {
      Pow2Mono(9, k);
      assert Pow2(9) == 2 * Pow2(8);
    } else {
      q := Pow2(8 - k);
      Pow2Add(k, 8 - k);
      Cancels(Pow2(k), q);
    }
  }

  lemma Cancels(p: nat, q: nat)
    requires p > 0 && p * q == 256
    ensures 256 / p == q
  {
  }

  /** The weighted least squares fit. It fails exactly when the weights cannot be
      computed, or the times are all equal but the offsets are not. The results are the
      offset and the slope of the best line, the standard error of the offset, and that of
      the slope times a factor; d, slopeSd and mse are intermediate results. */
  method Regress(time: seq<real>, offset: seq<real>, delay: seq<real>, dispersion: seq<real>, sqrt: real -> real)
    returns (ok: bool, b0: real, b1: real, offsetSd: real, skew: real, d: Data, slopeSd: real, mse: real)
    requires |time| == |offset| == |delay| == |dispersion| >= MIN_SAMPLES
    requires Nonnegative(delay) && Nonnegative(dispersion) && IsSqrt(sqrt)
    ensures ok <==> !SomeZero(delay, dispersion) && (AllEqual(time) ==> AllEqual(offset))
    ensures !SomeZero(delay, dispersion) ==>
      Samples(d, time, offset, delay, dispersion) && BestLine(d, b0, b1) && IsMse(d, b0, b1, mse)
    ensures ok && !AllEqual(time) ==>
      StandardError(d, b0, 1.0, 0.0, mse, offsetSd) && StandardError(d, b1, 0.0, 1.0, mse, slopeSd)
    ensures ok && AllEqual(time) ==> mse == offsetSd == slopeSd == 0.0
    ensures skew == slopeSd * SkewFactor(|time|)
  {
    var w;
    b0, b1, offsetSd, slopeSd, mse := 0.0, 0.0, 0.0, 0.0, 0.0;
    ok, d, w := Prepare(time, offset, delay, dispersion);
    if ok {
      ok, b0, b1, offsetSd, slopeSd, mse := Estimate(d, w, sqrt);
      EqualDeviations(time, time[|time| - 1]);
    }
    skew := slopeSd * SkewFactor(|time|);
  }
}
