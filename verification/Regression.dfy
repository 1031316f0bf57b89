/** The weighted least squares fit of klib/ntp.c over exact (real) arithmetic. */
module Regression {
  import opened Common

  const MIN_SAMPLES := 4

  /** Division with the source's conventions: zero divided by anything is zero, and a
      positive value divided by zero is out of range. */
  function Quotient(a: real, b: real): (q: Option<real>)
    requires a >= 0.0 || b != 0.0
  {
    if a == 0.0 then Some(0.0) else if b == 0.0 then None else Some(a / b)
  }

  // ---- weights ----

  function Total(d: seq<real>, n: nat): (t: real)
    requires n <= |d|
  {
    if n == 0 then 0.0 else Total(d, n - 1) + d[n - 1]
  }

  /** The unit in which distances above the least one are measured. */
  function Unit(mean: real, least: real): (sd: real) {
    var sd := mean - least;
    if sd > least || sd <= 0.0 then least else sd
  }

  /** How far a distance is above the least one, in units. */
  function Scaled(dist: real, least: real, sd: real): (s: real)
    requires sd > 0.0 || dist == least
  {
    if dist == least then 0.0 else (dist - least) / sd
  }

  /** The weight of a sample divides its square residual: larger is weaker. */
  function Weight(dist: real, least: real, sd: real): (w: real)
    requires sd > 0.0 || dist == least
  {
    (Scaled(dist, least, sd) + 1.0) * (Scaled(dist, least, sd) + 1.0)
  }

  lemma QuotientGrows(a: real, b: real, sd: real)
    requires 0.0 <= a < b && sd > 0.0
    ensures 0.0 <= a / sd < b / sd
  {
  }

  lemma ScaledGrows(a: real, b: real, least: real, sd: real)
    requires least <= a < b && sd > 0.0
    ensures 0.0 <= Scaled(a, least, sd) < Scaled(b, least, sd)
  {
    QuotientGrows(a - least, b - least, sd);
    QuotientGrows(0.0, b - least, sd);
  }

  lemma SquareGrows(a: real, b: real)
    requires 0.0 <= a < b
    ensures a * a < b * b
  {
    ProductPositive(b - a, b + a);
    assert b * b - a * a == (b - a) * (b + a);
  }

  lemma ProductPositive(a: real, b: real)
    requires a > 0.0 && b > 0.0
    ensures a * b > 0.0
  {
  }

  lemma WeightGrows(a: real, b: real, least: real, sd: real)
    requires least <= a < b && sd > 0.0
    ensures 1.0 <= Weight(a, least, sd) < Weight(b, least, sd)
  {
    ScaledGrows(a, b, least, sd);
    SquareGrows(Scaled(a, least, sd) + 1.0, Scaled(b, least, sd) + 1.0);
    SquareAtLeastOne(Scaled(a, least, sd));
  }

  lemma SquareAtLeastOne(s: real)
    requires s >= 0.0
    ensures (s + 1.0) * (s + 1.0) >= 1.0
  {
    assert (s + 1.0) * (s + 1.0) == s * s + 2.0 * s + 1.0;
  }

  function Distance(delay: real, dispersion: real): (d: real) {
    delay * 0.5 + dispersion
  }

  predicate Nonnegative(s: seq<real>) {
    forall i | 0 <= i < |s| :: s[i] >= 0.0
  }

  /** d holds the distances of the first n samples. */
  predicate Distances(d: seq<real>, delay: seq<real>, dispersion: seq<real>, n: nat) {
    n <= |d| == |delay| == |dispersion| && forall i | 0 <= i < n :: d[i] == Distance(delay[i], dispersion[i])
  }

  /** m is the least of the first n values, found at index k. */
  predicate LeastAt(d: seq<real>, n: nat, m: real, k: nat) {
    k < n <= |d| && d[k] == m && forall i | 0 <= i < n :: m <= d[i]
  }

  /** The distances of the first n samples, their sum and the least of them. */
  ghost predicate Measured(d: seq<real>, delay: seq<real>, dispersion: seq<real>, n: nat,
                           sum: real, least: real, at: nat) {
    && Distances(d, delay, dispersion, n)
    && sum == Total(d, n) && (n > 0 ==> LeastAt(d, n, least, at))
  }

  lemma MeasureNext(d: seq<real>, delay: seq<real>, dispersion: seq<real>, n: nat, sum: real, least: real, at: nat)
    requires Measured(d, delay, dispersion, n, sum, least, at) && n < |d|
    ensures var v := Distance(delay[n], dispersion[n]);
      var e, fewer := d[n := v], n == 0 || v < least;
      Measured(e, delay, dispersion, n + 1, sum + v, if fewer then v else least, if fewer then n else at)
  {
    TotalFrame(d, d[n := Distance(delay[n], dispersion[n])], n);
  }

  /** The peer distances, their mean and the least one. */
  method PeerDistances(delay: seq<real>, dispersion: seq<real>)
    returns (d: seq<real>, mean: real, least: real, ghost at: nat)
    requires |delay| == |dispersion| > 0
    ensures Distances(d, delay, dispersion, |d|) && LeastAt(d, |d|, least, at)
    ensures IsMean(mean, |d| as real, Total(d, |d|))
  {
    var n := |delay|;
    var a := new real[n](_ => 0.0);
    var sum := 0.0;
    least, at := 0.0, 0;
    for i := 0 to n
      invariant Measured(a[..], delay, dispersion, i, sum, least, at)
    {
      MeasureNext(a[..], delay, dispersion, i, sum, least, at);
      ghost var e := a[..][i := Distance(delay[i], dispersion[i])];
      a[i] := Distance(delay[i], dispersion[i]);
      assert a[..] == e;
      sum := sum + a[i];
      if i == 0 || a[i] < least { least, at := a[i], i; }
    }
    d := a[..];
    mean := Ratio(sum, n as real);
  }

  function Ratio(a: real, b: real): (q: real)
    requires b != 0.0
    ensures q * b == a
  {
    a / b
  }

  predicate Weighed(w: seq<real>, d: seq<real>, least: real, sd: real, n: nat) {
    && n <= |w| == |d|
    && forall i | 0 <= i < n :: (sd > 0.0 || d[i] == least) && w[i] == Weight(d[i], least, sd)
  }

  /** The weights are at least 1, equal to 1 at the least distance, and grow with the
      distance. They cannot be computed exactly when the least distance is zero and
      another one is not. */
  method Weights(delay: seq<real>, dispersion: seq<real>) returns (ok: bool, w: seq<real>, d: seq<real>)
    requires |delay| == |dispersion| > 0 && Nonnegative(delay) && Nonnegative(dispersion)
    ensures Distances(d, delay, dispersion, |d|)
    ensures ok <==> forall i, j | 0 <= i < |d| && 0 <= j < |d| && d[i] == 0.0 :: d[j] == 0.0
    ensures ok ==> |w| == |d| && forall i | 0 <= i < |w| :: w[i] >= 1.0
    ensures ok ==> forall i, j | 0 <= i < |w| && 0 <= j < |w| :: d[i] < d[j] <==> w[i] < w[j]
    ensures ok ==> exists i | 0 <= i < |w| :: w[i] == 1.0
    ensures ok ==> SourceWeights(w, delay, dispersion)
  {
    var mean, least;
    ghost var at;
    d, mean, least, at := PeerDistances(delay, dispersion);
    assert Nonnegative(d);
    var sd := Unit(mean, least);
    UnitPositive(mean, least);
    var a := new real[|d|](_ => 0.0);
    for i := 0 to |d|
      invariant Weighed(a[..], d, least, sd, i)
    {
      var s := Quotient(d[i] - least, sd);
      if s.None? {
        assert d[at] == 0.0 && d[i] != 0.0;
        return false, [], d;
      }
      a[i] := (s.value + 1.0) * (s.value + 1.0);
    }
    w := a[..];
    forall i | 0 <= i < |w| ensures w[i] >= 1.0 { WeightOrder(w, d, least, sd, i, at); }
    forall i, j | 0 <= i < |w| && 0 <= j < |w| ensures d[i] < d[j] <==> w[i] < w[j] {
      WeightOrder(w, d, least, sd, i, j);
    }
    assert w[at] == 1.0;
    WeightsExplained(w, d, delay, dispersion, mean, least, at);
    return true, w, d;
  }

  /** How weights come about: the distances, the least of them and where it is, their mean,
      the unit, and the roots of the weights. */
  datatype Weighing = Weighing(dist: seq<real>, at: nat, least: real, mean: real, unit: real, root: seq<real>)

  /** Half the delay and the dispersion make the distance, and the unit is the mean distance
      above the least, unless that is zero or more than the least itself. */
  ghost predicate Surveys(h: Weighing, delay: seq<real>, dispersion: seq<real>) {
    && 0 < |delay| == |dispersion| == |h.dist| && LeastAt(h.dist, |h.dist|, h.least, h.at)
    && (forall i | 0 <= i < |delay| :: 2.0 * h.dist[i] == delay[i] + 2.0 * dispersion[i])
    && IsMean(h.mean, |h.dist| as real, Total(h.dist, |h.dist|))
    && h.unit == if 0.0 < h.mean - h.least <= h.least then h.mean - h.least else h.least
  }

  /** The weight is the square of one more than the number of units above the least distance. */
  predicate RootOf(root: real, dist: real, least: real, unit: real) {
    root >= 1.0 && (dist == least ==> root == 1.0) && (root - 1.0) * unit == dist - least
  }

  ghost predicate Explains(h: Weighing, w: seq<real>, delay: seq<real>, dispersion: seq<real>) {
    && Surveys(h, delay, dispersion) && |w| == |h.root| == |h.dist|
    && forall i | 0 <= i < |w| :: RootOf(h.root[i], h.dist[i], h.least, h.unit) && IsSquare(w[i], h.root[i])
  }

  predicate IsSquare(w: real, root: real) {
    w == root * root
  }

  ghost predicate SourceWeights(w: seq<real>, delay: seq<real>, dispersion: seq<real>) {
    exists h :: Explains(h, w, delay, dispersion)
  }

  function Roots(d: seq<real>, least: real, sd: real): (r: seq<real>)
    requires forall i | 0 <= i < |d| :: sd > 0.0 || d[i] == least
  {
    seq(|d|, i requires 0 <= i < |d| && (sd > 0.0 || d[i] == least) => Scaled(d[i], least, sd) + 1.0)
  }

  lemma RootIs(dist: real, least: real, sd: real)
    requires least <= dist && (sd > 0.0 || (sd >= 0.0 && dist == least))
    ensures RootOf(Scaled(dist, least, sd) + 1.0, dist, least, sd)
    ensures IsSquare(Weight(dist, least, sd), Scaled(dist, least, sd) + 1.0)
  {
    if dist > least { QuotientGrows(0.0, dist - least, sd); }
  }

  lemma RootsExplain(w: seq<real>, d: seq<real>, least: real, sd: real)
    requires Weighed(w, d, least, sd, |d|) && sd >= 0.0 && forall i | 0 <= i < |d| :: least <= d[i]
    ensures var r := Roots(d, least, sd);
      forall i | 0 <= i < |w| :: RootOf(r[i], d[i], least, sd) && IsSquare(w[i], r[i])
  {
    forall i | 0 <= i < |w|
      ensures RootOf(Scaled(d[i], least, sd) + 1.0, d[i], least, sd) && IsSquare(w[i], Scaled(d[i], least, sd) + 1.0)
    {
      RootIs(d[i], least, sd);
    }
  }

  lemma DistanceSum(d: seq<real>, delay: seq<real>, dispersion: seq<real>)
    requires Distances(d, delay, dispersion, |d|)
    ensures forall i | 0 <= i < |delay| :: 2.0 * d[i] == delay[i] + 2.0 * dispersion[i]
  {
  }

  lemma WeightsExplained(w: seq<real>, d: seq<real>, delay: seq<real>, dispersion: seq<real>,
                         mean: real, least: real, at: nat)
    requires |delay| == |dispersion| > 0 && Distances(d, delay, dispersion, |d|) && LeastAt(d, |d|, least, at)
    requires IsMean(mean, |d| as real, Total(d, |d|)) && least >= 0.0
    requires Weighed(w, d, least, Unit(mean, least), |d|)
    ensures SourceWeights(w, delay, dispersion)
  {
    var sd := Unit(mean, least);
    UnitPositive(mean, least);
    var h := Weighing(d, at, least, mean, sd, Roots(d, least, sd));
    DistanceSum(d, delay, dispersion);
    assert Surveys(h, delay, dispersion);
    RootsExplain(w, d, least, sd);
    assert Explains(h, w, delay, dispersion);
  }

  lemma RootUnique(r: real, s: real, dist: real, least: real, unit: real)
    requires RootOf(r, dist, least, unit) && RootOf(s, dist, least, unit) && (unit > 0.0 || dist == least)
    ensures r == s
  {
    if dist != least {
      TimesGrows(r - 1.0, s - 1.0, unit);
      TimesGrows(s - 1.0, r - 1.0, unit);
    }
  }

  lemma SquareUnique(v: real, w: real, r: real, s: real)
    requires IsSquare(v, r) && IsSquare(w, s) && r == s
    ensures v == w
  {
  }

  lemma SurveyUnique(g: Weighing, h: Weighing, delay: seq<real>, dispersion: seq<real>)
    requires Surveys(g, delay, dispersion) && Surveys(h, delay, dispersion)
    ensures g.dist == h.dist && g.least == h.least && g.mean == h.mean && g.unit == h.unit
  {
    forall i | 0 <= i < |delay| ensures g.dist[i] == h.dist[i] {
      assert 2.0 * g.dist[i] == delay[i] + 2.0 * dispersion[i];
    }
    assert g.dist == h.dist;
    assert g.least == h.least by { assert g.least <= g.dist[h.at] && h.least <= h.dist[g.at]; }
    SameMean(g.mean, h.mean, |g.dist| as real, Total(g.dist, |g.dist|));
  }

  /** Delays and dispersions determine the weights. */
  lemma WeightsUnique(v: seq<real>, w: seq<real>, delay: seq<real>, dispersion: seq<real>)
    requires SourceWeights(v, delay, dispersion) && SourceWeights(w, delay, dispersion)
    requires |delay| == |dispersion| && Nonnegative(delay) && Nonnegative(dispersion)
    requires !SomeZero(delay, dispersion)
    ensures v == w
  {
    var g :| Explains(g, v, delay, dispersion);
    var h :| Explains(h, w, delay, dispersion);
    SurveyUnique(g, h, delay, dispersion);
    forall i | 0 <= i < |v| ensures v[i] == w[i] {
      UnitOrEqual(h, delay, dispersion, i);
      SameWeight(v[i], w[i], g.root[i], h.root[i], h.dist[i], h.least, h.unit);
    }
  }

  lemma SameWeight(v: real, w: real, r: real, s: real, dist: real, least: real, unit: real)
    requires RootOf(r, dist, least, unit) && RootOf(s, dist, least, unit) && (unit > 0.0 || dist == least)
    requires IsSquare(v, r) && IsSquare(w, s)
    ensures v == w
  {
    RootUnique(r, s, dist, least, unit);
    SquareUnique(v, w, r, s);
  }

  /** Unless some but not all distances are zero, the unit is positive or all are equal. */
  lemma UnitOrEqual(h: Weighing, delay: seq<real>, dispersion: seq<real>, i: nat)
    requires Surveys(h, delay, dispersion) && Nonnegative(delay) && Nonnegative(dispersion)
    requires !SomeZero(delay, dispersion) && i < |delay|
    ensures h.unit > 0.0 || h.dist[i] == h.least
  {
    assert 2.0 * h.dist[h.at] == delay[h.at] + 2.0 * dispersion[h.at];
    assert 2.0 * h.dist[i] == delay[i] + 2.0 * dispersion[i];
    if h.least == 0.0 {
      assert Distance(delay[h.at], dispersion[h.at]) == 0.0;
      assert Distance(delay[i], dispersion[i]) == 0.0;
    }
  }

  /** One unit above the least distance the weight is 4. */
  lemma WeightOfOneUnit(h: Weighing, w: seq<real>, delay: seq<real>, dispersion: seq<real>, i: nat)
    requires Explains(h, w, delay, dispersion) && i < |w| && h.unit > 0.0 && h.dist[i] == h.least + h.unit
    ensures w[i] == 4.0
  {
    SameWeight(w[i], 4.0, h.root[i], 2.0, h.dist[i], h.least, h.unit);
  }

  lemma UnitPositive(mean: real, least: real)
    requires least >= 0.0
    ensures Unit(mean, least) >= 0.0 && (Unit(mean, least) > 0.0 <==> least > 0.0)
  {
  }

  lemma WeightOrder(w: seq<real>, d: seq<real>, least: real, sd: real, i: nat, j: nat)
    requires Weighed(w, d, least, sd, |d|) && i < |d| && j < |d| && least <= d[i] && least <= d[j] && sd >= 0.0
    ensures w[i] >= 1.0 && (d[i] < d[j] <==> w[i] < w[j])
  {
    if sd > 0.0 {
      if d[i] < d[j] { WeightGrows(d[i], d[j], least, sd); }
      if d[j] < d[i] { WeightGrows(d[j], d[i], least, sd); }
      if d[i] > least { WeightGrows(least, d[i], least, sd); }
    }
  }

  lemma {:induction false} TotalFrame(a: seq<real>, b: seq<real>, n: nat)
    requires n <= |a| == |b| && forall i | 0 <= i < n :: a[i] == b[i]
    ensures Total(a, n) == Total(b, n)
  {
    if n > 0 { TotalFrame(a, b, n - 1); }
  }

  // ---- sums ----

  /** r is y - b0 w - b1 x, or at least that. */
  predicate Combine(r: real, y: real, w: real, x: real, b0: real, b1: real, equal: bool) {
    r >= y - b0 * w - b1 * x && (equal ==> r == y - b0 * w - b1 * x)
  }

  predicate Combines(r: seq<real>, y: seq<real>, w: seq<real>, x: seq<real>, b0: real, b1: real, equal: bool) {
    && |r| == |y| == |w| == |x|
    && forall i | 0 <= i < |r| :: Combine(r[i], y[i], w[i], x[i], b0, b1, equal)
  }

  lemma {:induction false} TotalCombines(r: seq<real>, y: seq<real>, w: seq<real>, x: seq<real>, b0: real, b1: real,
                                         equal: bool, n: nat)
    requires Combines(r, y, w, x, b0, b1, equal) && n <= |r|
    ensures Combine(Total(r, n), Total(y, n), Total(w, n), Total(x, n), b0, b1, equal)
  {
    if n > 0 {
      TotalCombines(r, y, w, x, b0, b1, equal, n - 1);
      assert Combine(r[n - 1], y[n - 1], w[n - 1], x[n - 1], b0, b1, equal);
      Regroup(Total(y, n - 1), y[n - 1], Total(w, n - 1), w[n - 1], Total(x, n - 1), x[n - 1], b0, b1);
    }
  }

  lemma Regroup(y: real, ty: real, w: real, tw: real, x: real, tx: real, b0: real, b1: real)
    ensures (y - b0 * w - b1 * x) + (ty - b0 * tw - b1 * tx) == (y + ty) - b0 * (w + tw) - b1 * (x + tx)
  {
  }

  lemma {:induction false} TotalNonnegative(a: seq<real>, n: nat)
    requires n <= |a| && Nonnegative(a)
    ensures Total(a, n) >= 0.0
  {
    if n > 0 { TotalNonnegative(a, n - 1); }
  }

  /** A sum of nonnegative terms that is zero has only zero terms. */
  lemma {:induction false} TotalZero(a: seq<real>, b: seq<real>, n: nat)
    requires n <= |a| == |b| && Nonnegative(a) && Total(a, n) == 0.0
    requires forall i | 0 <= i < |a| :: a[i] <= 0.0 ==> b[i] == 0.0
    ensures Total(b, n) == 0.0
  {
    if n > 0 {
      TotalNonnegative(a, n - 1);
      TotalZero(a, b, n - 1);
    }
  }

  // ---- the fit ----

  /** Times and offsets of the samples, and the inverses of their weights. */
  datatype Data = Data(x: seq<real>, y: seq<real>, v: seq<real>)

  predicate Positive(v: seq<real>) {
    forall i | 0 <= i < |v| :: v[i] > 0.0
  }

  predicate Valid(d: Data) {
    |d.x| == |d.y| == |d.v| && Positive(d.v)
  }

  /** Deviations from a mean. */
  function Deviations(a: seq<real>, mean: real): (t: seq<real>) {
    seq(|a|, i requires 0 <= i < |a| => a[i] - mean)
  }

  /** Residuals of the line c0 + c1 x. */
  function Residuals(d: Data, c0: real, c1: real): (t: seq<real>)
    requires Valid(d)
  {
    seq(|d.x|, i requires 0 <= i < |d.x| && Valid(d) => d.y[i] - c0 - c1 * d.x[i])
  }

  /** Values, and products of values, with their weights. */
  function Weighted(a: seq<real>, v: seq<real>): (t: seq<real>)
    requires |a| == |v|
  {
    seq(|a|, i requires 0 <= i < |a| == |v| => a[i] * v[i])
  }

  function WeightedProducts(a: seq<real>, b: seq<real>, v: seq<real>): (t: seq<real>)
    requires |a| == |b| == |v|
  {
    seq(|a|, i requires 0 <= i < |a| == |b| == |v| => a[i] * b[i] * v[i])
  }

  function WeightedSum(a: seq<real>, v: seq<real>): (s: real)
    requires |a| == |v|
  {
    Total(Weighted(a, v), |a|)
  }

  function WeightedProduct(a: seq<real>, b: seq<real>, v: seq<real>): (s: real)
    requires |a| == |b| == |v|
  {
    Total(WeightedProducts(a, b, v), |a|)
  }

  /** The weighted squared residual of a line over all samples. */
  function SquaredResidual(d: Data, c0: real, c1: real): (s: real)
    requires Valid(d)
  {
    WeightedProduct(Residuals(d, c0, c1), Residuals(d, c0, c1), d.v)
  }

  predicate Linear(r: seq<real>, y: seq<real>, x: seq<real>, b0: real, b1: real) {
    |r| == |y| == |x| && forall i | 0 <= i < |r| :: r[i] == y[i] - b0 - b1 * x[i]
  }

  lemma ErrorTerm(r: real, y: real, x: real, v: real, b0: real, b1: real)
    requires r == y - b0 - b1 * x
    ensures Combine(r * v, y * v, v, x * v, b0, b1, true)
  {
  }

  lemma ErrorsCombine(r: seq<real>, y: seq<real>, x: seq<real>, v: seq<real>, b0: real, b1: real)
    requires Linear(r, y, x, b0, b1) && |r| == |v|
    ensures Combines(Weighted(r, v), Weighted(y, v), v, Weighted(x, v), b0, b1, true)
  {
    forall i | 0 <= i < |r| ensures Combine(r[i] * v[i], y[i] * v[i], v[i], x[i] * v[i], b0, b1, true) {
      ErrorTerm(r[i], y[i], x[i], v[i], b0, b1);
    }
  }

  lemma ErrorXTerm(x: real, r: real, dx: real, dy: real, v: real, b1: real, xbar: real)
    requires x == dx + xbar && r == dy - b1 * dx
    ensures Combine(x * r * v, dx * dy * v, r * v, dx * dx * v, -xbar, b1, true)
  {
  }

  lemma ErrorsXCombine(x: seq<real>, r: seq<real>, dx: seq<real>, dy: seq<real>, v: seq<real>, b1: real, xbar: real)
    requires |x| == |v| && Linear(x, dx, dx, -xbar, 0.0) && Linear(r, dy, dx, 0.0, b1)
    ensures Combines(WeightedProducts(x, r, v), WeightedProducts(dx, dy, v), Weighted(r, v),
                     WeightedProducts(dx, dx, v), -xbar, b1, true)
  {
    forall i | 0 <= i < |x|
      ensures Combine(x[i] * r[i] * v[i], dx[i] * dy[i] * v[i], r[i] * v[i], dx[i] * dx[i] * v[i], -xbar, b1, true)
    {
      ErrorXTerm(x[i], r[i], dx[i], dy[i], v[i], b1, xbar);
    }
  }

  /** A line through the means: its residuals in terms of deviations. */
  lemma ThroughMeans(d: Data, b0: real, b1: real, xbar: real, ybar: real)
    requires Valid(d) && b0 == ybar - b1 * xbar
    ensures Linear(Residuals(d, b0, b1), Deviations(d.y, ybar), Deviations(d.x, xbar), 0.0, b1)
    ensures Linear(d.x, Deviations(d.x, xbar), Deviations(d.x, xbar), -xbar, 0.0)
  {
    forall i | 0 <= i < |d.x| ensures d.y[i] - b0 - b1 * d.x[i] == (d.y[i] - ybar) - b1 * (d.x[i] - xbar) {
      ThroughMean(d.x[i], d.y[i], b0, b1, xbar, ybar);
    }
  }

  lemma ThroughMean(x: real, y: real, b0: real, b1: real, xbar: real, ybar: real)
    requires b0 == ybar - b1 * xbar
    ensures y - b0 - b1 * x == (y - ybar) - b1 * (x - xbar)
  {
  }

  lemma SquareTimes(t: real, v: real)
    requires v > 0.0
    ensures t * t * v >= 0.0
    ensures t != 0.0 ==> t * t * v > 0.0
  {
    if t > 0.0 {
      assert t * v > 0.0;
      assert t * (t * v) > 0.0;
      assert t * t * v > 0.0;
    } else if t < 0.0 {
      assert t * v < 0.0;
      assert t * (t * v) > 0.0;
      assert t * t * v > 0.0;
    }
  }

  lemma ZeroTerm(a: real, b: real, v: real)
    requires v > 0.0 && a * a * v <= 0.0
    ensures a * b * v == 0.0
  {
    SquareTimes(a, v);
  }

  /** One term of the residual of another line: at least the first-order change. */
  lemma ResidualTerm(s: real, r: real, x: real, v: real, e0: real, e1: real)
    requires v > 0.0 && 2.0 * (r - s) == e0 + e1 * x
    ensures Combine(s * s * v, r * r * v, r * v, x * r * v, e0, e1, false)
  {
    SquareTimes(s - r, v);
    assert s * s * v - r * r * v == (s - r) * (s - r) * v - 2.0 * (r - s) * r * v;
  }

  /** Twice the difference of two lines at each sample. */
  predicate Apart(s: seq<real>, r: seq<real>, x: seq<real>, e0: real, e1: real) {
    |s| == |r| == |x| && forall i | 0 <= i < |s| :: 2.0 * (r[i] - s[i]) == e0 + e1 * x[i]
  }

  lemma ResidualsCombine(s: seq<real>, r: seq<real>, x: seq<real>, v: seq<real>, e0: real, e1: real)
    requires Apart(s, r, x, e0, e1) && |s| == |v| && Positive(v)
    ensures Combines(WeightedProducts(s, s, v), WeightedProducts(r, r, v), Weighted(r, v),
                     WeightedProducts(x, r, v), e0, e1, false)
  {
    forall i | 0 <= i < |s|
      ensures Combine(s[i] * s[i] * v[i], r[i] * r[i] * v[i], r[i] * v[i], x[i] * r[i] * v[i], e0, e1, false)
    {
      ResidualTerm(s[i], r[i], x[i], v[i], e0, e1);
    }
  }

  lemma LinesApart(d: Data, b0: real, b1: real, c0: real, c1: real, e0: real, e1: real)
    requires Valid(d) && e0 == 2.0 * (c0 - b0) && e1 == 2.0 * (c1 - b1)
    ensures Apart(Residuals(d, c0, c1), Residuals(d, b0, b1), d.x, e0, e1)
  {
    forall i | 0 <= i < |d.x|
      ensures 2.0 * ((d.y[i] - b0 - b1 * d.x[i]) - (d.y[i] - c0 - c1 * d.x[i])) == e0 + e1 * d.x[i]
    {
      LineApart(d.x[i], d.y[i], b0, b1, c0, c1, e0, e1);
    }
  }

  lemma LineApart(x: real, y: real, b0: real, b1: real, c0: real, c1: real, e0: real, e1: real)
    requires e0 == 2.0 * (c0 - b0) && e1 == 2.0 * (c1 - b1)
    ensures 2.0 * ((y - b0 - b1 * x) - (y - c0 - c1 * x)) == e0 + e1 * x
  {
  }

  /** With no spread in x there is no covariance either. */
  lemma NoSpread(dx: seq<real>, dy: seq<real>, v: seq<real>)
    requires |dx| == |dy| == |v| && Positive(v)
    ensures WeightedProduct(dx, dx, v) >= 0.0
    ensures WeightedProduct(dx, dx, v) == 0.0 ==> WeightedProduct(dx, dy, v) == 0.0
  {
    var a, b := WeightedProducts(dx, dx, v), WeightedProducts(dx, dy, v);
    forall i | 0 <= i < |dx| ensures a[i] >= 0.0 && (a[i] <= 0.0 ==> b[i] == 0.0) {
      SquareTimes(dx[i], v[i]);
      if dx[i] * dx[i] * v[i] <= 0.0 { ZeroTerm(dx[i], dy[i], v[i]); }
    }
    TotalNonnegative(a, |a|);
    if Total(a, |a|) == 0.0 { TotalZero(a, b, |a|); }
  }

  predicate IsMean(m: real, w: real, sum: real) {
    m * w == sum
  }

  predicate IsSlope(b1: real, sxx: real, sxy: real) {
    b1 * sxx == sxy
  }

  /** b0 + b1 x passes through the means and its slope solves the covariance equation. */
  predicate Fit(d: Data, b0: real, b1: real, xbar: real, ybar: real)
    requires Valid(d)
  {
    var dx, dy := Deviations(d.x, xbar), Deviations(d.y, ybar);
    && IsMean(xbar, Total(d.v, |d.v|), WeightedSum(d.x, d.v))
    && IsMean(ybar, Total(d.v, |d.v|), WeightedSum(d.y, d.v))
    && b0 == ybar - b1 * xbar
    && IsSlope(b1, WeightedProduct(dx, dx, d.v), WeightedProduct(dx, dy, d.v))
  }

  lemma MeanBalance(e: real, y: real, w: real, x: real, xbar: real, ybar: real, b0: real, b1: real)
    requires Combine(e, y, w, x, b0, b1, true) && IsMean(xbar, w, x) && IsMean(ybar, w, y) && b0 == ybar - b1 * xbar
    ensures e == 0.0
  {
    assert b1 * x == b1 * (xbar * w);
    assert b0 * w == (ybar - b1 * xbar) * w;
    assert (ybar - b1 * xbar) * w == ybar * w - b1 * (xbar * w);
  }

  lemma SlopeBalance(ex: real, sxy: real, e: real, sxx: real, b0: real, b1: real)
    requires Combine(ex, sxy, e, sxx, b0, b1, true) && e == 0.0 && IsSlope(b1, sxx, sxy)
    ensures ex == 0.0
  {
    assert b0 * e == 0.0;
  }

  lemma ResidualBalance(s: real, r: real, e: real, ex: real, e0: real, e1: real)
    requires Combine(s, r, e, ex, e0, e1, false) && e == 0.0 && ex == 0.0
    ensures s >= r
  {
    assert e0 * e == 0.0 && e1 * ex == 0.0;
  }

  /** The residuals of a fitted line balance. */
  lemma FitBalances(d: Data, b0: real, b1: real, xbar: real, ybar: real)
    requires Valid(d) && Fit(d, b0, b1, xbar, ybar)
    ensures WeightedSum(Residuals(d, b0, b1), d.v) == 0.0
  {
    var n, r := |d.x|, Residuals(d, b0, b1);
    ErrorsCombine(r, d.y, d.x, d.v, b0, b1);
    TotalCombines(Weighted(r, d.v), Weighted(d.y, d.v), d.v, Weighted(d.x, d.v), b0, b1, true, n);
    MeanBalance(WeightedSum(r, d.v), WeightedSum(d.y, d.v), Total(d.v, n), WeightedSum(d.x, d.v), xbar, ybar, b0, b1);
  }

  /** And so do their products with x. */
  lemma FitBalancesX(d: Data, b0: real, b1: real, xbar: real, ybar: real)
    requires Valid(d) && Fit(d, b0, b1, xbar, ybar)
    ensures WeightedProduct(d.x, Residuals(d, b0, b1), d.v) == 0.0
  {
    var r, dx, dy := Residuals(d, b0, b1), Deviations(d.x, xbar), Deviations(d.y, ybar);
    FitBalances(d, b0, b1, xbar, ybar);
    ThroughMeans(d, b0, b1, xbar, ybar);
    ErrorsXCombine(d.x, r, dx, dy, d.v, b1, xbar);
    TotalCombines(WeightedProducts(d.x, r, d.v), WeightedProducts(dx, dy, d.v), Weighted(r, d.v),
                  WeightedProducts(dx, dx, d.v), -xbar, b1, true, |d.x|);
    SlopeBalance(WeightedProduct(d.x, r, d.v), WeightedProduct(dx, dy, d.v), WeightedSum(r, d.v),
                 WeightedProduct(dx, dx, d.v), -xbar, b1);
  }

  lemma BalancedIsBest(d: Data, b0: real, b1: real, c0: real, c1: real)
    requires Valid(d) && WeightedSum(Residuals(d, b0, b1), d.v) == 0.0
    requires WeightedProduct(d.x, Residuals(d, b0, b1), d.v) == 0.0
    ensures SquaredResidual(d, b0, b1) <= SquaredResidual(d, c0, c1)
  {
    var s, r := Residuals(d, c0, c1), Residuals(d, b0, b1);
    var e0, e1 := 2.0 * (c0 - b0), 2.0 * (c1 - b1);
    LinesApart(d, b0, b1, c0, c1, e0, e1);
    ResidualsCombine(s, r, d.x, d.v, e0, e1);
    TotalCombines(WeightedProducts(s, s, d.v), WeightedProducts(r, r, d.v), Weighted(r, d.v),
                  WeightedProducts(d.x, r, d.v), e0, e1, false, |d.x|);
    ResidualBalance(SquaredResidual(d, c0, c1), SquaredResidual(d, b0, b1), WeightedSum(r, d.v),
                    WeightedProduct(d.x, r, d.v), e0, e1);
  }

  /** A fitted line has the least weighted squared residual of all lines. */
  lemma FitIsBest(d: Data, b0: real, b1: real, xbar: real, ybar: real, c0: real, c1: real)
    requires Valid(d) && Fit(d, b0, b1, xbar, ybar)
    ensures SquaredResidual(d, b0, b1) <= SquaredResidual(d, c0, c1)
  {
    FitBalances(d, b0, b1, xbar, ybar);
    FitBalancesX(d, b0, b1, xbar, ybar);
    BalancedIsBest(d, b0, b1, c0, c1);
  }

  // ---- the loops of the source ----

  /** v holds the inverses of the weights w. */
  predicate Inverse(v: seq<real>, w: seq<real>) {
    |v| == |w| && forall i | 0 <= i < |w| :: w[i] >= 1.0 && v[i] == 1.0 / w[i]
  }

  function Inverses(w: seq<real>): (v: seq<real>)
    requires forall i | 0 <= i < |w| :: w[i] >= 1.0
    ensures Inverse(v, w) && Positive(v)
  {
    seq(|w|, i requires 0 <= i < |w| && w[i] >= 1.0 => 1.0 / w[i])
  }

  lemma Divide(a: real, w: real, v: real)
    requires w >= 1.0 && v == 1.0 / w
    ensures a / w == a * v
  {
  }

  lemma {:induction false} TotalPositive(v: seq<real>, n: nat)
    requires Positive(v) && 0 < n <= |v|
    ensures Total(v, n) > 0.0
  {
    if n > 1 { TotalPositive(v, n - 1); }
  }

  function Over(a: real, w: real): (q: real)
    requires w >= 1.0
  {
    a / w
  }

  function ProductOver(a: real, b: real, w: real): (q: real)
    requires w >= 1.0
  {
    a * b / w
  }

  lemma NextSum(a: seq<real>, v: seq<real>, w: seq<real>, i: nat)
    requires |a| == |w| && Inverse(v, w) && i < |a|
    ensures Total(Weighted(a, v), i + 1) == Total(Weighted(a, v), i) + Over(a[i], w[i])
  {
    Divide(a[i], w[i], v[i]);
  }

  lemma NextProduct(a: seq<real>, b: seq<real>, v: seq<real>, w: seq<real>, i: nat)
    requires |a| == |b| == |w| && Inverse(v, w) && i < |a|
    ensures Total(WeightedProducts(a, b, v), i + 1) ==
            Total(WeightedProducts(a, b, v), i) + ProductOver(a[i], b[i], w[i])
  {
    Divide(a[i] * b[i], w[i], v[i]);
  }

  method Means(x: seq<real>, y: seq<real>, w: seq<real>, ghost v: seq<real>)
    returns (xbar: real, ybar: real, wsum: real)
    requires |x| == |y| == |w| > 0 && Inverse(v, w) && Positive(v)
    ensures wsum == Total(v, |v|) > 0.0
    ensures IsMean(xbar, wsum, WeightedSum(x, v)) && IsMean(ybar, wsum, WeightedSum(y, v))
  {
    var xsum, ysum;
    xsum, ysum, wsum := 0.0, 0.0, 0.0;
    for i := 0 to |x|
      invariant xsum == Total(Weighted(x, v), i) && ysum == Total(Weighted(y, v), i) && wsum == Total(v, i)
    {
      NextSum(x, v, w, i);
      NextSum(y, v, w, i);
      xsum := xsum + Over(x[i], w[i]);
      ysum := ysum + Over(y[i], w[i]);
      wsum := wsum + 1.0 / w[i];
    }
    TotalPositive(v, |v|);
    xbar := Ratio(xsum, wsum);
    ybar := Ratio(ysum, wsum);
  }

  method DeviationSums(x: seq<real>, y: seq<real>, w: seq<real>, ghost v: seq<real>, xbar: real, ybar: real)
    returns (xy: real, xss: real)
    requires |x| == |y| == |w| && Inverse(v, w)
    ensures var dx, dy := Deviations(x, xbar), Deviations(y, ybar);
      xy == WeightedProduct(dx, dy, v) && xss == WeightedProduct(dx, dx, v)
  {
    xy, xss := 0.0, 0.0;
    ghost var dx, dy := Deviations(x, xbar), Deviations(y, ybar);
    for i := 0 to |x|
      invariant xy == Total(WeightedProducts(dx, dy, v), i) && xss == Total(WeightedProducts(dx, dx, v), i)
    {
      var xdev, ydev := x[i] - xbar, y[i] - ybar;
      NextProduct(dx, dy, v, w, i);
      NextProduct(dx, dx, v, w, i);
      xy := xy + ProductOver(xdev, ydev, w[i]);
      xss := xss + ProductOver(xdev, xdev, w[i]);
    }
  }

  method ErrorSum(d: Data, w: seq<real>, b0: real, b1: real) returns (sum: real)
    requires Valid(d) && Inverse(d.v, w)
    ensures sum == SquaredResidual(d, b0, b1)
  {
    sum := 0.0;
    ghost var s := Residuals(d, b0, b1);
    for i := 0 to |d.x|
      invariant sum == Total(WeightedProducts(s, s, d.v), i)
    {
      var r := d.y[i] - b0 - b1 * d.x[i];
      NextProduct(s, s, d.v, w, i);
      sum := sum + ProductOver(r, r, w[i]);
    }
  }

  predicate AllEqual(x: seq<real>) {
    forall i | 0 <= i < |x| :: x[i] == x[0]
  }

  lemma {:induction false} TotalAllZero(a: seq<real>, n: nat)
    requires n <= |a| && forall i | 0 <= i < n :: a[i] == 0.0
    ensures Total(a, n) == 0.0
  {
    if n > 0 { TotalAllZero(a, n - 1); }
  }

  lemma {:induction false} TotalConstant(x: seq<real>, v: seq<real>, c: real, n: nat)
    requires n <= |x| == |v| && forall i | 0 <= i < |x| :: x[i] == c
    ensures IsMean(c, Total(v, n), Total(Weighted(x, v), n))
  {
    if n > 0 {
      TotalConstant(x, v, c, n - 1);
      MeanAdd(c, Total(v, n - 1), Total(Weighted(x, v), n - 1), v[n - 1]);
    }
  }

  lemma MeanAdd(c: real, w: real, sum: real, v: real)
    requires IsMean(c, w, sum)
    ensures IsMean(c, w + v, sum + c * v)
  {
  }

  lemma TimesGrows(m: real, c: real, w: real)
    requires w > 0.0
    ensures m > c ==> m * w > c * w
  {
    if m > c { assert (m - c) * w > 0.0; }
  }

  lemma SameMean(m: real, c: real, w: real, sum: real)
    requires w > 0.0 && IsMean(m, w, sum) && IsMean(c, w, sum)
    ensures m == c
  {
    TimesGrows(m, c, w);
    TimesGrows(c, m, w);
  }

  lemma SquareZero(t: real, v: real)
    requires v > 0.0 && t * t * v <= 0.0
    ensures t == 0.0
  {
    ZeroTerm(t, 1.0, v);
    ZeroFactor(v, t);
  }

  lemma ZeroFactor(a: real, b: real)
    requires a * b == 0.0 && a > 0.0
    ensures b == 0.0
  {
  }

  predicate AllZero(a: seq<real>) {
    forall i | 0 <= i < |a| :: a[i] == 0.0
  }

  /** A weighted sum of squares is zero exactly when every value is. */
  lemma SquaresZero(dx: seq<real>, v: seq<real>)
    requires |dx| == |v| && Positive(v)
    ensures WeightedProduct(dx, dx, v) == 0.0 <==> AllZero(dx)
  {
    var a := WeightedProducts(dx, dx, v);
    forall i | 0 <= i < |dx| ensures a[i] >= 0.0 && (a[i] <= 0.0 ==> dx[i] == 0.0) {
      SquareTimes(dx[i], v[i]);
      if dx[i] * dx[i] * v[i] <= 0.0 { SquareZero(dx[i], v[i]); }
    }
    if Total(a, |a|) == 0.0 { TermsZero(a, |a|); }
    if AllZero(dx) {
      forall i | 0 <= i < |dx| ensures a[i] == 0.0 { ZeroProduct(dx[i], v[i]); }
      TotalAllZero(a, |a|);
    }
  }

  lemma ZeroProduct(t: real, v: real)
    requires t == 0.0
    ensures t * t * v == 0.0
  {
  }

  lemma MeanOfEqual(x: seq<real>, v: seq<real>, xbar: real)
    requires |x| == |v| > 0 && Positive(v) && IsMean(xbar, Total(v, |v|), WeightedSum(x, v)) && AllEqual(x)
    ensures xbar == x[0]
  {
    TotalConstant(x, v, x[0], |x|);
    TotalPositive(v, |v|);
    SameMean(xbar, x[0], Total(v, |v|), WeightedSum(x, v));
  }

  /** The sample times have no spread exactly when they are all equal. */
  lemma SpreadMeans(x: seq<real>, v: seq<real>, xbar: real)
    requires |x| == |v| > 0 && Positive(v) && IsMean(xbar, Total(v, |v|), WeightedSum(x, v))
    ensures WeightedProduct(Deviations(x, xbar), Deviations(x, xbar), v) == 0.0 <==> AllEqual(x)
  {
    var dx := Deviations(x, xbar);
    SquaresZero(dx, v);
    if AllEqual(x) { MeanOfEqual(x, v, xbar); }
    if AllZero(dx) {
      forall i | 0 <= i < |x| ensures x[i] == x[0] { assert dx[i] == 0.0 && dx[0] == 0.0; }
    }
  }

  lemma {:induction false} TermsZero(a: seq<real>, n: nat)
    requires n <= |a| && Nonnegative(a) && Total(a, n) == 0.0
    ensures forall i | 0 <= i < n :: a[i] == 0.0
  {
    if n > 0 {
      TotalNonnegative(a, n - 1);
      TermsZero(a, n - 1);
    }
  }

  lemma InverseShrinks(a: real, b: real)
    requires a >= 1.0 && b >= 1.0
    ensures a < b <==> 1.0 / a > 1.0 / b
  {
  }

  ghost predicate BestLine(d: Data, b0: real, b1: real)
    requires Valid(d)
  {
    forall c0, c1 :: SquaredResidual(d, b0, b1) <= SquaredResidual(d, c0, c1)
  }

  lemma EqualDeviations(x: seq<real>, mean: real)
    ensures AllEqual(Deviations(x, mean)) <==> AllEqual(x)
  {
    var dx := Deviations(x, mean);
    if AllEqual(dx) {
      forall i | 0 <= i < |x| ensures x[i] == x[0] { assert dx[i] == dx[0]; }
    }
  }

  /** With all times equal, the best line fits exactly when all offsets are equal. */
  lemma EqualTimesFit(d: Data, b0: real, b1: real)
    requires Valid(d) && |d.x| > 0 && AllEqual(d.x) && BestLine(d, b0, b1)
    ensures SquaredResidual(d, b0, b1) == 0.0 <==> AllEqual(d.y)
  {
    var r := Residuals(d, b0, b1);
    SquaresZero(r, d.v);
    if AllZero(r) {
      forall i | 0 <= i < |d.y| ensures d.y[i] == d.y[0] {
        assert r[i] == 0.0 && r[0] == 0.0;
        SameHeight(d.x[i], d.x[0], b1);
      }
    }
    if AllEqual(d.y) {
      var t := Residuals(d, d.y[0], 0.0);
      forall i | 0 <= i < |t| ensures t[i] == 0.0 { assert t[i] == d.y[i] - d.y[0] - 0.0 * d.x[i]; }
      SquaresZero(t, d.v);
      assert SquaredResidual(d, b0, b1) <= SquaredResidual(d, d.y[0], 0.0);
      SquaresNonnegative(r, d.v);
    }
  }

  lemma SameHeight(x: real, y: real, b1: real)
    requires x == y
    ensures b1 * x == b1 * y
  {
  }

  lemma SquaresNonnegative(a: seq<real>, v: seq<real>)
    requires |a| == |v| && Positive(v)
    ensures WeightedProduct(a, a, v) >= 0.0
  {
    var p := WeightedProducts(a, a, v);
    forall i | 0 <= i < |a| ensures p[i] >= 0.0 { SquareTimes(a[i], v[i]); }
    TotalNonnegative(p, |p|);
  }

  /** Some but not all distances are zero. */
  predicate SomeZero(delay: seq<real>, dispersion: seq<real>)
    requires |delay| == |dispersion|
  {
    exists i, j | 0 <= i < |delay| && 0 <= j < |delay| ::
      Distance(delay[i], dispersion[i]) == 0.0 && Distance(delay[j], dispersion[j]) != 0.0
  }

  /** v inverts the weights that the source computes. */
  ghost predicate InverseWeights(v: seq<real>, delay: seq<real>, dispersion: seq<real>) {
    exists w :: SourceWeights(w, delay, dispersion) && Reciprocal(v, w)
  }

  predicate Reciprocal(v: seq<real>, w: seq<real>) {
    |v| == |w| && forall i | 0 <= i < |w| :: IsMean(v[i], w[i], 1.0)
  }

  /** The samples of a fit: times relative to the last one, offsets, and inverse weights. */
  ghost predicate Samples(d: Data, time: seq<real>, offset: seq<real>, delay: seq<real>, dispersion: seq<real>) {
    && 0 < |time| == |offset| == |delay| == |dispersion| && Valid(d)
    && |d.x| == |time| && (forall i | 0 <= i < |time| :: d.x[i] == time[i] - time[|time| - 1])
    && d.y == offset && |d.v| == |time| && InverseWeights(d.v, delay, dispersion)
    && forall i, j | 0 <= i < |time| && 0 <= j < |time| ::
      Distance(delay[i], dispersion[i]) < Distance(delay[j], dispersion[j]) <==> d.v[i] > d.v[j]
  }

  method Prepare(time: seq<real>, offset: seq<real>, delay: seq<real>, dispersion: seq<real>)
    returns (ok: bool, d: Data, w: seq<real>)
    requires |time| == |offset| == |delay| == |dispersion| > 0 && Nonnegative(delay) && Nonnegative(dispersion)
    ensures ok <==> !SomeZero(delay, dispersion)
    ensures ok ==> Samples(d, time, offset, delay, dispersion) && Inverse(d.v, w)
  {
    var dist;
    ok, w, dist := Weights(delay, dispersion);
    d := Data([], [], []);
    if !ok { return; }
    d := Data(Deviations(time, time[|time| - 1]), offset, Inverses(w));
    forall i, j | 0 <= i < |w| && 0 <= j < |w| ensures w[i] < w[j] <==> d.v[i] > d.v[j] { InverseShrinks(w[i], w[j]); }
    forall i | 0 <= i < |w| ensures IsMean(d.v[i], w[i], 1.0) { Reciprocals(d.v[i], w[i]); }
    assert Reciprocal(d.v, w);
  }

  lemma Reciprocals(v: real, w: real)
    requires w >= 1.0 && v == 1.0 / w
    ensures IsMean(v, w, 1.0)
  {
  }

  /** A measurement without delay and dispersion among others makes the fit impossible. */
  lemma ZeroDistance()
    ensures SomeZero([0.0, 1.0, 1.0, 1.0], [0.0, 0.0, 0.0, 0.0])
    ensures Nonnegative([0.0, 1.0, 1.0, 1.0]) && Nonnegative([0.0, 0.0, 0.0, 0.0])
  {
    var delay, dispersion := [0.0, 1.0, 1.0, 1.0], [0.0, 0.0, 0.0, 0.0];
    assert Distance(delay[0], dispersion[0]) == 0.0 && Distance(delay[1], dispersion[1]) != 0.0;
  }
}
