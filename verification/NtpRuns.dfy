/** What the clock discipline of klib/ntp.c does over runs of queries, polls and bad regressions. */
module NtpRuns {
  import opened Common
  import opened FixedPoint
  import opened NtpController
  import opened Powers

  // ---- queries ----

  /** The controller after a number of failed queries. */
  function Failures(n: Ntp, k: nat): (r: Ntp) {
    if k == 0 then n else QueryComplete(Failures(n, k - 1), false)
  }

  function Min(a: int, b: int): (m: int) {
    if a < b then a else b
  }

  function Max(a: int, b: int): (m: int) {
    if a < b then b else a
  }

  /** From the ninth failure in a row on, each one doubles the time between queries, up to the
      configured limit; nothing else changes. */
  lemma {:induction false} FailuresInARow(n: Ntp, k: nat)
    requires 0 <= n.server && n.errors == 0 && n.interval <= n.pollMax
    ensures Failures(n, k) == n.(errors := k, interval := Min(n.pollMax, n.interval + Max(0, k - QUERY_ATTEMPTS)))
  {
    if k > 0 { FailuresInARow(n, k - 1); }
  }

  /** A success ends the row, and without a server neither counts. */
  lemma QueryEnds(n: Ntp, k: nat, success: bool)
    requires n.errors == 0 && n.interval <= n.pollMax
    ensures 0 <= n.server ==> QueryComplete(Failures(n, k), true) == Failures(n, k).(errors := 0)
    ensures n.server < 0 ==> QueryComplete(n, success) == n
  {
    if 0 <= n.server { FailuresInARow(n, k); }
  }

  // ---- polls ----

  /** The estimate is close to the measured offset. */
  predicate Tracks(n: Ntp, f: Arithmetic, jitter: int) {
    Magnitude(jitter) < Mul(f, n.offsetSd, ONE_AND_A_HALF)
  }

  function Polls(n: Ntp, f: Arithmetic, jitters: seq<int>): (r: Ntp)
    decreases |jitters|
  {
    if jitters == [] then n else Repoll(Polls(n, f, jitters[..|jitters| - 1]), f, jitters[|jitters| - 1])
  }

  predicate AllTrack(n: Ntp, f: Arithmetic, jitters: seq<int>, well: bool) {
    forall i | 0 <= i < |jitters| :: Tracks(n, f, jitters[i]) == well
  }

  /** Polls that track well add up, each by the interval. */
  lemma {:induction false} PollsAddUp(n: Ntp, f: Arithmetic, jitters: seq<int>)
    requires AllTrack(n, f, jitters, true) && n.jiggle == 0 && 0 <= n.interval
    requires n.interval * |jitters| <= JIGGLE_THRESHOLD || n.interval >= n.pollMax
    ensures Polls(n, f, jitters) == n.(jiggle := n.interval * |jitters|)
    decreases |jitters|
  {
    if jitters != [] {
      var k := |jitters|;
      OneLess(n.interval, k);
      PollsAddUp(n, f, jitters[..k - 1]);
      assert Tracks(n, f, jitters[k - 1]);
    }
  }

  lemma OneLess(i: int, k: int)
    ensures i * k == i * (k - 1) + i
  {
  }

  /** The one that takes the sum past the threshold makes polls rarer and starts afresh. */
  lemma PollsSlowDown(n: Ntp, f: Arithmetic, jitters: seq<int>)
    requires AllTrack(n, f, jitters, true) && n.jiggle == 0 && 0 < n.interval < n.pollMax
    requires |jitters| == JIGGLE_THRESHOLD / n.interval + 1
    ensures Polls(n, f, jitters) == n.(interval := n.interval + 1)
  {
    var k := |jitters|;
    Passes(n.interval, k);
    PollsAddUp(n, f, jitters[..k - 1]);
    assert Tracks(n, f, jitters[k - 1]);
  }

  lemma Passes(i: int, k: int)
    requires 0 < i && k == JIGGLE_THRESHOLD / i + 1
    ensures i * (k - 1) <= JIGGLE_THRESHOLD < i * (k - 1) + i
  {
  }

  /** Polls that do not track count twice, the other way. */
  lemma {:induction false} PollsTakeAway(n: Ntp, f: Arithmetic, jitters: seq<int>)
    requires AllTrack(n, f, jitters, false) && n.jiggle == 0 && 0 <= n.interval
    requires 2 * n.interval * |jitters| <= JIGGLE_THRESHOLD || n.interval <= n.pollMin
    ensures Polls(n, f, jitters) == n.(jiggle := -(2 * n.interval * |jitters|))
    decreases |jitters|
  {
    if jitters != [] {
      var k := |jitters|;
      OneLess(2 * n.interval, k);
      PollsTakeAway(n, f, jitters[..k - 1]);
      assert !Tracks(n, f, jitters[k - 1]);
    }
  }

  lemma PollsSpeedUp(n: Ntp, f: Arithmetic, jitters: seq<int>)
    requires AllTrack(n, f, jitters, false) && n.jiggle == 0 && 0 < n.interval && n.pollMin < n.interval
    requires |jitters| == JIGGLE_THRESHOLD / (2 * n.interval) + 1
    ensures Polls(n, f, jitters) == n.(interval := n.interval - 1)
  {
    var k := |jitters|;
    Passes(2 * n.interval, k);
    PollsTakeAway(n, f, jitters[..k - 1]);
    assert !Tracks(n, f, jitters[k - 1]);
  }

  // ---- bad regressions ----

  /** The frequency an estimate leads to is out of range. */
  predicate OutOfRange(n: Ntp, est: Estimate) {
    Abs(Wrap64(n.baseFreq + est.freq)) > n.maxBase
  }

  /** No frequency in range is closer. */
  ghost predicate Nearest(freq: int, wanted: int, limit: int) {
    Abs(freq) <= limit && forall g: int | Abs(g) <= limit :: Abs(freq - wanted) <= Abs(g - wanted)
  }

  /** An estimate in range is used as it is and ends a row of bad ones. Out of range it is used
      with the nearest frequency in range and the measured offset, except the fifth in a row. */
  lemma JudgeExactly(n: Ntp, off: int, est: Estimate)
    requires LimitsOk(n) && Wrap64(n.baseFreq + est.freq) != -TWO63
    ensures var j := Judge(n, off, est);
      && (!OutOfRange(n, est) ==> j.est == Some(est) && j.bad == 0)
      && (OutOfRange(n, est) ==>
            && j.bad == n.bad + 1 && (j.est.None? <==> j.bad == MAX_BAD_REGRESSIONS)
            && (j.est.Some? ==>
                  && j.est.value.offset == off && j.est.value.sd == est.sd && j.est.value.skew == est.skew
                  && Nearest(j.est.value.freq, est.freq, n.maxBase)))
  {
  }

  /** Everything is as at the start. */
  predicate StartedOver(r: Ntp) {
    && r.window == [] && r.bad == 0 && r.offset == 0 && r.baseFreq == 0 && r.slewFreq == 0 && r.slewStart == 0
    && r.jiggle == 0 && r.interval == r.pollMin && r.server == -1 && r.skew == INITIAL_SKEW
  }

  predicate BadSample(n: Ntp, e: Event) {
    && e.Sampled? && |Insert(n.window, e.s)| >= MIN_SAMPLES
    && (e.est.Some? ==> Wrap64(n.baseFreq + e.est.value.freq) != -TWO63 && OutOfRange(n, e.est.value))
  }

  /** A run of samples none of which has a regression in range. */
  predicate BadRun(n: Ntp, f: Arithmetic, es: seq<Event>, r: Ntp)
    decreases |es|
  {
    if es == [] then r == n
    else 0 <= n.interval && BadSample(n, es[0]) && BadRun(Apply(n, f, es[0]), f, es[1..], r)
  }

  /** One bad regression is counted; the fifth starts everything over. */
  lemma BadCounts(n: Ntp, f: Arithmetic, e: Event) returns (r: Ntp)
    requires 0 <= n.interval && 0 <= n.bad < MAX_BAD_REGRESSIONS && BadSample(n, e)
    ensures r == Apply(n, f, e)
    ensures n.bad + 1 < MAX_BAD_REGRESSIONS ==> r.bad == n.bad + 1
    ensures n.bad + 1 == MAX_BAD_REGRESSIONS ==> StartedOver(r)
  {
    r := Apply(n, f, e);
    if e.est.Some? {
      BadEstimate(InsertSample(n, e.s), f, e.s, e.est.value, e.here, e.later);
    }
  }

  lemma BadEstimate(n: Ntp, f: Arithmetic, s: Sample, est: Estimate, here: int, later: int)
    requires 0 <= n.interval && 0 <= n.bad < MAX_BAD_REGRESSIONS
    requires Wrap64(n.baseFreq + est.freq) != -TWO63 && OutOfRange(n, est)
    ensures var r := UseEstimate(n, f, s, est, here, later).ntp;
      && (n.bad + 1 < MAX_BAD_REGRESSIONS ==> r.bad == n.bad + 1)
      && (n.bad + 1 == MAX_BAD_REGRESSIONS ==> StartedOver(r))
  {
    var j := Judge(n, s.original, est);
    if j.est.Some? {
      var hereComp := Compensate(n, f, here);
      var adjustment := CarriedOffset(f, j.est.value, s.time, hereComp);
      FollowUpFrequency(TakeIn(n.(bad := j.bad), j.est.value, adjustment), f, later, hereComp, j.est.value.freq,
                        adjustment, Wrap64(s.original - j.est.value.offset));
    }
  }

  /** Fewer than five bad regressions in a row are counted, and the fifth starts everything over. */
  lemma {:induction false} FiveBadInARow(n: Ntp, f: Arithmetic, es: seq<Event>, r: Ntp)
    requires 0 <= n.bad < MAX_BAD_REGRESSIONS && BadRun(n, f, es, r) && n.bad + |es| <= MAX_BAD_REGRESSIONS
    ensures n.bad + |es| < MAX_BAD_REGRESSIONS ==> r.bad == n.bad + |es|
    ensures n.bad + |es| == MAX_BAD_REGRESSIONS ==> StartedOver(r)
    decreases |es|
  {
    if es != [] {
      var m := BadCounts(n, f, es[0]);
      if |es| > 1 { FiveBadInARow(m, f, es[1..], r); }
    }
  }
}
