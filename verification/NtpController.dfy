/** The clock discipline of klib/ntp.c: samples, slewing, stepping and poll intervals. */
module NtpController {
  import opened Common
  import opened Powers
  import opened FixedPoint

  const MAX_SAMPLES := 30
  const MIN_SAMPLES := 4
  const MAX_BAD_REGRESSIONS := 5
  const QUERY_ATTEMPTS := 8
  const JIGGLE_THRESHOLD := 30
  const QUERY_INTERVAL_MIN := 4
  const QUERY_INTERVAL_MAX := 17
  const SECOND: int := TWO32
  const MIN_SLEW_DURATION: int := SECOND
  const MAX_SLEW_DURATION: int := 10000 * SECOND
  /** One nanosecond: 2^32 / 10^9 rounded down, plus one. */
  const MIN_OFFSET_CORRECTION := 5
  /** 1.5 in fixed point. */
  const ONE_AND_A_HALF: int := TWO32 + TWO32 / 2
  const INITIAL_SKEW: int := 2 * TWO32 / 1000 + 1

  /** Fixed point multiplication and division; the results below hold whatever they return. */
  datatype Arithmetic = Arithmetic(mul: (int, int) -> int, div: (int, int) -> int)

  function Mul(f: Arithmetic, a: int, b: int): (r: int)
    ensures -TWO63 <= r < TWO63
  {
    Wrap64(f.mul(a, b))
  }

  function Div(f: Arithmetic, a: int, b: int): (r: int)
    ensures -TWO63 <= r < TWO63
  {
    Wrap64(f.div(a, b))
  }

  function Clamp(v: int, min: int, max: int): (r: int)
    ensures min <= max ==> min <= r <= max
  {
    if v < min then min else if v > max then max else v
  }

  /** The absolute value of a signed 64-bit number, which is itself for the least one. */
  function Magnitude(x: int): (r: int)
    ensures -TWO63 <= r < TWO63
    ensures -TWO63 < x < TWO63 ==> r == Abs(x)
    ensures x == -TWO63 ==> r == -TWO63
  {
    if x >= 0 then Wrap64(x) else Wrap64(-x)
  }

  datatype Sample = Sample(time: int, offset: int, original: int, delay: int, dispersion: int)

  /** The last three fields are history since the last reset: the sum of the estimated
      offset corrections, the sum of the amounts the clock was stepped by, and the
      inserted samples. */
  datatype Ntp = Ntp(
    pollMin: int, pollMax: int, interval: int, errors: int, jiggle: int, bad: int, server: int,
    window: seq<Sample>,
    slewStart: int, offset: int, baseFreq: int, slewFreq: int, offsetSd: int, skew: int,
    maxCorr: int, maxBase: int, threshold: nat,
    corrections: int, stepped: int, inserted: seq<Sample>)

  function Reset(n: Ntp): (r: Ntp) {
    n.(interval := n.pollMin, jiggle := 0, window := [], bad := 0, offset := 0, slewFreq := 0, slewStart := 0,
       baseFreq := 0, skew := INITIAL_SKEW, server := -1, corrections := 0, stepped := 0, inserted := [])
  }

  function QueryComplete(n: Ntp, success: bool): (r: Ntp) {
    if n.server < 0 then n
    else if success then n.(errors := 0)
    else
      var m := n.(errors := n.errors + 1);
      if m.errors > QUERY_ATTEMPTS && m.interval < m.pollMax then m.(interval := m.interval + 1) else m
  }

  /** The window after one more sample: the oldest one makes room in a full window. */
  function Insert(window: seq<Sample>, s: Sample): (r: seq<Sample>) {
    if |window| < MAX_SAMPLES then window + [s] else window[1..] + [s]
  }

  function InsertSample(n: Ntp, s: Sample): (r: Ntp) {
    n.(window := Insert(n.window, s), inserted := n.inserted + [s])
  }

  /** Settles what the slew so far has corrected and starts a new one. */
  function Settle(n: Ntp, f: Arithmetic, here: int): (r: Ntp) {
    var duration := Clamp(Wrap64(here - n.slewStart), 0, FPMAX);
    var adjustment := Mul(f, n.slewFreq, duration);
    n.(offset := Wrap64(n.offset - adjustment), stepped := n.stepped + adjustment)
  }

  function SlewFrequency(n: Ntp, f: Arithmetic): (r: int)
    requires 0 <= n.interval
  {
    var rate := Mul(f, Mul(f, ONE_AND_A_HALF, Wrap64(Pow2(n.interval))), n.offsetSd);
    var duration := Clamp(Div(f, rate, Magnitude(n.offset)), MIN_SLEW_DURATION, FPMAX);
    Clamp(Div(f, n.offset, duration), -n.maxCorr, n.maxCorr)
  }

  /** How long the slew of n lasts before it is settled. */
  function SlewDuration(n: Ntp, f: Arithmetic): (r: int)
    ensures MIN_SLEW_DURATION <= r <= MAX_SLEW_DURATION
  {
    if || Unsigned(Magnitude(n.offset)) < MIN_OFFSET_CORRECTION
       || (n.offset < 0 && n.slewFreq > 0) || (n.offset > 0 && n.slewFreq < 0)
    then MAX_SLEW_DURATION
    else Clamp(Div(f, n.offset, n.slewFreq), MIN_SLEW_DURATION, MAX_SLEW_DURATION)
  }

  function StartSlew(n: Ntp, f: Arithmetic, here: int): (r: Ntp)
    requires 0 <= n.interval
  {
    var m := Settle(n, f, here);
    m.(slewFreq := SlewFrequency(m, f), slewStart := here)
  }

  /** A value read as unsigned. */
  function Unsigned(x: int): (u: nat) {
    x % TWO64
  }

  /** The test for stepping rather than slewing: C compares as unsigned numbers. */
  predicate MustStep(offset: int, threshold: int) {
    Unsigned(offset) > threshold || Unsigned(offset) < Unsigned(-threshold)
  }

  /** What the regression over the window estimates. */
  datatype Estimate = Estimate(offset: int, freq: int, sd: int, skew: int)

  /** A sample brought up to date with a frequency and offset change. */
  function Adjust(s: Sample, f: Arithmetic, hereComp: int, freq: int, adjustment: int, step: int): (r: Sample) {
    var dt := Wrap64(Mul(f, Wrap64(hereComp - s.time), freq) - adjustment);
    s.(time := Unsigned(s.time + dt + step), offset := Wrap64(s.offset + dt - step))
  }

  function AdjustAll(window: seq<Sample>, f: Arithmetic, hereComp: int, freq: int, adjustment: int, step: int)
    : (r: seq<Sample>)
    ensures |r| == |window|
    ensures forall i | 0 <= i < |r| :: r[i] == Adjust(window[i], f, hereComp, freq, adjustment, step)
  {
    seq(|window|, i requires 0 <= i < |window| => Adjust(window[i], f, hereComp, freq, adjustment, step))
  }

  /** Polls less often while tracking well, and more often otherwise. */
  function Repoll(n: Ntp, f: Arithmetic, jitter: int): (r: Ntp) {
    if Magnitude(jitter) < Mul(f, n.offsetSd, ONE_AND_A_HALF) then
      var m := n.(jiggle := n.jiggle + n.interval);
      if m.jiggle > JIGGLE_THRESHOLD && m.interval < m.pollMax then m.(interval := m.interval + 1, jiggle := 0) else m
    else
      var m := n.(jiggle := n.jiggle - 2 * n.interval);
      if m.jiggle < -JIGGLE_THRESHOLD && m.interval > m.pollMin then m.(interval := m.interval - 1, jiggle := 0) else m
  }

  /** The estimate to use, or none if there have been too many bad ones: an estimate
      that takes the frequency out of range is clamped and its offset replaced. */
  datatype Judged = Judged(bad: int, est: Option<Estimate>)

  function Judge(n: Ntp, off: int, est: Estimate): (r: Judged) {
    if Magnitude(Wrap64(n.baseFreq + est.freq)) > n.maxBase then
      if n.bad + 1 == MAX_BAD_REGRESSIONS then Judged(n.bad + 1, None)
      else Judged(n.bad + 1, Some(est.(freq := Clamp(est.freq, -n.maxBase, n.maxBase), offset := off)))
    else Judged(0, Some(est))
  }

  /** A reading of the clock compensated for the slew in progress. */
  function Compensate(n: Ntp, f: Arithmetic, here: int): (r: int) {
    Unsigned(here + (n.offset - Mul(f, n.slewFreq, Wrap64(here - n.slewStart))))
  }

  /** The offset of an estimate for time t, carried forward to a later time. */
  function CarriedOffset(f: Arithmetic, est: Estimate, t: int, hereComp: int): (r: int) {
    Wrap64(est.offset + Mul(f, Wrap64(hereComp - t), est.freq))
  }

  function TakeIn(n: Ntp, est: Estimate, adjustment: int): (r: Ntp) {
    n.(offsetSd := est.sd, skew := est.skew, baseFreq := Wrap64(n.baseFreq + est.freq),
       offset := Wrap64(n.offset + adjustment), corrections := n.corrections + adjustment)
  }

  /** Steps the clock by the whole outstanding offset. */
  function Step(n: Ntp): (r: Ntp) {
    n.(stepped := n.stepped + n.offset, offset := 0)
  }

  function Act(n: Ntp, f: Arithmetic, later: int, hereComp: int, freq: int, adjustment: int): (r: Ntp)
    requires 0 <= n.interval
  {
    if MustStep(n.offset, n.threshold)
    then Step(n).(window := AdjustAll(n.window, f, hereComp, freq, 0, n.offset))
    else StartSlew(n, f, later).(window := AdjustAll(n.window, f, hereComp, freq, adjustment, 0))
  }

  /** Applies a judged estimate: the new frequency and offset, then a step or a slew. */
  function Correct(n: Ntp, f: Arithmetic, off: int, est: Estimate, hereComp: int, adjustment: int, later: int): (r: Ntp)
    requires 0 <= n.interval
  {
    FollowUp(TakeIn(n, est, adjustment), f, later, hereComp, est.freq, adjustment, Wrap64(off - est.offset))
  }

  function FollowUp(n: Ntp, f: Arithmetic, later: int, hereComp: int, freq: int, adjustment: int, jitter: int): (r: Ntp)
    requires 0 <= n.interval
  {
    Repoll(Act(n, f, later, hereComp, freq, adjustment), f, jitter)
  }

  datatype Outcome = Outcome(ntp: Ntp, ok: bool)

  /** What becomes of an estimate for sample s. */
  function UseEstimate(n: Ntp, f: Arithmetic, s: Sample, est: Estimate, here: int, later: int): (r: Outcome)
    requires 0 <= n.interval
  {
    var j := Judge(n, s.original, est);
    if j.est.None? then Outcome(Reset(n), false)
    else
      var hereComp := Compensate(n, f, here);
      var adjustment := CarriedOffset(f, j.est.value, s.time, hereComp);
      Outcome(Correct(n.(bad := j.bad), f, s.original, j.est.value, hereComp, adjustment, later), true)
  }

  /** A new sample, with what the regression makes of the window and the two readings
      of the clock. */
  function NewSample(n: Ntp, f: Arithmetic, s: Sample, est: Option<Estimate>, here: int, later: int): (r: Outcome)
    requires 0 <= n.interval
  {
    var m := InsertSample(n, s);
    if |m.window| < MIN_SAMPLES then Outcome(m, true)
    else if est.Some? then UseEstimate(m, f, s, est.value, here, later)
    else if m.bad + 1 == MAX_BAD_REGRESSIONS then Outcome(Reset(m), false)
    else Outcome(m.(bad := m.bad + 1), false)
  }

  // ---- what every step keeps ----

  /** What of a sample later adjustments leave alone. */
  function Measured(s: Sample): (r: Sample) {
    s.(time := 0, offset := 0)
  }

  /** Window and history agree: the window holds the last samples inserted, in order. */
  predicate WindowOk(n: Ntp) {
    && |n.window| == (if |n.inserted| < MAX_SAMPLES then |n.inserted| else MAX_SAMPLES)
    && forall i | 0 <= i < |n.window| ::
         Measured(n.window[i]) == Measured(n.inserted[|n.inserted| - |n.window| + i])
  }

  predicate PollOk(n: Ntp) {
    0 <= n.pollMin <= n.interval <= n.pollMax
  }

  /** The frequency limit allows for six times itself in 64 bits. */
  predicate LimitsOk(n: Ntp) {
    0 <= n.maxBase && 6 * n.maxBase < TWO63 && 0 <= n.maxCorr < TWO63
  }

  predicate FreqOk(n: Ntp) {
    0 <= n.bad < MAX_BAD_REGRESSIONS && Abs(n.baseFreq) <= (1 + n.bad) * n.maxBase && Abs(n.slewFreq) <= n.maxCorr
  }

  /** Corrections are either outstanding or have been made, modulo 2^64. */
  predicate Conserved(n: Ntp) {
    n.offset == Wrap64(n.corrections - n.stepped)
  }

  predicate Inv(n: Ntp) {
    WindowOk(n) && PollOk(n) && LimitsOk(n) && FreqOk(n) && Conserved(n)
  }

  lemma WrapAdd(a: int, b: int)
    ensures Wrap64(Wrap64(a) + b) == Wrap64(a + b)
  {
    WrapMultiple(a);
    var k := (Wrap64(a) - a) / TWO64;
    assert Wrap64(a) + b == a + b + k * TWO64;
    ModShift(a + b, k);
  }

  lemma WrapMultiple(a: int)
    ensures (Wrap64(a) - a) % TWO64 == 0
  {
    assert a == a / TWO64 * TWO64 + a % TWO64;
    ModShift(0, -(a / TWO64));
    ModShift(0, -(a / TWO64) - 1);
  }

  lemma ModShift(a: int, k: int)
    ensures (a + k * TWO64) % TWO64 == a % TWO64
  {
  }

  lemma WrapSelf(a: int)
    ensures Wrap64(a - Wrap64(a)) == 0
  {
    WrapAdd(a, -Wrap64(a));
    WrapNegate(a);
  }

  lemma WrapNegate(a: int)
    ensures Wrap64(Wrap64(a) + -Wrap64(a)) == 0
  {
  }

  lemma InsertKeeps(n: Ntp, s: Sample)
    requires WindowOk(n)
    ensures WindowOk(InsertSample(n, s))
  {
  }

  lemma ResetKeeps(n: Ntp)
    requires 0 <= n.pollMin <= n.pollMax && LimitsOk(n)
    ensures Inv(Reset(n))
  {
  }

  lemma QueryCompleteKeeps(n: Ntp, success: bool)
    requires Inv(n)
    ensures Inv(QueryComplete(n, success))
  {
  }

  lemma SettleKeeps(n: Ntp, f: Arithmetic, here: int)
    requires Conserved(n)
    ensures Conserved(Settle(n, f, here))
  {
    var adjustment := Mul(f, n.slewFreq, Clamp(Wrap64(here - n.slewStart), 0, FPMAX));
    WrapAdd(n.corrections - n.stepped, -adjustment);
  }

  lemma StartSlewKeeps(n: Ntp, f: Arithmetic, here: int)
    requires Inv(n)
    ensures Inv(StartSlew(n, f, here))
  {
    SettleKeeps(n, f, here);
  }

  lemma AdjustKeeps(n: Ntp, f: Arithmetic, hereComp: int, freq: int, adjustment: int, step: int)
    requires WindowOk(n)
    ensures WindowOk(n.(window := AdjustAll(n.window, f, hereComp, freq, adjustment, step)))
  {
  }

  lemma StepKeeps(n: Ntp)
    requires Inv(n)
    ensures Inv(Step(n))
  {
    WrapSelf(n.corrections - n.stepped);
  }

  lemma RepollKeeps(n: Ntp, f: Arithmetic, jitter: int)
    requires Inv(n)
    ensures Inv(Repoll(n, f, jitter))
  {
  }

  /** The frequency a judged estimate leads to stays in its range. */
  lemma JudgeKeeps(n: Ntp, off: int, est: Estimate)
    requires LimitsOk(n) && FreqOk(n) && Wrap64(n.baseFreq + est.freq) != -TWO63
    ensures var j := Judge(n, off, est);
      && 0 <= j.bad <= MAX_BAD_REGRESSIONS && (j.est.None? <==> j.bad == MAX_BAD_REGRESSIONS)
      && (j.est.Some? ==> Abs(Wrap64(n.baseFreq + j.est.value.freq)) <= (1 + j.bad) * n.maxBase)
  {
    var freq := Clamp(est.freq, -n.maxBase, n.maxBase);
    Distribute(1 + n.bad, n.maxBase);
    assert Abs(n.baseFreq + freq) <= (1 + n.bad) * n.maxBase + n.maxBase;
    AtMostSix(2 + n.bad, n.maxBase);
  }

  lemma Distribute(k: int, m: int)
    ensures k * m + m == (k + 1) * m
  {
  }

  lemma AtMostSix(k: int, m: int)
    requires 0 <= k <= 6 && 0 <= m
    ensures k * m <= 6 * m
  {
  }

  /** The estimate keeps the frequency in the range its number of bad ones allows. */
  predicate Acceptable(n: Ntp, est: Estimate) {
    && WindowOk(n) && PollOk(n) && LimitsOk(n) && Conserved(n)
    && 0 <= n.bad < MAX_BAD_REGRESSIONS && Abs(n.slewFreq) <= n.maxCorr
    && Abs(Wrap64(n.baseFreq + est.freq)) <= (1 + n.bad) * n.maxBase
  }

  lemma TakeInKeeps(n: Ntp, est: Estimate, adjustment: int) returns (r: Ntp)
    requires Acceptable(n, est)
    ensures r == TakeIn(n, est, adjustment) && Inv(r)
  {
    r := TakeIn(n, est, adjustment);
    WrapAdd(n.corrections - n.stepped, adjustment);
  }

  /** Adjusting the samples touches nothing else. */
  lemma AdjustedKeeps(n: Ntp, window: seq<Sample>, f: Arithmetic, hereComp: int, freq: int, adjustment: int, step: int)
    requires Inv(n) && window == n.window
    ensures Inv(n.(window := AdjustAll(window, f, hereComp, freq, adjustment, step)))
  {
    AdjustKeeps(n, f, hereComp, freq, adjustment, step);
  }

  lemma ActKeeps(n: Ntp, f: Arithmetic, later: int, hereComp: int, freq: int, adjustment: int)
    requires Inv(n)
    ensures Inv(Act(n, f, later, hereComp, freq, adjustment))
  {
    if MustStep(n.offset, n.threshold) {
      StepKeeps(n);
      AdjustedKeeps(Step(n), n.window, f, hereComp, freq, 0, n.offset);
    } else {
      StartSlewKeeps(n, f, later);
      AdjustedKeeps(StartSlew(n, f, later), n.window, f, hereComp, freq, adjustment, 0);
    }
  }

  lemma CorrectKeeps(n: Ntp, f: Arithmetic, off: int, est: Estimate, hereComp: int, adjustment: int, later: int)
    returns (r: Ntp)
    requires Acceptable(n, est)
    ensures r == Correct(n, f, off, est, hereComp, adjustment, later) && Inv(r)
  {
    var m := TakeInKeeps(n, est, adjustment);
    r := FollowUpKeeps(m, f, later, hereComp, est.freq, adjustment, Wrap64(off - est.offset));
  }

  lemma FollowUpKeeps(n: Ntp, f: Arithmetic, later: int, hereComp: int, freq: int, adjustment: int, jitter: int)
    returns (r: Ntp)
    requires Inv(n)
    ensures r == FollowUp(n, f, later, hereComp, freq, adjustment, jitter) && Inv(r)
  {
    ActKeeps(n, f, later, hereComp, freq, adjustment);
    RepollKeeps(Act(n, f, later, hereComp, freq, adjustment), f, jitter);
    r := FollowUp(n, f, later, hereComp, freq, adjustment, jitter);
  }

  /** The one estimate the range test does not catch: the sum with the base frequency is
      the least 64-bit number, whose absolute value is negative. */
  predicate Escapes(n: Ntp, s: Sample, est: Option<Estimate>) {
    |Insert(n.window, s)| >= MIN_SAMPLES && est.Some? && Wrap64(n.baseFreq + est.value.freq) == -TWO63
  }

  lemma NewSampleKeeps(n: Ntp, f: Arithmetic, s: Sample, est: Option<Estimate>, here: int, later: int)
    requires Inv(n) && !Escapes(n, s, est)
    ensures Inv(NewSample(n, f, s, est, here, later).ntp)
  {
    var m := InsertSample(n, s);
    InsertKeeps(n, s);
    ResetKeeps(m);
    if |m.window| >= MIN_SAMPLES && est.Some? {
      EstimateKeeps(m, f, s, est.value, here, later);
    }
  }

  lemma EstimateKeeps(n: Ntp, f: Arithmetic, s: Sample, est: Estimate, here: int, later: int)
    requires Inv(n) && Wrap64(n.baseFreq + est.freq) != -TWO63
    ensures Inv(UseEstimate(n, f, s, est, here, later).ntp)
  {
    var j := Judge(n, s.original, est);
    JudgeKeeps(n, s.original, est);
    if j.est.Some? {
      var hereComp := Compensate(n, f, here);
      assert Acceptable(n.(bad := j.bad), j.est.value);
      var adjustment := CarriedOffset(f, j.est.value, s.time, hereComp);
      var _ := CorrectKeeps(n.(bad := j.bad), f, s.original, j.est.value, hereComp, adjustment, later);
    } else {
      ResetKeeps(n);
    }
  }

  /** A sample keeps the invariant exactly when its estimate does not escape the range test. */
  lemma NewSampleExactly(n: Ntp, f: Arithmetic, s: Sample, est: Option<Estimate>, here: int, later: int)
    requires Inv(n)
    ensures Inv(NewSample(n, f, s, est, here, later).ntp) <==> !Escapes(n, s, est)
  {
    if Escapes(n, s, est) {
      EscapeBreaks(InsertSample(n, s), f, s, est.value, here, later);
    } else {
      NewSampleKeeps(n, f, s, est, here, later);
    }
  }

  lemma EscapeBreaks(n: Ntp, f: Arithmetic, s: Sample, est: Estimate, here: int, later: int)
    requires LimitsOk(n) && 0 <= n.interval && Wrap64(n.baseFreq + est.freq) == -TWO63
    ensures !FreqOk(UseEstimate(n, f, s, est, here, later).ntp)
  {
    var hereComp := Compensate(n, f, here);
    var adjustment := CarriedOffset(f, est, s.time, hereComp);
    FollowUpFrequency(TakeIn(n.(bad := 0), est, adjustment), f, later, hereComp, est.freq, adjustment,
                      Wrap64(s.original - est.offset));
  }

  lemma FollowUpFrequency(n: Ntp, f: Arithmetic, later: int, hereComp: int, freq: int, adjustment: int, jitter: int)
    requires 0 <= n.interval
    ensures var r := FollowUp(n, f, later, hereComp, freq, adjustment, jitter);
      r.baseFreq == n.baseFreq && r.bad == n.bad && r.maxBase == n.maxBase
  {
  }

  /** An estimate that escapes: a state in order, which the estimate -2^63 takes out of
      every frequency range. */
  lemma EscapingEstimate(f: Arithmetic, s: Sample, here: int, later: int)
    ensures Inv(FourthDue(s))
    ensures Escapes(FourthDue(s), s, Some(Estimate(0, -TWO63, 0, 0)))
    ensures !FreqOk(NewSample(FourthDue(s), f, s, Some(Estimate(0, -TWO63, 0, 0)), here, later).ntp)
  {
    EscapeBreaks(InsertSample(FourthDue(s), s), f, s, Estimate(0, -TWO63, 0, 0), here, later);
  }

  /** Three samples since the reset. */
  function FourthDue(s: Sample): (n: Ntp) {
    Ntp(4, 10, 4, 0, 0, 0, 0, [s, s, s], 0, 0, 0, 0, 0, INITIAL_SKEW, SECOND, SECOND, 0, 0, 0, [s, s, s])
  }

  datatype Event =
    | Sampled(s: Sample, est: Option<Estimate>, here: int, later: int)
    | QueryDone(success: bool)
    | SlewDone(here: int)
    | Selected(server: int)

  function Apply(n: Ntp, f: Arithmetic, e: Event): (r: Ntp)
    requires 0 <= n.interval
  {
    match e
    case Sampled(s, est, here, later) => NewSample(n, f, s, est, here, later).ntp
    case QueryDone(success) => QueryComplete(n, success)
    case SlewDone(here) => StartSlew(n, f, here)
    case Selected(server) => n.(server := server)
  }

  /** r is reached by a run of events, no estimate of which escapes the range test. */
  predicate Runs(n: Ntp, f: Arithmetic, es: seq<Event>, r: Ntp)
    decreases |es|
  {
    if es == [] then r == n
    else
      && 0 <= n.interval && (es[0].Sampled? ==> !Escapes(n, es[0].s, es[0].est))
      && Runs(Apply(n, f, es[0]), f, es[1..], r)
  }

  lemma ApplyKeeps(n: Ntp, f: Arithmetic, e: Event)
    requires Inv(n) && (e.Sampled? ==> !Escapes(n, e.s, e.est))
    ensures Inv(Apply(n, f, e))
  {
    match e
    case Sampled(s, est, here, later) => NewSampleKeeps(n, f, s, est, here, later);
    case QueryDone(success) => QueryCompleteKeeps(n, success);
    case SlewDone(here) => StartSlewKeeps(n, f, here);
    case Selected(_) =>
  }

  /** In every run from a reset: the frequency, poll interval and window bounds hold, and
      corrections are conserved. */
  lemma {:induction false} RunKeeps(n: Ntp, f: Arithmetic, es: seq<Event>, r: Ntp)
    requires Inv(n) && Runs(n, f, es, r)
    ensures Inv(r)
    decreases |es|
  {
    if es != [] {
      ApplyKeeps(n, f, es[0]);
      RunKeeps(Apply(n, f, es[0]), f, es[1..], r);
    }
  }

  // ---- stepping or slewing ----

  /** For any threshold below 2^63 the clock is stepped by every nonzero offset, and by a
      zero one unless the threshold is zero. From 2^63 on, large offsets are slewed and
      small ones stepped. */
  lemma StepsExactly(offset: int, threshold: int)
    requires -TWO63 <= offset < TWO63 && 0 <= threshold < TWO64
    ensures threshold < TWO63 ==> (MustStep(offset, threshold) <==> offset != 0 || threshold != 0)
    ensures threshold >= TWO63 ==> (MustStep(offset, threshold) <==> Abs(offset) < TWO64 - threshold)
  {
    assert Unsigned(offset) == if offset >= 0 then offset else offset + TWO64;
    assert Unsigned(-threshold) == if threshold == 0 then 0 else TWO64 - threshold;
  }

  /** So the test agrees with its evident purpose, stepping beyond the threshold, exactly
      when the threshold is zero or the offset is beyond it. */
  lemma StepsAsIntended(offset: int, threshold: int)
    requires -TWO63 <= offset < TWO63 && 0 <= threshold < TWO63
    ensures (MustStep(offset, threshold) <==> Abs(offset) > threshold) <==> threshold == 0 || Abs(offset) > threshold
  {
    StepsExactly(offset, threshold);
  }

  /** An offset of 2^-32 seconds is stepped although the threshold is a whole second. */
  lemma SmallOffsetStepped()
    ensures MustStep(1, SECOND) && !(Abs(1) > SECOND)
  {
    StepsExactly(1, SECOND);
  }

  // ---- configuration ----

  datatype Poll = Poll(min: int, max: int)

  predicate ValidInterval(interval: nat) {
    QUERY_INTERVAL_MIN <= interval <= QUERY_INTERVAL_MAX
  }

  /** The poll bounds from the optional settings; none if the settings are refused. */
  function ConfigurePoll(pollMin: Option<nat>, pollMax: Option<nat>): (r: Option<Poll>) {
    if pollMin.Some? && !ValidInterval(pollMin.value) then None
    else
      var min := if pollMin.Some? then pollMin.value else 4;
      var max := if pollMin.Some? && pollMin.value > 10 then pollMin.value else 10;
      if pollMax.None? then Some(Poll(min, max))
      else if !ValidInterval(pollMax.value) then None
      else if pollMax.value < min then
        if pollMin.Some? then None else Some(Poll(pollMax.value, pollMax.value))
      else Some(Poll(min, pollMax.value))
  }

  /** Accepted settings give ordered bounds within the limits and are honoured; they are
      refused exactly when one is out of its limits or both are given in the wrong order. The
      bounds not given are 4 and 10, or the given minimum if that is more. */
  lemma PollConfigured(pollMin: Option<nat>, pollMax: Option<nat>)
    ensures var r := ConfigurePoll(pollMin, pollMax);
      && (r.Some? ==> QUERY_INTERVAL_MIN <= r.value.min <= r.value.max <= QUERY_INTERVAL_MAX)
      && (r.Some? && pollMin.Some? ==> r.value.min == pollMin.value)
      && (r.Some? && pollMax.Some? ==> r.value.max == pollMax.value)
      && (r.None? <==>
            || (pollMin.Some? && !ValidInterval(pollMin.value))
            || (pollMax.Some? && !ValidInterval(pollMax.value))
            || (pollMin.Some? && pollMax.Some? && pollMax.value < pollMin.value))
      && (r.Some? && pollMin.None? ==> r.value.min == 4)
      && (r.Some? && pollMax.None? ==> r.value.max == if r.value.min <= 10 then 10 else r.value.min)
  {
  }
}
