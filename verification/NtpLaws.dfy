/** What the clock discipline of klib/ntp.c does with an estimate, a slew and its poll
    interval, for arithmetic that is exact where it matters. */
module NtpLaws {
  import opened Common
  import opened FixedPoint
  import opened NtpController
  import opened Powers

  predicate Signed64(x: int) {
    -TWO63 <= x < TWO63
  }

  // ---- residues modulo 2^64 ----

  function Turns(k: int): (r: int) {
    k * TWO64
  }

  /** x and y are the same 64-bit number. */
  ghost predicate Same(x: int, y: int) {
    exists k :: x == y + Turns(k)
  }

  lemma WrapBy(x: int) returns (k: int)
    ensures Wrap64(x) == x + Turns(k)
  {
    var u := x % TWO64;
    k := if u < TWO63 then -(x / TWO64) else -(x / TWO64) - 1;
  }

  lemma UnsignedBy(x: int) returns (k: int)
    ensures Unsigned(x) == x + Turns(k)
  {
    k := -(x / TWO64);
  }

  lemma SameSigned(a: int, b: int)
    requires Same(a, b) && Signed64(a)
    ensures a == Wrap64(b)
  {
    var k :| a == b + Turns(k);
    ModShift(b, k);
  }

  // ---- applying an estimate ----

  /** Multiplication distributes over a sum of times. */
  ghost predicate Additive(f: Arithmetic) {
    forall x, y, z :: f.mul(x + y, z) == f.mul(x, z) + f.mul(y, z)
  }

  /** The offset at time u on the line of an estimate made for time t. */
  function Line(f: Arithmetic, est: Estimate, t: int, u: int): (offset: int) {
    est.offset + f.mul(u - t, est.freq)
  }

  ghost predicate OnLine(x: Sample, f: Arithmetic, est: Estimate, t: int) {
    Same(x.offset, Line(f, est, t, x.time))
  }

  /** The offset of the line at a later time. */
  lemma CarriedIs(f: Arithmetic, est: Estimate, t: int, hereComp: int) returns (k: int)
    requires Signed64(hereComp - t)
    ensures CarriedOffset(f, est, t, hereComp) == est.offset + f.mul(hereComp - t, est.freq) + Turns(k)
  {
    var m := f.mul(hereComp - t, est.freq);
    var i := WrapBy(m);
    var j := WrapBy(est.offset + Wrap64(m));
    k := i + j;
  }

  /** What an adjustment does to the offset of a sample. */
  lemma AdjustedOffset(x: Sample, f: Arithmetic, hereComp: int, freq: int, adjustment: int, step: int)
    returns (k: int)
    requires Signed64(hereComp - x.time)
    ensures Adjust(x, f, hereComp, freq, adjustment, step).offset ==
            x.offset + f.mul(hereComp - x.time, freq) - adjustment - step + Turns(k)
  {
    var m := f.mul(hereComp - x.time, freq);
    var dt := Wrap64(Wrap64(m) - adjustment);
    var h := WrapBy(m);
    var i := WrapBy(Wrap64(m) - adjustment);
    var j := WrapBy(x.offset + dt - step);
    k := h + i + j;
  }

  /** Its time moves along with its offset, and the other way by a step. */
  lemma AdjustedTime(x: Sample, f: Arithmetic, hereComp: int, freq: int, adjustment: int, step: int)
    ensures var y := Adjust(x, f, hereComp, freq, adjustment, step);
      && Same(y.time - x.time, y.offset - x.offset + 2 * step)
      && y.original == x.original && y.delay == x.delay && y.dispersion == x.dispersion
  {
    var y := Adjust(x, f, hereComp, freq, adjustment, step);
    var dt := Wrap64(Mul(f, Wrap64(hereComp - x.time), freq) - adjustment);
    var j := UnsignedBy(x.time + dt + step);
    var k := WrapBy(x.offset + dt - step);
    assert y.time - x.time == y.offset - x.offset + 2 * step + Turns(j - k);
  }

  lemma LineTo(f: Arithmetic, est: Estimate, t: int, x: int, hereComp: int)
    requires Additive(f)
    ensures f.mul(x - t, est.freq) + f.mul(hereComp - x, est.freq) == f.mul(hereComp - t, est.freq)
  {
    assert (x - t) + (hereComp - x) == hereComp - t;
  }

  /** An adjustment carries a sample on the line to the offset of the line now, less what is
      taken off. */
  lemma LineAdjusted(x: Sample, f: Arithmetic, est: Estimate, t: int, hereComp: int, adjustment: int, step: int)
    requires Additive(f) && OnLine(x, f, est, t) && Signed64(hereComp - x.time) && Signed64(hereComp - t)
    ensures Same(Adjust(x, f, hereComp, est.freq, adjustment, step).offset,
                 CarriedOffset(f, est, t, hereComp) - adjustment - step)
  {
    var i := AdjustedOffset(x, f, hereComp, est.freq, adjustment, step);
    var j :| x.offset == est.offset + f.mul(x.time - t, est.freq) + Turns(j);
    var k := CarriedIs(f, est, t, hereComp);
    LineTo(f, est, t, x.time, hereComp);
    LineSum(Adjust(x, f, hereComp, est.freq, adjustment, step).offset, x.offset, f.mul(hereComp - x.time, est.freq),
            f.mul(x.time - t, est.freq), est.offset, CarriedOffset(f, est, t, hereComp), adjustment + step, i, j, k);
  }

  lemma LineSum(off: int, x: int, later: int, sooner: int, est: int, carried: int, less: int, i: int, j: int, k: int)
    requires off == x + later - less + Turns(i) && x == est + sooner + Turns(j)
    requires carried == est + sooner + later + Turns(k)
    ensures Same(off, carried - less)
  {
    assert off == carried - less + Turns(i + j - k);
  }

  /** The offset that is outstanding once an estimate has been taken in. */
  function Outstanding(n: Ntp, adjustment: int): (total: int) {
    Wrap64(n.offset + adjustment)
  }

  /** The sample as it is left by a step of the outstanding offset, or by the start of a slew. */
  function Moved(x: Sample, n: Ntp, f: Arithmetic, hereComp: int, freq: int, adjustment: int): (y: Sample) {
    if MustStep(Outstanding(n, adjustment), n.threshold)
    then Adjust(x, f, hereComp, freq, 0, Outstanding(n, adjustment))
    else Adjust(x, f, hereComp, freq, adjustment, 0)
  }

  /** Choosing the poll interval touches nothing else. */
  lemma RepollOnly(n: Ntp, f: Arithmetic, jitter: int) returns (r: Ntp)
    ensures r == Repoll(n, f, jitter) == n.(interval := r.interval, jiggle := r.jiggle)
  {
    r := Repoll(n, f, jitter);
  }

  /** An estimate that is applied brings every sample up to date. */
  lemma CorrectMoves(n: Ntp, f: Arithmetic, off: int, est: Estimate, hereComp: int, adjustment: int, later: int)
    returns (r: Ntp)
    requires 0 <= n.interval
    ensures r == Correct(n, f, off, est, hereComp, adjustment, later) && |r.window| == |n.window|
    ensures forall i | 0 <= i < |n.window| ::
              r.window[i] == Moved(n.window[i], n, f, hereComp, est.freq, adjustment)
  {
    var m := TakeIn(n, est, adjustment);
    r := RepollOnly(Act(m, f, later, hereComp, est.freq, adjustment), f, Wrap64(off - est.offset));
  }

  /** Outstanding and stepped amounts together grow by the adjustment. */
  lemma ActConserves(n: Ntp, f: Arithmetic, later: int, hereComp: int, freq: int, adjustment: int) returns (r: Ntp)
    requires 0 <= n.interval
    ensures r == Act(n, f, later, hereComp, freq, adjustment)
    ensures Same(r.offset + r.stepped, n.offset + n.stepped)
    ensures MustStep(n.offset, n.threshold) ==> r.offset == 0 && r.stepped == n.stepped + n.offset
    ensures r.baseFreq == n.baseFreq && r.offsetSd == n.offsetSd && r.skew == n.skew
  {
    r := Act(n, f, later, hereComp, freq, adjustment);
    if MustStep(n.offset, n.threshold) {
      assert r.offset + r.stepped == n.offset + n.stepped + Turns(0);
    } else {
      var _ := SettleConserves(n, f, later);
    }
  }

  lemma SettleConserves(n: Ntp, f: Arithmetic, here: int) returns (r: Ntp)
    ensures r == Settle(n, f, here) && Same(r.offset + r.stepped, n.offset + n.stepped)
  {
    r := Settle(n, f, here);
    var slew := Mul(f, n.slewFreq, Clamp(Wrap64(here - n.slewStart), 0, FPMAX));
    var k := WrapBy(n.offset - slew);
    assert r.offset + r.stepped == n.offset + n.stepped + Turns(k);
  }

  lemma CorrectConserves(n: Ntp, f: Arithmetic, off: int, est: Estimate, hereComp: int, adjustment: int, later: int)
    returns (r: Ntp)
    requires 0 <= n.interval
    ensures r == Correct(n, f, off, est, hereComp, adjustment, later)
    ensures Same(r.offset + r.stepped, n.offset + n.stepped + adjustment)
    ensures var total := Outstanding(n, adjustment);
      MustStep(total, n.threshold) ==> r.offset == 0 && r.stepped == n.stepped + total
    ensures r.baseFreq == Wrap64(n.baseFreq + est.freq) && r.offsetSd == est.sd && r.skew == est.skew
  {
    var m := TakeIn(n, est, adjustment);
    var k := WrapBy(n.offset + adjustment);
    var a := ActConserves(m, f, later, hereComp, est.freq, adjustment);
    r := RepollOnly(a, f, Wrap64(off - est.offset));
    Grows(r.offset + r.stepped, n.stepped, m.offset, n.offset + adjustment, k);
  }

  lemma Grows(now: int, before: int, adjustment: int, line: int, j: int)
    requires Same(now, adjustment + before) && adjustment == line + Turns(j)
    ensures Same(now, before + line)
  {
    var k :| now == adjustment + before + Turns(k);
    assert now == before + line + Turns(j + k);
  }

  /** The outcome r of using an estimate for sample s: e is applied to m as of time hereComp,
      which makes the outstanding offset total. */
  predicate Applied(r: Outcome, m: Ntp, f: Arithmetic, s: Sample, e: Estimate, hereComp: int, later: int, total: int) {
    var adjustment := CarriedOffset(f, e, s.time, hereComp);
    && 0 <= m.interval && total == Outstanding(m, adjustment)
    && r == Outcome(Correct(m, f, s.original, e, hereComp, adjustment, later), true)
  }

  /** The clock is corrected by the offset of the fitted line at the compensated present:
      outstanding and stepped amounts together grow by it. */
  lemma CorrectedByLine(r: Outcome, n: Ntp, f: Arithmetic, s: Sample, e: Estimate, hereComp: int, later: int,
                        total: int)
    requires Applied(r, n, f, s, e, hereComp, later, total) && Signed64(hereComp - s.time)
    ensures Same(r.ntp.offset + r.ntp.stepped, n.offset + n.stepped + Line(f, e, s.time, hereComp))
    ensures MustStep(total, n.threshold) ==> r.ntp.offset == 0 && r.ntp.stepped == n.stepped + total
    ensures r.ntp.baseFreq == Wrap64(n.baseFreq + e.freq) && r.ntp.offsetSd == e.sd && r.ntp.skew == e.skew
  {
    var adjustment := CarriedOffset(f, e, s.time, hereComp);
    var c := CorrectConserves(n, f, s.original, e, hereComp, adjustment, later);
    var j := CarriedIs(f, e, s.time, hereComp);
    Grows(c.offset + c.stepped, n.offset + n.stepped, adjustment, Line(f, e, s.time, hereComp), j);
  }

  /** And every sample that lay on the fitted line has no offset left if the clock is slewed,
      and minus the offset that was outstanding before if it is stepped. */
  lemma MovedFlat(x: Sample, n: Ntp, f: Arithmetic, est: Estimate, t: int, hereComp: int)
    requires Additive(f) && OnLine(x, f, est, t) && Signed64(hereComp - x.time) && Signed64(hereComp - t)
    ensures var adjustment := CarriedOffset(f, est, t, hereComp);
      Moved(x, n, f, hereComp, est.freq, adjustment).offset ==
      if MustStep(Outstanding(n, adjustment), n.threshold) then Wrap64(-n.offset) else 0
  {
    var adjustment := CarriedOffset(f, est, t, hereComp);
    if MustStep(Outstanding(n, adjustment), n.threshold) {
      LineAdjusted(x, f, est, t, hereComp, 0, Outstanding(n, adjustment));
      LessTotal(Adjust(x, f, hereComp, est.freq, 0, Outstanding(n, adjustment)).offset, n.offset, adjustment);
    } else {
      LineAdjusted(x, f, est, t, hereComp, adjustment, 0);
      SameSigned(Adjust(x, f, hereComp, est.freq, adjustment, 0).offset, 0);
    }
  }

  lemma LessTotal(off: int, before: int, adjustment: int)
    requires Same(off, adjustment - 0 - Wrap64(before + adjustment)) && Signed64(off)
    ensures off == Wrap64(-before)
  {
    var k :| off == adjustment - 0 - Wrap64(before + adjustment) + Turns(k);
    var j := WrapBy(before + adjustment);
    assert off == -before + Turns(k - j);
    SameSigned(off, -before);
  }

  /** The outstanding offset once the line's offset at the present has been taken in. */
  lemma TotalIs(n: Ntp, f: Arithmetic, est: Estimate, t: int, hereComp: int)
    requires Signed64(hereComp - t)
    ensures Outstanding(n, CarriedOffset(f, est, t, hereComp)) == Wrap64(n.offset + Line(f, est, t, hereComp))
  {
    var k := CarriedIs(f, est, t, hereComp);
    var total := Outstanding(n, CarriedOffset(f, est, t, hereComp));
    var j := WrapBy(n.offset + CarriedOffset(f, est, t, hereComp));
    assert total == n.offset + Line(f, est, t, hereComp) + Turns(j + k);
    SameSigned(total, n.offset + Line(f, est, t, hereComp));
  }

  /** The clock after a correction by a fitted line: outstanding and stepped amounts have grown
      by the line's offset now, and after a step nothing is outstanding. */
  ghost predicate Corrected(r: Ntp, n: Ntp, f: Arithmetic, s: Sample, e: Estimate, now: int, step: bool) {
    && Same(r.offset + r.stepped, n.offset + n.stepped + Line(f, e, s.time, now))
    && (step ==> r.offset == 0)
    && r.baseFreq == Wrap64(n.baseFreq + e.freq) && r.offsetSd == e.sd && r.skew == e.skew
  }

  /** The samples after it: every one that was on the line has offset zero, or after a step
      minus the offset that was outstanding before. */
  ghost predicate Flat(r: Ntp, n: Ntp, f: Arithmetic, s: Sample, e: Estimate, now: int, step: bool) {
    && |r.window| == |n.window|
    && forall i | 0 <= i < |n.window| && OnLine(n.window[i], f, e, s.time) && Signed64(now - n.window[i].time) ::
         r.window[i].offset == if step then Wrap64(-n.offset) else 0
  }

  lemma AppliedFlat(r: Outcome, n: Ntp, f: Arithmetic, s: Sample, e: Estimate, now: int, later: int, total: int)
    requires Applied(r, n, f, s, e, now, later, total) && Additive(f) && Signed64(now - s.time)
    ensures Flat(r.ntp, n, f, s, e, now, MustStep(total, n.threshold))
  {
    var c := CorrectMoves(n, f, s.original, e, now, CarriedOffset(f, e, s.time, now), later);
    var step := MustStep(total, n.threshold);
    forall i | 0 <= i < |n.window| && OnLine(n.window[i], f, e, s.time) && Signed64(now - n.window[i].time)
      ensures c.window[i].offset == if step then Wrap64(-n.offset) else 0
    {
      MovedFlat(n.window[i], n, f, e, s.time, now);
    }
  }

  /** An estimate that is judged fit for use is applied as of the compensated present. */
  lemma AppliedNow(n: Ntp, f: Arithmetic, s: Sample, est: Estimate, here: int, later: int, e: Estimate)
    returns (r: Outcome, m: Ntp, now: int, total: int)
    requires 0 <= n.interval && Judge(n, s.original, est).est == Some(e)
    ensures r == UseEstimate(n, f, s, est, here, later) && now == Compensate(n, f, here)
    ensures m == n.(bad := Judge(n, s.original, est).bad)
    ensures Applied(r, m, f, s, e, now, later, total)
  {
    r := UseEstimate(n, f, s, est, here, later);
    m := n.(bad := Judge(n, s.original, est).bad);
    now := Compensate(n, f, here);
    total := Outstanding(m, CarriedOffset(f, e, s.time, now));
  }

  /** What the application of an estimate does, with when. */
  lemma AppliedCorrects(r: Outcome, n: Ntp, f: Arithmetic, s: Sample, e: Estimate, now: int, later: int, total: int)
    returns (step: bool)
    requires Applied(r, n, f, s, e, now, later, total) && Additive(f) && Signed64(now - s.time)
    ensures step <==> MustStep(Wrap64(n.offset + Line(f, e, s.time, now)), n.threshold)
    ensures r.ok && Corrected(r.ntp, n, f, s, e, now, step) && Flat(r.ntp, n, f, s, e, now, step)
  {
    step := MustStep(total, n.threshold);
    AppliedFlat(r, n, f, s, e, now, later, total);
    CorrectedByLine(r, n, f, s, e, now, later, total);
    TotalIs(n, f, e, s.time, now);
  }

  /** An estimate that is judged fit for use corrects the clock by the fitted line as of the
      compensated present, and flattens the line, for a multiplication that distributes and
      differences of times that fit in 64 bits. */
  lemma EstimateApplied(n: Ntp, f: Arithmetic, s: Sample, est: Estimate, here: int, later: int, e: Estimate)
    returns (r: Outcome, m: Ntp, now: int, step: bool)
    requires 0 <= n.interval && Judge(n, s.original, est).est == Some(e) && Additive(f)
    requires Signed64(Compensate(n, f, here) - s.time)
    ensures r == UseEstimate(n, f, s, est, here, later) && now == Compensate(n, f, here)
    ensures m == n.(bad := Judge(n, s.original, est).bad)
    ensures step <==> MustStep(Wrap64(n.offset + Line(f, e, s.time, now)), n.threshold)
    ensures r.ok && Corrected(r.ntp, m, f, s, e, now, step) && Flat(r.ntp, m, f, s, e, now, step)
  {
    var total;
    r, m, now, total := AppliedNow(n, f, s, est, here, later, e);
    step := AppliedCorrects(r, m, f, s, e, now, later, total);
  }

  /** So does a new sample, on the window that includes it. */
  lemma SampleCorrects(n: Ntp, f: Arithmetic, s: Sample, est: Estimate, here: int, later: int, e: Estimate)
    returns (r: Outcome, m: Ntp, now: int, step: bool)
    requires 0 <= n.interval && |Insert(n.window, s)| >= MIN_SAMPLES && Additive(f)
    requires Judge(InsertSample(n, s), s.original, est).est == Some(e)
    requires Signed64(Compensate(InsertSample(n, s), f, here) - s.time)
    ensures r == NewSample(n, f, s, Some(est), here, later) && now == Compensate(InsertSample(n, s), f, here)
    ensures m == InsertSample(n, s).(bad := m.bad)
    ensures step <==> MustStep(Wrap64(n.offset + Line(f, e, s.time, now)), n.threshold)
    ensures r.ok && Corrected(r.ntp, m, f, s, e, now, step) && Flat(r.ntp, m, f, s, e, now, step)
  {
    r, m, now, step := EstimateApplied(InsertSample(n, s), f, s, est, here, later, e);
  }

  /** A poll counted for a longer interval, or for a shorter one. */
  predicate Counts(r: Ntp, n: Ntp, well: bool) {
    if r.interval == n.interval then r.jiggle == n.jiggle + if well then n.interval else -2 * n.interval
    else r.interval == (if well then n.interval + 1 else n.interval - 1) && r.jiggle == 0
  }

  /** The poll interval follows the distance between the measured and the estimated offset:
      within 1.5 times offset_sd it counts for fewer polls, and otherwise for more. */
  lemma PollsByDistance(r: Outcome, n: Ntp, f: Arithmetic, s: Sample, e: Estimate, hereComp: int, later: int,
                        total: int)
    requires Applied(r, n, f, s, e, hereComp, later, total)
    requires Abs(s.original - e.offset) < TWO63 && Signed64(f.mul(e.sd, ONE_AND_A_HALF))
    ensures Counts(r.ntp, n, Abs(s.original - e.offset) < f.mul(e.sd, ONE_AND_A_HALF))
  {
    var adjustment := CarriedOffset(f, e, s.time, hereComp);
    var a := ActKeepsPoll(TakeIn(n, e, adjustment), f, later, hereComp, e.freq, adjustment);
    RepollSays(a, f, s.original - e.offset);
  }

  lemma ActKeepsPoll(n: Ntp, f: Arithmetic, later: int, hereComp: int, freq: int, adjustment: int) returns (r: Ntp)
    requires 0 <= n.interval
    ensures r == Act(n, f, later, hereComp, freq, adjustment)
    ensures r.interval == n.interval && r.jiggle == n.jiggle && r.offsetSd == n.offsetSd
  {
    r := Act(n, f, later, hereComp, freq, adjustment);
  }

  lemma RepollSays(n: Ntp, f: Arithmetic, jitter: int)
    requires Abs(jitter) < TWO63 && Signed64(f.mul(n.offsetSd, ONE_AND_A_HALF))
    ensures Counts(Repoll(n, f, Wrap64(jitter)), n, Abs(jitter) < f.mul(n.offsetSd, ONE_AND_A_HALF))
  {
  }

  // ---- the slew ----

  /** The compensated time is the clock's reading plus what the slew has still to correct. */
  lemma CompensatedIs(n: Ntp, f: Arithmetic, here: int)
    requires 0 <= here - n.slewStart <= FPMAX
    ensures Same(Compensate(n, f, here), here + Settle(n, f, here).offset)
  {
    var slew := Mul(f, n.slewFreq, here - n.slewStart);
    var j := UnsignedBy(here + (n.offset - slew));
    var k := WrapBy(n.offset - slew);
    assert Compensate(n, f, here) == here + Settle(n, f, here).offset + Turns(j - k);
  }

  /** When the frequency of a new slew corrects the outstanding offset in a duration within the
      limits, that is how long the slew lasts, and settled then it has corrected the offset. */
  lemma SlewSettles(n: Ntp, f: Arithmetic, here: int, d: int)
    requires 0 <= n.interval && MIN_SLEW_DURATION <= d <= MAX_SLEW_DURATION
    requires var m := StartSlew(n, f, here);
      && MIN_OFFSET_CORRECTION <= Abs(m.offset) < TWO63 && (m.offset > 0 <==> m.slewFreq > 0)
      && f.div(m.offset, m.slewFreq) == d && f.mul(m.slewFreq, d) == m.offset
    ensures var m := StartSlew(n, f, here);
      && SlewDuration(m, f) == d
      && Settle(m, f, here + d) == m.(offset := 0, stepped := m.stepped + m.offset)
      && Compensate(m, f, here + d) == Unsigned(here + d)
  {
    var m := StartSlew(n, f, here);
    Settles(m, f, d);
  }

  lemma Settles(m: Ntp, f: Arithmetic, d: int)
    requires MIN_SLEW_DURATION <= d <= MAX_SLEW_DURATION
    requires MIN_OFFSET_CORRECTION <= Abs(m.offset) < TWO63 && (m.offset > 0 <==> m.slewFreq > 0)
    requires f.div(m.offset, m.slewFreq) == d && f.mul(m.slewFreq, d) == m.offset
    ensures SlewDuration(m, f) == d
    ensures Settle(m, f, m.slewStart + d) == m.(offset := 0, stepped := m.stepped + m.offset)
    ensures Compensate(m, f, m.slewStart + d) == Unsigned(m.slewStart + d)
  {
    assert m.slewStart + d - m.slewStart == d;
  }

  /** An offset below a nanosecond, or one that the slew would take further away, is left for
      the longest time. */
  lemma SlewWaits(n: Ntp, f: Arithmetic)
    requires -TWO63 < n.offset < TWO63
    requires Abs(n.offset) * 1_000_000_000 < TWO32 || (n.offset < 0 < n.slewFreq) || (n.slewFreq < 0 < n.offset)
    ensures SlewDuration(n, f) == 10000 * SECOND
  {
  }

  /** c is exactly the fixed-point product of a and b. */
  predicate ProductIs(a: int, b: int, c: int) {
    c * TWO32 == a * b
  }

  predicate QuotientIs(a: int, b: int, c: int) {
    b != 0 && c * b == a * TWO32
  }

  /** Products and quotients that can be represented are exact. */
  ghost predicate Exact(f: Arithmetic) {
    && (forall a, b, c | ProductIs(a, b, c) :: f.mul(a, b) == c)
    && (forall a, b, c | QuotientIs(a, b, c) :: f.div(a, b) == c)
  }

  /** The rate of a slew corrects the offset in a duration d inversely proportional to its size:
      d times the offset is 1.5 times 2^interval times offset_sd. */
  lemma SlewTarget(n: Ntp, f: Arithmetic, k: int, rate: int, d: int, freq: int)
    requires Exact(f) && 0 <= n.interval < 63 && 0 < Abs(n.offset) < TWO63
    requires Signed64(k) && Signed64(rate) && SECOND <= d <= FPMAX && Abs(freq) <= n.maxCorr < TWO63
    requires ProductIs(ONE_AND_A_HALF, Pow2(n.interval), k) && ProductIs(k, n.offsetSd, rate)
    requires QuotientIs(rate, Abs(n.offset), d) && QuotientIs(n.offset, d, freq)
    ensures SlewFrequency(n, f) == freq
  {
    TargetPower(n.interval);
  }

  lemma TargetPower(interval: nat)
    requires interval < 63
    ensures Pow2(interval) < TWO63
  {
    Pow2At();
    Pow2Mono(interval + 1, 63);
  }

  predicate MulDown(f: Arithmetic, a: int, b: int) {
    0 <= a <= FPMAX && 0 <= b <= FPMAX && a * b <= FPMAX * TWO32 ==>
    0 <= f.mul(a, b) && f.mul(a, b) * TWO32 <= a * b
  }

  predicate DivDown(f: Arithmetic, a: int, b: int) {
    0 <= a <= FPMAX && 0 < b <= FPMAX && a * TWO32 < TWO63 * b ==>
    0 <= f.div(a, b) && f.div(a, b) * b <= a * TWO32
  }

  /** Multiplication and division of numbers that are not negative round down. */
  ghost predicate RoundsDown(f: Arithmetic) {
    (forall a, b :: MulDown(f, a, b)) && (forall a, b :: DivDown(f, a, b))
  }

  /** Whatever the poll interval, an offset of the size of offset_sd is slewed at the rate that
      corrects it in one second, and so is any offset down to a part in 2^14 of it. */
  lemma SlewedInOneSecond(n: Ntp, f: Arithmetic)
    requires RoundsDown(f) && 0 <= n.interval <= QUERY_INTERVAL_MAX && 0 <= n.offsetSd <= FPMAX
    requires 0 < Abs(n.offset) <= FPMAX && n.offsetSd <= 0x4000 * Abs(n.offset)
    ensures SlewFrequency(n, f) == Clamp(Div(f, n.offset, SECOND), -n.maxCorr, n.maxCorr)
  {
    var k := IntervalTarget(f, n.interval);
    var rate := TargetRate(f, k, n.offsetSd);
    TargetBelow(f, rate, k, n.offsetSd, Abs(n.offset));
  }

  /** 1.5 times the query interval, taken as a number of units of 2^-32 seconds. */
  lemma IntervalTarget(f: Arithmetic, interval: int) returns (k: int)
    requires RoundsDown(f) && 0 <= interval <= QUERY_INTERVAL_MAX
    ensures k == Mul(f, ONE_AND_A_HALF, Wrap64(Pow2(interval))) && 0 <= k <= 0x3_0000
  {
    var p := IntervalPower(interval);
    k := HalfAgain(f, p);
  }

  lemma HalfAgain(f: Arithmetic, p: int) returns (k: int)
    requires RoundsDown(f) && 1 <= p <= 0x2_0000
    ensures k == Mul(f, ONE_AND_A_HALF, p) && 0 <= k <= 0x3_0000
  {
    k := f.mul(ONE_AND_A_HALF, p);
    assert MulDown(f, ONE_AND_A_HALF, p);
    assert k * TWO32 <= ONE_AND_A_HALF * p;
  }

  lemma IntervalPower(interval: int) returns (p: int)
    requires 0 <= interval <= QUERY_INTERVAL_MAX
    ensures p == Pow2(interval) && 1 <= p <= 0x2_0000
  {
    p := Pow2(interval);
    Pow2Mono(interval, QUERY_INTERVAL_MAX);
    IntervalLimit();
  }

  lemma IntervalLimit()
    ensures Pow2(QUERY_INTERVAL_MAX) == 0x2_0000
  {
    Pow2Low();
    Pow2Add(8, 8);
    assert Pow2(17) == 2 * Pow2(16);
  }

  lemma TargetRate(f: Arithmetic, k: int, sd: int) returns (rate: int)
    requires RoundsDown(f) && 0 <= k <= 0x3_0000 && 0 <= sd <= FPMAX
    ensures rate == Mul(f, k, sd) && 0 <= rate && rate * TWO32 <= k * sd
  {
    SmallProduct(k, sd);
    rate := f.mul(k, sd);
    assert MulDown(f, k, sd);
  }

  lemma SmallProduct(k: int, sd: int)
    requires 0 <= k <= 0x3_0000 && 0 <= sd <= FPMAX
    ensures 0 <= k * sd <= 0x3_0000 * sd
  {
  }

  lemma TargetBelow(f: Arithmetic, rate: int, k: int, sd: int, offset: int)
    requires RoundsDown(f) && 0 <= k <= 0x3_0000 && 0 <= sd <= FPMAX && 0 < offset <= FPMAX && sd <= 0x4000 * offset
    requires 0 <= rate && rate * TWO32 <= k * sd
    ensures 0 <= rate <= FPMAX && 0 <= f.div(rate, offset) < SECOND
  {
    SmallProduct(k, sd);
    var q := f.div(rate, offset);
    assert DivDown(f, rate, offset);
    assert rate * TWO32 <= 0xC000_0000 * offset;
    if q >= SECOND { MulMono(SECOND, q, offset); }
  }

  /** An offset of one second, the size of offset_sd, with a query interval of 2^6 seconds: it
      is corrected at the rate of one second per second, 96 times the intended rate. */
  lemma SlewedTooFast(n: Ntp, f: Arithmetic)
    requires RoundsDown(f) && f.div(SECOND, SECOND) == SECOND && n.maxCorr == SECOND
    requires n.interval == 6 && n.offsetSd == SECOND && n.offset == SECOND
    ensures SlewFrequency(n, f) == SECOND
  {
    SlewedInOneSecond(n, f);
  }

  /** The arithmetic of the source, on numbers it takes. */
  function Source(): (f: Arithmetic) {
    Arithmetic((a, b) => if Operand(a) && Operand(b) then FpMul(a, b) else 0,
               (a, b) => if Operand(a) && Operand(b) then FpDiv(a, b) else 0)
  }

  lemma SourceRoundsDown()
    ensures RoundsDown(Source())
  {
    forall a, b ensures MulDown(Source(), a, b) { ProductDown(a, b); }
    forall a, b ensures DivDown(Source(), a, b) { QuotientDown(a, b); }
  }

  lemma ProductDown(a: int, b: int)
    ensures MulDown(Source(), a, b)
  {
    if 0 <= a <= FPMAX && 0 <= b <= FPMAX && a * b <= FPMAX * TWO32 {
      MultiplyExactly(a, b, a * b);
      assert a * b / TWO32 < TWO63;
    }
  }

  lemma QuotientDown(a: int, b: int)
    ensures DivDown(Source(), a, b)
  {
    if 0 <= a <= FPMAX && 0 < b <= FPMAX && a * TWO32 < TWO63 * b {
      var _ := DivideDown(a, b);
    }
  }

  lemma DivideDown(a: int, b: int) returns (r: int)
    requires 0 <= a <= FPMAX && 0 < b <= FPMAX && a * TWO32 < TWO63 * b
    ensures r == FpDiv(a, b) && 0 <= r && r * b <= a * TWO32
  {
    r := FpDiv(a, b);
    DivideExactly(a, b);
    assert InRange(LostBits(a), a, b);
    assert Rounds(r, LostBits(a), a, b);
  }
}
