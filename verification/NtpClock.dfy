/** The mutable state of klib/ntp.c: a ring of samples and the discipline's other fields. */
module NtpClock {
  import opened Common
  import opened FixedPoint
  import opened NtpController

  /** Where sample i of a ring is kept. */
  function Slot(index: int, count: int, i: int): (k: int)
    requires 0 <= index < MAX_SAMPLES && 0 <= count <= MAX_SAMPLES && 0 <= i < MAX_SAMPLES
    ensures 0 <= k < MAX_SAMPLES
  {
    (MAX_SAMPLES + (index - count) + i) % MAX_SAMPLES
  }

  lemma SlotsDistinct(index: int, count: int, i: int, j: int)
    requires 0 <= index < MAX_SAMPLES && 0 <= count <= MAX_SAMPLES && 0 <= i < j < MAX_SAMPLES
    ensures Slot(index, count, i) != Slot(index, count, j)
  {
  }

  /** Before the ring is full, samples are kept in order from the start. */
  lemma SlotFilling(count: int, i: int)
    requires 0 <= count < MAX_SAMPLES && 0 <= i <= count
    ensures i < count ==> Slot(count, count, i) == i
    ensures Slot((count + 1) % MAX_SAMPLES, count + 1, i) == i
  {
  }

  /** In a full ring every sample moves down by one as the oldest is overwritten. */
  lemma SlotFull(index: int, i: int)
    requires 0 <= index < MAX_SAMPLES && 0 <= i < MAX_SAMPLES
    ensures Slot((index + 1) % MAX_SAMPLES, MAX_SAMPLES, i) ==
      if i == MAX_SAMPLES - 1 then index else Slot(index, MAX_SAMPLES, i + 1)
    ensures i > 0 ==> Slot(index, MAX_SAMPLES, i) != index
  {
  }

  // The scalar fields do not depend on the window.

  lemma JudgedAlike(n: Ntp, w: seq<Sample>, f: Arithmetic, off: int, est: Estimate, here: int)
    ensures Judge(n.(window := w), off, est) == Judge(n, off, est)
    ensures Compensate(n.(window := w), f, here) == Compensate(n, f, here)
  {
  }

  lemma TakenAlike(n: Ntp, w: seq<Sample>, bad: int, est: Estimate, adjustment: int)
    ensures TakeIn(n.(window := w).(bad := bad), est, adjustment) ==
            TakeIn(n.(bad := bad), est, adjustment).(window := w)
  {
  }

  lemma RepolledAlike(n: Ntp, w: seq<Sample>, f: Arithmetic, jitter: int)
    ensures Repoll(n.(window := w), f, jitter) == Repoll(n, f, jitter).(window := w)
  {
  }

  class Controller {
    const f: Arithmetic
    const samples: array<Sample>
    var nsamples: nat
    var sampleIndex: nat
    /** The fields other than the ring; its window is left empty. */
    var fields: Ntp

    ghost predicate Valid()
      reads this
    {
      && samples.Length == MAX_SAMPLES && nsamples <= MAX_SAMPLES && sampleIndex < MAX_SAMPLES
      && (nsamples < MAX_SAMPLES ==> sampleIndex == nsamples)
      && fields.window == [] && 0 <= fields.pollMin && 0 <= fields.interval
    }

    /** Sample i, counted from the oldest. */
    function GetSample(i: nat): (s: Sample)
      requires Valid() && i < nsamples
      reads this, samples
    {
      samples[Slot(sampleIndex, nsamples, i)]
    }

    /** The samples from the oldest to the newest. */
    ghost function Window(): (w: seq<Sample>)
      requires Valid()
      reads this, samples
      ensures |w| == nsamples && forall i | 0 <= i < nsamples :: w[i] == GetSample(i)
    {
      seq(nsamples, i requires 0 <= i < nsamples && Valid() reads this, samples => GetSample(i))
    }

    ghost function View(): (n: Ntp)
      requires Valid()
      reads this, samples
    {
      fields.(window := Window())
    }

    constructor (f: Arithmetic, n: Ntp)
      requires 0 <= n.pollMin
      ensures Valid() && View() == Reset(n) && fresh(samples) && this.f == f
      ensures n.pollMin <= n.pollMax && LimitsOk(n) ==> Inv(View())
    {
      this.f := f;
      samples := new Sample[MAX_SAMPLES](_ => Sample(0, 0, 0, 0, 0));
      nsamples, sampleIndex := 0, 0;
      fields := Reset(n);
      new;
      if n.pollMin <= n.pollMax && LimitsOk(n) { ResetKeeps(n); }
      assert Window() == [];
    }

    method ResetState()
      requires Valid()
      modifies this, samples
      ensures Valid() && View() == Reset(old(View()))
    {
      nsamples, sampleIndex := 0, 0;
      fields := Reset(fields);
      for i := 0 to MAX_SAMPLES
        invariant Valid() && nsamples == 0 && fields == Reset(old(fields))
      {
        samples[i] := Sample(0, 0, 0, 0, 0);
      }
      assert Window() == [];
    }

    method InsertSample(s: Sample)
      requires Valid()
      modifies this, samples
      ensures Valid() && View() == NtpController.InsertSample(old(View()), s)
    {
      ghost var before, index, count := Window(), sampleIndex, nsamples;
      ghost var next, more := (index + 1) % MAX_SAMPLES, count + 1;
      if count < MAX_SAMPLES {
        forall i | 0 <= i <= count ensures Slot(next, more, i) == i { SlotFilling(count, i); }
        forall i | 0 <= i < count ensures Slot(count, count, i) == i { SlotFilling(count, i); }
      } else {
        forall i | 0 <= i < MAX_SAMPLES
          ensures Slot(next, MAX_SAMPLES, i) == if i == MAX_SAMPLES - 1 then index else Slot(index, MAX_SAMPLES, i + 1)
        { SlotFull(index, i); }
        forall i | 0 < i < MAX_SAMPLES ensures Slot(index, MAX_SAMPLES, i) != index { SlotFull(index, i); }
      }
      samples[sampleIndex] := s;
      sampleIndex := (sampleIndex + 1) % MAX_SAMPLES;
      if nsamples < MAX_SAMPLES { nsamples := nsamples + 1; }
      fields := fields.(inserted := fields.inserted + [s]);
      assert Window() == Insert(before, s);
    }

    /** Brings every sample of the window up to date. */
    method AdjustSamples(hereComp: int, freq: int, adjustment: int, step: int)
      requires Valid()
      modifies samples
      ensures Valid() && View() == old(View()).(window := AdjustAll(old(Window()), f, hereComp, freq, adjustment, step))
    {
      ghost var before := Window();
      for i := 0 to nsamples
        invariant Valid()
        invariant forall k | 0 <= k < i :: GetSample(k) == Adjust(before[k], f, hereComp, freq, adjustment, step)
        invariant forall k | i <= k < nsamples :: GetSample(k) == before[k]
      {
        var k := Slot(sampleIndex, nsamples, i);
        forall j | 0 <= j < nsamples && j != i ensures Slot(sampleIndex, nsamples, j) != k {
          SlotsDistinct(sampleIndex, nsamples, if i < j then i else j, if i < j then j else i);
        }
        samples[k] := Adjust(samples[k], f, hereComp, freq, adjustment, step);
      }
      assert Window() == AdjustAll(before, f, hereComp, freq, adjustment, step);
    }

    method CompleteQuery(success: bool)
      requires Valid()
      modifies this
      ensures Valid() && View() == QueryComplete(old(View()), success)
      ensures old(Inv(View())) ==> Inv(View())
    {
      if Inv(View()) { QueryCompleteKeeps(View(), success); }
      if fields.server >= 0 {
        if success {
          fields := fields.(errors := 0);
        } else {
          fields := fields.(errors := fields.errors + 1);
          if fields.errors > QUERY_ATTEMPTS && fields.interval < fields.pollMax {
            fields := fields.(interval := fields.interval + 1);
          }
        }
      }
      assert Window() == old(Window());
    }

    /** Replaces the slew in progress. */
    method SwitchSlew(here: int)
      requires Valid()
      modifies this
      ensures Valid() && View() == StartSlew(old(View()), f, here)
    {
      fields := Settle(fields, f, here);
      fields := fields.(slewFreq := SlewFrequency(fields, f));
      fields := fields.(slewStart := here);
      assert Window() == old(Window());
    }

    /** Replaces the slew in progress; `duration` is when the new one is settled. */
    method BeginSlew(here: int) returns (duration: int)
      requires Valid()
      modifies this
      ensures Valid() && View() == StartSlew(old(View()), f, here)
      ensures duration == SlewDuration(View(), f) && MIN_SLEW_DURATION <= duration <= MAX_SLEW_DURATION
      ensures old(Inv(View())) ==> Inv(View())
    {
      ghost var n := View();
      SwitchSlew(here);
      duration := SlewDuration(fields, f);
      if Inv(n) { StartSlewKeeps(n, f, here); }
    }

    /** A new sample, what the regression makes of the window, and two clock readings. */
    method ChronyNewSample(s: Sample, est: Option<Estimate>, here: int, later: int) returns (ok: bool)
      requires Valid()
      modifies this, samples
      ensures 0 <= old(fields.interval)
      ensures Valid() && Outcome(View(), ok) == NewSample(old(View()), f, s, est, here, later)
      ensures old(Inv(View())) ==> (Inv(View()) <==> !Escapes(old(View()), s, est))
    {
      ghost var n := View();
      if Inv(n) { NewSampleExactly(n, f, s, est, here, later); }
      InsertSample(s);
      if nsamples < MIN_SAMPLES { return true; }
      if est.None? {
        if fields.bad + 1 == MAX_BAD_REGRESSIONS {
          ResetState();
        } else {
          ghost var w := Window();
          fields := fields.(bad := fields.bad + 1);
          assert Window() == w;
        }
        return false;
      }
      ok := ApplyEstimate(s, est.value, here, later);
    }

    method ApplyEstimate(s: Sample, est: Estimate, here: int, later: int) returns (ok: bool)
      requires Valid()
      modifies this, samples
      ensures Valid() && Outcome(View(), ok) == UseEstimate(old(View()), f, s, est, here, later)
    {
      var judged := Judge(fields, s.original, est);
      ghost var w := Window();
      JudgedAlike(fields, w, f, s.original, est, here);
      if judged.est.None? {
        ResetState();
        return false;
      }
      var e := judged.est.value;
      var hereComp := Compensate(fields, f, here);
      var adjustment := CarriedOffset(f, e, s.time, hereComp);
      ApplyJudged(s.original, judged.bad, e, hereComp, adjustment, later);
      return true;
    }

    method ApplyJudged(off: int, bad: int, est: Estimate, hereComp: int, adjustment: int, later: int)
      requires Valid()
      modifies this, samples
      ensures Valid() && View() == Correct(old(View()).(bad := bad), f, off, est, hereComp, adjustment, later)
    {
      ghost var w := Window();
      TakenAlike(fields, w, bad, est, adjustment);
      fields := TakeIn(fields.(bad := bad), est, adjustment);
      assert Window() == w;
      assert View() == TakeIn(old(View()).(bad := bad), est, adjustment);
      StepOrSlew(later, hereComp, est.freq, adjustment);
      Poll(Wrap64(off - est.offset));
    }

    method Poll(jitter: int)
      requires Valid()
      modifies this
      ensures Valid() && View() == Repoll(old(View()), f, jitter)
    {
      ghost var w := Window();
      RepolledAlike(fields, w, f, jitter);
      fields := Repoll(fields, f, jitter);
      assert Window() == w;
    }

    method StepOrSlew(later: int, hereComp: int, freq: int, adjustment: int)
      requires Valid()
      modifies this, samples
      ensures Valid() && View() == Act(old(View()), f, later, hereComp, freq, adjustment)
    {
      ghost var w := Window();
      if MustStep(fields.offset, fields.threshold) {
        var step := fields.offset;
        fields := Step(fields);
        assert Window() == w;
        AdjustSamples(hereComp, freq, 0, step);
      } else {
        SwitchSlew(later);
        AdjustSamples(hereComp, freq, adjustment, 0);
      }
    }
  }
}
