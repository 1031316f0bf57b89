/** Timed waits of the worker scheduler: when a timer is set, how long it stays set, and
    what its firing does to the reports and to the worker's own call. */
module UmcgTimers {
  import opened Common
  import opened Umcg
  import opened UmcgSafety

  // ---- what one step does to one worker ----

  /** Collecting events makes some idle workers runnable. */
  predicate Touched(x: Worker, y: Worker) {
    y == x || (x.status.Idle? && y == x.(status := Runnable))
  }

  lemma CollectTouches(st: State, size: nat, room: nat, w: nat)
    requires Inv(st) && Listed(st.workers, st.idle) && w in st.workers
    ensures var r := GetEvents(st, size, room).st; w in r.workers && Touched(st.workers[w], r.workers[w])
  {
    var n := CollectMeans(st.workers, st.idle, size, room);
    assert w in st.idle[..n] ==> w in st.idle;
  }

  lemma TakesTouches(st: State, s: nat, room: nat, w: nat)
    requires Inv(st) && s in st.modes && Listed(st.workers, st.idle) && w in st.workers
    requires st.modes[s].InSwitch? && st.slots[st.modes[s].slot].event != 0
    ensures var r := ServerAction(st, s, room).st; w in r.workers && Touched(st.workers[w], r.workers[w])
  {
    ActionTakes(st, s, room);
    SlotDoneKeeps(st, s);
    var size := st.slots[st.modes[s].slot].size;
    if room > 0 && size > 1 { CollectTouches(SlotDone(st, s), size - 1, room - 1, w); }
  }

  lemma ActionTouches(st: State, s: nat, room: nat, w: nat)
    requires Inv(st) && s in st.modes && Listed(st.workers, st.idle) && Points(st, st.modes[s]) && w in st.workers
    ensures var r := ServerAction(st, s, room).st; w in r.workers && Touched(st.workers[w], r.workers[w])
  {
    if st.modes[s].InSwitch? && st.slots[st.modes[s].slot].event != 0 {
      TakesTouches(st, s, room, w);
    } else {
      ActionBlocks(st, s, room);
    }
  }

  /** A step of the worker itself: it runs, and makes a call or is looked at by the scheduler. */
  predicate OwnStep(a: Action, w: nat) {
    match a
    case DoUnregister(t) => t == w
    case DoWorkerWait(t, _) => t == w
    case DoWorkerSwitch(t, _, _) => t == w
    case DoSyscallEntry(v) => v == w
    case DoSyscallPause(v) => v == w
    case DoScheduleReturn(v, _) => v == w
    case _ => false
  }

  /** A step that makes another worker or a server hand the processor to worker w. */
  predicate Dispatches(st: State, a: Action, w: nat) {
    && w in st.workers
    && ((a.DoServerSwitch? && a.next == w && a.timeout == 0 && a.size != 0
         && (st.workers[w].status.Runnable? || st.workers[w].status.Waiting?))
        || (a.DoWorkerSwitch? && a.next == w && st.workers[w].status.Runnable?))
  }

  /** What the other steps leave alone: everything but the queue that is remembered, and an
      idle worker may become runnable. */
  predicate Undisturbed(x: Worker, y: Worker) {
    && y == x.(status := y.status, bq := y.bq)
    && (y.status == x.status || (x.status.Idle? && y.status.Runnable?))
  }

  lemma CollectorLeaves(st: State, a: Action, w: nat)
    requires Inv(st) && Enabled(st, a) && Safe(st, a) && w in st.workers && (a.DoGetEvents? || a.DoServerAction?)
    ensures w in Next(st, a).workers && Undisturbed(st.workers[w], Next(st, a).workers[w])
  {
    if a.DoGetEvents? {
      CollectTouches(st, a.size, a.room, w);
    } else {
      ActionTouches(st, a.s, a.room, w);
    }
  }

  lemma CallLeaves(st: State, a: Action, w: nat)
    requires Enabled(st, a) && Safe(st, a) && w in st.workers && !OwnStep(a, w) && !Dispatches(st, a, w)
    requires a.DoRegister? || a.DoServerSwitch? || a.DoWorkerSwitch? || a.DoServerWaitWorker?
    ensures w in Next(st, a).workers && Undisturbed(st.workers[w], Next(st, a).workers[w])
  {
  }

  lemma ElsewhereLeaves(st: State, a: Action, w: nat)
    requires Enabled(st, a) && Safe(st, a) && w in st.workers && !OwnStep(a, w) && a != DoTimerFire(w)
    requires a.DoUnregister? || a.DoWorkerWait? || a.DoTimerFire?
             || a.DoSyscallEntry? || a.DoSyscallPause? || a.DoScheduleReturn?
    ensures w in Next(st, a).workers && Undisturbed(st.workers[w], Next(st, a).workers[w])
  {
  }

  /** A worker is disturbed only by its own steps, by its timer and by being dispatched. */
  lemma OthersLeave(st: State, a: Action, w: nat)
    requires Inv(st) && Enabled(st, a) && Safe(st, a) && w in st.workers
    requires !OwnStep(a, w) && a != DoTimerFire(w) && !Dispatches(st, a, w)
    ensures w in Next(st, a).workers && Undisturbed(st.workers[w], Next(st, a).workers[w])
  {
    match a
    case DoGetEvents(_, _, _) => CollectorLeaves(st, a, w);
    case DoServerAction(_, _) => CollectorLeaves(st, a, w);
    case DoRegister(_, _) => CallLeaves(st, a, w);
    case DoServerSwitch(_, _, _, _, _) => CallLeaves(st, a, w);
    case DoWorkerSwitch(_, _, _) => CallLeaves(st, a, w);
    case DoServerWaitWorker(_, _) => CallLeaves(st, a, w);
    case _ => ElsewhereLeaves(st, a, w);
  }

  /** And being dispatched keeps what its call returns. */
  lemma DispatchLeaves(st: State, a: Action, w: nat)
    requires Inv(st) && Enabled(st, a) && Safe(st, a) && Dispatches(st, a, w)
    ensures w in Next(st, a).workers
    ensures var x, y := st.workers[w], Next(st, a).workers[w];
      y == x.(status := Running, slot := y.slot, bq := y.bq, armed := false, fired := false)
  {
  }

  // ---- setting a timer ----

  predicate OffProcessor(x: Worker) {
    x.status.Idle? || x.status.Runnable? || x.status.Waiting?
  }

  /** A worker's wait has a timer exactly when it has a timeout. */
  lemma WaitSetsTimer(st: State, t: nat, timeout: nat)
    requires Inv(st) && Enabled(st, DoWorkerWait(t, timeout))
    ensures Safe(st, DoWorkerWait(t, timeout))
    ensures var r := Next(st, DoWorkerWait(t, timeout));
      && (Enabled(r, DoTimerFire(t)) <==> timeout != 0)
      && r.workers[t].status.Waiting? && r.workers[t].rv == 0 && t !in r.idle
  {
    assert t !in st.idle;
  }

  /** So has a worker's switch to a runnable worker, whose own timer is removed. */
  lemma SwitchSetsTimer(st: State, t: nat, next: nat, timeout: nat)
    requires Inv(st) && Enabled(st, DoWorkerSwitch(t, next, timeout))
    requires next in st.workers && st.workers[next].status.Runnable?
    ensures Safe(st, DoWorkerSwitch(t, next, timeout))
    ensures var r := Next(st, DoWorkerSwitch(t, next, timeout));
      && (Enabled(r, DoTimerFire(t)) <==> timeout != 0) && !Enabled(r, DoTimerFire(next))
      && r.workers[t].status.Idle? && r.workers[t].rv == 0 && r.workers[t].event == WE_WAIT && t in r.idle
  {
  }

  /** Worker w is neither dispatched nor timed out during the run. */
  predicate LeftAlone(st: State, acts: seq<Action>, w: nat)
    decreases |acts|
  {
    acts != [] ==>
      && acts[0] != DoTimerFire(w) && !Dispatches(st, acts[0], w)
      && (Safe(st, acts[0]) ==> LeftAlone(Next(st, acts[0]), acts[1..], w))
  }

  /** A worker that is off the processor makes no steps. */
  lemma OffMakesNone(st: State, a: Action, w: nat)
    requires Enabled(st, a) && w in st.workers && OffProcessor(st.workers[w])
    ensures !OwnStep(a, w)
  {
  }

  lemma AloneStep(st: State, a: Action, w: nat) returns (m: State)
    requires Inv(st) && Enabled(st, a) && Safe(st, a) && w in st.workers && OffProcessor(st.workers[w])
    requires a != DoTimerFire(w) && !Dispatches(st, a, w)
    ensures m == Next(st, a) && Inv(m) && w in m.workers && OffProcessor(m.workers[w])
    ensures m.workers[w].rv == st.workers[w].rv && m.workers[w].armed == st.workers[w].armed
  {
    m := Next(st, a);
    OffMakesNone(st, a, w);
    OthersLeave(st, a, w);
    NextKeeps(st, a);
  }

  lemma {:induction false} ArmedStays(st: State, acts: seq<Action>, r: State, w: nat)
    requires Inv(st) && Runs(st, acts, r) && LeftAlone(st, acts, w) && w in st.workers && OffProcessor(st.workers[w])
    ensures w in r.workers && OffProcessor(r.workers[w])
    ensures r.workers[w].rv == st.workers[w].rv && r.workers[w].armed == st.workers[w].armed
    decreases |acts|
  {
    if acts != [] {
      var m := AloneStep(st, acts[0], w);
      ArmedStays(m, acts[1..], r, w);
    }
  }

  lemma FiresIfArmed(st: State, w: nat)
    ensures Enabled(st, DoTimerFire(w)) <==> w in st.workers && st.workers[w].armed
  {
  }

  /** A timer stays set, or unset, over every run until the worker is dispatched or the timer
      fires; in the meantime the worker cannot go away. */
  lemma TimerStays(st: State, acts: seq<Action>, r: State, w: nat)
    requires Inv(st) && Runs(st, acts, r) && LeftAlone(st, acts, w) && w in st.workers && OffProcessor(st.workers[w])
    ensures w in r.workers && OffProcessor(r.workers[w]) && r.workers[w].rv == st.workers[w].rv
    ensures Enabled(r, DoTimerFire(w)) <==> Enabled(st, DoTimerFire(w))
  {
    ArmedStays(st, acts, r, w);
    FiresIfArmed(st, w);
    FiresIfArmed(r, w);
  }

  // ---- firing ----

  /** A timer that fires before its worker has been collected lists the worker with a timeout
      and makes its call return one; after that it changes nothing. */
  lemma FiringTimesOut(st: State, w: nat)
    requires Inv(st) && Enabled(st, DoTimerFire(w))
    ensures Safe(st, DoTimerFire(w)) && OffProcessor(st.workers[w])
    ensures var x, r := st.workers[w], Next(st, DoTimerFire(w));
      && w in r.workers && !Enabled(r, DoTimerFire(w)) && r.workers[w].id == x.id
      && (if x.status.Runnable? then r.idle == st.idle && r.workers[w].rv == x.rv && r.workers[w].status == x.status
          else w in r.idle && r.workers[w].rv == -ETIMEDOUT && x.id + WE_TIMEOUT in Report(r.workers[w])
               && (x.status.Waiting? ==> Report(r.workers[w]) == [x.id + WE_TIMEOUT])
               && (x.status.Idle? ==> Report(r.workers[w]) == [x.id + WE_WAIT, x.id + WE_TIMEOUT]))
  {
    var x, r := st.workers[w], Next(st, DoTimerFire(w));
    assert x.status.Idle? ==> w in st.idle;
  }

  /** Worker w is on the idle list throughout the run. */
  predicate StaysListed(st: State, acts: seq<Action>, w: nat)
    decreases |acts|
  {
    && w in st.idle
    && (acts != [] && Safe(st, acts[0]) ==> StaysListed(Next(st, acts[0]), acts[1..], w))
  }

  lemma ListedStep(st: State, a: Action, w: nat) returns (m: State)
    requires Inv(st) && Enabled(st, a) && Safe(st, a) && w in st.idle && w in Next(st, a).idle
    requires a != DoTimerFire(w)
    ensures m == Next(st, a) && Inv(m) && w in st.workers && w in m.workers
    ensures Undisturbed(st.workers[w], m.workers[w])
  {
    m := Next(st, a);
    OffMakesNone(st, a, w);
    OthersLeave(st, a, w);
    NextKeeps(st, a);
  }

  lemma {:induction false} ListedStays(st: State, acts: seq<Action>, r: State, w: nat)
    requires Inv(st) && Runs(st, acts, r) && StaysListed(st, acts, w) && w in st.workers && !st.workers[w].armed
    ensures Inv(r) && w in r.idle && w in r.workers && Undisturbed(st.workers[w], r.workers[w])
    decreases |acts|
  {
    if acts != [] {
      var m := ListedStep(st, acts[0], w);
      ListedStays(m, acts[1..], r, w);
    }
  }

  lemma SameReport(x: Worker, y: Worker)
    requires Undisturbed(x, y)
    ensures Report(x) == Report(y) && x.rv == y.rv
  {
  }

  lemma {:induction false} ReportIncluded(workers: map<nat, Worker>, ws: seq<nat>, i: nat, e: nat)
    requires Listed(workers, ws) && i < |ws| && e in Report(workers[ws[i]])
    ensures e in Reports(workers, ws)
  {
    if i > 0 {
      assert ws[1..][i - 1] == ws[i];
      ReportIncluded(workers, ws[1..], i - 1, e);
    }
  }

  /** A collection that reaches a listed worker writes its report. */
  lemma ReachedReports(r: State, w: nat, e: nat, size: nat, room: nat) returns (n: nat, c: Collected)
    requires Inv(r) && w in r.idle && w in r.workers && e in Report(r.workers[w])
    ensures Listed(r.workers, r.idle) && c == Collect(r.workers, r.idle, size, room)
    ensures CollectSpec(r.workers, r.idle, size, room, c, n)
    ensures w in r.idle[..n] ==> e in c.entries && c.workers[w].rv == r.workers[w].rv
  {
    n := CollectMeans(r.workers, r.idle, size, room);
    c := Collect(r.workers, r.idle, size, room);
    if w in r.idle[..n] {
      var i :| 0 <= i < n && r.idle[..n][i] == w;
      ReportIncluded(r.workers, r.idle[..n], i, e);
    }
  }

  /** A timer that fires before its worker is collected: the collection that reaches the
      worker, however much later, reports the timeout, and the worker's call returns it. */
  lemma TimeoutReported(st: State, w: nat, acts: seq<Action>, r: State, size: nat, room: nat)
    returns (n: nat, c: Collected)
    requires Inv(st) && Enabled(st, DoTimerFire(w)) && !st.workers[w].status.Runnable?
    requires Runs(Next(st, DoTimerFire(w)), acts, r) && StaysListed(Next(st, DoTimerFire(w)), acts, w)
    ensures w in r.workers && r.workers[w].rv == -ETIMEDOUT && w in r.idle
    ensures Listed(r.workers, r.idle) && c == Collect(r.workers, r.idle, size, room)
    ensures CollectSpec(r.workers, r.idle, size, room, c, n)
    ensures w in r.idle[..n] ==> st.workers[w].id + WE_TIMEOUT in c.entries && c.workers[w].rv == -ETIMEDOUT
  {
    var m := Next(st, DoTimerFire(w));
    FiringTimesOut(st, w);
    NextKeeps(st, DoTimerFire(w));
    ListedStays(m, acts, r, w);
    SameReport(m.workers[w], r.workers[w]);
    n, c := ReachedReports(r, w, st.workers[w].id + WE_TIMEOUT, size, room);
  }

  // ---- what a timed call returns ----

  /** Some step of the run fires the timer of w before the worker is collected. */
  predicate FiresInTime(st: State, acts: seq<Action>, w: nat)
    decreases |acts|
  {
    && acts != [] && Safe(st, acts[0])
    && ((acts[0] == DoTimerFire(w) && w in st.workers && !st.workers[w].status.Runnable?)
        || FiresInTime(Next(st, acts[0]), acts[1..], w))
  }

  /** Worker w makes no further call during the run. */
  predicate NoCalls(acts: seq<Action>, w: nat) {
    forall i | 0 <= i < |acts| ::
      acts[i] != DoUnregister(w) && (acts[i].DoWorkerWait? || acts[i].DoWorkerSwitch? ==> acts[i].t != w)
  }

  lemma ReturnStep(st: State, a: Action, w: nat)
    requires Inv(st) && Enabled(st, a) && Safe(st, a) && w in st.workers && NoCalls([a], w)
    ensures w in Next(st, a).workers
    ensures Next(st, a).workers[w].rv ==
      if a == DoTimerFire(w) && !st.workers[w].status.Runnable? then -ETIMEDOUT else st.workers[w].rv
    ensures !Enabled(st, DoTimerFire(w)) ==> a != DoTimerFire(w) && !Enabled(Next(st, a), DoTimerFire(w))
  {
    assert [a][0] == a;
    if a == DoTimerFire(w) {
      FiringTimesOut(st, w);
    } else if Dispatches(st, a, w) {
      DispatchLeaves(st, a, w);
    } else if !OwnStep(a, w) {
      OthersLeave(st, a, w);
    }
  }

  lemma {:induction false} NeverFires(st: State, acts: seq<Action>, r: State, w: nat)
    requires Inv(st) && Runs(st, acts, r) && NoCalls(acts, w) && w in st.workers && !Enabled(st, DoTimerFire(w))
    ensures w in r.workers && r.workers[w].rv == st.workers[w].rv && !FiresInTime(st, acts, w)
    decreases |acts|
  {
    if acts != [] {
      ReturnStep(st, acts[0], w);
      NextKeeps(st, acts[0]);
      NeverFires(Next(st, acts[0]), acts[1..], r, w);
    }
  }

  /** What a worker's call returns, at any later time before its next call: a timeout exactly
      when the timer has fired before the worker was collected, and otherwise what it was. */
  lemma {:induction false} CallReturns(st: State, acts: seq<Action>, r: State, w: nat)
    requires Inv(st) && Runs(st, acts, r) && NoCalls(acts, w) && w in st.workers
    ensures w in r.workers
    ensures r.workers[w].rv == if FiresInTime(st, acts, w) then -ETIMEDOUT else st.workers[w].rv
    decreases |acts|
  {
    if acts != [] {
      var a := acts[0];
      ReturnStep(st, a, w);
      NextKeeps(st, a);
      if a == DoTimerFire(w) {
        FiringTimesOut(st, w);
        NeverFires(Next(st, a), acts[1..], r, w);
      } else {
        CallReturns(Next(st, a), acts[1..], r, w);
      }
    }
  }

  /** A wait returns 0, or -ETIMEDOUT exactly when its timer fires in time, which needs a
      timeout. */
  lemma WaitReturns(st: State, t: nat, timeout: nat, acts: seq<Action>, r: State)
    requires Inv(st) && Enabled(st, DoWorkerWait(t, timeout)) && Safe(st, DoWorkerWait(t, timeout))
    requires Runs(Next(st, DoWorkerWait(t, timeout)), acts, r) && NoCalls(acts, t)
    ensures var m := Next(st, DoWorkerWait(t, timeout));
      && t in r.workers && r.workers[t].rv == (if FiresInTime(m, acts, t) then -ETIMEDOUT else 0)
      && (timeout == 0 ==> !FiresInTime(m, acts, t))
  {
    var m := Next(st, DoWorkerWait(t, timeout));
    WaitSetsTimer(st, t, timeout);
    NextKeeps(st, DoWorkerWait(t, timeout));
    CallReturns(m, acts, r, t);
    if timeout == 0 { NeverFires(m, acts, r, t); }
  }
}
