/** What the calls and callbacks of the worker scheduler return, and how they move workers
    between states. */
module UmcgCalls {
  import opened Common
  import opened Umcg
  import opened UmcgSafety
  import opened UmcgTimers

  // ---- calls that are refused ----

  predicate IsCall(a: Action) {
    || a.DoRegister? || a.DoUnregister? || a.DoWorkerWait?
    || a.DoServerSwitch? || a.DoWorkerSwitch? || a.DoServerWaitWorker?
  }

  /** What a call returns at once. */
  function ReturnCode(st: State, a: Action): (rv: int)
    requires IsCall(a) && Safe(st, a)
  {
    match a
    case DoRegister(t, id) => Register(st, t, id).rv
    case DoUnregister(t) => Unregister(st, t).rv
    case DoWorkerWait(t, timeout) => WorkerWait(st, t, timeout).rv
    case DoServerSwitch(t, next, timeout, size, slot) => ServerSwitch(st, t, next, timeout, size, slot).rv
    case DoWorkerSwitch(t, next, timeout) => WorkerSwitch(st, t, next, timeout).rv
    case DoServerWaitWorker(t, next) => ServerWaitWorker(st, t, next).rv
  }

  /** The call is in order: a registration has an identifier with five free bits and is the
      thread's first, and a switch or wait names a worker that is fit for it. */
  predicate InOrder(st: State, a: Action) {
    match a
    case DoRegister(t, id) => id % 32 == 0 && t !in st.workers
    case DoServerSwitch(_, next, _, _, _) => Dispatches(st, a, next)
    case DoWorkerSwitch(_, next, _) => Dispatches(st, a, next)
    case DoServerWaitWorker(_, next) => next in st.workers
    case _ => true
  }

  /** A call returns 0 exactly when it is in order; otherwise it is refused and changes nothing. */
  lemma Refusals(st: State, a: Action)
    requires IsCall(a) && Safe(st, a)
    ensures ReturnCode(st, a) == if InOrder(st, a) then 0 else -EINVAL
    ensures !InOrder(st, a) ==> Next(st, a) == st
  {
  }

  /** A switch that is in order leaves the next worker running on the caller's side: a server
      blocks with a slot of the size it gave, and a worker hands over the slot it held. */
  lemma SwitchRuns(st: State, a: Action)
    requires Inv(st) && Enabled(st, a) && Safe(st, a) && InOrder(st, a) && (a.DoServerSwitch? || a.DoWorkerSwitch?)
    ensures var r := Next(st, a);
      && Holder(r, a.next) && r.workers[a.next].status.Running?
      && (a.DoServerSwitch? ==>
            && r.modes == st.modes[a.t := InSwitch(a.slot)] && HeldBy(r, a.slot, a.next)
            && r.slots == st.slots[a.slot := Slot(a.t, 0, a.size)] && r.workers[a.next].bq == Some(a.t))
      && (a.DoWorkerSwitch? ==>
            && r.modes == st.modes && r.slots == st.slots && HeldBy(r, st.workers[a.t].slot, a.next)
            && !Holder(r, a.t) && r.workers[a.next].bq == st.workers[a.t].bq)
  {
  }

  // ---- the states of a worker ----

  /** The changes of state there are, and the steps that make them. */
  predicate Becomes(a: Action, w: nat, from: Status, to: Status) {
    match a
    case DoWorkerWait(t, _) => t == w && Holds(from) && to.Waiting?
    case DoWorkerSwitch(t, next, _) =>
      (t == w && Holds(from) && to == Idle(false)) || (next == w && from.Runnable? && to.Running?)
    case DoServerSwitch(_, next, _, _, _) => next == w && (from.Runnable? || from.Waiting?) && to.Running?
    case DoGetEvents(_, _, _) => from.Idle? && to.Runnable?
    case DoServerAction(_, _) => from.Idle? && to.Runnable?
    case DoTimerFire(v) => v == w && ((from.Waiting? && to == Idle(false)) || (from == Idle(false) && to == Idle(true)))
    case DoSyscallEntry(v) => v == w && from.Running? && to.Paused?
    case DoSyscallPause(v) => v == w && from.Paused? && to.Blocked?
    case DoScheduleReturn(v, expired) =>
      && v == w
      && (if from.Blocked? then to == Idle(false)
          else Holds(from) && if expired then to.Runnable? else from.Paused? && to.Running?)
    case _ => false
  }

  /** A worker's state changes in no other way, and its identifier not at all. */
  lemma LifeCycle(st: State, a: Action, w: nat)
    requires Inv(st) && Enabled(st, a) && Safe(st, a) && w in st.workers && w in Next(st, a).workers
    ensures var x, y := st.workers[w], Next(st, a).workers[w];
      (y.status != x.status ==> Becomes(a, w, x.status, y.status)) && y.id == x.id
  {
    match a
    case DoGetEvents(_, _, _) => CollectorLeaves(st, a, w);
    case DoServerAction(_, _) => CollectorLeaves(st, a, w);
    case DoRegister(_, _) => CallMoves(st, a, w);
    case DoServerSwitch(_, _, _, _, _) => CallMoves(st, a, w);
    case DoWorkerSwitch(_, _, _) => CallMoves(st, a, w);
    case DoServerWaitWorker(_, _) => CallMoves(st, a, w);
    case _ => CallbackMoves(st, a, w);
  }

  lemma CallMoves(st: State, a: Action, w: nat)
    requires Enabled(st, a) && Safe(st, a) && w in st.workers && w in Next(st, a).workers
    requires a.DoRegister? || a.DoServerSwitch? || a.DoWorkerSwitch? || a.DoServerWaitWorker?
    ensures var x, y := st.workers[w], Next(st, a).workers[w];
      (y.status != x.status ==> Becomes(a, w, x.status, y.status)) && y.id == x.id
  {
  }

  lemma CallbackMoves(st: State, a: Action, w: nat)
    requires Enabled(st, a) && Safe(st, a) && w in st.workers && w in Next(st, a).workers
    requires a.DoUnregister? || a.DoWorkerWait? || a.DoTimerFire?
             || a.DoSyscallEntry? || a.DoSyscallPause? || a.DoScheduleReturn?
    ensures var x, y := st.workers[w], Next(st, a).workers[w];
      (y.status != x.status ==> Becomes(a, w, x.status, y.status)) && y.id == x.id
  {
  }

  /** And it does change so: a call in order, a timer or a callback makes the change it can make. */
  lemma Moves(st: State, a: Action, w: nat, to: Status)
    requires Enabled(st, a) && Safe(st, a) && InOrder(st, a) && !a.DoGetEvents? && !a.DoServerAction?
    requires w in st.workers && Becomes(a, w, st.workers[w].status, to)
    ensures w in Next(st, a).workers && Next(st, a).workers[w].status == to
  {
  }

  /** The event with which a step puts a worker on the idle list. */
  function IdleEvent(a: Action): (event: Option<nat>) {
    match a
    case DoRegister(_, _) => Some(WE_WAKE)
    case DoScheduleReturn(_, _) => Some(WE_WAKE)
    case DoWorkerSwitch(_, _, _) => Some(WE_WAIT)
    case DoTimerFire(_) => Some(WE_TIMEOUT)
    case _ => None
  }

  /** A worker that joins the idle list does so with the event of the step, and keeps that
      event while it is on the list. */
  lemma JoinsWith(st: State, a: Action, w: nat)
    requires Inv(st) && Enabled(st, a) && Safe(st, a) && w in Next(st, a).idle
    ensures w in Next(st, a).workers
    ensures w !in st.idle ==> IdleEvent(a) == Some(Next(st, a).workers[w].event)
    ensures w in st.idle ==> w in st.workers && Next(st, a).workers[w].event == st.workers[w].event
  {
    NextKeeps(st, a);
    if w !in st.workers {
      NewWorker(st, a, w);
    } else if w !in st.idle {
      LifeCycle(st, a, w);
    } else if a != DoTimerFire(w) {
      var _ := ListedStep(st, a, w);
    }
  }

  lemma JoinsLast(st: State, a: Action) returns (joined: seq<nat>)
    requires Inv(st) && Enabled(st, a) && Safe(st, a) && !a.DoGetEvents? && !a.DoServerAction?
    ensures Next(st, a).idle == st.idle + joined && |joined| <= 1
  {
    var r := Next(st, a).idle;
    if |r| > |st.idle| {
      joined := [r[|st.idle|]];
    } else {
      joined := [];
      assert r == st.idle + [];
    }
  }

  lemma CollectsFirst(st: State, size: nat, room: nat) returns (n: nat)
    requires Inv(st)
    ensures Listed(st.workers, st.idle) && n <= |st.idle| && GetEvents(st, size, room).st.idle == st.idle[n..]
  {
    n := CollectMeans(st.workers, st.idle, size, room);
  }

  lemma ActionTakesFirst(st: State, s: nat, room: nat) returns (n: nat)
    requires Inv(st) && s in st.modes && Listed(st.workers, st.idle) && Points(st, st.modes[s])
    ensures n <= |st.idle| && ServerAction(st, s, room).st.idle == st.idle[n..]
  {
    n := 0;
    if st.modes[s].InSwitch? && st.slots[st.modes[s].slot].event != 0 {
      ActionTakes(st, s, room);
      SlotDoneKeeps(st, s);
      var size := st.slots[st.modes[s].slot].size;
      if room > 0 && size > 1 { n := CollectsFirst(SlotDone(st, s), size - 1, room - 1); }
    } else {
      ActionBlocks(st, s, room);
    }
  }

  /** Workers are reported in the order in which they became idle: every step takes some off
      the front of the list, or puts at most one at its end. */
  lemma FirstInFirstOut(st: State, a: Action) returns (n: nat, joined: seq<nat>)
    requires Inv(st) && Enabled(st, a) && Safe(st, a)
    ensures n <= |st.idle| && |joined| <= 1 && Next(st, a).idle == st.idle[n..] + joined
    ensures n > 0 ==> a.DoGetEvents? || a.DoServerAction?
  {
    n, joined := 0, [];
    match a
    case DoGetEvents(_, size, room) => n := CollectsFirst(st, size, room);
    case DoServerAction(s, room) => n := ActionTakesFirst(st, s, room);
    case _ => joined := JoinsLast(st, a);
  }

  // ---- what collecting returns ----

  /** Nothing of the first report, or only half of it, can be written. */
  predicate FirstFails(workers: map<nat, Worker>, idle: seq<nat>, size: nat, room: nat)
    requires Listed(workers, idle)
  {
    size > 1 && idle != [] && room < |Report(workers[idle[0]])|
  }

  lemma CollectResult(workers: map<nat, Worker>, idle: seq<nat>, size: nat, room: nat) returns (c: Collected)
    requires AllIdle(workers, idle) && NoDuplicates(idle)
    ensures Listed(workers, idle) && c == Collect(workers, idle, size, room)
    ensures CollectedRv(c) == if FirstFails(workers, idle, size, room) then -EFAULT else |c.entries|
    ensures FirstFails(workers, idle, size, room) ==> c.workers == workers && c.idle == idle
  {
    c := Collect(workers, idle, size, room);
    var n := CollectMeans(workers, idle, size, room);
    if size > 1 && idle != [] {
      ReportMeans(workers[idle[0]]);
      if room >= |Report(workers[idle[0]])| { CollectUnfold(workers, idle, size, room); }
    }
  }

  /** A collection returns the number of entries written, or a fault exactly when not even the
      report of the first worker could be written in full. */
  lemma EventsResult(st: State, size: nat, room: nat) returns (c: Collected)
    requires Inv(st)
    ensures Listed(st.workers, st.idle) && c == Collect(st.workers, st.idle, size, room)
    ensures GetEvents(st, size, room).rv ==
      if FirstFails(st.workers, st.idle, size, room) then -EFAULT else |c.entries|
    ensures FirstFails(st.workers, st.idle, size, room) ==> GetEvents(st, size, room).st == st
  {
    c := CollectResult(st.workers, st.idle, size, room);
  }

  /** A server woken from a context switch returns 0, or a fault exactly when its own event or
      the first report behind it could not be written in full. */
  lemma ActionResult(st: State, s: nat, room: nat)
    requires Inv(st) && s in st.modes && st.modes[s].InSwitch? && st.slots[st.modes[s].slot].event != 0
    ensures Listed(st.workers, st.idle)
    ensures var size := st.slots[st.modes[s].slot].size;
      var fault := room == 0 || (size > 1 && FirstFails(st.workers, st.idle, size - 1, room - 1));
      ServerAction(st, s, room).rv == if fault then -EFAULT else 0
  {
    var size := st.slots[st.modes[s].slot].size;
    SlotDoneKeeps(st, s);
    if room > 0 && size > 1 { var _ := EventsResult(SlotDone(st, s), size - 1, room - 1); }
  }

  // ---- reading entries ----

  predicate IdsOk(st: State) {
    forall w | w in st.workers :: st.workers[w].id % 32 == 0
  }

  lemma IdKept(st: State, a: Action, w: nat)
    requires Inv(st) && Enabled(st, a) && Safe(st, a) && w in Next(st, a).workers
    ensures if w in st.workers then Next(st, a).workers[w].id == st.workers[w].id
            else Next(st, a).workers[w].id % 32 == 0
  {
    if w in st.workers { LifeCycle(st, a, w); } else { NewWorker(st, a, w); }
  }

  lemma NewWorker(st: State, a: Action, w: nat)
    requires Inv(st) && Enabled(st, a) && Safe(st, a) && w in Next(st, a).workers && w !in st.workers
    ensures a.DoRegister? && a.t == w && a.id % 32 == 0 && Next(st, a).workers[w].id == a.id
  {
    match a
    case DoGetEvents(_, size, room) => CollectsKnown(st, size, room);
    case DoServerAction(s, room) => NoNewWorker(st, s, room);
    case _ =>
  }

  lemma CollectsKnown(st: State, size: nat, room: nat)
    requires Inv(st)
    ensures Listed(st.workers, st.idle) && GetEvents(st, size, room).st.workers.Keys == st.workers.Keys
  {
    var n := CollectMeans(st.workers, st.idle, size, room);
  }

  lemma TakesKnown(st: State, s: nat, room: nat)
    requires Inv(st) && s in st.modes && Listed(st.workers, st.idle)
    requires st.modes[s].InSwitch? && st.slots[st.modes[s].slot].event != 0
    ensures ServerAction(st, s, room).st.workers.Keys == st.workers.Keys
  {
    ActionTakes(st, s, room);
    SlotDoneKeeps(st, s);
    var size := st.slots[st.modes[s].slot].size;
    if room > 0 && size > 1 { CollectsKnown(SlotDone(st, s), size - 1, room - 1); }
  }

  lemma NoNewWorker(st: State, s: nat, room: nat)
    requires Inv(st) && s in st.modes && Listed(st.workers, st.idle) && Points(st, st.modes[s])
    ensures ServerAction(st, s, room).st.workers.Keys == st.workers.Keys
  {
    if st.modes[s].InSwitch? && st.slots[st.modes[s].slot].event != 0 {
      TakesKnown(st, s, room);
    } else {
      ActionBlocks(st, s, room);
    }
  }

  lemma {:induction false} IdsKept(st: State, acts: seq<Action>, r: State)
    requires Inv(st) && IdsOk(st) && Runs(st, acts, r)
    ensures IdsOk(r)
    decreases |acts|
  {
    if acts != [] {
      var m := Next(st, acts[0]);
      forall w | w in m.workers ensures m.workers[w].id % 32 == 0 { IdKept(st, acts[0], w); }
      NextKeeps(st, acts[0]);
      IdsKept(m, acts[1..], r);
    }
  }

  /** In every run, an entry tells its worker and its event apart: the identifier is the entry
      without its low five bits, which are the event. */
  lemma EntriesRead(acts: seq<Action>, r: State, w: nat, event: nat)
    requires Runs(Init(), acts, r) && w in r.workers && event < 32
    ensures var e := r.workers[w].id + event; e % 32 == event && e / 32 * 32 == r.workers[w].id
  {
    Safety([], Init());
    IdsKept(Init(), acts, r);
  }
}
