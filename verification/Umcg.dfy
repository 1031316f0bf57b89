/** User-managed worker scheduling (klib/umcg.c) as a state machine whose steps are the
    system calls, the timer and the scheduler callbacks. Threads are numbers; a pointer
    to a server's event slot is the number of that slot. */
module Umcg {
  import opened Common

  /** Idle carries the timeout flag that is ORed into the status word. */
  datatype Status = Idle(timedOut: bool) | Runnable | Running | Paused | Blocked | Waiting

  const WE_BLOCK := 1
  const WE_WAKE := 2
  const WE_WAIT := 3
  const WE_EXIT := 4
  const WE_TIMEOUT := 5
  const WE_PREEMPT := 6

  const EFAULT := 14
  const EINVAL := 22
  const ETIMEDOUT := 110

  /** `rv` is what the worker's own system call will return and `armed` a pending timer.
      `fired` is history: the timer has fired since the worker last ran. `gen` tells the
      registrations of a thread apart, as the address of the worker's record does. */
  datatype Worker = Worker(id: nat, status: Status, event: nat, bq: Option<nat>, slot: nat, rv: int,
                           armed: bool, fired: bool, gen: nat)

  /** The closure of a server blocked in a context switch: event 0 is an empty slot. */
  datatype Slot = Slot(server: nat, event: nat, size: nat)

  /** A server waiting on a worker keeps a pointer to one registration of it. */
  datatype Mode = InSwitch(slot: nat) | WaitingOn(worker: nat, gen: nat)

  /** Servers that are not blocked are absent from `modes`; `woken` are the threads whose
      block queue was woken and whose action has not been applied yet. */
  datatype State = State(workers: map<nat, Worker>, idle: seq<nat>, slots: map<nat, Slot>,
                         modes: map<nat, Mode>, woken: set<nat>, nextGen: nat)

  datatype Result = Result(st: State, rv: int)

  function Init(): (st: State) {
    State(map[], [], map[], map[], {}, 0)
  }

  predicate Holds(s: Status) {
    s.Running? || s.Paused?
  }

  predicate Holder(st: State, w: nat) {
    w in st.workers && Holds(st.workers[w].status)
  }

  // ---- the steps ----

  /** The worker joins the idle list. */
  function EventIdle(st: State, w: nat, x: Worker): (r: State) {
    st.(workers := st.workers[w := x], idle := st.idle + [w])
  }

  /** Fills the worker's slot and wakes the queue the worker remembers. */
  function EventToServer(st: State, x: Worker, event: nat): (r: State)
    requires x.slot in st.slots
  {
    st.(slots := st.slots[x.slot := st.slots[x.slot].(event := x.id + event)],
        woken := if x.bq.Some? then st.woken + {x.bq.value} else st.woken)
  }

  function Register(st: State, t: nat, id: nat): (r: Result) {
    if id % 32 != 0 || t in st.workers then Result(st, -EINVAL)
    else
      var x := Worker(id, Idle(false), WE_WAKE, None, 0, 0, false, false, st.nextGen);
      Result(EventIdle(st, t, x).(nextGen := st.nextGen + 1), 0)
  }

  function Unregister(st: State, t: nat): (r: Result)
    requires t in st.workers ==> st.workers[t].slot in st.slots
  {
    if t !in st.workers then Result(st, 0)
    else Result(EventToServer(st, st.workers[t], WE_EXIT).(workers := st.workers - {t}), 0)
  }

  function SetWorker(st: State, w: nat, x: Worker): (r: State) {
    st.(workers := st.workers[w := x])
  }

  function WorkerWait(st: State, t: nat, timeout: nat): (r: Result)
    requires t in st.workers && st.workers[t].slot in st.slots
  {
    var x := st.workers[t];
    Result(SetWorker(EventToServer(st, x, WE_WAIT), t, x.(status := Waiting, rv := 0, armed := timeout != 0)), 0)
  }

  /** A server blocks in a context switch and its slot goes to the next worker. */
  function ServerSwitch(st: State, t: nat, next: nat, timeout: nat, size: nat, slot: nat): (r: Result) {
    if next !in st.workers || timeout != 0 || size == 0 then Result(st, -EINVAL)
    else if !st.workers[next].status.Runnable? && !st.workers[next].status.Waiting? then Result(st, -EINVAL)
    else
      var x := st.workers[next].(status := Running, slot := slot, bq := Some(t), armed := false, fired := false);
      var slots := st.slots[slot := Slot(t, 0, size)];
      Result(SetWorker(st, next, x).(slots := slots, modes := st.modes[t := InSwitch(slot)]), 0)
  }

  /** A worker hands its server over to the next worker. */
  function WorkerSwitch(st: State, t: nat, next: nat, timeout: nat): (r: Result)
    requires t in st.workers
  {
    if next !in st.workers || !st.workers[next].status.Runnable? then Result(st, -EINVAL)
    else
      var x := st.workers[t];
      var y := st.workers[next].(status := Running, slot := x.slot, bq := x.bq, armed := false, fired := false);
      var parked := x.(status := Idle(false), event := WE_WAIT, rv := 0, armed := timeout != 0);
      Result(SetWorker(EventIdle(st, t, parked), next, y), 0)
  }

  /** A server waits for one worker to stop being blocked. */
  function ServerWaitWorker(st: State, t: nat, next: nat): (r: Result) {
    if next !in st.workers then Result(st, -EINVAL)
    else
      var st1 := SetWorker(st, next, st.workers[next].(bq := Some(t)));
      if st.workers[next].status.Blocked?
      then Result(st1.(modes := st.modes[t := WaitingOn(next, st.workers[next].gen)]), 0)
      else Result(st1, 0)
  }

  /** What a pass over the idle list leaves behind. */
  datatype Collected = Collected(workers: map<nat, Worker>, idle: seq<nat>, entries: seq<nat>, fault: Fault)

  /** Which write into user memory failed: a worker's event, or its timeout after it. */
  datatype Fault = NoFault | EventFault | TimeoutFault

  predicate Listed(workers: map<nat, Worker>, idle: seq<nat>) {
    forall i | 0 <= i < |idle| :: idle[i] in workers
  }

  /** The entries written for an idle worker. */
  function Out(x: Worker): (entries: seq<nat>) {
    if x.event == WE_WAIT && x.status != Idle(false) then [x.id + x.event, x.id + WE_TIMEOUT] else [x.id + x.event]
  }

  /** Collects events of idle workers into `size` entries, `room` of which can be written. */
  function Collect(workers: map<nat, Worker>, idle: seq<nat>, size: nat, room: nat): (r: Collected)
    requires Listed(workers, idle)
    decreases |idle|
  {
    if size <= 1 || idle == [] then Collected(workers, idle, [], NoFault)
    else
      var out := Out(workers[idle[0]]);
      if room < |out| then Collected(workers, idle, out[..room], if room == 0 then EventFault else TimeoutFault)
      else
        var workers1 := workers[idle[0] := workers[idle[0]].(status := Runnable)];
        var rest := Collect(workers1, idle[1..], size - |out|, room - |out|);
        rest.(entries := out + rest.entries)
  }

  function CollectedRv(c: Collected): (rv: int) {
    if (c.fault.EventFault? && |c.entries| == 0) || (c.fault.TimeoutFault? && |c.entries| == 1) then -EFAULT
    else |c.entries|
  }

  function GetEvents(st: State, size: nat, room: nat): (r: Result)
    requires Listed(st.workers, st.idle)
  {
    var c := Collect(st.workers, st.idle, size, room);
    Result(st.(workers := c.workers, idle := c.idle), CollectedRv(c))
  }

  function TimerFire(st: State, w: nat): (r: State)
    requires w in st.workers
  {
    var x := st.workers[w].(armed := false, fired := true);
    match x.status
    case Waiting => EventIdle(st, w, x.(status := Idle(false), event := WE_TIMEOUT, rv := -ETIMEDOUT))
    case Idle(false) => SetWorker(st, w, x.(status := Idle(true), rv := -ETIMEDOUT))
    case _ => SetWorker(st, w, x)
  }

  /** The worker's thread enters the kernel. */
  function SyscallEntry(st: State, w: nat): (r: State)
    requires w in st.workers
  {
    SetWorker(st, w, st.workers[w].(status := Paused))
  }

  /** The system call of a worker's thread blocks. */
  function SyscallPause(st: State, w: nat): (r: State)
    requires w in st.workers && (st.workers[w].status.Paused? ==> st.workers[w].slot in st.slots)
  {
    var x := st.workers[w];
    if !x.status.Paused? then st
    else SetWorker(EventToServer(st, x, WE_BLOCK), w, x.(status := Blocked, bq := None))
  }

  function ScheduleReturn(st: State, w: nat, expired: bool): (r: State)
    requires w in st.workers && (Holder(st, w) ==> st.workers[w].slot in st.slots)
    requires Holder(st, w) || st.workers[w].status.Blocked?
  {
    var x := st.workers[w];
    if x.status.Blocked? then
      EventIdle(st, w, x.(status := Idle(false), event := WE_WAKE)).(
        woken := if x.bq.Some? then st.woken + {x.bq.value} else st.woken)
    else if expired then SetWorker(EventToServer(st, x, WE_PREEMPT), w, x.(status := Runnable))
    else SetWorker(st, w, x.(status := Running))
  }

  /** What a blocked server points to still exists: its own slot, or the registration of
      the worker it waits on. */
  predicate Points(st: State, m: Mode) {
    match m
    case InSwitch(k) => k in st.slots
    case WaitingOn(w, gen) => w in st.workers && st.workers[w].gen == gen
  }

  /** The action of a blocked server is applied, because it was woken or spuriously. */
  function ServerAction(st: State, s: nat, room: nat): (r: Result)
    requires s in st.modes && Listed(st.workers, st.idle) && Points(st, st.modes[s])
  {
    var st1 := st.(woken := st.woken - {s});
    match st.modes[s]
    case WaitingOn(w, _) =>
      if st.workers[w].status.Blocked? then Result(st1, 0)
      else Result(st1.(modes := st.modes - {s}), 0)
    case InSwitch(k) =>
      if st.slots[k].event == 0 then Result(st1, 0)
      else
        var done := st1.(modes := st.modes - {s}, slots := st.slots - {k});
        if room == 0 then Result(done, -EFAULT)
        else if st.slots[k].size <= 1 then Result(done, 0)
        else
          var g := GetEvents(done, st.slots[k].size - 1, room - 1);
          if g.rv > 0 then g.(rv := 0) else g
  }

  datatype Action =
    | DoRegister(t: nat, id: nat)
    | DoUnregister(t: nat)
    | DoWorkerWait(t: nat, timeout: nat)
    | DoServerSwitch(t: nat, next: nat, timeout: nat, size: nat, slot: nat)
    | DoWorkerSwitch(t: nat, next: nat, timeout: nat)
    | DoServerWaitWorker(t: nat, next: nat)
    | DoGetEvents(t: nat, size: nat, room: nat)
    | DoTimerFire(w: nat)
    | DoSyscallEntry(w: nat)
    | DoSyscallPause(w: nat)
    | DoScheduleReturn(w: nat, expired: bool)
    | DoServerAction(s: nat, room: nat)

  /** When the kernel can take a step: a system call is made by a thread that is not
      asleep, a timer fires if it is armed, a thread is scheduled if it sleeps neither
      idle nor waiting, and a new slot is not one in use. */
  predicate Enabled(st: State, a: Action) {
    match a
    case DoRegister(t, _) => t !in st.modes && (t in st.workers ==> Holder(st, t))
    case DoUnregister(t) => t !in st.modes && (t in st.workers ==> Holder(st, t))
    case DoWorkerWait(t, _) => Holder(st, t)
    case DoServerSwitch(t, _, _, _, slot) => t !in st.modes && t !in st.workers && slot !in st.slots
    case DoWorkerSwitch(t, _, _) => Holder(st, t)
    case DoServerWaitWorker(t, _) => t !in st.modes && t !in st.workers
    case DoGetEvents(t, _, _) => t !in st.modes && t !in st.workers
    case DoTimerFire(w) => w in st.workers && st.workers[w].armed
    case DoSyscallEntry(w) => Holder(st, w)
    case DoSyscallPause(w) => Holder(st, w)
    case DoScheduleReturn(w, _) => Holder(st, w) || (w in st.workers && st.workers[w].status.Blocked?)
    case DoServerAction(s, _) => s in st.modes
  }

  /** Every pointer the step follows is valid. */
  predicate Safe(st: State, a: Action) {
    match a
    case DoUnregister(t) => t in st.workers ==> st.workers[t].slot in st.slots
    case DoWorkerWait(t, _) => t in st.workers && st.workers[t].slot in st.slots
    case DoWorkerSwitch(t, _, _) => t in st.workers
    case DoGetEvents(_, _, _) => Listed(st.workers, st.idle)
    case DoTimerFire(w) => w in st.workers
    case DoSyscallEntry(w) => w in st.workers
    case DoSyscallPause(w) => w in st.workers && (st.workers[w].status.Paused? ==> st.workers[w].slot in st.slots)
    case DoScheduleReturn(w, _) =>
      && w in st.workers && (Holder(st, w) || st.workers[w].status.Blocked?)
      && (Holder(st, w) ==> st.workers[w].slot in st.slots)
    case DoServerAction(s, _) => s in st.modes && Listed(st.workers, st.idle) && Points(st, st.modes[s])
    case _ => true
  }

  function Next(st: State, a: Action): (r: State)
    requires Safe(st, a)
  {
    match a
    case DoRegister(t, id) => Register(st, t, id).st
    case DoUnregister(t) => Unregister(st, t).st
    case DoWorkerWait(t, timeout) => WorkerWait(st, t, timeout).st
    case DoServerSwitch(t, next, timeout, size, slot) => ServerSwitch(st, t, next, timeout, size, slot).st
    case DoWorkerSwitch(t, next, timeout) => WorkerSwitch(st, t, next, timeout).st
    case DoServerWaitWorker(t, next) => ServerWaitWorker(st, t, next).st
    case DoGetEvents(_, size, room) => GetEvents(st, size, room).st
    case DoTimerFire(w) => TimerFire(st, w)
    case DoSyscallEntry(w) => SyscallEntry(st, w)
    case DoSyscallPause(w) => SyscallPause(st, w)
    case DoScheduleReturn(w, expired) => ScheduleReturn(st, w, expired)
    case DoServerAction(s, room) => ServerAction(st, s, room).st
  }
}
