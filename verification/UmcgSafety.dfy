/** What every step and every run of the worker scheduler keeps. */
module UmcgSafety {
  import opened Common
  import opened Umcg

  // ---- what every step keeps ----

  predicate NoDuplicates(s: seq<nat>) {
    forall i, j | 0 <= i < j < |s| :: s[i] != s[j]
  }

  /** The idle list holds exactly the idle workers, each once. */
  ghost predicate IdleOk(st: State) {
    && NoDuplicates(st.idle)
    && (forall w: nat :: w in st.idle <==> w in st.workers && st.workers[w].status.Idle?)
  }

  /** A running or paused worker holds an empty slot of its own. */
  ghost predicate HolderOk(st: State) {
    && (forall w | Holder(st, w) :: st.workers[w].slot in st.slots && st.slots[st.workers[w].slot].event == 0)
    && (forall v, w | Holder(st, v) && Holder(st, w) && st.workers[v].slot == st.workers[w].slot :: v == w)
  }

  ghost predicate HeldBy(st: State, k: nat, w: nat) {
    Holder(st, w) && st.workers[w].slot == k
  }

  /** Every empty slot is held. */
  ghost predicate HeldOk(st: State) {
    forall k | k in st.slots && st.slots[k].event == 0 :: exists w :: HeldBy(st, k, w)
  }

  /** Slots are the servers blocked in a context switch. */
  predicate ModeOk(st: State) {
    && (forall k | k in st.slots :: st.slots[k].server in st.modes && st.modes[st.slots[k].server] == InSwitch(k))
    && (forall s | s in st.modes && st.modes[s].InSwitch? ::
          st.modes[s].slot in st.slots && st.slots[st.modes[s].slot].server == s)
  }

  /** A timer is armed only while its worker does not run, and an idle worker shows
      whether its timer has fired. */
  predicate TimerOk(x: Worker) {
    && (x.armed ==> !x.fired)
    && (Holds(x.status) || x.status.Blocked? ==> !x.armed && !x.fired)
    && (x.status.Waiting? ==> !x.fired && x.rv == 0)
    && (x.status.Idle? ==> (x.fired <==> x.status.timedOut || x.event == WE_TIMEOUT))
    && (x.status.Idle? && (x.armed || x.status.timedOut) ==> x.event == WE_WAIT)
    && (x.status.Idle? && x.event in {WE_WAIT, WE_TIMEOUT} ==> x.rv == if x.fired then -ETIMEDOUT else 0)
  }

  predicate TimersOk(st: State) {
    forall w | w in st.workers :: TimerOk(st.workers[w])
  }

  ghost predicate Inv(st: State) {
    IdleOk(st) && HolderOk(st) && HeldOk(st) && ModeOk(st) && TimersOk(st)
  }

  // ---- collecting events ----

  /** What a server is told about an idle worker: its event, and that its timer fired. */
  function Report(x: Worker): (entries: seq<nat>) {
    if x.fired && x.event != WE_TIMEOUT then [x.id + x.event, x.id + WE_TIMEOUT] else [x.id + x.event]
  }

  function Reports(workers: map<nat, Worker>, ws: seq<nat>): (entries: seq<nat>)
    requires Listed(workers, ws)
  {
    if ws == [] then [] else Report(workers[ws[0]]) + Reports(workers, ws[1..])
  }

  /** The workers of a list become runnable, nothing else changes. */
  predicate Dispatched(before: map<nat, Worker>, after: map<nat, Worker>, ws: seq<nat>) {
    && after.Keys == before.Keys
    && (forall w | w in before ::
          after[w] == if w in ws then before[w].(status := Runnable) else before[w])
  }

  predicate AllIdle(workers: map<nat, Worker>, ws: seq<nat>) {
    forall i | 0 <= i < |ws| :: ws[i] in workers && workers[ws[i]].status.Idle? && TimerOk(workers[ws[i]])
  }

  /** Reports depend only on the workers they are about. */
  lemma {:induction false} ReportsFrame(before: map<nat, Worker>, after: map<nat, Worker>, ws: seq<nat>)
    requires Listed(before, ws) && Listed(after, ws) && forall w | w in ws :: before[w] == after[w]
    ensures Reports(before, ws) == Reports(after, ws)
  {
    if ws != [] { ReportsFrame(before, after, ws[1..]); }
  }

  /** How much one worker takes of the buffer. */
  lemma ReportMeans(x: Worker)
    requires TimerOk(x) && x.status.Idle?
    ensures x.id + WE_TIMEOUT in Report(x) <==> x.fired
    ensures x.event in {WE_WAIT, WE_TIMEOUT} ==> (x.rv == -ETIMEDOUT <==> x.fired)
    ensures x.event == WE_WAIT && x.status != Idle(false) <==> |Report(x)| == 2
  {
  }

  /** The written entries: whole reports, unless a write fails. */
  predicate CollectedEntries(workers: map<nat, Worker>, idle: seq<nat>, size: nat, room: nat, r: Collected, n: nat)
    requires n <= |idle| && Listed(workers, idle)
  {
    match r.fault
    case NoFault => r.entries == Reports(workers, idle[..n]) && (n == |idle| || |r.entries| + 1 >= size)
    case EventFault => r.entries == Reports(workers, idle[..n]) && n < |idle| && |r.entries| == room
    case TimeoutFault =>
      && n < |idle| && |r.entries| == room && workers[idle[n]].fired
      && r.entries == Reports(workers, idle[..n]) + [workers[idle[n]].id + workers[idle[n]].event]
  }

  /** The first n workers of the list are reported and dispatched, in no more space than
      there is. */
  predicate CollectSpec(workers: map<nat, Worker>, idle: seq<nat>, size: nat, room: nat, r: Collected, n: nat) {
    && n <= |idle| && Listed(workers, idle) && r.idle == idle[n..]
    && Dispatched(workers, r.workers, idle[..n])
    && |r.entries| <= size && |r.entries| <= room
    && CollectedEntries(workers, idle, size, room, r, n)
  }

  /** Dispatching the first worker and then a list is dispatching the longer list. */
  lemma DispatchFirst(before: map<nat, Worker>, after: map<nat, Worker>, w: nat, ws: seq<nat>)
    requires w in before && w !in ws && Dispatched(before[w := before[w].(status := Runnable)], after, ws)
    ensures Dispatched(before, after, [w] + ws)
  {
    assert after.Keys == before.Keys;
    forall v | v in before ensures v in [w] + ws <==> v == w || v in ws {
    }
  }

  lemma ReportsFirst(before: map<nat, Worker>, w: nat, x: Worker, ws: seq<nat>)
    requires w in before && w !in ws && Listed(before, ws)
    ensures Listed(before[w := x], ws) && Listed(before, [w] + ws)
    ensures Reports(before, [w] + ws) == Report(before[w]) + Reports(before[w := x], ws)
  {
    assert ([w] + ws)[1..] == ws;
    ReportsFrame(before, before[w := x], ws);
  }

  lemma {:induction false} CollectedMeans(workers: map<nat, Worker>, idle: seq<nat>, size: nat, room: nat)
    returns (n: nat, r: Collected)
    requires AllIdle(workers, idle) && NoDuplicates(idle)
    ensures Listed(workers, idle) && r == Collect(workers, idle, size, room)
    ensures CollectSpec(workers, idle, size, room, r, n)
    decreases |idle|, 1
  {
    n := 0;
    r := Collect(workers, idle, size, room);
    assert idle[..0] == [];
    if size > 1 && idle != [] {
      ReportMeans(workers[idle[0]]);
      if room >= |Report(workers[idle[0]])| {
        var rest;
        n, rest := CollectRest(workers, idle, size, room);
        CollectUnfold(workers, idle, size, room);
        r := CollectSpecStep(workers, idle, size, room, rest, n);
        n := n + 1;
      }
    }
  }

  lemma CollectMeans(workers: map<nat, Worker>, idle: seq<nat>, size: nat, room: nat) returns (n: nat)
    requires AllIdle(workers, idle) && NoDuplicates(idle)
    ensures Listed(workers, idle) && CollectSpec(workers, idle, size, room, Collect(workers, idle, size, room), n)
  {
    var r;
    n, r := CollectedMeans(workers, idle, size, room);
  }

  /** What is collected after the first worker. */
  lemma CollectRest(workers: map<nat, Worker>, idle: seq<nat>, size: nat, room: nat)
    returns (n: nat, rest: Collected)
    requires AllIdle(workers, idle) && NoDuplicates(idle)
    requires size > 1 && idle != [] && room >= |Report(workers[idle[0]])|
    ensures idle[0] !in idle[1..] && size >= |Report(workers[idle[0]])|
    ensures var x := workers[idle[0]];
      var workers1 := workers[idle[0] := x.(status := Runnable)];
      && Listed(workers1, idle[1..])
      && rest == Collect(workers1, idle[1..], size - |Report(x)|, room - |Report(x)|)
      && CollectSpec(workers1, idle[1..], size - |Report(x)|, room - |Report(x)|, rest, n)
    decreases |idle|, 0
  {
    var x, ws := workers[idle[0]], idle[1..];
    var workers1 := workers[idle[0] := x.(status := Runnable)];
    ReportMeans(x);
    RestIdle(workers, idle);
    n, rest := CollectedMeans(workers1, ws, size - |Report(x)|, room - |Report(x)|);
  }

  lemma RestIdle(workers: map<nat, Worker>, idle: seq<nat>)
    requires AllIdle(workers, idle) && NoDuplicates(idle) && idle != []
    ensures idle[0] !in idle[1..] && NoDuplicates(idle[1..])
    ensures AllIdle(workers[idle[0] := workers[idle[0]].(status := Runnable)], idle[1..])
  {
  }

  lemma CollectUnfold(workers: map<nat, Worker>, idle: seq<nat>, size: nat, room: nat)
    requires AllIdle(workers, idle) && size > 1 && idle != [] && room >= |Report(workers[idle[0]])|
    ensures var x := workers[idle[0]];
      var workers1 := workers[idle[0] := x.(status := Runnable)];
      && Listed(workers, idle) && Listed(workers1, idle[1..]) && size >= |Report(x)|
      && var rest := Collect(workers1, idle[1..], size - |Report(x)|, room - |Report(x)|);
      Collect(workers, idle, size, room) == rest.(entries := Report(x) + rest.entries)
  {
    ReportMeans(workers[idle[0]]);
  }

  /** The entries of one more worker in front. */
  lemma EntriesStep(workers: map<nat, Worker>, idle: seq<nat>, size: nat, room: nat, rest: Collected, n: nat)
    requires Listed(workers, idle) && idle != [] && idle[0] !in idle[1..] && n < |idle|
    requires size >= |Report(workers[idle[0]])| && room >= |Report(workers[idle[0]])|
    requires var x := workers[idle[0]];
      && Listed(workers[idle[0] := x.(status := Runnable)], idle[1..])
      && CollectedEntries(workers[idle[0] := x.(status := Runnable)], idle[1..],
                          size - |Report(x)|, room - |Report(x)|, rest, n)
    ensures CollectedEntries(workers, idle, size, room,
                             rest.(entries := Report(workers[idle[0]]) + rest.entries), n + 1)
  {
    var w, x, ws := idle[0], workers[idle[0]], idle[1..];
    var workers1 := workers[w := x.(status := Runnable)];
    assert idle[..n + 1] == [w] + ws[..n];
    ReportsFirst(workers, w, x.(status := Runnable), ws[..n]);
    if rest.fault.TimeoutFault? {
      assert idle[n + 1] == ws[n] && workers1[ws[n]] == workers[ws[n]];
      Associative(Report(x), Reports(workers1, ws[..n]), [workers[ws[n]].id + workers[ws[n]].event]);
    }
  }

  lemma CollectSpecStep(workers: map<nat, Worker>, idle: seq<nat>, size: nat, room: nat, rest: Collected, n: nat)
    returns (r: Collected)
    requires Listed(workers, idle) && idle != [] && idle[0] !in idle[1..]
    requires size >= |Report(workers[idle[0]])| && room >= |Report(workers[idle[0]])|
    requires var x := workers[idle[0]];
      CollectSpec(workers[idle[0] := x.(status := Runnable)], idle[1..],
                  size - |Report(x)|, room - |Report(x)|, rest, n)
    ensures r == rest.(entries := Report(workers[idle[0]]) + rest.entries)
    ensures CollectSpec(workers, idle, size, room, r, n + 1)
  {
    r := rest.(entries := Report(workers[idle[0]]) + rest.entries);
    EntriesStep(workers, idle, size, room, rest, n);
    var w, ws := idle[0], idle[1..];
    assert idle[..n + 1] == [w] + ws[..n] && idle[n + 1..] == ws[n..];
    DispatchFirst(workers, rest.workers, w, ws[..n]);
  }

  // ---- how a step may change who is idle and who holds what ----

  ghost predicate SameIdle(st: State, r: State, w: nat) {
    w in st.workers && st.workers[w].status.Idle? <==> w in r.workers && r.workers[w].status.Idle?
  }

  /** v holds the same slot, or none, before and after. */
  ghost predicate SameHold(st: State, r: State, v: nat) {
    (Holder(st, v) <==> Holder(r, v)) && (Holder(st, v) ==> st.workers[v].slot == r.workers[v].slot)
  }

  lemma IdleKept(st: State, r: State)
    requires IdleOk(st) && r.idle == st.idle && forall w :: SameIdle(st, r, w)
    ensures IdleOk(r)
  {
    forall w: nat ensures w in r.idle <==> w in r.workers && r.workers[w].status.Idle? {
      assert SameIdle(st, r, w);
    }
  }

  lemma IdlePushed(st: State, r: State, t: nat)
    requires IdleOk(st) && !(t in st.workers && st.workers[t].status.Idle?)
    requires r.idle == st.idle + [t] && t in r.workers && r.workers[t].status.Idle?
    requires forall w | w != t :: SameIdle(st, r, w)
    ensures IdleOk(r)
  {
    assert t !in st.idle;
    forall w: nat ensures w in r.idle <==> w in r.workers && r.workers[w].status.Idle? {
      assert w != t ==> SameIdle(st, r, w);
    }
  }

  ghost predicate HoldOk(st: State) {
    HolderOk(st) && HeldOk(st)
  }

  lemma HoldKept(st: State, r: State)
    requires HoldOk(st) && r.slots == st.slots && forall v :: SameHold(st, r, v)
    ensures HoldOk(r)
  {
    forall v | Holder(r, v) ensures Holder(st, v) && st.workers[v].slot == r.workers[v].slot {
      assert SameHold(st, r, v);
    }
    forall k | k in r.slots && r.slots[k].event == 0 ensures exists w :: HeldBy(r, k, w) {
      var w :| HeldBy(st, k, w);
      assert SameHold(st, r, w);
      assert HeldBy(r, k, w);
    }
  }

  /** The only holder of a slot lets go of it as the slot is filled. */
  lemma HoldReleased(st: State, r: State, t: nat)
    requires HoldOk(st) && Holder(st, t) && !Holder(r, t)
    requires r.slots.Keys == st.slots.Keys && r.slots[st.workers[t].slot].event != 0
    requires forall k | k in st.slots && k != st.workers[t].slot :: r.slots[k] == st.slots[k]
    requires forall v | v != t :: SameHold(st, r, v)
    ensures HoldOk(r)
  {
    forall v | Holder(r, v) ensures Holder(st, v) && st.workers[v].slot == r.workers[v].slot && v != t {
      assert SameHold(st, r, v);
    }
    forall k | k in r.slots && r.slots[k].event == 0 ensures exists w :: HeldBy(r, k, w) {
      var w :| HeldBy(st, k, w);
      assert w != t;
      assert SameHold(st, r, w);
      assert HeldBy(r, k, w);
    }
  }

  /** A worker takes over a new empty slot. */
  lemma HoldAcquired(st: State, r: State, t: nat, k: nat)
    requires HoldOk(st) && !Holder(st, t) && HeldBy(r, k, t) && k !in st.slots
    requires k in r.slots && r.slots[k].event == 0 && r.slots.Keys == st.slots.Keys + {k}
    requires forall i | i in st.slots :: r.slots[i] == st.slots[i]
    requires forall v | v != t :: SameHold(st, r, v)
    ensures HoldOk(r)
  {
    forall v | Holder(r, v) && v != t ensures Holder(st, v) && st.workers[v].slot == r.workers[v].slot {
      assert SameHold(st, r, v);
    }
    forall i | i in r.slots && r.slots[i].event == 0 ensures exists w :: HeldBy(r, i, w) {
      if i == k {
        assert HeldBy(r, k, t);
      } else {
        var w :| HeldBy(st, i, w);
        assert SameHold(st, r, w);
        assert HeldBy(r, i, w);
      }
    }
  }

  /** A slot passes from one worker to another. */
  lemma HoldPassed(st: State, r: State, t: nat, next: nat)
    requires HoldOk(st) && r.slots == st.slots && Holder(st, t) && !Holder(st, next)
    requires !Holder(r, t) && HeldBy(r, st.workers[t].slot, next)
    requires forall v | v != t && v != next :: SameHold(st, r, v)
    ensures HoldOk(r)
  {
    forall v | Holder(r, v) && v != next ensures Holder(st, v) && st.workers[v].slot == r.workers[v].slot && v != t {
      assert SameHold(st, r, v);
    }
    forall k | k in r.slots && r.slots[k].event == 0 ensures exists w :: HeldBy(r, k, w) {
      var w :| HeldBy(st, k, w);
      if w == t {
        assert HeldBy(r, k, next);
      } else {
        assert SameHold(st, r, w);
        assert HeldBy(r, k, w);
      }
    }
  }

  /** A filled slot goes away. */
  lemma HoldDropped(st: State, r: State, k: nat)
    requires HoldOk(st) && k in st.slots && st.slots[k].event != 0 && r.slots == st.slots - {k}
    requires forall v :: SameHold(st, r, v)
    ensures HoldOk(r)
  {
    forall v | Holder(r, v) ensures Holder(st, v) && st.workers[v].slot == r.workers[v].slot {
      assert SameHold(st, r, v);
    }
    forall i | i in r.slots && r.slots[i].event == 0 ensures exists w :: HeldBy(r, i, w) {
      var w :| HeldBy(st, i, w);
      assert SameHold(st, r, w);
      assert HeldBy(r, i, w);
    }
  }

  // ---- every step keeps the invariant ----

  lemma RegisterKeeps(st: State, t: nat, id: nat)
    requires Inv(st)
    ensures Inv(Register(st, t, id).st)
  {
    var r := Register(st, t, id).st;
    if r != st {
      IdlePushed(st, r, t);
      HoldKept(st, r);
    }
  }

  lemma UnregisterKeeps(st: State, t: nat)
    requires Inv(st) && (t in st.workers ==> Holder(st, t))
    ensures Inv(Unregister(st, t).st)
  {
    var r := Unregister(st, t).st;
    if t in st.workers {
      IdleKept(st, r);
      HoldReleased(st, r, t);
    }
  }

  lemma WorkerWaitKeeps(st: State, t: nat, timeout: nat)
    requires Inv(st) && Holder(st, t)
    ensures Inv(WorkerWait(st, t, timeout).st)
  {
    var r := WorkerWait(st, t, timeout).st;
    IdleKept(st, r);
    HoldReleased(st, r, t);
  }

  lemma ServerSwitchKeeps(st: State, t: nat, next: nat, timeout: nat, size: nat, slot: nat)
    requires Inv(st) && t !in st.modes && slot !in st.slots
    ensures Inv(ServerSwitch(st, t, next, timeout, size, slot).st)
  {
    var r := ServerSwitch(st, t, next, timeout, size, slot).st;
    if r != st {
      IdleKept(st, r);
      HoldAcquired(st, r, next, slot);
    }
  }

  lemma WorkerSwitchKeeps(st: State, t: nat, next: nat, timeout: nat)
    requires Inv(st) && Holder(st, t)
    ensures Inv(WorkerSwitch(st, t, next, timeout).st)
  {
    var r := WorkerSwitch(st, t, next, timeout).st;
    if r != st {
      WorkerSwitchIdle(st, t, next, timeout);
      HoldPassed(st, r, t, next);
    }
  }

  lemma WorkerSwitchIdle(st: State, t: nat, next: nat, timeout: nat)
    requires IdleOk(st) && Holder(st, t) && next in st.workers && st.workers[next].status.Runnable?
    ensures IdleOk(WorkerSwitch(st, t, next, timeout).st)
  {
    IdlePushed(st, WorkerSwitch(st, t, next, timeout).st, t);
  }

  lemma ServerWaitWorkerKeeps(st: State, t: nat, next: nat)
    requires Inv(st) && t !in st.modes
    ensures Inv(ServerWaitWorker(st, t, next).st)
  {
    IdleKept(st, ServerWaitWorker(st, t, next).st);
    ServerWaitHold(st, t, next);
  }

  lemma ServerWaitHold(st: State, t: nat, next: nat)
    requires HoldOk(st)
    ensures HoldOk(ServerWaitWorker(st, t, next).st)
  {
    HoldKept(st, ServerWaitWorker(st, t, next).st);
  }

  lemma TimerFireKeeps(st: State, w: nat)
    requires Inv(st) && w in st.workers && st.workers[w].armed
    ensures Inv(TimerFire(st, w))
  {
    TimerFireIdle(st, w);
    TimerFireHold(st, w);
  }

  lemma TimerFireHold(st: State, w: nat)
    requires HoldOk(st) && w in st.workers
    ensures HoldOk(TimerFire(st, w))
  {
    HoldKept(st, TimerFire(st, w));
  }

  lemma TimerFireIdle(st: State, w: nat)
    requires IdleOk(st) && w in st.workers
    ensures IdleOk(TimerFire(st, w))
  {
    if st.workers[w].status.Waiting? {
      IdlePushed(st, TimerFire(st, w), w);
    } else {
      IdleKept(st, TimerFire(st, w));
    }
  }

  lemma SyscallEntryKeeps(st: State, w: nat)
    requires Inv(st) && Holder(st, w)
    ensures Inv(SyscallEntry(st, w))
  {
    var r := SyscallEntry(st, w);
    IdleKept(st, r);
    HoldKept(st, r);
  }

  lemma SyscallPauseKeeps(st: State, w: nat)
    requires Inv(st) && Holder(st, w)
    ensures Inv(SyscallPause(st, w))
  {
    var r := SyscallPause(st, w);
    if st.workers[w].status.Paused? {
      IdleKept(st, r);
      HoldReleased(st, r, w);
    }
  }

  lemma WakeKeeps(st: State, w: nat)
    requires Inv(st) && w in st.workers && st.workers[w].status.Blocked?
    ensures Inv(ScheduleReturn(st, w, false)) && ScheduleReturn(st, w, true) == ScheduleReturn(st, w, false)
  {
    var r := ScheduleReturn(st, w, false);
    IdlePushed(st, r, w);
    HoldKept(st, r);
  }

  lemma PreemptKeeps(st: State, w: nat)
    requires Inv(st) && Holder(st, w)
    ensures Inv(ScheduleReturn(st, w, true))
  {
    var r := ScheduleReturn(st, w, true);
    IdleKept(st, r);
    HoldReleased(st, r, w);
  }

  lemma ResumeKeeps(st: State, w: nat)
    requires Inv(st) && Holder(st, w)
    ensures Inv(ScheduleReturn(st, w, false))
  {
    var r := ScheduleReturn(st, w, false);
    IdleKept(st, r);
    HoldKept(st, r);
  }

  /** Dispatching a front part of the idle list. */
  lemma DispatchKeeps(st: State, r: State, n: nat)
    requires Inv(st) && n <= |st.idle| && Dispatched(st.workers, r.workers, st.idle[..n])
    requires r == st.(workers := r.workers, idle := st.idle[n..])
    ensures Inv(r)
  {
    DispatchHold(st, r, n);
    DispatchIdle(st, r, n);
  }

  lemma DispatchHold(st: State, r: State, n: nat)
    requires IdleOk(st) && HoldOk(st) && n <= |st.idle| && Dispatched(st.workers, r.workers, st.idle[..n])
    requires r.slots == st.slots
    ensures HoldOk(r)
  {
    forall v ensures SameHold(st, r, v) {
      assert v in st.idle[..n] ==> v in st.idle;
    }
    HoldKept(st, r);
  }

  lemma DispatchIdle(st: State, r: State, n: nat)
    requires IdleOk(st) && n <= |st.idle| && Dispatched(st.workers, r.workers, st.idle[..n])
    requires r.idle == st.idle[n..]
    ensures IdleOk(r)
  {
    forall w: nat ensures w in r.idle <==> w in r.workers && r.workers[w].status.Idle? {
      InSplit(st.idle, n, w);
    }
  }

  lemma GetEventsKeeps(st: State, size: nat, room: nat)
    requires Inv(st)
    ensures Listed(st.workers, st.idle) && Inv(GetEvents(st, size, room).st)
  {
    var n := CollectMeans(st.workers, st.idle, size, room);
    DispatchKeeps(st, GetEvents(st, size, room).st, n);
  }

  lemma InSplit(s: seq<nat>, n: nat, w: nat)
    requires n <= |s| && NoDuplicates(s)
    ensures w in s[n..] <==> w in s && w !in s[..n]
  {
  }

  /** The state after a server has taken the event out of its slot. */
  function SlotDone(st: State, s: nat): (r: State)
    requires s in st.modes && st.modes[s].InSwitch?
  {
    st.(woken := st.woken - {s}, modes := st.modes - {s}, slots := st.slots - {st.modes[s].slot})
  }

  lemma SlotDoneKeeps(st: State, s: nat)
    requires Inv(st) && s in st.modes && st.modes[s].InSwitch? && st.slots[st.modes[s].slot].event != 0
    ensures Inv(SlotDone(st, s))
  {
    HoldDropped(st, SlotDone(st, s), st.modes[s].slot);
    IdleKept(st, SlotDone(st, s));
  }

  lemma StillBlockedKeeps(st: State, r: State, s: nat)
    requires Inv(st) && s in st.modes && r == st.(woken := r.woken, modes := r.modes)
    requires r.modes == st.modes || (st.modes[s].WaitingOn? && r.modes == st.modes - {s})
    ensures Inv(r)
  {
    HoldKept(st, r);
    IdleKept(st, r);
  }

  /** What a server's action comes down to when its slot is filled. */
  lemma ActionTakes(st: State, s: nat, room: nat)
    requires s in st.modes && Listed(st.workers, st.idle) && st.modes[s].InSwitch? && st.modes[s].slot in st.slots
    requires st.slots[st.modes[s].slot].event != 0
    ensures var size := st.slots[st.modes[s].slot].size;
      ServerAction(st, s, room).st ==
        if room == 0 || size <= 1 then SlotDone(st, s) else GetEvents(SlotDone(st, s), size - 1, room - 1).st
  {
  }

  /** And when it is not. */
  lemma ActionBlocks(st: State, s: nat, room: nat)
    requires s in st.modes && Listed(st.workers, st.idle) && Points(st, st.modes[s])
    requires st.modes[s].InSwitch? ==> st.slots[st.modes[s].slot].event == 0
    ensures var r := ServerAction(st, s, room).st;
      && r == st.(woken := r.woken, modes := r.modes)
      && (r.modes == st.modes || (st.modes[s].WaitingOn? && r.modes == st.modes - {s}))
  {
  }

  lemma TakesKeeps(st: State, s: nat, room: nat)
    requires Inv(st) && s in st.modes && st.modes[s].InSwitch? && st.slots[st.modes[s].slot].event != 0
    ensures Listed(st.workers, st.idle) && Inv(ServerAction(st, s, room).st)
  {
    SlotDoneKeeps(st, s);
    ActionTakes(st, s, room);
    GetEventsKeepsAfter(SlotDone(st, s), st.slots[st.modes[s].slot].size, room);
  }

  lemma ServerActionKeeps(st: State, s: nat, room: nat)
    requires Inv(st) && s in st.modes && Points(st, st.modes[s])
    ensures Listed(st.workers, st.idle) && Inv(ServerAction(st, s, room).st)
  {
    if st.modes[s].InSwitch? && st.slots[st.modes[s].slot].event != 0 {
      TakesKeeps(st, s, room);
    } else {
      ActionBlocks(st, s, room);
      StillBlockedKeeps(st, ServerAction(st, s, room).st, s);
    }
  }

  lemma GetEventsKeepsAfter(st: State, size: nat, room: nat)
    requires Inv(st)
    ensures room > 0 && size > 1 ==> Listed(st.workers, st.idle) && Inv(GetEvents(st, size - 1, room - 1).st)
  {
    if room > 0 && size > 1 { GetEventsKeeps(st, size - 1, room - 1); }
  }

  /** The only step that can go wrong is the action of a server whose worker is gone. */
  predicate FollowsStale(st: State, a: Action) {
    a.DoServerAction? && a.s in st.modes && !Points(st, st.modes[a.s])
  }

  lemma EnabledIsSafe(st: State, a: Action)
    requires Inv(st) && Enabled(st, a)
    ensures Safe(st, a) <==> !FollowsStale(st, a)
    ensures FollowsStale(st, a) ==> st.modes[a.s].WaitingOn?
  {
  }

  lemma NextKeeps(st: State, a: Action)
    requires Inv(st) && Enabled(st, a) && Safe(st, a)
    ensures Inv(Next(st, a))
  {
    match a
    case DoRegister(t, id) => RegisterKeeps(st, t, id);
    case DoUnregister(t) => UnregisterKeeps(st, t);
    case DoWorkerWait(t, timeout) => WorkerWaitKeeps(st, t, timeout);
    case DoServerSwitch(t, next, timeout, size, slot) => ServerSwitchKeeps(st, t, next, timeout, size, slot);
    case DoWorkerSwitch(t, next, timeout) => WorkerSwitchKeeps(st, t, next, timeout);
    case DoServerWaitWorker(t, next) => ServerWaitWorkerKeeps(st, t, next);
    case DoGetEvents(_, size, room) => GetEventsKeeps(st, size, room);
    case DoTimerFire(w) => TimerFireKeeps(st, w);
    case DoSyscallEntry(w) => SyscallEntryKeeps(st, w);
    case DoSyscallPause(w) => SyscallPauseKeeps(st, w);
    case DoScheduleReturn(w, expired) =>
      if st.workers[w].status.Blocked? { WakeKeeps(st, w); }
      else if expired { PreemptKeeps(st, w); }
      else { ResumeKeeps(st, w); }
    case DoServerAction(s, room) => ServerActionKeeps(st, s, room);
  }

  /** r is reached from st by a run of enabled steps, none of which goes wrong. */
  predicate Runs(st: State, acts: seq<Action>, r: State)
    decreases |acts|
  {
    if acts == [] then r == st
    else Enabled(st, acts[0]) && Safe(st, acts[0]) && Runs(Next(st, acts[0]), acts[1..], r)
  }

  lemma {:induction false} RunsKeep(st: State, acts: seq<Action>, r: State)
    requires Inv(st) && Runs(st, acts, r)
    ensures Inv(r)
    decreases |acts|
  {
    if acts != [] {
      NextKeeps(st, acts[0]);
      RunsKeep(Next(st, acts[0]), acts[1..], r);
    }
  }

  /** Every state of every run satisfies the invariant, and the only enabled step that goes
      wrong is the action of a server that waits on a worker which is gone. */
  lemma Safety(acts: seq<Action>, r: State)
    requires Runs(Init(), acts, r)
    ensures Inv(r)
    ensures forall a | Enabled(r, a) :: Safe(r, a) <==> !FollowsStale(r, a)
  {
    RunsKeep(Init(), acts, r);
    forall a | Enabled(r, a) ensures Safe(r, a) <==> !FollowsStale(r, a) { EnabledIsSafe(r, a); }
  }

  /** A run followed by one more step. */
  lemma {:induction false} RunsSnoc(st: State, acts: seq<Action>, m: State, a: Action, r: State)
    requires Runs(st, acts, m) && Enabled(m, a) && Safe(m, a) && Next(m, a) == r
    ensures Runs(st, acts + [a], r)
    decreases |acts|
  {
    if acts == [] {
      assert acts + [a] == [a];
    } else {
      assert (acts + [a])[0] == acts[0] && (acts + [a])[1..] == acts[1..] + [a];
      RunsSnoc(Next(st, acts[0]), acts[1..], m, a, r);
    }
  }

  lemma RunSafe(acts: seq<Action>, st: State, a: Action)
    requires Runs(Init(), acts, st) && Enabled(st, a)
    requires a.DoServerAction? ==> st.modes[a.s].InSwitch? || Points(st, st.modes[a.s])
    ensures Safe(st, a)
  {
    RunsKeep(Init(), acts, st);
    EnabledIsSafe(st, a);
  }

  /** In every run, a server blocked in a context switch with an empty slot has exactly
      one running or paused worker. */
  lemma OneHolder(acts: seq<Action>, r: State, s: nat)
    requires Runs(Init(), acts, r) && s in r.modes && r.modes[s].InSwitch?
    ensures r.modes[s].slot in r.slots && r.slots[r.modes[s].slot].server == s
    ensures r.slots[r.modes[s].slot].event == 0 <==> exists w :: HeldBy(r, r.modes[s].slot, w)
    ensures forall v, w | HeldBy(r, r.modes[s].slot, v) && HeldBy(r, r.modes[s].slot, w) :: v == w
  {
    Safety(acts, r);
  }

  /** In every run, collecting events reports a front part of the idle list, as much as
      fits: the worker's event, and a timeout exactly when its timer fired before this
      step. The worker's own wait returns a timeout in the same cases. */
  lemma EventsReported(acts: seq<Action>, r: State, size: nat, room: nat) returns (n: nat)
    requires Runs(Init(), acts, r)
    ensures Listed(r.workers, r.idle)
    ensures CollectSpec(r.workers, r.idle, size, room, Collect(r.workers, r.idle, size, room), n)
    ensures forall i | 0 <= i < |r.idle| ::
      var x := r.workers[r.idle[i]];
      && (x.id + WE_TIMEOUT in Report(x) <==> x.fired)
      && (x.event in {WE_WAIT, WE_TIMEOUT} ==> (x.rv == -ETIMEDOUT <==> x.fired))
  {
    Safety(acts, r);
    n := CollectMeans(r.workers, r.idle, size, room);
    forall i | 0 <= i < |r.idle|
      ensures var x := r.workers[r.idle[i]];
        && (x.id + WE_TIMEOUT in Report(x) <==> x.fired)
        && (x.event in {WE_WAIT, WE_TIMEOUT} ==> (x.rv == -ETIMEDOUT <==> x.fired))
    {
      assert r.idle[i] in r.idle;
      ReportMeans(r.workers[r.idle[i]]);
    }
  }

  // ---- which steps free a server ----

  datatype Freeing = Freeing(w: nat, event: nat)

  /** The worker that gives its server back in a step, and the event it leaves. */
  function Frees(st: State, a: Action): (f: Option<Freeing>) {
    match a
    case DoUnregister(t) => if t in st.workers then Some(Freeing(t, WE_EXIT)) else None
    case DoWorkerWait(t, _) => Some(Freeing(t, WE_WAIT))
    case DoSyscallPause(w) =>
      if w in st.workers && st.workers[w].status.Paused? then Some(Freeing(w, WE_BLOCK)) else None
    case DoScheduleReturn(w, expired) => if Holder(st, w) && expired then Some(Freeing(w, WE_PREEMPT)) else None
    case _ => None
  }

  /** A freeing step fills exactly the slot its worker held, with the worker's event,
      and takes the slot away from it. */
  lemma FreesExactly(st: State, a: Action)
    requires Inv(st) && Enabled(st, a) && Safe(st, a) && Frees(st, a).Some?
    ensures var f := Frees(st, a).value;
      && Holder(st, f.w) && !Holder(Next(st, a), f.w)
      && var k := st.workers[f.w].slot;
      && k in st.slots && st.slots[k].event == 0
      && Next(st, a).slots == st.slots[k := st.slots[k].(event := st.workers[f.w].id + f.event)]
      && Next(st, a).modes == st.modes
  {
  }

  /** No other step touches a slot, except that a server takes its own filled slot away. */
  lemma OnlyFrees(st: State, a: Action, k: nat)
    requires Inv(st) && Enabled(st, a) && Safe(st, a) && k in st.slots
    ensures k !in Next(st, a).slots ==> st.slots[k].event != 0 && a.DoServerAction? && a.s == st.slots[k].server
    ensures k in Next(st, a).slots && Frees(st, a).None? ==> Next(st, a).slots[k] == st.slots[k]
  {
    if a.DoServerAction? {
      ActionSlots(st, a.s, a.room);
    }
  }

  lemma ActionSlots(st: State, s: nat, room: nat)
    requires ModeOk(st) && s in st.modes && Listed(st.workers, st.idle) && Points(st, st.modes[s])
    ensures ServerAction(st, s, room).st.slots ==
      if st.modes[s].InSwitch? && st.slots[st.modes[s].slot].event != 0 then st.slots - {st.modes[s].slot} else st.slots
  {
  }
}
