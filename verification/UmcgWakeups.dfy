/** Whether the wake-ups of the worker scheduler reach the server they are for. */
module UmcgWakeups {
  import opened Common
  import opened Umcg
  import opened UmcgPointers
  import opened UmcgSafety

  // ---- servers blocked in a context switch ----

  /** A worker remembers the queue of the server whose slot it holds. */
  ghost predicate QueueOk(st: State) {
    forall w | Holder(st, w) ::
      st.workers[w].slot in st.slots && st.workers[w].bq == Some(st.slots[st.workers[w].slot].server)
  }

  /** A server whose slot is filled has been woken. */
  predicate WokenOk(st: State) {
    forall k | k in st.slots && st.slots[k].event != 0 :: st.slots[k].server in st.woken
  }

  ghost predicate WakeInv(st: State) {
    QueueOk(st) && WokenOk(st)
  }

  /** A server waiting for a worker redirects the worker's wake-up to itself. */
  predicate Redirects(st: State, a: Action) {
    a.DoServerWaitWorker? && Holder(st, a.next)
  }

  lemma FreeingWakes(st: State, a: Action)
    requires Inv(st) && WakeInv(st) && Enabled(st, a) && Safe(st, a) && Frees(st, a).Some?
    ensures WakeInv(Next(st, a))
    ensures Next(st, a).woken == st.woken + {st.slots[st.workers[Frees(st, a).value.w].slot].server}
  {
    FreesExactly(st, a);
  }

  lemma SwitchWakes(st: State, a: Action)
    requires Inv(st) && WakeInv(st) && Enabled(st, a) && Safe(st, a) && (a.DoServerSwitch? || a.DoWorkerSwitch?)
    ensures WakeInv(Next(st, a))
  {
  }

  lemma WaitWakes(st: State, a: Action)
    requires Inv(st) && WakeInv(st) && Enabled(st, a) && Safe(st, a) && a.DoServerWaitWorker?
    ensures WakeInv(Next(st, a)) <==> !Redirects(st, a)
  {
    if Redirects(st, a) {
      assert Holder(Next(st, a), a.next);
      assert Next(st, a).workers[a.next].bq == Some(a.t);
      assert a.t != st.slots[st.workers[a.next].slot].server;
    }
  }

  lemma CollectWakes(st: State, size: nat, room: nat)
    requires Inv(st) && WakeInv(st) && Listed(st.workers, st.idle)
    ensures WakeInv(GetEvents(st, size, room).st)
  {
    var n := CollectMeans(st.workers, st.idle, size, room);
    var r := GetEvents(st, size, room).st;
    forall w | Holder(r, w) ensures Holder(st, w) && r.workers[w] == st.workers[w] {
      assert w !in st.idle[..n];
    }
  }

  lemma SlotDoneWakes(st: State, s: nat)
    requires Inv(st) && WakeInv(st) && s in st.modes && st.modes[s].InSwitch?
    requires st.slots[st.modes[s].slot].event != 0
    ensures WakeInv(SlotDone(st, s))
  {
  }

  lemma TakesWakes(st: State, s: nat, room: nat)
    requires Inv(st) && WakeInv(st) && s in st.modes && Listed(st.workers, st.idle)
    requires st.modes[s].InSwitch? && st.slots[st.modes[s].slot].event != 0
    ensures WakeInv(ServerAction(st, s, room).st)
  {
    var size := st.slots[st.modes[s].slot].size;
    ActionTakes(st, s, room);
    SlotDoneKeeps(st, s);
    SlotDoneWakes(st, s);
    if room > 0 && size > 1 { CollectWakes(SlotDone(st, s), size - 1, room - 1); }
  }

  lemma ServerActionWakes(st: State, s: nat, room: nat)
    requires Inv(st) && WakeInv(st) && s in st.modes && Listed(st.workers, st.idle) && Points(st, st.modes[s])
    ensures WakeInv(ServerAction(st, s, room).st)
  {
    if st.modes[s].InSwitch? && st.slots[st.modes[s].slot].event != 0 {
      TakesWakes(st, s, room);
    } else {
      ActionBlocks(st, s, room);
    }
  }

  lemma OthersWake(st: State, a: Action)
    requires Inv(st) && WakeInv(st) && Enabled(st, a) && Safe(st, a) && Frees(st, a).None?
    requires a.DoRegister? || a.DoUnregister? || a.DoTimerFire? || a.DoSyscallEntry? || a.DoSyscallPause? ||
             a.DoScheduleReturn?
    ensures WakeInv(Next(st, a))
  {
  }

  /** A step keeps queues and wake-ups in order exactly when it is not a server's wait on a
      worker that holds another server's slot. */
  lemma WakesExactly(st: State, a: Action)
    requires Inv(st) && WakeInv(st) && Enabled(st, a) && Safe(st, a)
    ensures WakeInv(Next(st, a)) <==> !Redirects(st, a)
  {
    if Frees(st, a).Some? {
      FreeingWakes(st, a);
    } else {
      match a
      case DoServerSwitch(_, _, _, _, _) => SwitchWakes(st, a);
      case DoWorkerSwitch(_, _, _) => SwitchWakes(st, a);
      case DoServerWaitWorker(_, _) => WaitWakes(st, a);
      case DoGetEvents(_, size, room) => CollectWakes(st, size, room);
      case DoServerAction(s, room) => ServerActionWakes(st, s, room);
      case _ => OthersWake(st, a);
    }
  }

  // ---- servers waiting on a worker ----

  /** A server waiting on a worker gets its wake-up: the worker exists, and while it is
      blocked it remembers the server; once it is not, the server has been woken. */
  predicate WaiterOk(st: State, s: nat)
    requires s in st.modes
  {
    st.modes[s].WaitingOn? ==>
      && Points(st, st.modes[s])
      && var x := st.workers[st.modes[s].worker];
      if x.status.Blocked? then x.bq == Some(s) else s in st.woken
  }

  predicate WaitersOk(st: State) {
    forall s | s in st.modes :: WaiterOk(st, s)
  }

  /** A second server waits on a blocked worker, or a worker blocks again or exits before
      the server waiting on it has run. */
  predicate Neglects(st: State, a: Action) {
    || LeavesWaiter(st, a)
    || (a.DoServerWaitWorker? && a.next in st.workers && st.workers[a.next].status.Blocked? && HasWaiter(st, a.next))
    || (a.DoSyscallPause? && a.w in st.workers && st.workers[a.w].status.Paused? && HasWaiter(st, a.w))
  }

  lemma WaitersPoint(st: State)
    requires Inv(st) && WaitersOk(st)
    ensures PointersOk(st)
  {
    forall s | s in st.modes ensures Points(st, st.modes[s]) { assert WaiterOk(st, s); }
  }

  lemma ExitWaiters(st: State, t: nat)
    requires Inv(st) && WaitersOk(st) && Holder(st, t)
    ensures WaitersOk(Unregister(st, t).st) <==> !HasWaiter(st, t)
  {
    var r := Unregister(st, t).st;
    if HasWaiter(st, t) {
      var s :| s in st.modes && WaitsOn(st, s, t);
      assert !WaiterOk(r, s);
    }
    forall s | s in r.modes && !WaitsOn(st, s, t) ensures WaiterOk(r, s) { assert WaiterOk(st, s); }
  }

  lemma WaitWaiters(st: State, t: nat, next: nat)
    requires Inv(st) && WaitersOk(st) && t !in st.modes && next in st.workers
    ensures WaitersOk(ServerWaitWorker(st, t, next).st) <==>
            !(st.workers[next].status.Blocked? && HasWaiter(st, next))
  {
    var r := ServerWaitWorker(st, t, next).st;
    if st.workers[next].status.Blocked? && HasWaiter(st, next) {
      var s :| s in st.modes && WaitsOn(st, s, next);
      assert !WaiterOk(r, s);
    } else {
      forall s | s in r.modes ensures WaiterOk(r, s) { assert s != t ==> WaiterOk(st, s); }
    }
  }

  lemma PauseWaiters(st: State, w: nat)
    requires Inv(st) && WaitersOk(st) && Holder(st, w)
    ensures WaitersOk(SyscallPause(st, w)) <==> !(st.workers[w].status.Paused? && HasWaiter(st, w))
  {
    var r := SyscallPause(st, w);
    if st.workers[w].status.Paused? && HasWaiter(st, w) {
      var s :| s in st.modes && WaitsOn(st, s, w);
      assert !WaiterOk(r, s);
    } else {
      forall s | s in r.modes ensures WaiterOk(r, s) { assert WaiterOk(st, s); }
    }
  }

  /** The worker is no more blocked than before, and remembers the same queue. */
  predicate NoWorse(st: State, r: State, w: nat) {
    w in st.workers ==>
      && w in r.workers && r.workers[w].gen == st.workers[w].gen
      && (r.workers[w].status.Blocked? ==> st.workers[w].status.Blocked? && r.workers[w].bq == st.workers[w].bq)
      && (st.workers[w].status.Blocked? && !r.workers[w].status.Blocked? && st.workers[w].bq.Some? ==>
            st.workers[w].bq.value in r.woken)
  }

  lemma WaitersCarry(st: State, r: State)
    requires WaitersOk(st) && st.woken <= r.woken && forall w :: NoWorse(st, r, w)
    requires forall s | s in r.modes && r.modes[s].WaitingOn? :: s in st.modes && st.modes[s] == r.modes[s]
    ensures WaitersOk(r)
  {
    forall s | s in r.modes && r.modes[s].WaitingOn? ensures WaiterOk(r, s) {
      assert WaiterOk(st, s);
      assert NoWorse(st, r, r.modes[s].worker);
    }
  }

  lemma CollectWaiters(st: State, size: nat, room: nat)
    requires Inv(st) && WaitersOk(st) && Listed(st.workers, st.idle)
    ensures WaitersOk(GetEvents(st, size, room).st)
  {
    var n := CollectMeans(st.workers, st.idle, size, room);
    var r := GetEvents(st, size, room).st;
    forall w ensures NoWorse(st, r, w) {
      assert w in st.idle[..n] ==> w in st.idle;
    }
    WaitersCarry(st, r);
  }

  lemma SlotDoneWaiters(st: State, s: nat)
    requires Inv(st) && WaitersOk(st) && s in st.modes && st.modes[s].InSwitch?
    ensures WaitersOk(SlotDone(st, s))
  {
    forall u | u in SlotDone(st, s).modes ensures WaiterOk(SlotDone(st, s), u) { assert WaiterOk(st, u); }
  }

  lemma TakesWaiters(st: State, s: nat, room: nat)
    requires Inv(st) && WaitersOk(st) && s in st.modes && Listed(st.workers, st.idle)
    requires st.modes[s].InSwitch? && st.slots[st.modes[s].slot].event != 0
    ensures WaitersOk(ServerAction(st, s, room).st)
  {
    var size := st.slots[st.modes[s].slot].size;
    ActionTakes(st, s, room);
    SlotDoneKeeps(st, s);
    SlotDoneWaiters(st, s);
    if room > 0 && size > 1 { CollectWaiters(SlotDone(st, s), size - 1, room - 1); }
  }

  /** A waiting server's action frees it exactly when its worker is not blocked. */
  lemma WaitAction(st: State, s: nat, room: nat)
    requires s in st.modes && Listed(st.workers, st.idle) && st.modes[s].WaitingOn? && Points(st, st.modes[s])
    ensures ServerAction(st, s, room).st == st.(woken := st.woken - {s},
      modes := if st.workers[st.modes[s].worker].status.Blocked? then st.modes else st.modes - {s})
  {
  }

  lemma ActionWaiters(st: State, s: nat, room: nat)
    requires Inv(st) && WaitersOk(st) && s in st.modes && Listed(st.workers, st.idle) && Points(st, st.modes[s])
    ensures WaitersOk(ServerAction(st, s, room).st)
  {
    if st.modes[s].InSwitch? && st.slots[st.modes[s].slot].event != 0 {
      TakesWaiters(st, s, room);
    } else {
      if st.modes[s].WaitingOn? { WaitAction(st, s, room); }
      var r := ServerAction(st, s, room).st;
      forall u | u in r.modes ensures WaiterOk(r, u) { assert WaiterOk(st, u); }
    }
  }

  lemma SwitchWaiters(st: State, a: Action)
    requires WaitersOk(st) && Enabled(st, a) && Safe(st, a) && (a.DoServerSwitch? || a.DoWorkerSwitch?)
    ensures WaitersOk(Next(st, a))
  {
    WaitersCarry(st, Next(st, a));
  }

  lemma OtherWaiters(st: State, a: Action)
    requires WaitersOk(st) && Enabled(st, a) && Safe(st, a) && (a.DoRegister? || a.DoWorkerWait? || a.DoTimerFire?)
    ensures WaitersOk(Next(st, a))
  {
    WaitersCarry(st, Next(st, a));
  }

  lemma CallbackWaiters(st: State, a: Action)
    requires WaitersOk(st) && Enabled(st, a) && Safe(st, a) && (a.DoSyscallEntry? || a.DoScheduleReturn?)
    ensures WaitersOk(Next(st, a))
  {
    WaitersCarry(st, Next(st, a));
  }

  /** A step keeps the promise to waiting servers exactly when it neglects none of them. */
  lemma WaitersExactly(st: State, a: Action)
    requires Inv(st) && WaitersOk(st) && Enabled(st, a)
    ensures Safe(st, a) && (WaitersOk(Next(st, a)) <==> !Neglects(st, a))
  {
    WaitersPoint(st);
    PointersExactly(st, a);
    match a
    case DoUnregister(t) => if t in st.workers { ExitWaiters(st, t); }
    case DoServerWaitWorker(t, next) => if next in st.workers { WaitWaiters(st, t, next); }
    case DoSyscallPause(w) => PauseWaiters(st, w);
    case DoGetEvents(_, size, room) => CollectWaiters(st, size, room);
    case DoServerAction(s, room) => ActionWaiters(st, s, room);
    case DoServerSwitch(_, _, _, _, _) => SwitchWaiters(st, a);
    case DoWorkerSwitch(_, _, _) => SwitchWaiters(st, a);
    case DoSyscallEntry(_) => CallbackWaiters(st, a);
    case DoScheduleReturn(_, _) => CallbackWaiters(st, a);
    case _ => OtherWaiters(st, a);
  }

  // ---- only sleeping servers are woken ----

  /** A blocked worker remembers only a server that waits on it. */
  predicate QueueWaits(st: State, w: nat)
    requires w in st.workers
  {
    st.workers[w].status.Blocked? && st.workers[w].bq.Some? ==> WaitsOn(st, st.workers[w].bq.value, w)
  }

  /** Every server marked as woken is asleep, so the mark is newer than its sleep. */
  predicate AsleepOk(st: State) {
    && (forall s | s in st.woken :: s in st.modes)
    && (forall w | w in st.workers :: QueueWaits(st, w))
  }

  lemma FreeingAsleep(st: State, a: Action)
    requires Inv(st) && WakeInv(st) && AsleepOk(st) && Enabled(st, a) && Safe(st, a) && Frees(st, a).Some?
    ensures AsleepOk(Next(st, a))
  {
    FreeingWakes(st, a);
    FreesExactly(st, a);
    var r := Next(st, a);
    forall w | w in r.workers ensures QueueWaits(r, w) { assert QueueWaits(st, w); }
  }

  lemma CollectAsleep(st: State, size: nat, room: nat)
    requires Inv(st) && AsleepOk(st) && Listed(st.workers, st.idle)
    ensures AsleepOk(GetEvents(st, size, room).st)
  {
    var n := CollectMeans(st.workers, st.idle, size, room);
    var r := GetEvents(st, size, room).st;
    forall w | w in r.workers ensures QueueWaits(r, w) { assert QueueWaits(st, w); }
  }

  lemma SlotDoneAsleep(st: State, s: nat)
    requires AsleepOk(st) && s in st.modes && st.modes[s].InSwitch?
    ensures AsleepOk(SlotDone(st, s))
  {
    var r := SlotDone(st, s);
    forall w | w in r.workers ensures QueueWaits(r, w) { assert QueueWaits(st, w); }
  }

  lemma TakesAsleep(st: State, s: nat, room: nat)
    requires Inv(st) && AsleepOk(st) && s in st.modes && Listed(st.workers, st.idle)
    requires st.modes[s].InSwitch? && st.slots[st.modes[s].slot].event != 0
    ensures AsleepOk(ServerAction(st, s, room).st)
  {
    var size := st.slots[st.modes[s].slot].size;
    ActionTakes(st, s, room);
    SlotDoneKeeps(st, s);
    SlotDoneAsleep(st, s);
    if room > 0 && size > 1 { CollectAsleep(SlotDone(st, s), size - 1, room - 1); }
  }

  lemma ActionAsleep(st: State, s: nat, room: nat)
    requires Inv(st) && AsleepOk(st) && s in st.modes && Listed(st.workers, st.idle) && Points(st, st.modes[s])
    ensures AsleepOk(ServerAction(st, s, room).st)
  {
    if st.modes[s].InSwitch? && st.slots[st.modes[s].slot].event != 0 {
      TakesAsleep(st, s, room);
    } else {
      if st.modes[s].WaitingOn? { WaitAction(st, s, room); }
      var r := ServerAction(st, s, room).st;
      forall w | w in r.workers ensures QueueWaits(r, w) { assert QueueWaits(st, w); }
    }
  }

  lemma SwitchAsleep(st: State, a: Action)
    requires AsleepOk(st) && Enabled(st, a) && Safe(st, a)
    requires a.DoServerSwitch? || a.DoWorkerSwitch? || a.DoServerWaitWorker?
    ensures AsleepOk(Next(st, a))
  {
    var r := Next(st, a);
    forall w | w in r.workers ensures QueueWaits(r, w) { assert QueueWaits(st, w); }
  }

  lemma OthersAsleep(st: State, a: Action)
    requires AsleepOk(st) && Enabled(st, a) && Safe(st, a) && Frees(st, a).None?
    requires a.DoRegister? || a.DoUnregister? || a.DoTimerFire? || a.DoSyscallEntry? || a.DoSyscallPause? ||
             a.DoScheduleReturn?
    ensures AsleepOk(Next(st, a))
  {
    var r := Next(st, a);
    forall w | w in r.workers ensures QueueWaits(r, w) { assert w in st.workers ==> QueueWaits(st, w); }
    if a.DoScheduleReturn? { assert QueueWaits(st, a.w); }
  }

  /** Every step from an orderly state wakes only servers that are asleep. */
  lemma AsleepKept(st: State, a: Action)
    requires Inv(st) && WakeInv(st) && AsleepOk(st) && Enabled(st, a) && Safe(st, a)
    ensures AsleepOk(Next(st, a))
  {
    if Frees(st, a).Some? {
      FreeingAsleep(st, a);
    } else {
      match a
      case DoServerSwitch(_, _, _, _, _) => SwitchAsleep(st, a);
      case DoWorkerSwitch(_, _, _) => SwitchAsleep(st, a);
      case DoServerWaitWorker(_, _) => SwitchAsleep(st, a);
      case DoGetEvents(_, size, room) => CollectAsleep(st, size, room);
      case DoServerAction(s, room) => ActionAsleep(st, s, room);
      case _ => OthersAsleep(st, a);
    }
  }

  // ---- runs ----

  /** A run in which no server waits on a worker that runs for another server, or that
      another server waits on while it is blocked, and no worker blocks again or exits
      before the server waiting on it has run. */
  predicate Orderly(st: State, acts: seq<Action>)
    decreases |acts|
  {
    acts != [] ==>
      && !Redirects(st, acts[0]) && !Neglects(st, acts[0])
      && (Safe(st, acts[0]) ==> Orderly(Next(st, acts[0]), acts[1..]))
  }

  lemma {:induction false} OrderlyWakes(st: State, acts: seq<Action>, r: State)
    requires Inv(st) && WakeInv(st) && WaitersOk(st) && AsleepOk(st) && Runs(st, acts, r) && Orderly(st, acts)
    ensures WakeInv(r) && WaitersOk(r) && AsleepOk(r)
    decreases |acts|
  {
    if acts != [] {
      NextKeeps(st, acts[0]);
      WakesExactly(st, acts[0]);
      WaitersExactly(st, acts[0]);
      AsleepKept(st, acts[0]);
      OrderlyWakes(Next(st, acts[0]), acts[1..], r);
    }
  }

  /** What a blocked server waits for has happened: its slot is filled, or its worker is no
      longer blocked. */
  predicate Due(st: State, s: nat)
    requires s in st.modes && Points(st, st.modes[s])
  {
    match st.modes[s]
    case InSwitch(k) => st.slots[k].event != 0
    case WaitingOn(w, _) => !st.workers[w].status.Blocked?
  }

  /** In every orderly run a blocked server's action is safe and frees it exactly when what
      it waits for has happened; in that case the server has been woken, and since it went
      to sleep, because only sleeping servers are ever marked. Until then the worker that is
      to wake it remembers it. */
  lemma DueIsFreed(acts: seq<Action>, r: State, s: nat, room: nat)
    requires Runs(Init(), acts, r) && Orderly(Init(), acts) && s in r.modes
    ensures Points(r, r.modes[s]) && Safe(r, DoServerAction(s, room))
    ensures s !in Next(r, DoServerAction(s, room)).modes <==> Due(r, s)
    ensures Due(r, s) ==> s in r.woken
    ensures r.woken <= r.modes.Keys
    ensures !Due(r, s) ==> exists w :: Remembers(r, w, s)
  {
    Safety(acts, r);
    OrderlyWakes(Init(), acts, r);
    WaitersExactly(r, DoServerAction(s, room));
    assert WaiterOk(r, s);
    match r.modes[s] {
      case WaitingOn(w, _) =>
        WaitAction(r, s, room);
        if !Due(r, s) { assert Remembers(r, w, s); }
      case InSwitch(k) =>
        ActionModes(r, s, room);
        if !Due(r, s) {
          var w :| HeldBy(r, k, w);
          assert Remembers(r, w, s);
        }
    }
  }

  /** The worker's next wake-up goes to the server. */
  predicate Remembers(st: State, w: nat, s: nat) {
    w in st.workers && st.workers[w].bq == Some(s) && (Holds(st.workers[w].status) || st.workers[w].status.Blocked?)
  }

  lemma ActionModes(st: State, s: nat, room: nat)
    requires s in st.modes && Listed(st.workers, st.idle) && st.modes[s].InSwitch? && st.modes[s].slot in st.slots
    ensures ServerAction(st, s, room).st.modes ==
      if st.slots[st.modes[s].slot].event != 0 then st.modes - {s} else st.modes
  {
  }
}
