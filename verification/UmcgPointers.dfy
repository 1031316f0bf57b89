/** When servers of the worker scheduler point to workers that still exist. */
module UmcgPointers {
  import opened Umcg
  import opened UmcgSafety

  /** Every blocked server points to something that exists. */
  predicate PointersOk(st: State) {
    forall s | s in st.modes :: Points(st, st.modes[s])
  }

  predicate WaitsOn(st: State, s: nat, w: nat) {
    s in st.modes && st.modes[s].WaitingOn? && st.modes[s].worker == w
  }

  predicate HasWaiter(st: State, w: nat) {
    exists s | s in st.modes :: WaitsOn(st, s, w)
  }

  /** The exit of a worker that some server waits on. */
  predicate LeavesWaiter(st: State, a: Action) {
    a.DoUnregister? && a.t in st.workers && HasWaiter(st, a.t)
  }

  lemma ExitPointers(st: State, t: nat)
    requires Inv(st) && PointersOk(st) && Holder(st, t)
    ensures PointersOk(Unregister(st, t).st) <==> !HasWaiter(st, t)
  {
    var r := Unregister(st, t).st;
    if HasWaiter(st, t) {
      var s :| s in st.modes && WaitsOn(st, s, t);
      assert s in r.modes && !Points(r, r.modes[s]);
    }
    forall s | s in r.modes && !WaitsOn(st, s, t) ensures Points(r, r.modes[s]) {
      assert Points(st, st.modes[s]);
    }
  }

  lemma CollectPointers(st: State, size: nat, room: nat)
    requires Inv(st) && PointersOk(st) && Listed(st.workers, st.idle)
    ensures PointersOk(GetEvents(st, size, room).st)
  {
    var n := CollectMeans(st.workers, st.idle, size, room);
    forall s | s in st.modes ensures Points(GetEvents(st, size, room).st, st.modes[s]) {
      assert Points(st, st.modes[s]);
    }
  }

  lemma SlotDonePointers(st: State, s: nat)
    requires Inv(st) && PointersOk(st) && s in st.modes && st.modes[s].InSwitch?
    ensures PointersOk(SlotDone(st, s))
  {
    forall u | u in SlotDone(st, s).modes ensures Points(SlotDone(st, s), st.modes[u]) {
      assert Points(st, st.modes[u]);
    }
  }

  /** What exists keeps existing. */
  predicate Retains(st: State, r: State) {
    && (forall k | k in st.slots :: k in r.slots)
    && (forall w | w in st.workers :: w in r.workers && r.workers[w].gen == st.workers[w].gen)
  }

  lemma PointersCarry(st: State, r: State)
    requires PointersOk(st) && Retains(st, r)
    requires forall s | s in r.modes :: (s in st.modes && r.modes[s] == st.modes[s]) || Points(r, r.modes[s])
    ensures PointersOk(r)
  {
    forall s | s in r.modes ensures Points(r, r.modes[s]) {
      assert s in st.modes ==> Points(st, st.modes[s]);
    }
  }

  lemma TakesPointers(st: State, s: nat, room: nat)
    requires Inv(st) && PointersOk(st) && s in st.modes && Listed(st.workers, st.idle)
    requires st.modes[s].InSwitch? && st.slots[st.modes[s].slot].event != 0
    ensures PointersOk(ServerAction(st, s, room).st)
  {
    var size := st.slots[st.modes[s].slot].size;
    ActionTakes(st, s, room);
    SlotDoneKeeps(st, s);
    SlotDonePointers(st, s);
    if room > 0 && size > 1 { CollectPointers(SlotDone(st, s), size - 1, room - 1); }
  }

  lemma ActionPointers(st: State, s: nat, room: nat)
    requires Inv(st) && PointersOk(st) && s in st.modes && Listed(st.workers, st.idle)
    ensures PointersOk(ServerAction(st, s, room).st)
  {
    assert Points(st, st.modes[s]);
    if st.modes[s].InSwitch? && st.slots[st.modes[s].slot].event != 0 {
      TakesPointers(st, s, room);
    } else {
      ActionBlocks(st, s, room);
      PointersCarry(st, ServerAction(st, s, room).st);
    }
  }

  lemma SwitchPointers(st: State, a: Action)
    requires PointersOk(st) && Enabled(st, a) && Safe(st, a)
    requires a.DoServerSwitch? || a.DoWorkerSwitch? || a.DoServerWaitWorker?
    ensures PointersOk(Next(st, a))
  {
    PointersCarry(st, Next(st, a));
  }

  lemma OtherPointers(st: State, a: Action)
    requires PointersOk(st) && Enabled(st, a) && Safe(st, a)
    requires a.DoRegister? || a.DoWorkerWait?
    ensures PointersOk(Next(st, a))
  {
    PointersCarry(st, Next(st, a));
  }

  lemma TimerPointers(st: State, w: nat)
    requires PointersOk(st) && w in st.workers
    ensures PointersOk(TimerFire(st, w))
  {
    PointersCarry(st, TimerFire(st, w));
  }

  lemma CallbackPointers(st: State, a: Action)
    requires PointersOk(st) && Enabled(st, a) && Safe(st, a)
    requires a.DoSyscallEntry? || a.DoSyscallPause? || a.DoScheduleReturn?
    ensures PointersOk(Next(st, a))
  {
    PointersCarry(st, Next(st, a));
  }

  /** A step keeps the pointers valid exactly when it is not the exit of a worker that some
      server waits on. */
  lemma PointersExactly(st: State, a: Action)
    requires Inv(st) && PointersOk(st) && Enabled(st, a)
    ensures Safe(st, a) && (PointersOk(Next(st, a)) <==> !LeavesWaiter(st, a))
  {
    EnabledIsSafe(st, a);
    match a
    case DoUnregister(t) => if t in st.workers { ExitPointers(st, t); }
    case DoGetEvents(_, size, room) => CollectPointers(st, size, room);
    case DoServerAction(s, room) => ActionPointers(st, s, room);
    case DoServerSwitch(_, _, _, _, _) => SwitchPointers(st, a);
    case DoWorkerSwitch(_, _, _) => SwitchPointers(st, a);
    case DoServerWaitWorker(_, _) => SwitchPointers(st, a);
    case DoTimerFire(w) => TimerPointers(st, w);
    case DoSyscallEntry(_) => CallbackPointers(st, a);
    case DoSyscallPause(_) => CallbackPointers(st, a);
    case DoScheduleReturn(_, _) => CallbackPointers(st, a);
    case _ => OtherPointers(st, a);
  }

  /** Nobody leaves a waiting server behind during the run. */
  predicate Considerate(st: State, acts: seq<Action>)
    decreases |acts|
  {
    acts != [] ==> !LeavesWaiter(st, acts[0]) && (Safe(st, acts[0]) ==> Considerate(Next(st, acts[0]), acts[1..]))
  }

  lemma {:induction false} ConsiderateKeeps(st: State, acts: seq<Action>, r: State)
    requires Inv(st) && PointersOk(st) && Runs(st, acts, r) && Considerate(st, acts)
    ensures PointersOk(r)
    decreases |acts|
  {
    if acts != [] {
      PointersExactly(st, acts[0]);
      NextKeeps(st, acts[0]);
      ConsiderateKeeps(Next(st, acts[0]), acts[1..], r);
    }
  }

  /** In every run in which no worker exits while a server waits on it, no enabled step
      follows a stale pointer. */
  lemma NoStalePointer(acts: seq<Action>, r: State)
    requires Runs(Init(), acts, r) && Considerate(Init(), acts)
    ensures forall a | Enabled(r, a) :: Safe(r, a)
  {
    Safety(acts, r);
    ConsiderateKeeps(Init(), acts, r);
    forall a | Enabled(r, a) ensures Safe(r, a) { PointersExactly(r, a); }
  }
}
