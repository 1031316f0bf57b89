/** Runs of the worker scheduler in which a server is let down. */
module UmcgRuns {
  import opened Common
  import opened Umcg
  import opened UmcgPointers
  import opened UmcgSafety
  import opened UmcgWakeups

  predicate Steps(st: State, a: Action, r: State) {
    Enabled(st, a) && Safe(st, a) && Next(st, a) == r
  }

  lemma CollectOne(w: nat, x: Worker)
    requires x.event == WE_WAKE
    ensures Collect(map[w := x], [w], 2, 2) ==
            Collected(map[w := x.(status := Runnable)], [], [x.id + WE_WAKE], NoFault)
  {
    var workers := map[w := x][w := x.(status := Runnable)];
    assert workers == map[w := x.(status := Runnable)];
    assert [w][1..] == [];
    assert Collect(workers, [], 1, 1) == Collected(workers, [], [], NoFault);
  }

  // ---- worker 10 runs for server 1 ----

  function Registered(): Worker {
    Worker(32, Idle(false), WE_WAKE, None, 0, 0, false, false, 0)
  }

  function StartActions(): seq<Action> {
    [DoRegister(10, 32)] + [DoGetEvents(1, 2, 2)] + [DoServerSwitch(1, 10, 0, 1, 0)]
  }

  function Started(): State {
    State(map[10 := Registered().(status := Running, bq := Some(1))], [], map[0 := Slot(1, 0, 1)],
          map[1 := InSwitch(0)], {}, 1)
  }

  function Listed10(): State {
    State(map[10 := Registered()], [10], map[], map[], {}, 1)
  }

  function Dispatched10(): State {
    State(map[10 := Registered().(status := Runnable)], [], map[], map[], {}, 1)
  }

  lemma Registers()
    ensures Steps(Init(), DoRegister(10, 32), Listed10())
  {
  }

  lemma Collects()
    ensures Steps(Listed10(), DoGetEvents(1, 2, 2), Dispatched10())
  {
    CollectOne(10, Registered());
  }

  lemma SwitchesFirst()
    ensures Steps(Dispatched10(), DoServerSwitch(1, 10, 0, 1, 0), Started())
  {
  }

  lemma Starts()
    ensures Runs(Init(), StartActions(), Started())
  {
    Registers();
    Collects();
    SwitchesFirst();
    assert [] + [DoRegister(10, 32)] == [DoRegister(10, 32)];
    RunsSnoc(Init(), [], Init(), DoRegister(10, 32), Listed10());
    RunsSnoc(Init(), [DoRegister(10, 32)], Listed10(), DoGetEvents(1, 2, 2), Dispatched10());
    RunsSnoc(Init(), [DoRegister(10, 32)] + [DoGetEvents(1, 2, 2)], Dispatched10(), DoServerSwitch(1, 10, 0, 1, 0),
             Started());
  }

  // ---- a redirected wake-up ----

  function LostActions(): seq<Action> {
    StartActions() + [DoServerWaitWorker(2, 10)] + [DoWorkerWait(10, 0)]
  }

  function Lost(): State {
    Started().(workers := map[10 := Registered().(status := Waiting, bq := Some(2))],
               slots := map[0 := Slot(1, 32 + WE_WAIT, 1)], woken := {2})
  }

  /** Server 2 waits on worker 10 while it runs for server 1; when the worker waits, the
      slot of server 1 is filled but only server 2 is woken. */
  lemma LostWakeUp()
    ensures Runs(Init(), LostActions(), Lost())
    ensures !WakeInv(Lost()) && 1 !in Lost().woken
    ensures Lost().slots[0] == Slot(1, 32 + WE_WAIT, 1) && Lost().modes[1] == InSwitch(0)
  {
    Starts();
    var s1 := Started().(workers := map[10 := Registered().(status := Running, bq := Some(2))]);
    RunsSnoc(Init(), StartActions(), Started(), DoServerWaitWorker(2, 10), s1);
    RunsSnoc(Init(), StartActions() + [DoServerWaitWorker(2, 10)], s1, DoWorkerWait(10, 0), Lost());
    assert 0 in Lost().slots;
  }

  // ---- server 2 waits on worker 10, which is blocked ----

  function BlockedActions(): seq<Action> {
    StartActions() + [DoSyscallEntry(10)] + [DoSyscallPause(10)] + [DoServerWaitWorker(2, 10)]
  }

  function Sleeping(): Worker {
    Registered().(status := Blocked, bq := Some(2))
  }

  function Waits(): State {
    Started().(workers := map[10 := Sleeping()], slots := map[0 := Slot(1, 32 + WE_BLOCK, 1)],
               modes := map[1 := InSwitch(0), 2 := WaitingOn(10, 0)], woken := {1})
  }

  function PausedIn(): State {
    Started().(workers := map[10 := Registered().(status := Paused, bq := Some(1))])
  }

  function BlockedIn(): State {
    Started().(workers := map[10 := Sleeping().(bq := None)], slots := map[0 := Slot(1, 32 + WE_BLOCK, 1)],
               woken := {1})
  }

  lemma Pauses()
    ensures Steps(Started(), DoSyscallEntry(10), PausedIn())
  {
  }

  lemma FallsAsleep()
    ensures Steps(PausedIn(), DoSyscallPause(10), BlockedIn())
  {
  }

  lemma WaitsFor()
    ensures Steps(BlockedIn(), DoServerWaitWorker(2, 10), Waits())
  {
  }

  lemma Blocks()
    ensures Runs(Init(), BlockedActions(), Waits())
  {
    Starts();
    Pauses();
    FallsAsleep();
    WaitsFor();
    var acts := StartActions() + [DoSyscallEntry(10)];
    RunsSnoc(Init(), StartActions(), Started(), DoSyscallEntry(10), PausedIn());
    RunsSnoc(Init(), acts, PausedIn(), DoSyscallPause(10), BlockedIn());
    RunsSnoc(Init(), acts + [DoSyscallPause(10)], BlockedIn(), DoServerWaitWorker(2, 10), Waits());
  }

  function ForgottenActions(): seq<Action> {
    BlockedActions() + [DoServerWaitWorker(3, 10)] + [DoScheduleReturn(10, false)]
  }

  function Replaced(): State {
    Waits().(workers := map[10 := Sleeping().(bq := Some(3))],
             modes := map[1 := InSwitch(0), 2 := WaitingOn(10, 0), 3 := WaitingOn(10, 0)])
  }

  function Forgotten(): State {
    Replaced().(workers := map[10 := Registered().(bq := Some(3))], idle := [10], woken := {1, 3})
  }

  lemma Replaces()
    ensures Steps(Waits(), DoServerWaitWorker(3, 10), Replaced())
  {
  }

  lemma Forgets()
    ensures Steps(Replaced(), DoScheduleReturn(10, false), Forgotten())
  {
  }

  /** Server 3 waits on the same worker and takes the place of server 2, which nobody wakes
      when the worker can run again. */
  lemma ForgottenWaiter()
    ensures Runs(Init(), ForgottenActions(), Forgotten())
    ensures WaitsOn(Forgotten(), 2, 10) && !Forgotten().workers[10].status.Blocked? && 2 !in Forgotten().woken
  {
    Blocks();
    Replaces();
    Forgets();
    RunsSnoc(Init(), BlockedActions(), Waits(), DoServerWaitWorker(3, 10), Replaced());
    RunsSnoc(Init(), BlockedActions() + [DoServerWaitWorker(3, 10)], Replaced(), DoScheduleReturn(10, false),
             Forgotten());
  }

  // ---- worker 10 is woken and runs for server 3 before server 2 has looked ----

  function ResumedActions(): seq<Action> {
    BlockedActions() + [DoScheduleReturn(10, false)] + [DoGetEvents(4, 2, 2)] + [DoServerSwitch(3, 10, 0, 1, 5)]
  }

  function Listing(): State {
    Waits().(workers := map[10 := Registered().(bq := Some(2))], idle := [10], woken := {1, 2})
  }

  function Ready(): State {
    Listing().(workers := map[10 := Registered().(bq := Some(2), status := Runnable)], idle := [])
  }

  function Again(): Worker {
    Registered().(status := Running, bq := Some(3), slot := 5)
  }

  function Resumed(): State {
    State(map[10 := Again()], [], map[0 := Slot(1, 32 + WE_BLOCK, 1), 5 := Slot(3, 0, 1)],
          map[1 := InSwitch(0), 2 := WaitingOn(10, 0), 3 := InSwitch(5)], {1, 2}, 1)
  }

  lemma Returns()
    ensures Steps(Waits(), DoScheduleReturn(10, false), Listing())
  {
  }

  lemma Dispatches()
    ensures Steps(Listing(), DoGetEvents(4, 2, 2), Ready())
  {
    CollectOne(10, Registered().(bq := Some(2)));
  }

  lemma Switches()
    ensures Steps(Ready(), DoServerSwitch(3, 10, 0, 1, 5), Resumed())
  {
  }

  lemma Resumes()
    ensures Runs(Init(), ResumedActions(), Resumed())
  {
    Blocks();
    Returns();
    Dispatches();
    Switches();
    var acts := BlockedActions() + [DoScheduleReturn(10, false)];
    RunsSnoc(Init(), BlockedActions(), Waits(), DoScheduleReturn(10, false), Listing());
    RunsSnoc(Init(), acts, Listing(), DoGetEvents(4, 2, 2), Ready());
    RunsSnoc(Init(), acts + [DoGetEvents(4, 2, 2)], Ready(), DoServerSwitch(3, 10, 0, 1, 5), Resumed());
  }

  function Stale(): State {
    Resumed().(workers := map[], slots := map[0 := Slot(1, 32 + WE_BLOCK, 1), 5 := Slot(3, 32 + WE_EXIT, 1)],
               woken := {1, 2, 3})
  }

  lemma Exits()
    ensures Steps(Resumed(), DoUnregister(10), Stale())
  {
  }

  /** The action of a server whose worker is gone follows a stale pointer, also if the
      thread registers again. */
  lemma StaleAction(id: nat, room: nat)
    requires id % 32 == 0
    ensures Enabled(Stale(), DoServerAction(2, room)) && !Safe(Stale(), DoServerAction(2, room))
    ensures Enabled(Stale(), DoRegister(10, id)) && 10 in Next(Stale(), DoRegister(10, id)).workers
    ensures !Safe(Next(Stale(), DoRegister(10, id)), DoServerAction(2, room))
  {
  }

  /** The worker exits; server 2 has been woken, and its action follows a stale pointer. */
  lemma StalePointer(room: nat)
    ensures Runs(Init(), ResumedActions() + [DoUnregister(10)], Stale())
    ensures Stale().modes[2] == WaitingOn(10, 0) && 2 in Stale().woken && 10 !in Stale().workers
    ensures Enabled(Stale(), DoServerAction(2, room)) && !Safe(Stale(), DoServerAction(2, room))
  {
    Resumes();
    Exits();
    RunsSnoc(Init(), ResumedActions(), Resumed(), DoUnregister(10), Stale());
  }

  function Entered(): State {
    Resumed().(workers := map[10 := Again().(status := Paused)])
  }

  function Reblocked(): State {
    Resumed().(workers := map[10 := Again().(status := Blocked, bq := None)],
               slots := map[0 := Slot(1, 32 + WE_BLOCK, 1), 5 := Slot(3, 32 + WE_BLOCK, 1)], woken := {1, 2, 3})
  }

  function Asleep(): State {
    Reblocked().(woken := {1, 3})
  }

  lemma Enters()
    ensures Steps(Resumed(), DoSyscallEntry(10), Entered())
  {
  }

  lemma Reblocks()
    ensures Steps(Entered(), DoSyscallPause(10), Reblocked())
  {
  }

  lemma SleepsOn(room: nat)
    ensures Steps(Reblocked(), DoServerAction(2, room), Asleep())
  {
  }

  /** Or the worker blocks again: server 2 goes back to sleep and nothing remembers it. */
  lemma ReblockedWaiter(room: nat)
    ensures Runs(Init(), ResumedActions() + [DoSyscallEntry(10)] + [DoSyscallPause(10)] + [DoServerAction(2, room)],
                 Asleep())
    ensures WaitsOn(Asleep(), 2, 10) && 2 !in Asleep().woken && Asleep().workers[10].bq.None?
  {
    Resumes();
    Enters();
    Reblocks();
    SleepsOn(room);
    var acts := ResumedActions() + [DoSyscallEntry(10)];
    RunsSnoc(Init(), ResumedActions(), Resumed(), DoSyscallEntry(10), Entered());
    RunsSnoc(Init(), acts, Entered(), DoSyscallPause(10), Reblocked());
    RunsSnoc(Init(), acts + [DoSyscallPause(10)], Reblocked(), DoServerAction(2, room), Asleep());
  }
}
