/** The klib's own state, changed in place: every system call and callback is one step of
    the state machine, so that what is proved of all runs holds of the klib's state. */
module UmcgScheduler {
  import opened Common
  import opened Umcg
  import opened UmcgSafety

  /** The state of the klib, changed in place by the system calls and callbacks. */
  class Scheduler {
    var workers: map<nat, Worker>
    var idle: seq<nat>
    var slots: map<nat, Slot>
    var modes: map<nat, Mode>
    var woken: set<nat>
    var nextGen: nat
    ghost var trace: seq<Action>

    function St(): (st: State)
      reads this
    {
      State(workers, idle, slots, modes, woken, nextGen)
    }

    /** What collecting events leaves alone. */
    ghost function Rest(): (r: (map<nat, Slot>, map<nat, Mode>, set<nat>, nat, seq<Action>))
      reads this
    {
      (slots, modes, woken, nextGen, trace)
    }

    /** The state is reached by the run of the calls and callbacks so far. */
    ghost predicate Valid()
      reads this
    {
      Runs(Init(), trace, St())
    }

    /** The invariant of the state machine holds between calls. */
    lemma ValidInv()
      requires Valid()
      ensures Inv(St())
    {
      RunsKeep(Init(), trace, St());
    }

    constructor ()
      ensures Valid() && trace == []
    {
      workers, idle, slots, modes, woken, nextGen, trace := map[], [], map[], map[], {}, 0, [];
    }

    /** Closes a call: the state is the one the step leads to. */
    ghost method Took(a: Action, st: State)
      requires Runs(Init(), trace, st) && Enabled(st, a) && Safe(st, a) && St() == Next(st, a)
      modifies this`trace
      ensures Valid() && trace == old(trace) + [a]
    {
      RunsSnoc(Init(), trace, st, a, St());
      trace := trace + [a];
    }

    /** The worker's slot and queue, as at every event for its server. */
    method NotifyServer(x: Worker, event: nat)
      requires x.slot in slots
      modifies this
      ensures trace == old(trace) && St() == EventToServer(old(St()), x, event)
    {
      slots := slots[x.slot := slots[x.slot].(event := x.id + event)];
      if x.bq.Some? { woken := woken + {x.bq.value}; }
    }

    method NotifyIdle(w: nat, event: nat)
      requires w in workers
      modifies this
      ensures trace == old(trace) && St() == EventIdle(old(St()), w, old(workers)[w].(event := event))
    {
      workers := workers[w := workers[w].(event := event)];
      idle := idle + [w];
    }

    method RegisterWorker(t: nat, id: nat) returns (rv: int)
      requires Valid() && Enabled(St(), DoRegister(t, id))
      modifies this
      ensures Valid() && trace == old(trace) + [DoRegister(t, id)]
      ensures Result(St(), rv) == Register(old(St()), t, id)
    {
      ghost var st := St();
      if id % 32 != 0 || t in workers {
        Took(DoRegister(t, id), st);
        return -EINVAL;
      }
      workers := workers[t := Worker(id, Idle(false), WE_WAKE, None, 0, 0, false, false, nextGen)];
      nextGen := nextGen + 1;
      idle := idle + [t];
      Took(DoRegister(t, id), st);
      return 0;
    }

    method UnregisterWorker(t: nat) returns (rv: int)
      requires Valid() && Enabled(St(), DoUnregister(t))
      modifies this
      ensures Valid() && trace == old(trace) + [DoUnregister(t)]
      ensures old(Safe(St(), DoUnregister(t))) && Result(St(), rv) == Unregister(old(St()), t)
    {
      ghost var st := St();
      RunSafe(trace, st, DoUnregister(t));
      if t in workers {
        var x := workers[t];
        workers := workers - {t};
        NotifyServer(x, WE_EXIT);
      }
      Took(DoUnregister(t), st);
      return 0;
    }

    method Wait(t: nat, timeout: nat) returns (rv: int)
      requires Valid() && Enabled(St(), DoWorkerWait(t, timeout))
      modifies this
      ensures Valid() && trace == old(trace) + [DoWorkerWait(t, timeout)]
      ensures old(Safe(St(), DoWorkerWait(t, timeout))) && Result(St(), rv) == WorkerWait(old(St()), t, timeout)
    {
      ghost var st := St();
      RunSafe(trace, st, DoWorkerWait(t, timeout));
      workers := workers[t := workers[t].(status := Waiting, armed := timeout != 0, rv := 0)];
      NotifyServer(workers[t], WE_WAIT);
      Took(DoWorkerWait(t, timeout), st);
      return 0;
    }

    /** Compare and swap on a worker's status word. */
    method CompareAndSwap(w: nat, from: Status, to: Status) returns (ok: bool)
      requires w in workers
      modifies this
      ensures trace == old(trace) && (ok <==> old(workers)[w].status == from)
      ensures St() == if ok then SetWorker(old(St()), w, old(workers)[w].(status := to)) else old(St())
    {
      ok := workers[w].status == from;
      if ok { workers := workers[w := workers[w].(status := to)]; }
    }

    method SwitchFromServer(t: nat, next: nat, timeout: nat, size: nat, slot: nat) returns (rv: int)
      requires Valid() && Enabled(St(), DoServerSwitch(t, next, timeout, size, slot))
      modifies this
      ensures Valid() && trace == old(trace) + [DoServerSwitch(t, next, timeout, size, slot)]
      ensures Result(St(), rv) == ServerSwitch(old(St()), t, next, timeout, size, slot)
    {
      ghost var st := St();
      rv := AttachServer(t, next, timeout, size, slot);
      Took(DoServerSwitch(t, next, timeout, size, slot), st);
    }

    method AttachServer(t: nat, next: nat, timeout: nat, size: nat, slot: nat) returns (rv: int)
      modifies this
      ensures trace == old(trace) && Result(St(), rv) == ServerSwitch(old(St()), t, next, timeout, size, slot)
    {
      if next !in workers { return -EINVAL; }
      if timeout != 0 || size == 0 { return -EINVAL; }
      var ok := CompareAndSwap(next, Runnable, Running);
      if !ok {
        ok := CompareAndSwap(next, Waiting, Running);
        if !ok { return -EINVAL; }
      }
      workers := workers[next := workers[next].(slot := slot, bq := Some(t))];
      workers := workers[next := workers[next].(armed := false, fired := false)];
      slots := slots[slot := Slot(t, 0, size)];
      modes := modes[t := InSwitch(slot)];
      return 0;
    }

    /** A worker parks itself on the idle list. */
    method Park(t: nat, timeout: nat)
      requires t in workers
      modifies this
      ensures trace == old(trace) && St() == EventIdle(old(St()), t,
        old(workers)[t].(status := Idle(false), event := WE_WAIT, rv := 0, armed := timeout != 0))
    {
      workers := workers[t := workers[t].(status := Idle(false))];
      NotifyIdle(t, WE_WAIT);
      workers := workers[t := workers[t].(armed := timeout != 0, rv := 0)];
    }

    method SwitchFromWorker(t: nat, next: nat, timeout: nat) returns (rv: int)
      requires Valid() && Enabled(St(), DoWorkerSwitch(t, next, timeout))
      modifies this
      ensures Valid() && trace == old(trace) + [DoWorkerSwitch(t, next, timeout)]
      ensures Result(St(), rv) == WorkerSwitch(old(St()), t, next, timeout)
    {
      ghost var st := St();
      rv := HandOver(t, next, timeout);
      Took(DoWorkerSwitch(t, next, timeout), st);
    }

    method HandOver(t: nat, next: nat, timeout: nat) returns (rv: int)
      requires Holder(St(), t)
      modifies this
      ensures trace == old(trace) && Result(St(), rv) == WorkerSwitch(old(St()), t, next, timeout)
    {
      if next !in workers { return -EINVAL; }
      var ok := CompareAndSwap(next, Runnable, Running);
      if !ok { return -EINVAL; }
      Park(t, timeout);
      var x := workers[t];
      workers := workers[next := workers[next].(slot := x.slot, bq := x.bq, armed := false, fired := false)];
      ghost var st := WorkerSwitch(old(St()), t, next, timeout).st;
      assert workers == st.workers;
      return 0;
    }

    method WaitForWorker(t: nat, next: nat) returns (rv: int)
      requires Valid() && Enabled(St(), DoServerWaitWorker(t, next))
      modifies this
      ensures Valid() && trace == old(trace) + [DoServerWaitWorker(t, next)]
      ensures Result(St(), rv) == ServerWaitWorker(old(St()), t, next)
    {
      ghost var st := St();
      if next !in workers {
        Took(DoServerWaitWorker(t, next), st);
        return -EINVAL;
      }
      workers := workers[next := workers[next].(bq := Some(t))];
      if workers[next].status.Blocked? {
        modes := modes[t := WaitingOn(next, workers[next].gen)];
      }
      Took(DoServerWaitWorker(t, next), st);
      return 0;
    }

    method TimerExpired(w: nat)
      requires Valid() && Enabled(St(), DoTimerFire(w))
      modifies this
      ensures Valid() && trace == old(trace) + [DoTimerFire(w)]
      ensures St() == TimerFire(old(St()), w)
    {
      ghost var st := St();
      HandleTimeout(w);
      Took(DoTimerFire(w), st);
    }

    method HandleTimeout(w: nat)
      requires w in workers
      modifies this
      ensures trace == old(trace) && St() == TimerFire(old(St()), w)
    {
      workers := workers[w := workers[w].(armed := false, fired := true)];
      var ok := CompareAndSwap(w, Waiting, Idle(false));
      if ok {
        NotifyIdle(w, WE_TIMEOUT);
      } else {
        ok := CompareAndSwap(w, Idle(false), Idle(true));
        if !ok { return; }
      }
      workers := workers[w := workers[w].(rv := -ETIMEDOUT)];
    }

    method EnterSyscall(w: nat)
      requires Valid() && Enabled(St(), DoSyscallEntry(w))
      modifies this
      ensures Valid() && trace == old(trace) + [DoSyscallEntry(w)] && St() == SyscallEntry(old(St()), w)
    {
      ghost var st := St();
      workers := workers[w := workers[w].(status := Paused)];
      Took(DoSyscallEntry(w), st);
    }

    method PauseSyscall(w: nat)
      requires Valid() && Enabled(St(), DoSyscallPause(w))
      modifies this
      ensures Valid() && trace == old(trace) + [DoSyscallPause(w)]
      ensures old(Safe(St(), DoSyscallPause(w))) && St() == SyscallPause(old(St()), w)
    {
      ghost var st := St();
      RunSafe(trace, st, DoSyscallPause(w));
      var ok := CompareAndSwap(w, Paused, Blocked);
      if ok {
        var x := workers[w];
        workers := workers[w := x.(bq := None)];
        NotifyServer(x, WE_BLOCK);
      }
      Took(DoSyscallPause(w), st);
    }

    method ReturnToThread(w: nat, expired: bool)
      requires Valid() && Enabled(St(), DoScheduleReturn(w, expired))
      modifies this
      ensures Valid() && trace == old(trace) + [DoScheduleReturn(w, expired)]
      ensures old(Safe(St(), DoScheduleReturn(w, expired))) && St() == ScheduleReturn(old(St()), w, expired)
    {
      ghost var st := St();
      RunSafe(trace, st, DoScheduleReturn(w, expired));
      Reschedule(w, expired);
      Took(DoScheduleReturn(w, expired), st);
    }

    method Reschedule(w: nat, expired: bool)
      requires Safe(St(), DoScheduleReturn(w, expired))
      modifies this
      ensures trace == old(trace) && St() == ScheduleReturn(old(St()), w, expired)
    {
      var ok := CompareAndSwap(w, Blocked, Idle(false));
      if ok {
        if workers[w].bq.Some? { woken := woken + {workers[w].bq.value}; }
        NotifyIdle(w, WE_WAKE);
      } else if expired {
        workers := workers[w := workers[w].(status := Runnable)];
        NotifyServer(workers[w], WE_PREEMPT);
      } else {
        workers := workers[w := workers[w].(status := Running)];
      }
    }

    /** Copies the report of the first idle worker into user memory and takes the worker
        off the list, unless a write fails. */
    method CollectFirst(events: array<nat>, pos: nat) returns (n: nat, fault: Fault)
      requires idle != [] && idle[0] in workers && pos <= events.Length
      modifies this, events
      ensures n <= |Out(old(workers[idle[0]]))| && pos + n <= events.Length
      ensures events[pos..pos + n] == Out(old(workers[idle[0]]))[..n] && events[..pos] == old(events[..pos])
      ensures Rest() == old(Rest())
      ensures fault.NoFault? ==> n == |Out(old(workers[idle[0]]))| && idle == old(idle[1..])
      ensures fault.NoFault? ==> workers == old(workers[idle[0] := workers[idle[0]].(status := Runnable)])
      ensures !fault.NoFault? ==> n < |Out(old(workers[idle[0]]))| && pos + n == events.Length
      ensures !fault.NoFault? ==> workers == old(workers) && idle == old(idle)
      ensures !fault.NoFault? ==> fault == if n == 0 then EventFault else TimeoutFault
    {
      var w := idle[0];
      var x := workers[w];
      if pos == events.Length { return 0, EventFault; }
      events[pos] := x.id + x.event;
      n := 1;
      if x.event == WE_WAIT && x.status != Idle(false) {
        if pos + 1 == events.Length { return 1, TimeoutFault; }
        events[pos + 1] := x.id + WE_TIMEOUT;
        n := 2;
      }
      workers := workers[w := x.(status := Runnable)];
      idle := idle[1..];
      return n, NoFault;
    }

    /** One round of collecting does not change what the whole will be. */
    method CollectRound(events: array<nat>, at: nat, from: nat, left: nat, ghost all: Collected)
      returns (pos: nat, rest: nat, fault: Fault)
      requires at <= from <= events.Length && left > 1 && idle != [] && Listed(workers, idle)
      requires all == Completed(workers, idle, left, events.Length - from, events[at..from], NoFault)
      modifies this, events
      ensures from <= pos <= events.Length && pos + rest == from + left && (fault.NoFault? ==> from < pos)
      ensures fault.NoFault? || (fault.EventFault? && pos == from) || (fault.TimeoutFault? && pos == from + 1)
      ensures Rest() == old(Rest()) && events[..at] == old(events[..at]) && Listed(workers, idle)
      ensures all == Completed(workers, idle, rest, events.Length - pos, events[at..pos], fault)
    {
      ghost var ws, ids, before := workers, idle, events[..];
      var n;
      n, fault := CollectFirst(events, from);
      ghost var part, after := Out(ws[ids[0]])[..n], events[..];
      pos := from + n;
      Written(before, after, at, from, part);
      assert events[at..pos] == after[at..pos] && events[..at] == after[..at];
      CompletedNext(ws, ids, left, events.Length - from, before[at..from], part, fault,
                    workers, idle, left - n, events.Length - pos, events[at..pos]);
      rest := left - n;
    }

    /** Collects until the list is empty, the buffer is full or a write fails. */
    method CollectAll(events: array<nat>, at: nat, size: nat) returns (rv: int, pos: nat, ghost fault: Fault)
      requires Listed(workers, idle) && at <= events.Length
      modifies this, events
      ensures at <= pos <= events.Length && pos - at <= size
      ensures Rest() == old(Rest()) && events[..at] == old(events[..at])
      ensures Collected(workers, idle, events[at..pos], fault) == old(Collect(workers, idle, size, events.Length - at))
      ensures rv == CollectedRv(Collected(workers, idle, events[at..pos], fault))
    {
      rv, pos := 0, at;
      var left: nat, failed := size, NoFault;
      ghost var all := Collect(workers, idle, size, events.Length - at);
      CompletedStart(workers, idle, size, events.Length - at, events[at..at]);
      while left > 1 && idle != [] && failed.NoFault?
        invariant at <= pos <= events.Length && left + (pos - at) == size && Rest() == old(Rest())
        invariant Listed(workers, idle) && events[..at] == old(events[..at]) && rv == CountRv(pos - at, failed)
        invariant all == Completed(workers, idle, left, events.Length - pos, events[at..pos], failed)
        decreases left, failed.NoFault?
      {
        var from := pos;
        pos, left, failed := CollectRound(events, at, from, left, all);
        rv := if !failed.NoFault? && rv == 0 then -EFAULT else rv + (pos - from);
      }
      CompletedEnd(workers, idle, left, events.Length - pos, events[at..pos], failed);
      fault := failed;
    }

    /** Copies the events of idle workers into user memory, from position `at` on; a
        write past the end of the buffer fails. A zero ends a list that is not full. */
    method CopyEvents(events: array<nat>, at: nat, size: nat) returns (rv: int)
      requires Listed(workers, idle) && at <= events.Length
      modifies this, events
      ensures trace == old(trace) && Result(St(), rv) == GetEvents(old(St()), size, events.Length - at)
      ensures var entries := old(Collect(workers, idle, size, events.Length - at).entries);
        && at + |entries| <= events.Length && events[at..at + |entries|] == entries
        && (|entries| < size && at + |entries| < events.Length ==> events[at + |entries|] == 0)
      ensures events[..at] == old(events[..at])
    {
      var pos;
      ghost var fault;
      rv, pos, fault := CollectAll(events, at, size);
      if pos - at < size && pos < events.Length {
        ghost var entries, before := events[at..pos], events[..at];
        events[pos] := 0;
        assert events[at..pos] == entries && events[..at] == before;
      }
    }

    /** A server that does not block collects events. */
    method ServerGetEvents(t: nat, events: array<nat>, size: nat) returns (rv: int)
      requires Valid() && Enabled(St(), DoGetEvents(t, size, events.Length))
      modifies this, events
      ensures Valid() && trace == old(trace) + [DoGetEvents(t, size, events.Length)]
      ensures old(Listed(workers, idle)) && Result(St(), rv) == GetEvents(old(St()), size, events.Length)
      ensures var entries := old(Collect(workers, idle, size, events.Length).entries);
        && |entries| <= events.Length && events[..|entries|] == entries
        && (|entries| < size && |entries| < events.Length ==> events[|entries|] == 0)
    {
      ghost var st := St();
      RunSafe(trace, st, DoGetEvents(t, size, events.Length));
      rv := CopyEvents(events, 0, size);
      Took(DoGetEvents(t, size, events.Length), st);
    }

    /** The action of a server blocked in a context switch: it stays blocked while its slot
        is empty, and otherwise takes the event and the idle workers' events. */
    method SwitchAction(s: nat, events: array<nat>) returns (rv: int)
      requires Valid() && s in modes && modes[s].InSwitch?
      modifies this, events
      ensures Valid() && trace == old(trace) + [DoServerAction(s, events.Length)]
      ensures old(Safe(St(), DoServerAction(s, events.Length)))
      ensures Result(St(), rv) == ServerAction(old(St()), s, events.Length)
      ensures s !in modes && events.Length > 0 ==> events[0] == old(slots[modes[s].slot].event)
    {
      ghost var st := St();
      RunSafe(trace, st, DoServerAction(s, events.Length));
      rv := TakeEvents(s, events);
      Took(DoServerAction(s, events.Length), st);
    }

    method TakeEvents(s: nat, events: array<nat>) returns (rv: int)
      requires s in modes && modes[s].InSwitch? && modes[s].slot in slots && Listed(workers, idle)
      modifies this, events
      ensures trace == old(trace) && Result(St(), rv) == ServerAction(old(St()), s, events.Length)
      ensures s !in modes && events.Length > 0 ==> events[0] == old(slots[modes[s].slot].event)
    {
      woken := woken - {s};
      var k := modes[s].slot;
      var event, size := slots[k].event, slots[k].size;
      if event == 0 { return 0; }
      modes := modes - {s};
      slots := slots - {k};
      if events.Length == 0 { return -EFAULT; }
      events[0] := event;
      if size > 1 {
        ghost var before := events[..1];
        rv := CopyEvents(events, 1, size - 1);
        assert events[..1][0] == before[0];
        if rv > 0 { rv := 0; }
      } else {
        rv := 0;
      }
    }

    /** The action of a server waiting on a worker, whose record has to exist still. */
    method WaitWorkerAction(s: nat, room: nat) returns (rv: int)
      requires Valid() && s in modes && modes[s].WaitingOn? && Points(St(), modes[s])
      modifies this
      ensures Valid() && trace == old(trace) + [DoServerAction(s, room)]
      ensures old(Listed(workers, idle)) && Result(St(), rv) == ServerAction(old(St()), s, room)
    {
      ghost var st := St();
      RunSafe(trace, st, DoServerAction(s, room));
      woken := woken - {s};
      if !workers[modes[s].worker].status.Blocked? { modes := modes - {s}; }
      Took(DoServerAction(s, room), st);
      return 0;
    }
  }

  /** The return value for a number of entries. */
  function CountRv(count: nat, fault: Fault): (rv: int) {
    if (fault.EventFault? && count == 0) || (fault.TimeoutFault? && count == 1) then -EFAULT else count
  }

  /** What is left to collect, or what a failed write has left behind, with the entries
      written so far. */
  function Completed(workers: map<nat, Worker>, idle: seq<nat>, left: nat, room: nat, written: seq<nat>, fault: Fault)
    : (all: Collected)
    requires Listed(workers, idle)
  {
    if fault.NoFault? then
      var rest := Collect(workers, idle, left, room);
      rest.(entries := written + rest.entries)
    else Collected(workers, idle, written, fault)
  }

  /** Writing a part after position `from` leaves what was there before it. */
  lemma Written(before: seq<nat>, after: seq<nat>, at: nat, from: nat, part: seq<nat>)
    requires at <= from && from + |part| <= |after| == |before|
    requires after[..from] == before[..from] && after[from..from + |part|] == part
    ensures after[..at] == before[..at] && after[at..from + |part|] == before[at..from] + part
  {
    assert after[..at] == after[..from][..at] && before[..at] == before[..from][..at];
    assert after[at..from] == after[..from][at..] && before[at..from] == before[..from][at..];
    assert after[at..from + |part|] == after[at..from] + after[from..from + |part|];
  }

  lemma CompletedStart(workers: map<nat, Worker>, idle: seq<nat>, left: nat, room: nat, written: seq<nat>)
    requires Listed(workers, idle) && written == []
    ensures Completed(workers, idle, left, room, written, NoFault) == Collect(workers, idle, left, room)
  {
    assert [] + Collect(workers, idle, left, room).entries == Collect(workers, idle, left, room).entries;
  }

  lemma CompletedTaken(workers: map<nat, Worker>, idle: seq<nat>, left: nat, room: nat, written: seq<nat>,
                       out: seq<nat>, workers1: map<nat, Worker>, idle1: seq<nat>, left1: nat, room1: nat)
    requires Listed(workers, idle) && left > 1 && idle != [] && out == Out(workers[idle[0]])
    requires workers1 == workers[idle[0] := workers[idle[0]].(status := Runnable)] && idle1 == idle[1..]
    requires left == left1 + |out| && room == room1 + |out|
    ensures Listed(workers1, idle1)
    ensures Completed(workers1, idle1, left1, room1, written + out, NoFault) ==
            Completed(workers, idle, left, room, written, NoFault)
  {
    Associative(written, out, Collect(workers1, idle1, left1, room1).entries);
  }

  /** Taking the first worker, or failing to, does not change what the whole will be. */
  lemma CompletedNext(workers: map<nat, Worker>, idle: seq<nat>, left: nat, room: nat, written: seq<nat>,
                      part: seq<nat>, fault: Fault,
                      workers1: map<nat, Worker>, idle1: seq<nat>, left1: int, room1: nat, written1: seq<nat>)
    requires Listed(workers, idle) && left > 1 && idle != [] && part <= Out(workers[idle[0]])
    requires left1 == left - |part| && room == room1 + |part| && written1 == written + part
    requires fault.NoFault? ==>
      && part == Out(workers[idle[0]]) && idle1 == idle[1..]
      && workers1 == workers[idle[0] := workers[idle[0]].(status := Runnable)]
    requires !fault.NoFault? ==>
      && |part| < |Out(workers[idle[0]])| && room1 == 0 && workers1 == workers && idle1 == idle
      && fault == if |part| == 0 then EventFault else TimeoutFault
    ensures left1 >= 0 && (fault.NoFault? ==> left1 < left) && Listed(workers1, idle1)
    ensures Completed(workers1, idle1, left1, room1, written1, fault) ==
            Completed(workers, idle, left, room, written, NoFault)
  {
    if fault.NoFault? {
      CompletedTaken(workers, idle, left, room, written, part, workers1, idle1, left1, room1);
    }
  }

  lemma CompletedEnd(workers: map<nat, Worker>, idle: seq<nat>, left: nat, room: nat, written: seq<nat>, fault: Fault)
    requires Listed(workers, idle) && (left <= 1 || idle == [] || !fault.NoFault?)
    ensures Completed(workers, idle, left, room, written, fault) == Collected(workers, idle, written, fault)
  {
    assert written + [] == written;
  }
}
