/** event.c as it runs: a base whose fields every function updates in place. */
module EventCode {
  import opened Common
  import opened Epoll
  import opened EventBaseLoop
  import opened EventClock
  import opened EventLoop
  import opened EventOps
  import opened EventQueue
  import opened EventTimeouts
  import opened Evmap
  import opened MinHeap
  import opened TimeVal

  /** EVLIST_INSERTED, EVLIST_ACTIVE and EVLIST_TIMEOUT. */
  datatype Which = INSERTED | ACTIVE | TIMEOUT

  /** `min_heap_idx` is where the event is found in the heap, and -1 when it is not there. */
  lemma PlaceIsIndex(h: seq<Id>, idx: map<Id, int>, e: Id)
    requires Linked(h, idx, -1)
    ensures Idx(idx, e) == if e in h then IndexOf(h, e) else -1
  {
    assert Look(e);
    if e in h {
      assert Look(IndexOf(h, e));
    }
  }

  class EventBase {
    var evs: seq<Ev>
    var deadline: seq<Time>
    var eventqueue: seq<Id>
    var activequeues: seq<seq<Id>>
    const timeheap: TimerHeap
    var io: map<int, Io>
    var eventCount: int
    var eventCountActive: int
    var eventRunningPriority: int
    var eventContinue: bool
    var eventBreak: bool
    /** The time that `gettime` reports. */
    var now: Time
    /** `event_tv`. */
    var eventTv: Time

    ghost function State(): Base
      requires timeheap.n <= timeheap.p.Length
      reads this, timeheap, timeheap.p
    {
      Base(evs, deadline, eventqueue, activequeues, timeheap.p[..timeheap.n], io, eventCount, eventCountActive,
           eventRunningPriority, eventContinue, eventBreak, now, eventTv)
    }

    /** What the queue operations need; between evmap and the queues the base may be inconsistent. */
    ghost predicate Shape()
      reads this, timeheap, timeheap.p
    {
      && timeheap.Valid() && |deadline| == |evs|
      && InHeap(timeheap.p[..timeheap.n], deadline) && TimersOrdered(timeheap.p[..timeheap.n], deadline)
    }

    ghost predicate Valid()
      reads this, timeheap, timeheap.p
    {
      timeheap.Valid() && Ok(State())
    }

    constructor (priorities: nat, time: Time)
      requires priorities > 0
      ensures Valid() && fresh(timeheap) && fresh(timeheap.p) && State() == Fresh(priorities, time)
    {
      evs, deadline, eventqueue, io := [], [], [], map[];
      activequeues := EmptyQueues(priorities);
      timeheap := new TimerHeap();
      eventCount, eventCountActive, eventRunningPriority := 0, 0, 0;
      eventContinue, eventBreak, now, eventTv := false, false, time, time;
      new;
      FreshIsOk(priorities, time);
      assert timeheap.p[..timeheap.n] == [];
    }

    // ---------- event_queue_insert and event_queue_remove ----------

    method QueueInsert(e: Id, queue: Which)
      requires Shape() && e < |evs| && evs[e].pri < |activequeues|
      requires queue == INSERTED ==> !evs[e].inserted
      requires queue == TIMEOUT ==> !evs[e].timed && e !in timeheap.p[..timeheap.n]
      modifies this, timeheap, timeheap.p
      ensures timeheap.Valid() && (timeheap.p == old(timeheap.p) || fresh(timeheap.p))
      ensures queue == INSERTED ==> State() == InsertInserted(old(State()), e)
      ensures queue == ACTIVE ==> State() == InsertActive(old(State()), e)
      ensures queue == TIMEOUT ==> State() == InsertTimer(old(State()), e)
    {
      ghost var b := State();
      if queue == ACTIVE && evs[e].active {
        return;
      }
      if !evs[e].kind.internal {
        eventCount := eventCount + 1;
      }
      assert State().(count := eventCount - Counted(evs[e])) == b;
      match queue
      case INSERTED => JoinInserted(e);
      case ACTIVE => JoinActive(e);
      case TIMEOUT => JoinTimers(e);
    }

    /** The cases of `event_queue_insert`: the flag, and the list that goes with it. */
    method JoinInserted(e: Id)
      requires timeheap.n <= timeheap.p.Length && e < |evs|
      modifies this
      ensures State() == InsertInserted(old(State().(count := eventCount - Counted(evs[e]))), e)
    {
      evs := evs[e := evs[e].(inserted := true)];
      eventqueue := eventqueue + [e];
    }

    method JoinActive(e: Id)
      requires timeheap.n <= timeheap.p.Length && e < |evs| && evs[e].pri < |activequeues| && !evs[e].active
      modifies this
      ensures State() == InsertActive(old(State().(count := eventCount - Counted(evs[e]))), e)
    {
      var ev := evs[e];
      evs := evs[e := ev.(active := true)];
      eventCountActive := eventCountActive + 1;
      activequeues := activequeues[ev.pri := activequeues[ev.pri] + [e]];
    }

    method JoinTimers(e: Id)
      requires Shape() && e < |evs| && !evs[e].timed && e !in timeheap.p[..timeheap.n]
      modifies this, timeheap, timeheap.p
      ensures timeheap.Valid() && (timeheap.p == old(timeheap.p) || fresh(timeheap.p))
      ensures State() == InsertTimer(old(State().(count := eventCount - Counted(evs[e]))), e)
    {
      evs := evs[e := evs[e].(timed := true)];
      PlaceIsIndex(timeheap.p[..timeheap.n], timeheap.idx, e);
      timeheap.Insert(e, deadline);
    }

    method QueueRemove(e: Id, queue: Which)
      requires Shape() && e < |evs| && evs[e].pri < |activequeues|
      requires queue == TIMEOUT ==> e in timeheap.p[..timeheap.n]
      modifies this, timeheap, timeheap.p
      ensures timeheap.Valid() && timeheap.p == old(timeheap.p)
      ensures queue == INSERTED ==> State() == RemoveInserted(old(State()), e)
      ensures queue == ACTIVE ==> State() == RemoveActive(old(State()), e)
      ensures queue == TIMEOUT ==> State() == RemoveTimer(old(State()), e)
    {
      ghost var b := State();
      if !evs[e].kind.internal {
        eventCount := eventCount - 1;
      }
      assert State().(count := eventCount + Counted(evs[e])) == b;
      match queue
      case INSERTED => LeaveInserted(e);
      case ACTIVE => LeaveActive(e);
      case TIMEOUT => LeaveTimers(e);
    }

    /** The cases of `event_queue_remove`: the flag, and the list that goes with it. */
    method LeaveInserted(e: Id)
      requires timeheap.n <= timeheap.p.Length && e < |evs|
      modifies this
      ensures State() == RemoveInserted(old(State().(count := eventCount + Counted(evs[e]))), e) &&
        eventCount == old(eventCount)
    {
      evs := evs[e := evs[e].(inserted := false)];
      eventqueue := Removed(eventqueue, e);
    }

    method LeaveActive(e: Id)
      requires timeheap.n <= timeheap.p.Length && e < |evs| && evs[e].pri < |activequeues|
      modifies this
      ensures State() == RemoveActive(old(State().(count := eventCount + Counted(evs[e]))), e) &&
        eventCount == old(eventCount)
    {
      var ev := evs[e];
      evs := evs[e := ev.(active := false)];
      eventCountActive := eventCountActive - 1;
      activequeues := activequeues[ev.pri := Removed(activequeues[ev.pri], e)];
    }

    method LeaveTimers(e: Id)
      requires Shape() && e < |evs| && e in timeheap.p[..timeheap.n]
      modifies this, timeheap, timeheap.p
      ensures timeheap.Valid() && timeheap.p == old(timeheap.p)
      ensures State() == RemoveTimer(old(State().(count := eventCount + Counted(evs[e]))), e) &&
        eventCount == old(eventCount)
    {
      ghost var h := timeheap.p[..timeheap.n];
      PlaceIsIndex(h, timeheap.idx, e);
      evs := evs[e := evs[e].(timed := false)];
      TimersAreHeap(h, deadline);
      timeheap.Erase(e, deadline);
    }

    // ---------- event_del_internal ----------

    /** An event that waits for its time is taken out of the heap. */
    method StopTimerNow(e: Id)
      requires Valid() && e < |evs|
      modifies this, timeheap, timeheap.p
      ensures Valid() && timeheap.p == old(timeheap.p) && State() == StopTimer(old(State()), e)
    {
      if evs[e].timed {
        PriorityInRange(State(), e);
        RemoveTimerKeepsOk(State(), e);
        QueueRemove(e, TIMEOUT);
      }
    }

    method DeactivateNow(e: Id)
      requires Valid() && e < |evs|
      modifies this, timeheap, timeheap.p
      ensures Valid() && timeheap.p == old(timeheap.p) && State() == Deactivate(old(State()), e)
    {
      if evs[e].active {
        PriorityInRange(State(), e);
        RemoveActiveKeepsOk(State(), e);
        QueueRemove(e, ACTIVE);
      }
    }

    /** Off the queue of inserted events, and off the list of the descriptor. */
    method WithdrawNow(e: Id)
      requires Valid() && e < |evs|
      modifies this, timeheap, timeheap.p
      ensures Valid() && timeheap.p == old(timeheap.p) && State() == Withdraw(old(State()), e)
    {
      if evs[e].inserted {
        PriorityInRange(State(), e);
        DelistKeepsOk(State(), e);
        QueueRemove(e, INSERTED);
        var kind := evs[e].kind;
        if kind.fd >= 0 {
          io := io[kind.fd := Deleted(IoOf(io, kind.fd), Seen(e, kind))];
        }
      }
    }

    method Del(e: Id) returns (res: int)
      requires Valid() && e < |evs|
      modifies this, timeheap, timeheap.p
      ensures Valid() && timeheap.p == old(timeheap.p) && State() == DelInternal(old(State()), e) && res == 0
    {
      StopTimerNow(e);
      DeactivateNow(e);
      WithdrawNow(e);
      res := 0;
    }

    // ---------- event_active_nolock ----------

    method Activate(e: Id, res: Reason)
      requires Valid() && e < |evs|
      modifies this, timeheap, timeheap.p
      ensures Valid() && (timeheap.p == old(timeheap.p) || fresh(timeheap.p)) &&
        State() == ActiveNolock(old(State()), e, res)
    {
      PriorityInRange(State(), e);
      var ev := evs[e];
      if ev.active {
        SetEvKeepsOk(State(), e, ev.(res := Either(ev.res, res)));
        evs := evs[e := ev.(res := Either(ev.res, res))];
        return;
      }
      evs := evs[e := ev.(res := res)];
      if ev.pri < eventRunningPriority {
        eventContinue := true;
      }
      assert State() == Mark(old(State()), e, res);
      InsertActiveKeepsOk(State(), e);
      QueueInsert(e, ACTIVE);
    }

    // ---------- event_add_internal ----------

    /** `evmap_io_add`: -1 when it refuses the event, else whether the backend was told. */
    method IoAdd(e: Id) returns (res: int)
      requires Shape() && e < |evs|
      modifies this`io
      ensures -1 <= res <= 1 && (res == -1 <==> Refused(old(State()), e))
      ensures res == -1 ==> io == old(io)
      ensures res != -1 ==> io == Enlist(old(State()), e).io
    {
      var kind := evs[e].kind;
      if kind.fd < 0 {
        return 0;
      }
      var ctx, seen := IoOf(io, kind.fd), Seen(e, kind);
      if AddFails(ctx, seen) {
        return -1;
      }
      io := io[kind.fd := Added(ctx, seen)];
      res := if Matters(AddMask(ctx, seen)) then 1 else 0;
    }

    method RegisterNow(e: Id) returns (res: int)
      requires Valid() && e < |evs|
      modifies this, timeheap, timeheap.p
      ensures Valid() && (timeheap.p == old(timeheap.p) || fresh(timeheap.p)) &&
        (State(), res) == Register(old(State()), e)
    {
      res := 0;
      ghost var b := State();
      var ev := evs[e];
      if Polls(ev.kind) && !(ev.inserted || ev.active) {
        PriorityInRange(b, e);
        res := IoAdd(e);
        if res != -1 {
          assert Ok(Enlist(b, e)) by {
            EnlistKeepsOk(b, e);
          }
          QueueInsert(e, INSERTED);
          assert State() == Enlist(b, e);
        } else {
          assert State() == b;
        }
        if res == 1 {
          res := 0;
        }
      }
    }

    method RestartNow(e: Id, at: Time)
      requires Valid() && e < |evs|
      modifies this, timeheap, timeheap.p
      ensures Valid() && (timeheap.p == old(timeheap.p) || fresh(timeheap.p)) && State() == Restart(old(State()), e, at)
    {
      StopTimerNow(e);
      if evs[e].active && evs[e].res.timeout {
        DeactivateNow(e);
      }
      ghost var b := State();
      assert b == Unschedule(old(State()), e);
      StartTimerNow(e, at);
    }

    method StartTimerNow(e: Id, at: Time)
      requires Valid() && e < |evs| && !evs[e].timed
      modifies this, timeheap, timeheap.p
      ensures Valid() && (timeheap.p == old(timeheap.p) || fresh(timeheap.p)) &&
        State() == StartTimer(old(State()), e, at)
    {
      ghost var b := State();
      MarkOf(b.heap, evs, Timers, e);
      PriorityInRange(b, e);
      SetDeadlineKeepsOk(b, e, at);
      deadline := deadline[e := at];
      InsertTimerKeepsOk(State(), e);
      QueueInsert(e, TIMEOUT);
    }

    method ScheduleNow(e: Id, tv: Time, absolute: bool)
      requires Valid() && e < |evs|
      modifies this, timeheap, timeheap.p
      ensures Valid() && (timeheap.p == old(timeheap.p) || fresh(timeheap.p))
      ensures State() == Schedule(old(State()), e, tv, absolute)
    {
      ghost var b := State();
      if evs[e].kind.persist && !absolute {
        evs := evs[e := evs[e].(ioTimeout := tv)];
        assert State() == Remember(b, e, tv);
      }
      RestartNow(e, if absolute then tv else Sum(now, tv));
    }

    method AddNow(e: Id, tv: Option<Time>, absolute: bool) returns (res: int)
      requires Valid() && e < |evs|
      modifies this, timeheap, timeheap.p
      ensures Valid() && (timeheap.p == old(timeheap.p) || fresh(timeheap.p))
      ensures (State(), res) == AddInternal(old(State()), e, tv, absolute)
    {
      res := RegisterNow(e);
      if res != -1 && tv.Some? {
        ScheduleNow(e, tv.value, absolute);
      }
    }

    // ---------- event_priority_set and event_assign ----------

    method SetPriority(e: Id, pri: int) returns (r: int)
      requires Valid() && e < |evs|
      modifies this`evs
      ensures Valid() && (State(), r) == PrioritySet(old(State()), e, pri)
    {
      if evs[e].active {
        return -1;
      }
      if pri < 0 || pri >= |activequeues| {
        return -1;
      }
      SetEvKeepsOk(State(), e, evs[e].(pri := pri));
      evs := evs[e := evs[e].(pri := pri)];
      r := 0;
    }

    method AssignNow(kind: Kind)
      requires Valid()
      modifies this`evs, this`deadline
      ensures Valid() && State() == Assign(old(State()), kind)
    {
      var ev := Ev(kind, |activequeues| / 2, false, false, false, NO_REASON, ZERO);
      AssignKeepsOk(State(), ev);
      evs, deadline := evs + [ev], deadline + [ZERO];
    }

    // ---------- callbacks ----------

    method ExecNow(op: EventOps.Op)
      requires Valid()
      modifies this, timeheap, timeheap.p
      ensures Valid() && (timeheap.p == old(timeheap.p) || fresh(timeheap.p)) && State() == Exec(old(State()), op)
    {
      match op
      case AssignOp(kind) => AssignNow(kind.(internal := false));
      case AddOp(e, tv) =>
        if e < |evs| {
          var res := AddNow(e, tv, false);
        }
      case DelOp(e) =>
        if e < |evs| {
          var res := Del(e);
        }
      case ActiveOp(e, res) =>
        if e < |evs| {
          Activate(e, res);
        }
      case PriorityOp(e, pri) =>
        if e < |evs| && !evs[e].kind.internal {
          var r := SetPriority(e, pri);
        }
      case BreakOp => eventBreak := true;
      case ClockOp(t) => now := t;
    }

    /** A callback, as the operations it performs one after the other. */
    method CallbackNow(ops: seq<EventOps.Op>)
      requires Valid()
      modifies this, timeheap, timeheap.p
      ensures Valid() && (timeheap.p == old(timeheap.p) || fresh(timeheap.p)) && State() == Run(old(State()), ops)
    {
      for i := 0 to |ops|
        invariant Valid() && (timeheap.p == old(timeheap.p) || fresh(timeheap.p))
        invariant Run(State(), ops[i..]) == Run(old(State()), ops)
      {
        assert ops[i..][0] == ops[i] && ops[i..][1..] == ops[i + 1..];
        ExecNow(ops[i]);
      }
    }

    /** `event_persist_closure`, up to the callback. */
    method PersistClosureNow(e: Id)
      requires Valid() && e < |evs|
      modifies this, timeheap, timeheap.p
      ensures Valid() && (timeheap.p == old(timeheap.p) || fresh(timeheap.p)) &&
        State() == PersistClosure(old(State()), e)
    {
      var ev := evs[e];
      if ev.ioTimeout.sec != 0 || ev.ioTimeout.usec != 0 {
        var delay := ev.ioTimeout;
        var relativeTo := if ev.res.timeout then deadline[e] else now;
        var runAt := Sum(relativeTo, delay);
        if Less(runAt, now) {
          runAt := Sum(now, delay);
        }
        var res := AddNow(e, Some(runAt), true);
      }
    }

    /** An event is taken off its active queue and, if it is persistent, scheduled again. */
    method ServeNow(e: Id)
      requires Valid() && e < |evs| && evs[e].active
      modifies this, timeheap, timeheap.p
      ensures Valid() && (timeheap.p == old(timeheap.p) || fresh(timeheap.p)) && State() == Serve(old(State()), e)
    {
      var persist := evs[e].kind.persist;
      if persist {
        DeactivateNow(e);
        PersistClosureNow(e);
      } else {
        var res := Del(e);
      }
    }

    /** One round of the loop over a queue, with its callback. */
    method TakeTurn(i: nat, script: seq<seq<EventOps.Op>>) returns (user: bool, rest: seq<seq<EventOps.Op>>)
      requires Valid() && i < |activequeues| && activequeues[i] != []
      modifies this, timeheap, timeheap.p
      ensures Valid() && (timeheap.p == old(timeheap.p) || fresh(timeheap.p))
      ensures Turned(old(State()), i, script, user, State(), rest)
    {
      var e := activequeues[i][0];
      HeadIsActive(State(), i);
      user := !evs[e].kind.internal;
      rest := [];
      ServeNow(e);
      if script != [] {
        CallbackNow(script[0]);
        rest := script[1..];
      }
    }

    /** `event_process_active_single_queue`, with the callbacks given by `script`. */
    method ProcessSingleQueue(i: nat, script: seq<seq<EventOps.Op>>)
        returns (count: int, rest: seq<seq<EventOps.Op>>, ghost turns: seq<Turn>)
      requires Valid() && i < |activequeues|
      modifies this, timeheap, timeheap.p
      ensures Valid() && (timeheap.p == old(timeheap.p) || fresh(timeheap.p))
      ensures Served(State(), rest, count, turns) == SingleQueue(old(State()), i, script, 0)
    {
      count, rest, turns := 0, script, [];
      ghost var all := SingleQueue(State(), i, script, 0);
      var over := false;
      while !over && activequeues[i] != []
        invariant Valid() && (timeheap.p == old(timeheap.p) || fresh(timeheap.p)) && i < |activequeues|
        invariant Serving(over, all, turns, State(), i, rest, count)
        decreases !over, |rest|, |activequeues[i]|
      {
        over, count, rest, turns := ProcessOne(i, rest, count, all, turns);
      }
      ServingDone(over, all, turns, State(), i, rest, count);
    }

    /** The body of its loop; over when the loop has been told to stop. */
    method ProcessOne(i: nat, script: seq<seq<EventOps.Op>>, before: int, ghost all: Served, ghost taken: seq<Turn>)
        returns (over: bool, count: int, rest: seq<seq<EventOps.Op>>, ghost turns: seq<Turn>)
      requires Valid() && i < |activequeues| && activequeues[i] != []
      requires Serving(false, all, taken, State(), i, script, before)
      modifies this, timeheap, timeheap.p
      ensures Valid() && (timeheap.p == old(timeheap.p) || fresh(timeheap.p)) && |activequeues| == old(|activequeues|)
      ensures Serving(over, all, turns, State(), i, rest, count)
      ensures |rest| < |script| || (|rest| == |script| && |activequeues[i]| < old(|activequeues[i]|))
    {
      ghost var b := State();
      var user: bool;
      user, rest := TakeTurn(i, script);
      count := if user then before + 1 else before;
      TurnsEnd(b, i, script, user, State(), rest);
      TurnStep(all, taken, b, i, script, before, user, State(), rest);
      turns := taken + [Turn(b, i, b.activeq[i][0])];
      if eventBreak {
        count := -1;
      }
      over := eventBreak || eventContinue;
    }

    /** `event_process_active`. */
    method ProcessActiveNow(script: seq<seq<EventOps.Op>>)
        returns (c: int, rest: seq<seq<EventOps.Op>>, ghost turns: seq<Turn>)
      requires Valid()
      modifies this, timeheap, timeheap.p
      ensures Valid() && (timeheap.p == old(timeheap.p) || fresh(timeheap.p))
      ensures Served(State(), rest, c, turns) == ProcessActive(old(State()), script)
    {
      ghost var all := ProcessActive(State(), script);
      AheadOfAll(State(), script);
      c, rest, turns := ProcessQueues(script, all);
      SetRunning(-1);
    }

    /** Its loop, for whatever all queues together come to. */
    method ProcessQueues(script: seq<seq<EventOps.Op>>, ghost all: Served)
        returns (c: int, rest: seq<seq<EventOps.Op>>, ghost turns: seq<Turn>)
      requires Valid() && Processing(all, [], State(), 0, script, 0)
      modifies this, timeheap, timeheap.p
      ensures Valid() && (timeheap.p == old(timeheap.p) || fresh(timeheap.p))
      ensures all == Served(State().(running := -1), rest, c, turns)
    {
      c, rest, turns := 0, script, [];
      var i: nat := 0;
      while i < |activequeues| && c == 0
        invariant Valid() && i <= |activequeues| && (timeheap.p == old(timeheap.p) || fresh(timeheap.p))
        invariant Processing(all, turns, State(), i, rest, c)
        decreases |activequeues| - i
      {
        i, c, rest, turns := ProcessQueue(i, rest, all, turns);
      }
      Processed(all, turns, State(), i, rest, c);
    }

    method SetRunning(i: int)
      requires Valid()
      modifies this`eventRunningPriority
      ensures Valid() && State() == old(State()).(running := i)
    {
      eventRunningPriority := i;
    }

    /** The body of its loop: one queue, if there is something in it. */
    method ProcessQueue(i: nat, script: seq<seq<EventOps.Op>>, ghost all: Served, ghost before: seq<Turn>)
        returns (next: nat, c: int, rest: seq<seq<EventOps.Op>>, ghost turns: seq<Turn>)
      requires Valid() && i < |activequeues| && Processing(all, before, State(), i, script, 0)
      modifies this, timeheap, timeheap.p
      ensures (timeheap.p == old(timeheap.p) || fresh(timeheap.p)) && |activequeues| == old(|activequeues|)
      ensures Valid()
      ensures next == i + 1 && Processing(all, turns, State(), next, rest, c)
    {
      next, c, rest, turns := i + 1, 0, script, before;
      ghost var b := State();
      if activequeues[i] == [] {
        EmptySkipped(b, i, script);
      } else {
        AheadOf(all, before, b, i, script, SingleQueue(b.(running := i), i, script, 0));
        SetRunning(i);
        c, rest, turns := ProcessSingleQueue(i, script);
        turns := before + turns;
      }
    }

    // ---------- timeouts and reports ----------

    method ExpireNow(e: Id)
      requires Valid() && e < |evs|
      modifies this, timeheap, timeheap.p
      ensures Valid() && (timeheap.p == old(timeheap.p) || fresh(timeheap.p)) && State() == Expire(old(State()), e)
    {
      var res := Del(e);
      Activate(e, TIMED_OUT);
    }

    /** `timeout_process`: what fires, in order. */
    method TimeoutProcessNow() returns (ghost fired: seq<Id>)
      requires Valid()
      modifies this, timeheap, timeheap.p
      ensures Valid() && (timeheap.p == old(timeheap.p) || fresh(timeheap.p))
      ensures (State(), fired) == TimeoutProcess(old(State()))
    {
      fired := [];
      ghost var all := TimeoutProcess(State());
      FiringStarts(State());
      var stop := false;
      while !stop
        invariant Valid() && (timeheap.p == old(timeheap.p) || fresh(timeheap.p))
        invariant if stop then all == (State(), fired) else Firing(all, fired, State())
        decreases timeheap.n, !stop
      {
        stop, fired := FireNext(all, fired);
      }
    }

    /** The event on top of the heap, if there is one and its time has come. */
    method FireNext(ghost all: (Base, seq<Id>), ghost fired: seq<Id>) returns (stop: bool, ghost more: seq<Id>)
      requires Valid() && Firing(all, fired, State())
      modifies this, timeheap, timeheap.p
      ensures Valid() && (timeheap.p == old(timeheap.p) || fresh(timeheap.p))
      ensures stop ==> all == (State(), more) && timeheap.n == old(timeheap.n)
      ensures !stop ==> Firing(all, more, State()) && timeheap.n < old(timeheap.n)
    {
      ghost var b := State();
      FiringStep(all, fired, b);
      var e;
      stop, e := NextDue();
      more := fired;
      if !stop {
        ExpireNow(e);
        more := fired + [e];
        assert State() == Expire(b, e);
      }
    }

    /** The top of the heap if there is one and its time has come. */
    method NextDue() returns (stop: bool, e: Id)
      requires Valid()
      ensures stop == Stops(State()) && (!stop ==> e == State().heap[0])
    {
      var top := timeheap.Top();
      if top < 0 {
        return true, 0;
      }
      e := top;
      stop := Less(now, deadline[e]);
    }

    /** The loop of `evmap_io_active`. */
    method ActivateAllNow(matching: seq<Event>, report: Mask)
      requires Valid() && forall x :: x in matching ==> x.id < |evs|
      modifies this, timeheap, timeheap.p
      ensures Valid() && (timeheap.p == old(timeheap.p) || fresh(timeheap.p))
      ensures State() == ActivateAll(old(State()), matching, report)
    {
      for i := 0 to |matching|
        invariant Valid() && (timeheap.p == old(timeheap.p) || fresh(timeheap.p)) && |evs| == old(|evs|)
        invariant ActivateAll(State(), matching[i..], report) == ActivateAll(old(State()), matching, report)
      {
        assert matching[i..][0] == matching[i] && matching[i..][1..] == matching[i + 1..];
        Activate(matching[i].id, ReasonFor(matching[i], report));
      }
    }

    /** `evmap_io_active`. */
    method IoActiveNow(fd: int, report: Mask)
      requires Valid()
      modifies this, timeheap, timeheap.p
      ensures Valid() && (timeheap.p == old(timeheap.p) || fresh(timeheap.p)) &&
        State() == IoActive(old(State()), fd, report)
    {
      var events := IoOf(io, fd).events;
      ListedInRange(State(), fd, report);
      ActivateAllNow(Activated(events, report), report);
    }

    method ReportAll(reports: seq<EventBaseLoop.Report>)
      requires Valid()
      modifies this, timeheap, timeheap.p
      ensures Valid() && (timeheap.p == old(timeheap.p) || fresh(timeheap.p))
      ensures State() == IoActiveAll(old(State()), reports)
    {
      for i := 0 to |reports|
        invariant Valid() && (timeheap.p == old(timeheap.p) || fresh(timeheap.p))
        invariant IoActiveAll(State(), reports[i..]) == IoActiveAll(old(State()), reports)
      {
        assert reports[i..][0] == reports[i] && reports[i..][1..] == reports[i + 1..];
        IoActiveNow(reports[i].fd, reports[i].what);
      }
    }

    // ---------- event_base_loop ----------

    /** What the dispatch reports becomes active, and so does what is due when time has passed. */
    method MakeReady(round: EventBaseLoop.Round)
      requires Valid()
      modifies this, timeheap, timeheap.p
      ensures Valid() && (timeheap.p == old(timeheap.p) || fresh(timeheap.p)) && State() == Ready(old(State()), round)
    {
      ReportAll(round.reports);
      now := round.now;
      ghost var fired := TimeoutProcessNow();
    }

    /** What follows a successful dispatch. */
    method RunRound(round: EventBaseLoop.Round, flags: Flags) returns (done: bool, ghost turns: seq<Turn>)
      requires Valid()
      modifies this, timeheap, timeheap.p
      ensures Valid() && (timeheap.p == old(timeheap.p) || fresh(timeheap.p))
      ensures (State(), done, turns) == AfterDispatch(old(State()), round, flags)
    {
      MakeReady(round);
      if eventCountActive != 0 {
        var n, rest: seq<seq<EventOps.Op>>;
        n, rest, turns := ProcessActiveNow(round.script);
        done := flags.once && eventCountActive == 0 && n != 0;
      } else {
        done, turns := flags.nonblock, [];
      }
    }

    /** The loop of `timeout_correct` over the heap. */
    method MoveBack(off: Time)
      requires timeheap.n <= timeheap.p.Length && InHeap(timeheap.p[..timeheap.n], deadline)
      requires forall i, j :: 0 <= i < j < timeheap.n ==> timeheap.p[i] != timeheap.p[j]
      modifies this`deadline
      ensures deadline == MovedBack(old(deadline), timeheap.p[..timeheap.n], off)
    {
      ghost var was, heap := deadline, timeheap.p[..timeheap.n];
      for i := 0 to timeheap.n
        invariant |deadline| == |was|
        invariant forall e :: 0 <= e < |was| ==>
          deadline[e] == if e in heap[..i] then Difference(was[e], off) else was[e]
      {
        var e := timeheap.p[i];
        assert heap[i] == e && e !in heap[..i] && heap[..i + 1] == heap[..i] + [e];
        deadline := deadline[e := Difference(deadline[e], off)];
      }
      assert heap[..timeheap.n] == heap;
    }

    /** `timeout_correct`. */
    method TimeoutCorrectNow(monotonic: bool, tv: Time)
      requires Valid()
      modifies this`deadline, this`now, this`eventTv
      ensures Valid() && State() == ClockCorrected(old(State()), monotonic, tv)
    {
      ghost var b := State();
      now := tv;
      if monotonic {
        return;
      }
      if AtMost(eventTv, tv) {
        eventTv := tv;
        return;
      }
      NoneTwice(b);
      MoveBack(Difference(eventTv, tv));
      eventTv := tv;
    }

    /** `timeout_next` and the choice of whether to call it: how long to wait, or None for as long as it takes. */
    method TimeoutNextNow(nonblock: bool) returns (wait: Option<Time>)
      requires Valid()
      ensures wait == Wait(State(), nonblock)
    {
      if eventCountActive == 0 && !nonblock {
        var e := timeheap.Top();
        if e < 0 {
          return None;
        }
        assert e == State().heap[0];
        if AtMost(deadline[e], now) {
          return Some(ZERO);
        }
        return Some(Difference(deadline[e], now));
      }
      wait := Some(ZERO);
    }

    /** The top of the loop, up to the backend: its result if it ends here, else how long to wait. */
    method LoopTop(round: EventBaseLoop.Round, flags: Flags) returns (retval: Option<int>, wait: Option<Time>)
      requires Valid() && !eventBreak && !eventContinue
      modifies this`deadline, this`now, this`eventTv
      ensures Valid()
      ensures var b := ClockCorrected(old(State()), flags.monotonic, round.start);
        && retval == (if !(b.count > 0) && b.countActive == 0 then Some(1) else None)
        && State() == (if retval.Some? then b else b.(eventTv := b.now)) && wait == Wait(b, flags.nonblock)
    {
      TimeoutCorrectNow(flags.monotonic, round.start);
      wait := TimeoutNextNow(flags.nonblock);
      if !(eventCount > 0) && eventCountActive == 0 {
        return Some(1), wait;
      }
      retval := None;
      eventTv := now;
    }

    method ClearContinue()
      requires Valid()
      modifies this`eventContinue
      ensures Valid() && State() == old(State()).(continued := false)
    {
      eventContinue := false;
    }

    method ClearBreak()
      requires Valid()
      modifies this`eventBreak
      ensures Valid() && State() == old(State()).(broken := false)
    {
      eventBreak := false;
    }

    /** The body of the loop behind its first checks. */
    method RunOneRound(round: EventBaseLoop.Round, flags: Flags) returns (retval: Option<int>, ghost turns: seq<Turn>)
      requires Valid() && !eventBreak && !eventContinue
      modifies this, timeheap, timeheap.p
      ensures Valid() && (timeheap.p == old(timeheap.p) || fresh(timeheap.p))
      ensures (State(), retval, turns) == OneRound(old(State()), round, flags)
    {
      turns := [];
      var wait: Option<Time>;
      retval, wait := LoopTop(round, flags);
      if retval.Some? {
        return;
      }
      if round.fails {
        return Some(-1), turns;
      }
      var done;
      done, turns := RunRound(round, flags);
      retval := if done then Some(0) else None;
    }

    /** `event_base_loop`, given what each round brings; None while it has not returned. */
    method RunLoop(rounds: seq<EventBaseLoop.Round>, flags: Flags) returns (retval: Option<int>, ghost turns: seq<Turn>)
      requires Valid()
      modifies this, timeheap, timeheap.p
      ensures Valid() && (timeheap.p == old(timeheap.p) || fresh(timeheap.p))
      ensures BaseLoop(old(State()), rounds, flags) ==
        if retval.Some? then Returned(retval.value, State(), turns) else Running(State(), turns)
    {
      ClearBreak();
      turns := [];
      ghost var all := Loop(State(), rounds, flags);
      LoopStarts(State(), rounds, flags);
      for i := 0 to |rounds|
        invariant Valid() && (timeheap.p == old(timeheap.p) || fresh(timeheap.p))
        invariant Looping(all, turns, State(), rounds[i..], flags)
      {
        LoopStep(all, turns, State(), rounds[i..], flags);
        ClearContinue();
        if eventBreak {
          return Some(0), turns;
        }
        assert rounds[i..][1..] == rounds[i + 1..];
        ghost var more;
        retval, more := RunOneRound(rounds[i], flags);
        turns := turns + more;
        if retval.Some? {
          return;
        }
      }
      LoopStep(all, turns, State(), rounds[|rounds|..], flags);
      ClearContinue();
      retval := if eventBreak then Some(0) else None;
    }
  }

  /** What the loop still has to do, behind the turns taken so far. */
  ghost predicate Looping(all: Outcome, turns: seq<Turn>, b: Base, rounds: seq<EventBaseLoop.Round>, flags: Flags)
    requires Ok(b)
  {
    all == Behind(turns, Loop(b, rounds, flags))
  }

  lemma LoopStarts(b: Base, rounds: seq<EventBaseLoop.Round>, flags: Flags)
    requires Ok(b)
    ensures Looping(Loop(b, rounds, flags), [], b, rounds, flags)
  {
    assert [] + Loop(b, rounds, flags).turns == Loop(b, rounds, flags).turns;
  }

  lemma LoopStep(all: Outcome, turns: seq<Turn>, b: Base, rounds: seq<EventBaseLoop.Round>, flags: Flags)
    requires Ok(b) && Looping(all, turns, b, rounds, flags)
    ensures b.broken ==> all == Returned(0, b.(continued := false), turns)
    ensures !b.broken && rounds == [] ==> all == Running(b.(continued := false), turns)
    ensures !b.broken && rounds != [] ==>
      var (r, result, more) := OneRound(b.(continued := false), rounds[0], flags);
      if result.Some? then all == Returned(result.value, r, turns + more)
      else Looping(all, turns + more, r, rounds[1..], flags)
  {
    LoopUnfolded(b, rounds, flags);
    if b.broken || rounds == [] {
      assert turns + [] == turns;
    } else {
      var (r, result, more) := OneRound(b.(continued := false), rounds[0], flags);
      if result.None? {
        BehindTwice(turns, more, Loop(r, rounds[1..], flags));
      }
    }
  }

  /** No event is twice in the heap. */
  lemma NoneTwice(b: Base)
    requires Ok(b)
    ensures forall i, j :: 0 <= i < j < |b.heap| ==> b.heap[i] != b.heap[j]
  {
    forall i, j | 0 <= i < j < |b.heap| ensures b.heap[i] != b.heap[j] {
      MarkOf(b.heap, b.evs, Timers, b.heap[i]);
      assert b.heap == b.heap[..i] + [b.heap[i]] + b.heap[i + 1..j] + [b.heap[j]] + b.heap[j + 1..];
    }
  }

  /** What a round of the loop over queue `i` does. */
  ghost predicate Turned(b: Base, i: nat, script: seq<seq<EventOps.Op>>, user: bool, r: Base,
                         rest: seq<seq<EventOps.Op>>)
    requires Ok(b) && i < |b.activeq| && b.activeq[i] != []
  {
    var e := b.activeq[i][0];
    HeadIsActive(b, i);
    user == !b.evs[e].kind.internal && (r, rest) == Callback(Serve(b, e), script)
  }

  /** What is still to be done for the queue, on top of the turns taken so far. */
  ghost predicate Remaining(all: Served, turns: seq<Turn>, b: Base, i: nat, script: seq<seq<EventOps.Op>>, count: nat)
    requires Ok(b) && i < |b.activeq|
  {
    var s := SingleQueue(b, i, script, count);
    all == s.(turns := turns + s.turns)
  }

  /** The queue has been served, or what is still to be done. */
  ghost predicate Serving(over: bool, all: Served, turns: seq<Turn>, b: Base, i: nat,
                          script: seq<seq<EventOps.Op>>, count: int)
  {
    Ok(b) && i < |b.activeq| &&
    if over then all == Served(b, script, count, turns) else count >= 0 && Remaining(all, turns, b, i, script, count)
  }

  lemma ServingDone(over: bool, all: Served, turns: seq<Turn>, b: Base, i: nat,
                    script: seq<seq<EventOps.Op>>, count: int)
    requires Ok(b) && i < |b.activeq| && (over || b.activeq[i] == []) && Serving(over, all, turns, b, i, script, count)
    ensures all == Served(b, script, count, turns)
  {
    assert turns + [] == turns;
  }

  /** The first round of the loop over a queue, and the rest of it. */
  lemma FirstTurn(b: Base, i: nat, script: seq<seq<EventOps.Op>>, count: nat, user: bool, r: Base,
                  rest: seq<seq<EventOps.Op>>)
    requires Ok(b) && i < |b.activeq| && b.activeq[i] != []
    requires Ok(r) && |r.activeq| == |b.activeq| && Turned(b, i, script, user, r, rest)
    ensures var n := if user then count + 1 else count;
      var turn := Turn(b, i, b.activeq[i][0]);
      SingleQueue(b, i, script, count) ==
        if r.broken then Served(r, rest, -1, [turn])
        else if r.continued then Served(r, rest, n, [turn])
        else var s := SingleQueue(r, i, rest, n); s.(turns := [turn] + s.turns)
  {
    HeadIsActive(b, i);
  }

  /** The scripts get shorter, and when they have run out the queue does. */
  lemma TurnsEnd(b: Base, i: nat, script: seq<seq<EventOps.Op>>, user: bool, r: Base, rest: seq<seq<EventOps.Op>>)
    requires Ok(b) && i < |b.activeq| && b.activeq[i] != []
    requires Ok(r) && |r.activeq| == |b.activeq| && Turned(b, i, script, user, r, rest)
    ensures |rest| < |script| || (|rest| == |script| && |r.activeq[i]| < |b.activeq[i]|)
  {
    var e := b.activeq[i][0];
    HeadIsActive(b, i);
    ServeDequeues(b, e);
    RemovedLength(b.activeq[i], e);
  }

  lemma TurnStep(all: Served, turns: seq<Turn>, b: Base, i: nat, script: seq<seq<EventOps.Op>>, count: nat,
                 user: bool, r: Base, rest: seq<seq<EventOps.Op>>)
    requires Ok(b) && i < |b.activeq| && b.activeq[i] != [] && Remaining(all, turns, b, i, script, count)
    requires Ok(r) && |r.activeq| == |b.activeq| && Turned(b, i, script, user, r, rest)
    ensures var n := if user then count + 1 else count;
      var turns' := turns + [Turn(b, i, b.activeq[i][0])];
      && (r.broken ==> all == Served(r, rest, -1, turns'))
      && (!r.broken && r.continued ==> all == Served(r, rest, n, turns'))
      && (!r.broken && !r.continued ==> Remaining(all, turns', r, i, rest, n))
  {
    FirstTurn(b, i, script, count, user, r, rest);
    if !r.broken && !r.continued {
      var s := SingleQueue(r, i, rest, if user then count + 1 else count);
      MoreTurns(all, turns, SingleQueue(b, i, script, count), Turn(b, i, b.activeq[i][0]), s);
    }
  }

  /** A turn moves from what is still to be done to what has been done. */
  lemma MoreTurns(all: Served, turns: seq<Turn>, whole: Served, turn: Turn, s: Served)
    requires all == whole.(turns := turns + whole.turns) && whole == s.(turns := [turn] + s.turns)
    ensures all == s.(turns := turns + [turn] + s.turns)
  {
    assert turns + ([turn] + s.turns) == turns + [turn] + s.turns;
  }

  /** What has fired so far, and what the rest of the loop adds. */
  ghost predicate Firing(all: (Base, seq<Id>), fired: seq<Id>, b: Base)
    requires Ok(b)
  {
    all.0 == TimeoutProcess(b).0 && all.1 == fired + TimeoutProcess(b).1
  }

  lemma FiringStarts(b: Base)
    requires Ok(b)
    ensures Firing(TimeoutProcess(b), [], b)
  {
    assert [] + TimeoutProcess(b).1 == TimeoutProcess(b).1;
  }

  lemma FiringStep(all: (Base, seq<Id>), fired: seq<Id>, b: Base)
    requires Ok(b) && Firing(all, fired, b)
    ensures Stops(b) ==> all == (b, fired)
    ensures !Stops(b) ==> b.heap[0] < |b.evs|
    ensures !Stops(b) ==>
      Firing(all, fired + [b.heap[0]], Expire(b, b.heap[0])) && |Expire(b, b.heap[0]).heap| < |b.heap|
  {
    EventTimeouts.Round(b);
    if !Stops(b) {
      var e := b.heap[0];
      var more := TimeoutProcess(Expire(b, e)).1;
      assert fired + ([e] + more) == fired + [e] + more;
    } else {
      assert fired + [] == fired;
    }
  }

  lemma ListedInRange(b: Base, fd: int, report: Mask)
    requires Ok(b)
    ensures forall x :: x in Activated(IoOf(b.io, fd).events, report) ==> x.id < |b.evs|
  {
    ActivatedAre(IoOf(b.io, fd).events, report);
  }

  /** What is still to be done from queue `i` on, on top of the turns taken so far, comes to `all`. */
  ghost predicate Ahead(all: Served, turns: seq<Turn>, b: Base, i: nat, script: seq<seq<EventOps.Op>>)
  {
    Ok(b) && i <= |b.activeq| && all == Later(turns, ProcessFrom(b, i, script))
  }

  /** The same once a queue has given the count `c`, which ends the loop unless it is 0. */
  ghost predicate Processing(all: Served, turns: seq<Turn>, b: Base, i: nat, script: seq<seq<EventOps.Op>>, c: int)
  {
    Ok(b) && i <= |b.activeq| &&
    if c != 0 then all == Served(b.(running := -1), script, c, turns) else Ahead(all, turns, b, i, script)
  }

  lemma Processed(all: Served, turns: seq<Turn>, b: Base, i: nat, script: seq<seq<EventOps.Op>>, c: int)
    requires Ok(b) && i <= |b.activeq| && (i == |b.activeq| || c != 0) && Processing(all, turns, b, i, script, c)
    ensures all == Served(b.(running := -1), script, c, turns)
  {
    assert turns + [] == turns;
  }

  /** Queue `i` is served, and unless that ends the loop the others are ahead. */
  lemma AheadOf(all: Served, turns: seq<Turn>, b: Base, i: nat, script: seq<seq<EventOps.Op>>, s: Served)
    requires Ok(b) && i < |b.activeq| && b.activeq[i] != [] && s == SingleQueue(b.(running := i), i, script, 0)
    requires Ahead(all, turns, b, i, script)
    ensures s.count != 0 ==> all == s.(base := s.base.(running := -1), turns := turns + s.turns)
    ensures s.count == 0 ==> Ahead(all, turns + s.turns, s.base, i + 1, s.script)
  {
    NextQueue(b, i, script, s);
    if s.count == 0 {
      LaterTwice(turns, s.turns, ProcessFrom(s.base, i + 1, s.script));
    }
  }

  lemma AheadOfAll(b: Base, script: seq<seq<EventOps.Op>>)
    requires Ok(b)
    ensures Processing(ProcessActive(b, script), [], b, 0, script, 0)
  {
    var s := ProcessFrom(b, 0, script);
    assert [] + s.turns == s.turns;
  }
}
