/**
  The active queues of event.c, which are served by priority, with callbacks that re-enter. A callback
  is a finite sequence of public operations, and the scripts say what the callbacks in turn do; when
  they have run out, callbacks do nothing. A `Turn` is the base at the moment when an event is taken
  from a queue. There is no priority inversion when all queues before that one are empty in every turn;
  for this internal events must be in the first queue or in the last, since they are not counted and
  do not make the loop start over.
  */
module EventLoop {
  import opened Common
  import opened EventOps
  import opened EventQueue
  import opened MinHeap
  import opened TimeVal

  // ---------- event_persist_closure ----------

  /** When a persistent event runs next: an interval after it was due, or after now if that has been missed. */
  function RunAt(deadline: Time, timedOut: bool, interval: Time, now: Time): Time {
    var runAt := Sum(if timedOut then deadline else now, interval);
    if Less(runAt, now) then Sum(now, interval) else runAt
  }

  /**
    It is never scheduled for a time that has passed, nor later than an interval from now unless that is
    when it is due.
    */
  lemma NeverBeforeNow(deadline: Timeval, timedOut: bool, interval: Timeval, now: Timeval)
    requires Normal(deadline) && Normal(interval) && Normal(now) && interval.sec >= 0
    ensures AtMost(now, RunAt(deadline, timedOut, interval, now)) && Normal(RunAt(deadline, timedOut, interval, now))
    ensures timedOut && Micros(deadline) + Micros(interval) >= Micros(now) ==>
      Micros(RunAt(deadline, timedOut, interval, now)) == Micros(deadline) + Micros(interval)
    ensures !timedOut || Micros(deadline) + Micros(interval) < Micros(now) ==>
      Micros(RunAt(deadline, timedOut, interval, now)) == Micros(now) + Micros(interval)
  {
    NormalArithmetic(if timedOut then deadline else now, interval);
    NormalArithmetic(now, interval);
    NormalArithmetic(Sum(if timedOut then deadline else now, interval), now);
    NormalArithmetic(now, RunAt(deadline, timedOut, interval, now));
  }

  function PersistClosure(b: Base, e: Id): (r: Base)
    requires Ok(b) && e < |b.evs|
    ensures Ok(r) && |r.evs| == |b.evs| && Only(b, r, e, r.evs[e])
  {
    var ev := b.evs[e];
    if ev.ioTimeout.sec != 0 || ev.ioTimeout.usec != 0 then
      AddInternal(b, e, Some(RunAt(b.deadline[e], ev.res.timeout, ev.ioTimeout, b.now)), true).0
    else b
  }

  // ---------- one queue ----------

  /** The state in which an event is taken from an active queue. */
  datatype Turn = Turn(before: Base, queue: nat, e: Id)

  /** The base and the callbacks left over afterwards, the result, and the turns taken. */
  datatype Served = Served(base: Base, script: seq<seq<Op>>, count: int, turns: seq<Turn>)

  lemma HeadIsActive(b: Base, i: nat)
    requires Ok(b) && i < |b.activeq| && b.activeq[i] != []
    ensures var e := b.activeq[i][0];
      e < |b.evs| && b.evs[e].active && b.evs[e].pri == i
  {
    assert Look(i);
    MarkOf(b.activeq[i], b.evs, Active(i), b.activeq[i][0]);
  }

  /** An event is taken off the queue: a persistent one stays inserted and keeps its timer. */
  function Take(b: Base, e: Id): (r: Base)
    requires Ok(b) && e < |b.evs| && b.evs[e].active
    ensures Ok(r) && |r.evs| == |b.evs| && Only(b, r, e, r.evs[e]) && !r.evs[e].active
  {
    if b.evs[e].kind.persist then Deactivate(b, e) else DelInternal(b, e)
  }

  function Serve(b: Base, e: Id): (r: Base)
    requires Ok(b) && e < |b.evs| && b.evs[e].active
    ensures Ok(r) && |r.evs| == |b.evs| && |r.activeq| == |b.activeq| && r.running == b.running
  {
    var b1 := Take(b, e);
    if b.evs[e].kind.persist then PersistClosure(b1, e) else b1
  }

  /** The callback: the next operations of the script, or none when it has run out. */
  function Callback(b: Base, script: seq<seq<Op>>): (r: (Base, seq<seq<Op>>))
    requires Ok(b)
    ensures Ok(r.0) && |r.0.activeq| == |b.activeq| && r.0.running == b.running
  {
    if script == [] then (b, []) else (Run(b, script[0]), script[1..])
  }

  /** Serving an event takes it, and nothing else, off the active queues. */
  lemma ServeDequeues(b: Base, e: Id)
    requires Ok(b) && e < |b.evs| && b.evs[e].active && b.evs[e].pri < |b.activeq|
    ensures Serve(b, e).activeq == b.activeq[b.evs[e].pri := Removed(b.activeq[b.evs[e].pri], e)]
    ensures Serve(b, e).continued == b.continued && Serve(b, e).broken == b.broken
  {
    TakeDequeues(b, e);
    var b1 := Take(b, e);
    if b.evs[e].kind.persist {
      var ev := b1.evs[e];
      AddLeavesQueues(b1, e, Some(RunAt(b1.deadline[e], ev.res.timeout, ev.ioTimeout, b1.now)), true);
    }
  }

  lemma TakeDequeues(b: Base, e: Id)
    requires Ok(b) && e < |b.evs| && b.evs[e].active && b.evs[e].pri < |b.activeq|
    ensures Take(b, e).activeq == b.activeq[b.evs[e].pri := Removed(b.activeq[b.evs[e].pri], e)]
    ensures Take(b, e).continued == b.continued && Take(b, e).broken == b.broken
  {
    if !b.evs[e].kind.persist {
      DelDequeues(b, e);
    }
  }

  lemma DelDequeues(b: Base, e: Id)
    requires Ok(b) && e < |b.evs| && b.evs[e].pri < |b.activeq|
    ensures DelInternal(b, e).activeq ==
      if b.evs[e].active then b.activeq[b.evs[e].pri := Removed(b.activeq[b.evs[e].pri], e)] else b.activeq
    ensures DelInternal(b, e).continued == b.continued
  {
    var b1 := StopTimer(b, e);
    assert b1.activeq == b.activeq && b1.continued == b.continued;
    var b2 := Deactivate(b1, e);
    assert b2.continued == b.continued;
    assert Withdraw(b2, e).activeq == b2.activeq && Withdraw(b2, e).continued == b.continued;
  }

  lemma UnscheduleDequeues(b: Base, e: Id)
    requires Ok(b) && e < |b.evs| && b.evs[e].pri < |b.activeq|
    ensures Unschedule(b, e).activeq ==
      if TimedOut(b.evs[e]) then b.activeq[b.evs[e].pri := Removed(b.activeq[b.evs[e].pri], e)] else b.activeq
    ensures Unschedule(b, e).continued == b.continued
  {
    var b1 := StopTimer(b, e);
    assert b1.activeq == b.activeq && b1.continued == b.continued;
  }

  /**
    Adding an event takes it off its active queue if it is there because of its last timeout; no other
    queue changes.
    */
  lemma AddDequeues(b: Base, e: Id, tv: Option<Time>, absolute: bool)
    requires Ok(b) && e < |b.evs| && b.evs[e].pri < |b.activeq|
    ensures var r := AddInternal(b, e, tv, absolute).0;
      && (r.activeq == b.activeq
          || (TimedOut(b.evs[e]) && r.activeq == b.activeq[b.evs[e].pri := Removed(b.activeq[b.evs[e].pri], e)]))
      && r.continued == b.continued
  {
    var (b1, res) := Register(b, e);
    assert b1.activeq == b.activeq && b1.continued == b.continued;
    assert b1.evs[e].pri == b.evs[e].pri && TimedOut(b1.evs[e]) == TimedOut(b.evs[e]);
    if res != -1 && tv.Some? {
      ScheduleDequeues(b1, e, tv.value, absolute);
    }
  }

  lemma ScheduleDequeues(b: Base, e: Id, tv: Time, absolute: bool)
    requires Ok(b) && e < |b.evs| && b.evs[e].pri < |b.activeq|
    ensures Schedule(b, e, tv, absolute).activeq ==
      if TimedOut(b.evs[e]) then b.activeq[b.evs[e].pri := Removed(b.activeq[b.evs[e].pri], e)] else b.activeq
    ensures Schedule(b, e, tv, absolute).continued == b.continued
  {
    var at := if absolute then tv else Sum(b.now, tv);
    if b.evs[e].kind.persist && !absolute {
      RestartDequeues(Remember(b, e, tv), e, at);
    } else {
      RestartDequeues(b, e, at);
    }
  }

  lemma RestartDequeues(b: Base, e: Id, at: Time)
    requires Ok(b) && e < |b.evs| && b.evs[e].pri < |b.activeq|
    ensures Restart(b, e, at).activeq ==
      if TimedOut(b.evs[e]) then b.activeq[b.evs[e].pri := Removed(b.activeq[b.evs[e].pri], e)] else b.activeq
    ensures Restart(b, e, at).continued == b.continued
  {
    UnscheduleDequeues(b, e);
  }

  lemma AddLeavesQueues(b: Base, e: Id, tv: Option<Time>, absolute: bool)
    requires Ok(b) && e < |b.evs| && !b.evs[e].active
    ensures var r := AddInternal(b, e, tv, absolute).0;
      r.activeq == b.activeq && r.continued == b.continued
  {
    PriorityInRange(b, e);
    AddDequeues(b, e, tv, absolute);
  }

  /** `event_process_active_single_queue`: -1 after event_base_loopbreak, else the user events processed. */
  function SingleQueue(b: Base, i: nat, script: seq<seq<Op>>, count: nat): (s: Served)
    requires Ok(b) && i < |b.activeq|
    ensures Ok(s.base) && |s.base.activeq| == |b.activeq|
    decreases |script|, |b.activeq[i]|
  {
    if b.activeq[i] == [] then Served(b, script, count, [])
    else
      var e := b.activeq[i][0];
      HeadIsActive(b, i);
      var n := if b.evs[e].kind.internal then count else count + 1;
      var (b1, rest) := Callback(Serve(b, e), script);
      var turn := Turn(b, i, e);
      if b1.broken then Served(b1, rest, -1, [turn])
      else if b1.continued then Served(b1, rest, n, [turn])
      else
        ServeDequeues(b, e);
        RemovedLength(b.activeq[i], e);
        var s := SingleQueue(b1, i, rest, n);
        s.(turns := [turn] + s.turns)
  }

  // ---------- all queues ----------

  /** `event_process_active` from queue `i` on. */
  function ProcessFrom(b: Base, i: nat, script: seq<seq<Op>>): (s: Served)
    requires Ok(b) && i <= |b.activeq|
    ensures Ok(s.base) && |s.base.activeq| == |b.activeq|
    decreases |b.activeq| - i
  {
    if i == |b.activeq| then Served(b.(running := -1), script, 0, [])
    else if b.activeq[i] == [] then ProcessFrom(b, i + 1, script)
    else
      var s := SingleQueue(b.(running := i), i, script, 0);
      if s.count != 0 then s.(base := s.base.(running := -1))
      else
        var t := ProcessFrom(s.base, i + 1, s.script);
        t.(turns := s.turns + t.turns)
  }

  function ProcessActive(b: Base, script: seq<seq<Op>>): (s: Served)
    requires Ok(b)
    ensures Ok(s.base) && |s.base.activeq| == |b.activeq|
  {
    ProcessFrom(b, 0, script)
  }

  // ---------- priorities ----------

  /** The queues of smaller number, which go first, are empty. */
  ghost predicate LowerEmpty(b: Base, i: int) {
    forall j {:trigger Look(j)} :: Look(j) && 0 <= j < i && j < |b.activeq| ==> b.activeq[j] == []
  }

  /**
    While queue `i` runs: either nothing more urgent is active, or the loop has been told to stop.
    No queue runs when `i` is below 0.
    */
  ghost predicate Urgent(b: Base, i: int) {
    b.running == i && (b.continued || LowerEmpty(b, i)) && (i <= 0 ==> !b.continued)
  }

  /** Internal events are in the first queue, as all those of the library are, or in the last one. */
  ghost predicate InternalAtEnds(b: Base) {
    forall e {:trigger Look(e)} :: Look(e) && 0 <= e < |b.evs| && b.evs[e].kind.internal ==>
      b.evs[e].pri == 0 || b.evs[e].pri == |b.activeq| - 1
  }

  lemma OnlyKeepsInternalAtEnds(b: Base, r: Base, e: Id)
    requires InternalAtEnds(b) && e < |b.evs| == |r.evs| && Only(b, r, e, r.evs[e]) && r.evs[e].pri == b.evs[e].pri
    ensures InternalAtEnds(r)
  {
  }

  /** Taking an event off a queue makes no queue longer. */
  lemma DequeueKeepsUrgent(b: Base, r: Base, p: nat, e: Id, i: int)
    requires Urgent(b, i) && r.running == b.running && r.continued == b.continued && p < |b.activeq|
    requires r.activeq == b.activeq || r.activeq == b.activeq[p := Removed(b.activeq[p], e)]
    ensures Urgent(r, i)
  {
    if !b.continued {
      forall j | 0 <= j < i && j < |r.activeq| ensures r.activeq[j] == [] {
        assert Look(j);
      }
    }
  }

  lemma ActivateKeepsUrgent(b: Base, e: Id, res: Reason, i: int)
    requires Ok(b) && e < |b.evs| && Urgent(b, i)
    ensures Urgent(ActiveNolock(b, e, res), i)
    ensures InternalAtEnds(b) ==> InternalAtEnds(ActiveNolock(b, e, res))
  {
    var r := ActiveNolock(b, e, res);
    PriorityInRange(b, e);
    if !b.evs[e].active {
      var marked := Mark(b, e, res);
      assert r == InsertActive(marked, e);
      assert r.continued == (b.continued || b.evs[e].pri < i);
      assert b.evs[e].pri >= i ==> forall j :: 0 <= j < i && j < |r.activeq| ==> r.activeq[j] == b.activeq[j];
    }
  }

  lemma AddKeepsUrgent(b: Base, e: Id, tv: Option<Time>, i: int)
    requires Ok(b) && Urgent(b, i) && InternalAtEnds(b) && e < |b.evs|
    ensures Urgent(AddInternal(b, e, tv, false).0, i) && InternalAtEnds(AddInternal(b, e, tv, false).0)
  {
    var r := AddInternal(b, e, tv, false).0;
    PriorityInRange(b, e);
    AddDequeues(b, e, tv, false);
    DequeueKeepsUrgent(b, r, b.evs[e].pri, e, i);
    AddKeepsPriority(b, e, tv, false);
    OnlyKeepsInternalAtEnds(b, r, e);
  }

  lemma DelKeepsUrgent(b: Base, e: Id, i: int)
    requires Ok(b) && Urgent(b, i) && InternalAtEnds(b) && e < |b.evs|
    ensures Urgent(DelInternal(b, e), i) && InternalAtEnds(DelInternal(b, e))
  {
    PriorityInRange(b, e);
    DelDequeues(b, e);
    DequeueKeepsUrgent(b, DelInternal(b, e), b.evs[e].pri, e, i);
    OnlyKeepsInternalAtEnds(b, DelInternal(b, e), e);
  }

  lemma ExecKeepsUrgent(b: Base, op: Op, i: int)
    requires Ok(b) && Urgent(b, i) && InternalAtEnds(b)
    ensures Urgent(Exec(b, op), i) && InternalAtEnds(Exec(b, op))
  {
    if op.AddOp? && op.e < |b.evs| {
      AddKeepsUrgent(b, op.e, op.tv, i);
    } else if op.DelOp? && op.e < |b.evs| {
      DelKeepsUrgent(b, op.e, i);
    } else if op.ActiveOp? && op.e < |b.evs| {
      ActivateKeepsUrgent(b, op.e, op.res, i);
    } else {
      OtherKeepsUrgent(b, op, i);
    }
  }

  lemma OtherKeepsUrgent(b: Base, op: Op, i: int)
    requires Ok(b) && Urgent(b, i) && InternalAtEnds(b)
    requires (op.AddOp? || op.DelOp? || op.ActiveOp?) ==> op.e >= |b.evs|
    ensures Urgent(Exec(b, op), i) && InternalAtEnds(Exec(b, op))
  {
    match op
    case AssignOp(kind) =>
      AssignKeepsUrgent(b, kind.(internal := false), i);
    case PriorityOp(e, pri) =>
      if e < |b.evs| && !b.evs[e].kind.internal {
        PriorityKeepsUrgent(b, e, pri, i);
      }
    case _ =>
  }

  lemma AssignKeepsUrgent(b: Base, kind: Kind, i: int)
    requires Ok(b) && Urgent(b, i) && InternalAtEnds(b) && !kind.internal
    ensures Urgent(Assign(b, kind), i) && InternalAtEnds(Assign(b, kind))
  {
  }

  lemma PriorityKeepsUrgent(b: Base, e: Id, pri: int, i: int)
    requires Ok(b) && Urgent(b, i) && InternalAtEnds(b) && e < |b.evs| && !b.evs[e].kind.internal
    ensures Urgent(PrioritySet(b, e, pri).0, i) && InternalAtEnds(PrioritySet(b, e, pri).0)
  {
  }

  lemma AddKeepsPriority(b: Base, e: Id, tv: Option<Time>, absolute: bool)
    requires Ok(b) && e < |b.evs|
    ensures AddInternal(b, e, tv, absolute).0.evs[e].pri == b.evs[e].pri
  {
  }

  lemma {:induction false} RunKeepsUrgent(b: Base, ops: seq<Op>, i: int)
    requires Ok(b) && Urgent(b, i) && InternalAtEnds(b)
    ensures Urgent(Run(b, ops), i) && InternalAtEnds(Run(b, ops))
    decreases |ops|
  {
    if ops != [] {
      ExecKeepsUrgent(b, ops[0], i);
      RunKeepsUrgent(Exec(b, ops[0]), ops[1..], i);
    }
  }

  lemma ServeKeepsUrgent(b: Base, e: Id, i: int)
    requires Ok(b) && Urgent(b, i) && InternalAtEnds(b) && e < |b.evs| && b.evs[e].active
    ensures Urgent(Serve(b, e), i) && InternalAtEnds(Serve(b, e))
  {
    PriorityInRange(b, e);
    ServeDequeues(b, e);
    DequeueKeepsUrgent(b, Serve(b, e), b.evs[e].pri, e, i);
    ServeKeepsPriority(b, e);
    OnlyKeepsInternalAtEnds(b, Serve(b, e), e);
  }

  lemma ServeKeepsPriority(b: Base, e: Id)
    requires Ok(b) && e < |b.evs| && b.evs[e].active
    ensures Only(b, Serve(b, e), e, Serve(b, e).evs[e]) && Serve(b, e).evs[e].pri == b.evs[e].pri
  {
    var b1 := Take(b, e);
    if b.evs[e].kind.persist {
      var ev := b1.evs[e];
      AddKeepsPriority(b1, e, Some(RunAt(b1.deadline[e], ev.res.timeout, ev.ioTimeout, b1.now)), true);
      OnlyTwice(b, b1, Serve(b, e), e, Serve(b, e).evs[e]);
    }
  }

  lemma TurnKeepsUrgent(b: Base, e: Id, i: int, script: seq<seq<Op>>)
    requires Ok(b) && Urgent(b, i) && InternalAtEnds(b) && e < |b.evs| && b.evs[e].active
    ensures Urgent(Callback(Serve(b, e), script).0, i) && InternalAtEnds(Callback(Serve(b, e), script).0)
  {
    ServeKeepsUrgent(b, e, i);
    if script != [] {
      RunKeepsUrgent(Serve(b, e), script[0], i);
    }
  }

  /** Every turn is taken when all more urgent queues are empty. */
  ghost predicate NoInversion(turns: seq<Turn>) {
    forall t :: t in turns ==> LowerEmpty(t.before, t.queue)
  }

  /** The loop may go on behind queue `i`: it was the first one and is empty now, or there is none behind it. */
  ghost predicate MayGoOn(b: Base, i: nat) {
    i == |b.activeq| - 1 || (i == 0 && !b.continued && LowerEmpty(b, 1))
  }

  /** What serving queue `i` comes to; when only internal events have been served, the loop may go on. */
  ghost predicate ServedInOrder(s: Served, i: nat, some: bool) {
    NoInversion(s.turns) && InternalAtEnds(s.base) && (s.count == 0 && some ==> MayGoOn(s.base, i))
  }

  lemma {:induction false} QueueHasNoInversion(b: Base, i: nat, script: seq<seq<Op>>, count: nat)
    requires Ok(b) && i < |b.activeq| && Urgent(b, i) && InternalAtEnds(b) && !b.continued
    ensures ServedInOrder(SingleQueue(b, i, script, count), i, b.activeq[i] != [] || count > 0)
    decreases |script|, |b.activeq[i]|
  {
    if b.activeq[i] != [] {
      var e := b.activeq[i][0];
      HeadIsActive(b, i);
      assert b.evs[e].kind.internal ==> i == 0 || i == |b.activeq| - 1 by {
        assert Look(e);
      }
      var n := if b.evs[e].kind.internal then count else count + 1;
      var (b1, rest) := Callback(Serve(b, e), script);
      OneTurn(b, i, script, count, n, b1, rest);
      assert Urgent(b1, i) && InternalAtEnds(b1) by {
        TurnKeepsUrgent(b, e, i, script);
      }
      if b1.broken || b1.continued {
        LastInOrder(Turn(b, i, e), b1, rest, if b1.broken then -1 else n, i);
      } else {
        var s := SingleQueue(b1, i, rest, n);
        assert ServedInOrder(s, i, b1.activeq[i] != [] || n > 0) by {
          QueueHasNoInversion(b1, i, rest, n);
        }
        MoreInOrder(Turn(b, i, e), s, i, b1.activeq[i] != [] || n > 0);
      }
    }
  }

  /** What is behind the first turn: nothing, or the rest of the queue and of the script, which is less. */
  lemma OneTurn(b: Base, i: nat, script: seq<seq<Op>>, count: nat, n: nat, b1: Base, rest: seq<seq<Op>>)
    requires Ok(b) && i < |b.activeq| && b.activeq[i] != []
    requires var e := b.activeq[i][0];
      && e < |b.evs| && b.evs[e].active && n == (if b.evs[e].kind.internal then count else count + 1)
      && (b1, rest) == Callback(Serve(b, e), script)
    ensures var turn := Turn(b, i, b.activeq[i][0]);
      SingleQueue(b, i, script, count) ==
        if b1.broken then Served(b1, rest, -1, [turn])
        else if b1.continued then Served(b1, rest, n, [turn])
        else SingleQueue(b1, i, rest, n).(turns := [turn] + SingleQueue(b1, i, rest, n).turns)
    ensures |rest| < |script| || (rest == script && |b1.activeq[i]| < |b.activeq[i]|)
  {
    var e := b.activeq[i][0];
    HeadIsActive(b, i);
    ServeDequeues(b, e);
    RemovedLength(b.activeq[i], e);
  }

  /** The only turn, when its callback has told the loop to stop. */
  lemma LastInOrder(turn: Turn, b: Base, rest: seq<seq<Op>>, count: int, i: nat)
    requires Urgent(b, i) && InternalAtEnds(b) && i < |b.activeq| && LowerEmpty(turn.before, turn.queue)
    requires (b.broken && count == -1) || (b.continued && (count == 0 ==> i == 0 || i == |b.activeq| - 1))
    ensures ServedInOrder(Served(b, rest, count, [turn]), i, true)
  {
  }

  /** One more turn in front; without a turn of a user event behind it, the queue has just become empty. */
  lemma MoreInOrder(turn: Turn, s: Served, i: nat, some: bool)
    requires ServedInOrder(s, i, some) && LowerEmpty(turn.before, turn.queue)
    requires s.count == 0 && !some ==> MayGoOn(s.base, i)
    ensures ServedInOrder(s.(turns := [turn] + s.turns), i, true)
  {
  }

  lemma {:induction false} ProcessHasNoInversion(b: Base, i: nat, script: seq<seq<Op>>)
    requires Ok(b) && i <= |b.activeq| && InternalAtEnds(b) && LowerEmpty(b, i) && !b.continued
    ensures AllInOrder(ProcessFrom(b, i, script))
    decreases |b.activeq| - i, 1
  {
    if i == |b.activeq| {
      NothingLeft(b, script);
    } else if b.activeq[i] == [] {
      EmptySkipped(b, i, script);
      ProcessHasNoInversion(b, i + 1, script);
    } else {
      QueueThenOthers(b, i, script);
    }
  }

  lemma NextQueue(b: Base, i: nat, script: seq<seq<Op>>, s: Served)
    requires Ok(b) && i < |b.activeq| && b.activeq[i] != [] && s == SingleQueue(b.(running := i), i, script, 0)
    ensures ProcessFrom(b, i, script) ==
      if s.count != 0 then s.(base := s.base.(running := -1))
      else Later(s.turns, ProcessFrom(s.base, i + 1, s.script))
  {
  }

  function Later(turns: seq<Turn>, s: Served): Served {
    s.(turns := turns + s.turns)
  }

  lemma LaterTwice(a: seq<Turn>, b: seq<Turn>, s: Served)
    ensures Later(a, Later(b, s)) == Later(a + b, s)
  {
    assert a + (b + s.turns) == a + b + s.turns;
  }

  lemma EmptySkipped(b: Base, i: nat, script: seq<seq<Op>>)
    requires Ok(b) && i < |b.activeq| && b.activeq[i] == []
    ensures ProcessFrom(b, i, script) == ProcessFrom(b, i + 1, script)
    ensures LowerEmpty(b, i) ==> LowerEmpty(b, i + 1)
  {
  }

  lemma NothingLeft(b: Base, script: seq<seq<Op>>)
    requires Ok(b) && InternalAtEnds(b)
    ensures AllInOrder(ProcessFrom(b, |b.activeq|, script))
  {
  }

  ghost predicate AllInOrder(s: Served) {
    NoInversion(s.turns) && InternalAtEnds(s.base) && s.base.running == -1
  }

  /** The step of its loop at a queue that is not empty. */
  lemma {:induction false} QueueThenOthers(b: Base, i: nat, script: seq<seq<Op>>)
    requires Ok(b) && i < |b.activeq| && InternalAtEnds(b) && LowerEmpty(b, i) && !b.continued && b.activeq[i] != []
    ensures AllInOrder(ProcessFrom(b, i, script))
    decreases |b.activeq| - i, 0
  {
    var b1 := b.(running := i);
    var s := SingleQueue(b1, i, script, 0);
    QueueHasNoInversion(b1, i, script, 0);
    if s.count == 0 {
      if i + 1 < |b.activeq| {
        ProcessHasNoInversion(s.base, i + 1, s.script);
      }
      OthersBehind(s, ProcessFrom(s.base, i + 1, s.script));
    }
  }

  lemma OthersBehind(s: Served, t: Served)
    requires NoInversion(s.turns) && AllInOrder(t)
    ensures AllInOrder(t.(turns := s.turns + t.turns))
  {
  }

  /**
    Whatever events the callbacks add, delete, activate or give another priority, an event is taken
    from an active queue only when all queues of smaller number are empty.
    */
  lemma NoPriorityInversion(b: Base, script: seq<seq<Op>>)
    requires Ok(b) && InternalAtEnds(b) && !b.continued
    ensures AllInOrder(ProcessActive(b, script))
  {
    ProcessHasNoInversion(b, 0, script);
  }
}
