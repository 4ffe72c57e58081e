/**
  What event.c asks of evmap for one descriptor. Each function `By...` collects the requests that a part of
  the program makes: a public operation, serving a queue with the callbacks in between, the timeouts, a
  round of the loop, the whole loop. The lemma beside it says that evmap may be asked all that in turn, and
  that it takes the descriptor from its state before to the state behind.
  */
module EventRequests {
  import opened Common
  import opened EventBaseLoop
  import opened EventClock
  import opened EventLoop
  import opened EventOps
  import opened EventQueue
  import opened EventTimeouts
  import opened Evmap
  import opened MinHeap
  import opened TimeVal

  // ---------- requests and the list of the descriptor ----------

  predicate MayAsk(io: Io, step: Step) {
    Allowed(Fd(io, None, None), step)
  }

  function AfterAsking(io: Io, step: Step): Io
    requires MayAsk(io, step)
  {
    Deferred(0, Fd(io, None, None), step).io
  }

  /** All requests may be made in turn, and the list becomes `to`. */
  predicate Leads(io: Io, steps: seq<Step>, to: Io)
    decreases |steps|
  {
    if steps == [] then io == to
    else MayAsk(io, steps[0]) && Leads(AfterAsking(io, steps[0]), steps[1..], to)
  }

  lemma {:induction false} LeadsOn(io: Io, first: seq<Step>, mid: Io, more: seq<Step>, to: Io)
    requires Leads(io, first, mid) && Leads(mid, more, to)
    ensures Leads(io, first + more, to)
    decreases |first|
  {
    if first == [] {
      assert first + more == more;
    } else {
      LeadsOn(AfterAsking(io, first[0]), first[1..], mid, more, to);
      assert (first + more)[0] == first[0] && (first + more)[1..] == first[1..] + more;
    }
  }

  /** What has been registered with the kernel and what is pending make no difference to that. */
  lemma {:induction false} LeadsDeferred(n: int, d: Fd, steps: seq<Step>, to: Io)
    requires Leads(d.io, steps, to)
    ensures History(n, d, steps) && RunDeferred(n, d, steps).io == to
    decreases |steps|
  {
    if steps != [] {
      assert Deferred(n, d, steps[0]).io == AfterAsking(d.io, steps[0]);
      LeadsDeferred(n, Deferred(n, d, steps[0]), steps[1..], to);
    }
  }

  lemma LeadsOne(io: Io, step: Step)
    requires MayAsk(io, step)
    ensures Leads(io, [step], AfterAsking(io, step))
  {
    assert [step][1..] == [];
  }

  // ---------- event_add and event_del ----------

  function ByAdd(b: Base, e: Id, fd: int): seq<Step>
    requires e < |b.evs|
  {
    var ev := b.evs[e];
    if Polls(ev.kind) && !ev.inserted && !ev.active && ev.kind.fd == fd then [Step.Add(Seen(e, ev.kind))] else []
  }

  function ByDel(b: Base, e: Id, fd: int): seq<Step>
    requires e < |b.evs|
  {
    if b.evs[e].inserted && b.evs[e].kind.fd == fd then [Step.Del(Seen(e, b.evs[e].kind))] else []
  }

  lemma ScheduleKeepsIo(b: Base, e: Id, tv: Time, absolute: bool)
    requires Ok(b) && e < |b.evs|
    ensures Schedule(b, e, tv, absolute).io == b.io
  {
    var at := if absolute then tv else Sum(b.now, tv);
    if b.evs[e].kind.persist && !absolute {
      RestartKeepsIo(Remember(b, e, tv), e, at);
    } else {
      RestartKeepsIo(b, e, at);
    }
  }

  lemma RestartKeepsIo(b: Base, e: Id, at: Time)
    requires Ok(b) && e < |b.evs|
    ensures Restart(b, e, at).io == b.io
  {
    var b1 := StopTimer(b, e);
    assert b1.io == b.io && Unschedule(b, e).io == b.io;
  }

  lemma AddChangesIo(b: Base, e: Id, tv: Option<Time>, absolute: bool)
    requires Ok(b) && e < |b.evs|
    ensures AddInternal(b, e, tv, absolute).0.io == Register(b, e).0.io
  {
    var (b1, res) := Register(b, e);
    if res != -1 && tv.Some? {
      ScheduleKeepsIo(b1, e, tv.value, absolute);
    }
  }

  lemma AddLeads(b: Base, e: Id, tv: Option<Time>, absolute: bool, fd: nat)
    requires Ok(b) && e < |b.evs|
    ensures Leads(IoOf(b.io, fd), ByAdd(b, e, fd), IoOf(AddInternal(b, e, tv, absolute).0.io, fd))
  {
    var io, step := IoOf(b.io, fd), Step.Add(Seen(e, b.evs[e].kind));
    assert AddInternal(b, e, tv, absolute).0.io == Register(b, e).0.io by {
      AddChangesIo(b, e, tv, absolute);
    }
    if ByAdd(b, e, fd) != [] {
      assert MayAsk(io, step) by {
        NotListedYet(b, e);
      }
      LeadsOne(io, step);
    }
  }

  lemma WithdrawChangesIo(b: Base, e: Id)
    requires Ok(b) && e < |b.evs|
    requires b.evs[e].kind.fd >= 0 && b.evs[e].inserted ==>
      var io := IoOf(b.io, b.evs[e].kind.fd);
      io.nread >= One(b.evs[e].kind.read) && io.nwrite >= One(b.evs[e].kind.write)
    ensures Withdraw(b, e).io ==
      var kind := b.evs[e].kind;
      if b.evs[e].inserted && kind.fd >= 0 then b.io[kind.fd := Deleted(IoOf(b.io, kind.fd), Seen(e, kind))] else b.io
  {
  }

  lemma StopsKeepIo(b: Base, e: Id)
    requires Ok(b) && e < |b.evs|
    ensures Deactivate(StopTimer(b, e), e).io == b.io
  {
    var b1 := StopTimer(b, e);
    assert b1.io == b.io;
  }

  lemma DelChangesIo(b: Base, e: Id)
    requires Ok(b) && e < |b.evs|
    requires b.evs[e].kind.fd >= 0 && b.evs[e].inserted ==>
      var io := IoOf(b.io, b.evs[e].kind.fd);
      io.nread >= One(b.evs[e].kind.read) && io.nwrite >= One(b.evs[e].kind.write)
    ensures DelInternal(b, e).io ==
      var kind := b.evs[e].kind;
      if b.evs[e].inserted && kind.fd >= 0 then b.io[kind.fd := Deleted(IoOf(b.io, kind.fd), Seen(e, kind))] else b.io
  {
    StopsKeepIo(b, e);
    WithdrawChangesIo(Deactivate(StopTimer(b, e), e), e);
  }

  lemma DelListed(b: Base, e: Id, fd: nat)
    requires Ok(b) && e < |b.evs|
    requires b.evs[e].kind.fd == fd && b.evs[e].inserted ==>
      IoOf(b.io, fd).nread >= One(b.evs[e].kind.read) && IoOf(b.io, fd).nwrite >= One(b.evs[e].kind.write)
    ensures IoOf(DelInternal(b, e).io, fd) ==
      if b.evs[e].inserted && b.evs[e].kind.fd == fd then Deleted(IoOf(b.io, fd), Seen(e, b.evs[e].kind))
      else IoOf(b.io, fd)
  {
    if b.evs[e].kind.fd >= 0 && b.evs[e].inserted {
      ListedNow(b, e);
    }
    DelChangesIo(b, e);
  }

  lemma DelLeads(b: Base, e: Id, fd: nat)
    requires Ok(b) && e < |b.evs|
    ensures Leads(IoOf(b.io, fd), ByDel(b, e, fd), IoOf(DelInternal(b, e).io, fd))
  {
    var io, step := IoOf(b.io, fd), Step.Del(Seen(e, b.evs[e].kind));
    var asks := b.evs[e].inserted && b.evs[e].kind.fd == fd;
    assert asks ==> MayAsk(io, step) by {
      if asks {
        ListedNow(b, e);
      }
    }
    assert IoOf(DelInternal(b, e).io, fd) == if asks then AfterAsking(io, step) else io by {
      DelListed(b, e, fd);
    }
    if asks {
      LeadsOne(io, step);
    }
  }

  // ---------- public operations ----------

  function ByOp(b: Base, op: Op, fd: int): seq<Step> {
    match op
    case AddOp(e, _) => if e < |b.evs| then ByAdd(b, e, fd) else []
    case DelOp(e) => if e < |b.evs| then ByDel(b, e, fd) else []
    case _ => []
  }

  function ByOps(b: Base, ops: seq<Op>, fd: int): seq<Step>
    requires Ok(b)
    decreases |ops|
  {
    if ops == [] then [] else ByOp(b, ops[0], fd) + ByOps(Exec(b, ops[0]), ops[1..], fd)
  }

  lemma OpLeads(b: Base, op: Op, fd: nat)
    requires Ok(b)
    ensures Leads(IoOf(b.io, fd), ByOp(b, op, fd), IoOf(Exec(b, op).io, fd))
  {
    if op.AddOp? && op.e < |b.evs| {
      AddLeads(b, op.e, op.tv, false, fd);
    } else if op.DelOp? && op.e < |b.evs| {
      DelLeads(b, op.e, fd);
    } else {
      OthersKeepIo(b, op);
    }
  }

  lemma OthersKeepIo(b: Base, op: Op)
    requires Ok(b) && (op.AddOp? || op.DelOp? ==> op.e >= |b.evs|)
    ensures Exec(b, op).io == b.io
  {
    match op
    case AssignOp(kind) => AssigningKeepsIo(b, kind.(internal := false));
    case AddOp(_, _) =>
    case DelOp(_) =>
    case ActiveOp(e, res) =>
      if e < |b.evs| {
        ActivatingKeepsIo(b, e, res);
      }
    case PriorityOp(e, pri) => PriorityKeepsIo(b, e, pri);
    case BreakOp =>
    case ClockOp(_) =>
  }

  lemma ActivatingKeepsIo(b: Base, e: Id, res: Reason)
    requires Ok(b) && e < |b.evs|
    ensures ActiveNolock(b, e, res).io == b.io
  {
  }

  lemma AssigningKeepsIo(b: Base, kind: Kind)
    requires Ok(b)
    ensures Assign(b, kind).io == b.io
  {
  }

  lemma PriorityKeepsIo(b: Base, e: Id, pri: int)
    requires Ok(b)
    ensures e < |b.evs| ==> PrioritySet(b, e, pri).0.io == b.io
  {
  }

  lemma {:induction false} OpsLead(b: Base, ops: seq<Op>, fd: nat)
    requires Ok(b)
    ensures Leads(IoOf(b.io, fd), ByOps(b, ops, fd), IoOf(Run(b, ops).io, fd))
    decreases |ops|
  {
    if ops != [] {
      var b1 := Exec(b, ops[0]);
      assert Leads(IoOf(b.io, fd), ByOp(b, ops[0], fd), IoOf(b1.io, fd)) by {
        OpLeads(b, ops[0], fd);
      }
      assert Leads(IoOf(b1.io, fd), ByOps(b1, ops[1..], fd), IoOf(Run(b1, ops[1..]).io, fd)) by {
        OpsLead(b1, ops[1..], fd);
      }
      LeadsOn(IoOf(b.io, fd), ByOp(b, ops[0], fd), IoOf(b1.io, fd), ByOps(b1, ops[1..], fd), IoOf(Run(b, ops).io, fd));
    }
  }

  // ---------- turns and queues ----------

  function ByServe(b: Base, e: Id, fd: int): seq<Step>
    requires Ok(b) && e < |b.evs| && b.evs[e].active
  {
    if !b.evs[e].kind.persist then ByDel(b, e, fd)
    else
      var b1 := Take(b, e);
      if b1.evs[e].ioTimeout.sec != 0 || b1.evs[e].ioTimeout.usec != 0 then ByAdd(b1, e, fd) else []
  }

  lemma ServeLeads(b: Base, e: Id, fd: nat)
    requires Ok(b) && e < |b.evs| && b.evs[e].active
    ensures Leads(IoOf(b.io, fd), ByServe(b, e, fd), IoOf(Serve(b, e).io, fd))
  {
    if !b.evs[e].kind.persist {
      DelLeads(b, e, fd);
    } else {
      var b1 := Take(b, e);
      assert b1.io == b.io;
      PersistLeads(b1, e, fd);
    }
  }

  lemma PersistLeads(b: Base, e: Id, fd: nat)
    requires Ok(b) && e < |b.evs|
    ensures var steps := if b.evs[e].ioTimeout.sec != 0 || b.evs[e].ioTimeout.usec != 0 then ByAdd(b, e, fd) else [];
      Leads(IoOf(b.io, fd), steps, IoOf(PersistClosure(b, e).io, fd))
  {
    var ev := b.evs[e];
    if ev.ioTimeout.sec != 0 || ev.ioTimeout.usec != 0 {
      AddLeads(b, e, Some(RunAt(b.deadline[e], ev.res.timeout, ev.ioTimeout, b.now)), true, fd);
    }
  }

  function ByCallback(b: Base, script: seq<seq<Op>>, fd: int): seq<Step>
    requires Ok(b)
  {
    if script == [] then [] else ByOps(b, script[0], fd)
  }

  lemma CallbackLeads(b: Base, script: seq<seq<Op>>, fd: nat)
    requires Ok(b)
    ensures Leads(IoOf(b.io, fd), ByCallback(b, script, fd), IoOf(Callback(b, script).0.io, fd))
  {
    if script != [] {
      OpsLead(b, script[0], fd);
    }
  }

  function ByTurn(b: Base, e: Id, script: seq<seq<Op>>, fd: int): seq<Step>
    requires Ok(b) && e < |b.evs| && b.evs[e].active
  {
    ByServe(b, e, fd) + ByCallback(Serve(b, e), script, fd)
  }

  lemma TurnLeads(b: Base, e: Id, script: seq<seq<Op>>, fd: nat)
    requires Ok(b) && e < |b.evs| && b.evs[e].active
    ensures Leads(IoOf(b.io, fd), ByTurn(b, e, script, fd), IoOf(Callback(Serve(b, e), script).0.io, fd))
  {
    var b1 := Serve(b, e);
    ServeLeads(b, e, fd);
    CallbackLeads(b1, script, fd);
    LeadsOn(IoOf(b.io, fd), ByServe(b, e, fd), IoOf(b1.io, fd), ByCallback(b1, script, fd),
      IoOf(Callback(b1, script).0.io, fd));
  }

  /** The requests while a queue is served. */
  function ByQueue(b: Base, i: nat, script: seq<seq<Op>>, fd: int): seq<Step>
    requires Ok(b) && i < |b.activeq|
    decreases |script|, |b.activeq[i]|
  {
    if b.activeq[i] == [] then []
    else
      var e := b.activeq[i][0];
      HeadIsActive(b, i);
      var (b1, rest) := Callback(Serve(b, e), script);
      ByTurn(b, e, script, fd) +
        if b1.broken || b1.continued then []
        else
          ServeDequeues(b, e);
          RemovedLength(b.activeq[i], e);
          ByQueue(b1, i, rest, fd)
  }

  lemma {:induction false} QueueLeads(b: Base, i: nat, script: seq<seq<Op>>, count: nat, fd: nat)
    requires Ok(b) && i < |b.activeq|
    ensures Leads(IoOf(b.io, fd), ByQueue(b, i, script, fd), IoOf(SingleQueue(b, i, script, count).base.io, fd))
    decreases |script|, |b.activeq[i]|
  {
    if b.activeq[i] != [] {
      var e := b.activeq[i][0];
      HeadIsActive(b, i);
      var (b1, rest) := Callback(Serve(b, e), script);
      var n := if b.evs[e].kind.internal then count else count + 1;
      OneTurn(b, i, script, count, n, b1, rest);
      var more := if b1.broken || b1.continued then [] else ByQueue(b1, i, rest, fd);
      var to := IoOf(SingleQueue(b, i, script, count).base.io, fd);
      assert Leads(IoOf(b.io, fd), ByTurn(b, e, script, fd), IoOf(b1.io, fd)) by {
        TurnLeads(b, e, script, fd);
      }
      assert Leads(IoOf(b1.io, fd), more, to) by {
        if !b1.broken && !b1.continued {
          QueueLeads(b1, i, rest, n, fd);
        }
      }
      LeadsOn(IoOf(b.io, fd), ByTurn(b, e, script, fd), IoOf(b1.io, fd), more, to);
    }
  }

  /** ... and while all queues from `i` on are. */
  function ByProcess(b: Base, i: nat, script: seq<seq<Op>>, fd: int): seq<Step>
    requires Ok(b) && i <= |b.activeq|
    decreases |b.activeq| - i
  {
    if i == |b.activeq| then []
    else if b.activeq[i] == [] then ByProcess(b, i + 1, script, fd)
    else
      var b1 := b.(running := i);
      var s := SingleQueue(b1, i, script, 0);
      if s.count != 0 then ByQueue(b1, i, script, fd)
      else ByQueue(b1, i, script, fd) + ByProcess(s.base, i + 1, s.script, fd)
  }

  lemma {:induction false} ProcessLeads(b: Base, i: nat, script: seq<seq<Op>>, fd: nat)
    requires Ok(b) && i <= |b.activeq|
    ensures Leads(IoOf(b.io, fd), ByProcess(b, i, script, fd), IoOf(ProcessFrom(b, i, script).base.io, fd))
    decreases |b.activeq| - i, 1
  {
    if i < |b.activeq| {
      if b.activeq[i] == [] {
        EmptyLeads(b, i, script, fd, i + 1);
        ProcessLeads(b, i + 1, script, fd);
      } else {
        ProcessLeadsOn(b, i, script, fd);
      }
    }
  }

  lemma EmptyLeads(b: Base, i: nat, script: seq<seq<Op>>, fd: nat, next: nat)
    requires Ok(b) && i < |b.activeq| && b.activeq[i] == [] && next == i + 1
    ensures ByProcess(b, i, script, fd) == ByProcess(b, next, script, fd)
    ensures ProcessFrom(b, i, script) == ProcessFrom(b, next, script)
  {
    EmptySteps(b, i, script, fd, next);
    EmptySkipped(b, i, script);
  }

  lemma EmptySteps(b: Base, i: nat, script: seq<seq<Op>>, fd: nat, next: nat)
    requires Ok(b) && i < |b.activeq| && b.activeq[i] == [] && next == i + 1
    ensures ByProcess(b, i, script, fd) == ByProcess(b, next, script, fd)
  {
  }

  lemma {:induction false} ProcessLeadsOn(b: Base, i: nat, script: seq<seq<Op>>, fd: nat)
    requires Ok(b) && i < |b.activeq| && b.activeq[i] != []
    ensures Leads(IoOf(b.io, fd), ByProcess(b, i, script, fd), IoOf(ProcessFrom(b, i, script).base.io, fd))
    decreases |b.activeq| - i, 0
  {
    var b1 := b.(running := i);
    var s := SingleQueue(b1, i, script, 0);
    assert Leads(IoOf(b.io, fd), ByQueue(b1, i, script, fd), IoOf(s.base.io, fd)) by {
      QueueLeads(b1, i, script, 0, fd);
    }
    if s.count != 0 {
      QueueLeadsAlone(b, i, script, s, fd);
    } else {
      assert Leads(IoOf(s.base.io, fd), ByProcess(s.base, i + 1, s.script, fd),
                   IoOf(ProcessFrom(s.base, i + 1, s.script).base.io, fd)) by {
        ProcessLeads(s.base, i + 1, s.script, fd);
      }
      QueueLeadsOn(b, i, script, s, fd);
    }
  }

  lemma QueueLeadsAlone(b: Base, i: nat, script: seq<seq<Op>>, s: Served, fd: nat)
    requires Ok(b) && i < |b.activeq| && b.activeq[i] != [] && s == SingleQueue(b.(running := i), i, script, 0)
    requires s.count != 0 && Leads(IoOf(b.io, fd), ByQueue(b.(running := i), i, script, fd), IoOf(s.base.io, fd))
    ensures Leads(IoOf(b.io, fd), ByProcess(b, i, script, fd), IoOf(ProcessFrom(b, i, script).base.io, fd))
  {
    var first := ByQueue(b.(running := i), i, script, fd);
    assert ByProcess(b, i, script, fd) == first by {
      ProcessSteps(b, i, script, s, fd, first, []);
    }
    assert ProcessFrom(b, i, script).base.io == s.base.io by {
      ProcessedIo(b, i, script, s);
    }
  }

  lemma QueueLeadsOn(b: Base, i: nat, script: seq<seq<Op>>, s: Served, fd: nat)
    requires Ok(b) && i < |b.activeq| && b.activeq[i] != [] && s == SingleQueue(b.(running := i), i, script, 0)
    requires s.count == 0 && Leads(IoOf(b.io, fd), ByQueue(b.(running := i), i, script, fd), IoOf(s.base.io, fd))
    requires Leads(IoOf(s.base.io, fd), ByProcess(s.base, i + 1, s.script, fd),
                   IoOf(ProcessFrom(s.base, i + 1, s.script).base.io, fd))
    ensures Leads(IoOf(b.io, fd), ByProcess(b, i, script, fd), IoOf(ProcessFrom(b, i, script).base.io, fd))
  {
    var first, more := ByQueue(b.(running := i), i, script, fd), ByProcess(s.base, i + 1, s.script, fd);
    assert ByProcess(b, i, script, fd) == first + more by {
      ProcessSteps(b, i, script, s, fd, first, more);
    }
    assert ProcessFrom(b, i, script).base.io == ProcessFrom(s.base, i + 1, s.script).base.io by {
      ProcessedIo(b, i, script, s);
    }
    LeadsOn(IoOf(b.io, fd), first, IoOf(s.base.io, fd), more, IoOf(ProcessFrom(b, i, script).base.io, fd));
  }

  lemma ProcessSteps(b: Base, i: nat, script: seq<seq<Op>>, s: Served, fd: nat, first: seq<Step>, more: seq<Step>)
    requires Ok(b) && i < |b.activeq| && b.activeq[i] != [] && s == SingleQueue(b.(running := i), i, script, 0)
    requires first == ByQueue(b.(running := i), i, script, fd)
    requires s.count == 0 ==> more == ByProcess(s.base, i + 1, s.script, fd)
    ensures ByProcess(b, i, script, fd) == if s.count != 0 then first else first + more
  {
  }

  lemma ProcessedIo(b: Base, i: nat, script: seq<seq<Op>>, s: Served)
    requires Ok(b) && i < |b.activeq| && b.activeq[i] != [] && s == SingleQueue(b.(running := i), i, script, 0)
    ensures ProcessFrom(b, i, script).base.io ==
      if s.count != 0 then s.base.io else ProcessFrom(s.base, i + 1, s.script).base.io
  {
  }

  // ---------- the loop ----------

  function ByTimeouts(b: Base, fd: int): seq<Step>
    requires Ok(b)
    decreases |b.heap|
  {
    if Stops(b) then []
    else
      EventTimeouts.Round(b);
      ByDel(b, b.heap[0], fd) + ByTimeouts(Expire(b, b.heap[0]), fd)
  }

  lemma {:induction false} TimeoutsLead(b: Base, fd: nat)
    requires Ok(b)
    ensures Leads(IoOf(b.io, fd), ByTimeouts(b, fd), IoOf(TimeoutProcess(b).0.io, fd))
    decreases |b.heap|
  {
    EventTimeouts.Round(b);
    if !Stops(b) {
      var e := b.heap[0];
      var b1 := Expire(b, e);
      assert Leads(IoOf(b.io, fd), ByDel(b, e, fd), IoOf(b1.io, fd)) by {
        DelLeads(b, e, fd);
        ActivatingKeepsIo(DelInternal(b, e), e, TIMED_OUT);
      }
      assert Leads(IoOf(b1.io, fd), ByTimeouts(b1, fd), IoOf(TimeoutProcess(b1).0.io, fd)) by {
        TimeoutsLead(b1, fd);
      }
      LeadsOn(IoOf(b.io, fd), ByDel(b, e, fd), IoOf(b1.io, fd), ByTimeouts(b1, fd), IoOf(TimeoutProcess(b).0.io, fd));
    }
  }

  lemma {:induction false} ActivationsKeepIo(b: Base, events: seq<Event>, report: Epoll.Mask)
    requires Ok(b) && forall x :: x in events ==> x.id < |b.evs|
    ensures ActivateAll(b, events, report).io == b.io
    decreases |events|
  {
    if events != [] {
      ActivatingKeepsIo(b, events[0].id, ReasonFor(events[0], report));
      ActivationsKeepIo(ActiveNolock(b, events[0].id, ReasonFor(events[0], report)), events[1..], report);
    }
  }

  lemma {:induction false} ReportsKeepIo(b: Base, reports: seq<Report>)
    requires Ok(b)
    ensures IoActiveAll(b, reports).io == b.io
    decreases |reports|
  {
    if reports != [] {
      var events := IoOf(b.io, reports[0].fd).events;
      ActivatedAre(events, reports[0].what);
      ActivationsKeepIo(b, Activated(events, reports[0].what), reports[0].what);
      ReportsKeepIo(IoActive(b, reports[0].fd, reports[0].what), reports[1..]);
    }
  }

  /** The base when the backend has reported and time has passed. */
  function Reported(b: Base, round: EventBaseLoop.Round): (r: Base)
    requires Ok(b)
    ensures Ok(r)
  {
    IoActiveAll(b, round.reports).(now := round.now)
  }

  /** The requests behind a successful dispatch. */
  function ByReady(b: Base, round: EventBaseLoop.Round, fd: int): seq<Step>
    requires Ok(b)
  {
    var b1 := Ready(b, round);
    ByTimeouts(Reported(b, round), fd) + if b1.countActive != 0 then ByProcess(b1, 0, round.script, fd) else []
  }

  lemma ReadyLeads(b: Base, round: EventBaseLoop.Round, flags: Flags, fd: nat)
    requires Ok(b)
    ensures Leads(IoOf(b.io, fd), ByReady(b, round, fd), IoOf(AfterDispatch(b, round, flags).0.io, fd))
  {
    var b1, to := Ready(b, round), IoOf(AfterDispatch(b, round, flags).0.io, fd);
    var more := if b1.countActive != 0 then ByProcess(b1, 0, round.script, fd) else [];
    assert Leads(IoOf(b.io, fd), ByTimeouts(Reported(b, round), fd), IoOf(b1.io, fd)) by {
      ReportsKeepIo(b, round.reports);
      TimeoutsLead(Reported(b, round), fd);
    }
    assert Leads(IoOf(b1.io, fd), more, to) by {
      if b1.countActive != 0 {
        ProcessLeads(b1, 0, round.script, fd);
      }
    }
    LeadsOn(IoOf(b.io, fd), ByTimeouts(Reported(b, round), fd), IoOf(b1.io, fd), more, to);
  }

  /** The requests of a round: the dispatch, which first applies what is pending, and what follows it. */
  function ByRound(b: Base, round: EventBaseLoop.Round, flags: Flags, fd: int): seq<Step>
    requires Ok(b)
  {
    var b1 := ClockCorrected(b, flags.monotonic, round.start);
    if !(b1.count > 0) && b1.countActive == 0 then []
    else [Step.Dispatch] + if round.fails then [] else ByReady(b1.(eventTv := b1.now), round, fd)
  }

  lemma RoundLeads(b: Base, round: EventBaseLoop.Round, flags: Flags, fd: nat)
    requires Ok(b)
    ensures Leads(IoOf(b.io, fd), ByRound(b, round, flags, fd), IoOf(OneRound(b, round, flags).0.io, fd))
  {
    var b1 := ClockCorrected(b, flags.monotonic, round.start);
    if b1.count > 0 || b1.countActive != 0 {
      var b2, to := b1.(eventTv := b1.now), IoOf(OneRound(b, round, flags).0.io, fd);
      var more := if round.fails then [] else ByReady(b2, round, fd);
      assert Leads(IoOf(b.io, fd), [Step.Dispatch] + more, to) by {
        BehindDispatchLeads(b, b2, round, flags, fd);
        DispatchLeads(IoOf(b.io, fd), more, to);
      }
    }
  }

  lemma DispatchLeads(io: Io, more: seq<Step>, to: Io)
    requires Leads(io, more, to)
    ensures Leads(io, [Step.Dispatch] + more, to)
  {
    LeadsOne(io, Step.Dispatch);
    LeadsOn(io, [Step.Dispatch], io, more, to);
  }

  lemma BehindDispatchLeads(b: Base, b2: Base, round: EventBaseLoop.Round, flags: Flags, fd: nat)
    requires Ok(b) && var b1 := ClockCorrected(b, flags.monotonic, round.start);
      (b1.count > 0 || b1.countActive != 0) && b2 == b1.(eventTv := b1.now)
    ensures Leads(IoOf(b.io, fd), if round.fails then [] else ByReady(b2, round, fd),
                  IoOf(OneRound(b, round, flags).0.io, fd))
  {
    if !round.fails {
      ReadyLeads(b2, round, flags, fd);
    }
  }

  /** All requests of a run of the loop. */
  function ByLoop(b: Base, rounds: seq<EventBaseLoop.Round>, flags: Flags, fd: int): seq<Step>
    requires Ok(b)
    decreases |rounds|
  {
    if b.broken || rounds == [] then []
    else
      var b0 := b.(continued := false);
      var (b1, result, _) := OneRound(b0, rounds[0], flags);
      ByRound(b0, rounds[0], flags, fd) + if result.Some? then [] else ByLoop(b1, rounds[1..], flags, fd)
  }

  lemma {:induction false} LoopLeads(b: Base, rounds: seq<EventBaseLoop.Round>, flags: Flags, fd: nat)
    requires Ok(b)
    ensures Leads(IoOf(b.io, fd), ByLoop(b, rounds, flags, fd), IoOf(Loop(b, rounds, flags).base.io, fd))
    decreases |rounds|
  {
    if !b.broken && rounds != [] {
      var b0 := b.(continued := false);
      var (b1, result, _) := OneRound(b0, rounds[0], flags);
      var more := if result.Some? then [] else ByLoop(b1, rounds[1..], flags, fd);
      var to := IoOf(Loop(b, rounds, flags).base.io, fd);
      assert Leads(IoOf(b.io, fd), ByRound(b0, rounds[0], flags, fd), IoOf(b1.io, fd)) by {
        RoundLeads(b0, rounds[0], flags, fd);
      }
      assert Leads(IoOf(b1.io, fd), more, to) by {
        if result.None? {
          LoopLeads(b1, rounds[1..], flags, fd);
        }
      }
      LeadsOn(IoOf(b.io, fd), ByRound(b0, rounds[0], flags, fd), IoOf(b1.io, fd), more, to);
    }
  }
}
