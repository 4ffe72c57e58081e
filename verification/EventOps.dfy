/**
  The public operations of event.c: `event_assign`, `event_add`, `event_del`, `event_active` and
  `event_priority_set`. `Exec` is one of them, `Run` a finite sequence, which is also what a callback
  may do. Every operation keeps the base consistent, and so does every run from a new base.
  */
module EventOps {
  import opened Common
  import opened EventQueue
  import opened Evmap
  import opened MinHeap
  import opened TimeVal

  /** What a step leaves alone: all events but one, the number of queues, and where the loop stands. */
  ghost predicate Only(b: Base, r: Base, e: Id, ev: Ev)
    requires e < |b.evs|
  {
    && r.evs == b.evs[e := ev] && ev.kind == b.evs[e].kind
    && |r.activeq| == |b.activeq| && r.running == b.running && r.now == b.now && r.broken == b.broken
  }

  /** Two steps on the same event. */
  lemma OnlyTwice(b: Base, r: Base, s: Base, e: Id, ev: Ev)
    requires e < |b.evs| && e < |r.evs| && Only(b, r, e, r.evs[e]) && Only(r, s, e, ev)
    ensures Only(b, s, e, ev)
  {
    Overwritten(b.evs, e, r.evs[e], ev);
  }

  // ---------- event_del_internal ----------

  function StopTimer(b: Base, e: Id): (r: Base)
    requires Ok(b) && e < |b.evs|
    ensures Ok(r) && Only(b, r, e, b.evs[e].(timed := false)) && r.deadline == b.deadline
  {
    if b.evs[e].timed then RemoveTimerKeepsOk(b, e); RemoveTimer(b, e) else b
  }

  function Deactivate(b: Base, e: Id): (r: Base)
    requires Ok(b) && e < |b.evs|
    ensures Ok(r) && Only(b, r, e, b.evs[e].(active := false)) && r.deadline == b.deadline
  {
    PriorityInRange(b, e);
    if b.evs[e].active then RemoveActiveKeepsOk(b, e); RemoveActive(b, e) else b
  }

  function Withdraw(b: Base, e: Id): (r: Base)
    requires Ok(b) && e < |b.evs|
    ensures Ok(r) && Only(b, r, e, b.evs[e].(inserted := false)) && r.deadline == b.deadline
  {
    if b.evs[e].inserted then DelistKeepsOk(b, e); Delist(b, e) else b
  }

  /** A deleted event is on no queue, and nothing else happens to any event. */
  function DelInternal(b: Base, e: Id): (r: Base)
    requires Ok(b) && e < |b.evs|
    ensures Ok(r) && Only(b, r, e, b.evs[e].(timed := false, active := false, inserted := false))
    ensures r.deadline == b.deadline
  {
    var b1 := StopTimer(b, e);
    var b2 := Deactivate(b1, e);
    Withdraw(b2, e)
  }

  // ---------- event_active_nolock ----------

  function Either(a: Reason, b: Reason): Reason {
    Reason(a.timeout || b.timeout, a.read || b.read, a.write || b.write, a.et || b.et)
  }

  /** The first activation sets the reason, and stops the queue that is running if it matters less. */
  function Mark(b: Base, e: Id, res: Reason): (r: Base)
    requires Ok(b) && e < |b.evs|
    ensures Ok(r) && Only(b, r, e, b.evs[e].(res := res)) && r.deadline == b.deadline && r.heap == b.heap
  {
    SetEvKeepsOk(b, e, b.evs[e].(res := res));
    SetEv(b, e, b.evs[e].(res := res)).(continued := b.continued || b.evs[e].pri < b.running)
  }

  function ActiveNolock(b: Base, e: Id, res: Reason): (r: Base)
    requires Ok(b) && e < |b.evs|
    ensures var ev := b.evs[e];
      Ok(r) && Only(b, r, e, ev.(active := true, res := if ev.active then Either(ev.res, res) else res))
  {
    var ev := b.evs[e];
    if ev.active then
      var merged := ev.(res := Either(ev.res, res));
      SetEvKeepsOk(b, e, merged);
      SetEv(b, e, merged)
    else
      var marked := Mark(b, e, res);
      PriorityInRange(marked, e);
      InsertActiveKeepsOk(marked, e);
      InsertActive(marked, e)
  }

  // ---------- event_add_internal ----------

  /** The step that asks evmap: -1 and no change when it refuses. */
  function Register(b: Base, e: Id): (r: (Base, int))
    requires Ok(b) && e < |b.evs|
    ensures var asks := Polls(b.evs[e].kind) && !b.evs[e].inserted && !b.evs[e].active;
      && r.1 == (if asks && Refused(b, e) then -1 else 0)
      && Ok(r.0) && r.0.deadline == b.deadline
      && (if asks && r.1 == 0 then Only(b, r.0, e, b.evs[e].(inserted := true)) else r.0 == b)
  {
    var ev := b.evs[e];
    if Polls(ev.kind) && !ev.inserted && !ev.active then
      if Refused(b, e) then (b, -1) else EnlistKeepsOk(b, e); (Enlist(b, e), 0)
    else (b, 0)
  }

  /** A persistent event remembers its interval. */
  function Remember(b: Base, e: Id, tv: Time): (r: Base)
    requires Ok(b) && e < |b.evs|
    ensures Ok(r) && Only(b, r, e, b.evs[e].(ioTimeout := tv)) && r.deadline == b.deadline
  {
    SetEvKeepsOk(b, e, b.evs[e].(ioTimeout := tv));
    SetEv(b, e, b.evs[e].(ioTimeout := tv))
  }

  function StartTimer(b: Base, e: Id, at: Time): (r: Base)
    requires Ok(b) && e < |b.evs| && !b.evs[e].timed
    ensures Ok(r) && Only(b, r, e, b.evs[e].(timed := true)) && r.deadline == b.deadline[e := at]
  {
    SetDeadlineKeepsOk(b, e, at);
    InsertTimerKeepsOk(SetDeadline(b, e, at), e);
    InsertTimer(SetDeadline(b, e, at), e)
  }

  predicate TimedOut(ev: Ev) {
    ev.active && ev.res.timeout
  }

  /** The timer is stopped, and what it has activated is taken back. */
  function Unschedule(b: Base, e: Id): (r: Base)
    requires Ok(b) && e < |b.evs|
    ensures var ev := b.evs[e];
      Ok(r) && Only(b, r, e, ev.(timed := false, active := ev.active && !ev.res.timeout)) && r.deadline == b.deadline
  {
    var b1 := StopTimer(b, e);
    if TimedOut(b1.evs[e]) then Deactivate(b1, e) else b1
  }

  function Restart(b: Base, e: Id, at: Time): (r: Base)
    requires Ok(b) && e < |b.evs|
    ensures var ev := b.evs[e];
      && Ok(r) && r.deadline == b.deadline[e := at]
      && Only(b, r, e, ev.(timed := true, active := ev.active && !ev.res.timeout))
  {
    var b1 := Unschedule(b, e);
    var r := StartTimer(b1, e, at);
    OnlyTwice(b, b1, r, e, r.evs[e]);
    r
  }

  /** The step that (re)starts the timer; an event that is active because of the last one is not any more. */
  function Schedule(b: Base, e: Id, tv: Time, absolute: bool): (r: Base)
    requires Ok(b) && e < |b.evs|
    ensures var ev := b.evs[e];
      && Ok(r)
      && Only(b, r, e, ev.(timed := true, active := ev.active && !ev.res.timeout,
                           ioTimeout := if ev.kind.persist && !absolute then tv else ev.ioTimeout))
      && r.deadline == b.deadline[e := if absolute then tv else Sum(b.now, tv)]
  {
    var at := if absolute then tv else Sum(b.now, tv);
    if b.evs[e].kind.persist && !absolute then
      var b1 := Remember(b, e, tv);
      var r := Restart(b1, e, at);
      OnlyTwice(b, b1, r, e, r.evs[e]);
      r
    else Restart(b, e, at)
  }

  function AddInternal(b: Base, e: Id, tv: Option<Time>, absolute: bool): (r: (Base, int))
    requires Ok(b) && e < |b.evs|
    ensures Ok(r.0) && |r.0.evs| == |b.evs| && Only(b, r.0, e, r.0.evs[e])
  {
    var (b1, res) := Register(b, e);
    if res != -1 && tv.Some? then (Schedule(b1, e, tv.value, absolute), res) else (b1, res)
  }

  /** A failed event_add changes nothing at all, and it fails only when evmap refuses the event. */
  lemma FailedAddChangesNothing(b: Base, e: Id, tv: Option<Time>, absolute: bool)
    requires Ok(b) && e < |b.evs|
    ensures var (r, res) := AddInternal(b, e, tv, absolute);
      && (res == -1 ==> r == b)
      && (res == -1 <==> Polls(b.evs[e].kind) && !b.evs[e].inserted && !b.evs[e].active && Refused(b, e))
      && (res == -1 || res == 0)
  {
  }

  /**
    A successful one leaves an event that waits for its descriptor inserted if and only if it was
    not merely active before: an active event that is not inserted is not registered, although the
    call reports success.
    */
  lemma AddedIsInserted(b: Base, e: Id, tv: Option<Time>, absolute: bool)
    requires Ok(b) && e < |b.evs| && Polls(b.evs[e].kind) && AddInternal(b, e, tv, absolute).1 == 0
    ensures AddInternal(b, e, tv, absolute).0.evs[e].inserted <==> b.evs[e].inserted || !b.evs[e].active
  {
  }

  /** So any new event that is activated before it is added is never registered, in spite of the success. */
  lemma ActiveIsNotRegistered(b: Base, kind: Kind, res: Reason)
    requires Ok(b) && Polls(kind)
    ensures var e, r := |b.evs|, ActiveNolock(Assign(b, kind), |b.evs|, res);
      r.evs[e].kind == kind && AddInternal(r, e, None, false) == (r, 0) && !r.evs[e].inserted
  {
  }

  /** With a timeout, the event waits for its deadline afterwards, and is not active because of the last one. */
  lemma AddedIsTimed(b: Base, e: Id, tv: Time, absolute: bool)
    requires Ok(b) && e < |b.evs| && AddInternal(b, e, Some(tv), absolute).1 == 0
    ensures var r := AddInternal(b, e, Some(tv), absolute).0;
      && r.evs[e].timed && e in r.heap && r.deadline[e] == (if absolute then tv else Sum(b.now, tv))
      && !(r.evs[e].active && r.evs[e].res.timeout)
  {
    var r := AddInternal(b, e, Some(tv), absolute).0;
    MarkOf(r.heap, r.evs, Timers, e);
  }

  // ---------- event_priority_set and event_assign ----------

  function PrioritySet(b: Base, e: Id, pri: int): (r: (Base, int))
    requires Ok(b) && e < |b.evs|
    ensures Ok(r.0) && |r.0.evs| == |b.evs|
    ensures r.1 == 0 <==> !b.evs[e].active && 0 <= pri < |b.activeq|
    ensures r.0 == if r.1 == 0 then SetEv(b, e, b.evs[e].(pri := pri)) else b
  {
    if b.evs[e].active then (b, -1)
    else if pri < 0 || pri >= |b.activeq| then (b, -1)
    else SetEvKeepsOk(b, e, b.evs[e].(pri := pri)); (SetEv(b, e, b.evs[e].(pri := pri)), 0)
  }

  /** A new event of the base: on no queue, and in the middle of the priorities. */
  function Assign(b: Base, kind: Kind): (r: Base)
    requires Ok(b)
    ensures Ok(r)
  {
    var ev := Ev(kind, |b.activeq| / 2, false, false, false, NO_REASON, ZERO);
    AssignKeepsOk(b, ev);
    b.(evs := b.evs + [ev], deadline := b.deadline + [ZERO])
  }

  lemma AssignKeepsOk(b: Base, ev: Ev)
    requires Ok(b) && !ev.inserted && !ev.active && !ev.timed && ev.pri < |b.activeq|
    ensures Ok(b.(evs := b.evs + [ev], deadline := b.deadline + [ZERO]))
  {
    AssignKeepsQueues(b, ev);
    assert AllMemberships(b.evs + [ev]) == AllMemberships(b.evs) by {
      assert (b.evs + [ev])[..|b.evs|] == b.evs;
    }
    AssignKeepsIntegrity(b.io, b.evs, ev);
  }

  lemma AssignKeepsQueues(b: Base, ev: Ev)
    requires Ok(b) && !ev.inserted && !ev.active && !ev.timed && ev.pri < |b.activeq|
    ensures Marks(b.inserted, b.evs + [ev], Inserted) && Marks(b.heap, b.evs + [ev], Timers)
    ensures ActiveMarks(b.activeq, b.evs + [ev])
  {
    assert Look(|b.evs|);
    forall p | 0 <= p < |b.activeq| ensures Marks(b.activeq[p], b.evs + [ev], Active(p)) {
      assert Look(p);
    }
  }

  lemma AssignKeepsIntegrity(io: map<int, Io>, evs: seq<Ev>, ev: Ev)
    requires Integrity(io, evs) && !ev.inserted
    ensures Integrity(io, evs + [ev])
  {
  }

  // ---------- runs ----------

  /** What user code and the rest of the program may do to a base, in callbacks and outside of them. */
  datatype Op =
    | AssignOp(kind: Kind)
    | AddOp(e: Id, tv: Option<Time>)
    | DelOp(e: Id)
    | ActiveOp(e: Id, res: Reason)
    | PriorityOp(e: Id, pri: int)
    | BreakOp
    | ClockOp(t: Time)

  /** Internal events keep their priority: no one outside of the library can name them. */
  function Exec(b: Base, op: Op): (r: Base)
    requires Ok(b)
    ensures Ok(r) && |r.activeq| == |b.activeq| && r.running == b.running
  {
    match op
    case AssignOp(kind) => Assign(b, kind.(internal := false))
    case AddOp(e, tv) => if e < |b.evs| then AddInternal(b, e, tv, false).0 else b
    case DelOp(e) => if e < |b.evs| then DelInternal(b, e) else b
    case ActiveOp(e, res) => if e < |b.evs| then ActiveNolock(b, e, res) else b
    case PriorityOp(e, pri) => if e < |b.evs| && !b.evs[e].kind.internal then PrioritySet(b, e, pri).0 else b
    case BreakOp => b.(broken := true)
    case ClockOp(t) => b.(now := t)
  }

  function Run(b: Base, ops: seq<Op>): (r: Base)
    requires Ok(b)
    ensures Ok(r) && |r.activeq| == |b.activeq| && r.running == b.running
    decreases |ops|
  {
    if ops == [] then b else Run(Exec(b, ops[0]), ops[1..])
  }

  /** A zeroed base with `n` priorities. */
  function Fresh(n: nat, now: Time): Base {
    Base([], [], [], EmptyQueues(n), [], map[], 0, 0, 0, false, false, now, now)
  }

  function EmptyQueues(n: nat): (queues: seq<seq<Id>>)
    ensures |queues| == n && forall p :: 0 <= p < n ==> queues[p] == []
  {
    if n == 0 then [] else EmptyQueues(n - 1) + [[]]
  }

  lemma {:induction false} NothingQueued(n: nat)
    ensures TotalLength(EmptyQueues(n)) == 0
  {
    if n > 0 {
      NothingQueued(n - 1);
      assert EmptyQueues(n)[..n - 1] == EmptyQueues(n - 1);
    }
  }

  lemma FreshIsOk(n: nat, now: Time)
    requires n > 0
    ensures Ok(Fresh(n, now))
  {
    NothingQueued(n);
  }

  /**
    After any sequence of operations on a new base, an event carries a flag if and only if it is
    on that queue, exactly once; `event_count` is the number of queue memberships of user events,
    `event_count_active` the number of active events; and the descriptors list the inserted events.
    */
  lemma ConsistentOverRuns(n: nat, now: Time, ops: seq<Op>, e: Id)
    requires n > 0
    ensures Ok(Fresh(n, now))
    ensures var b := Run(Fresh(n, now), ops);
      && b.count == AllMemberships(b.evs) && b.countActive == TotalLength(b.activeq)
      && (e < |b.evs| ==>
            && multiset(b.inserted)[e] == One(b.evs[e].inserted)
            && multiset(b.heap)[e] == One(b.evs[e].timed)
            && b.evs[e].pri < |b.activeq|
            && multiset(b.activeq[b.evs[e].pri])[e] == One(b.evs[e].active)
            && (forall p :: 0 <= p < |b.activeq| && p != b.evs[e].pri ==> e !in b.activeq[p])
            && (b.evs[e].kind.fd >= 0 ==>
                  (Seen(e, b.evs[e].kind) in IoOf(b.io, b.evs[e].kind.fd).events <==> b.evs[e].inserted)))
  {
    FreshIsOk(n, now);
    var b := Run(Fresh(n, now), ops);
    if e < |b.evs| {
      MarkOf(b.inserted, b.evs, Inserted, e);
      MarkOf(b.heap, b.evs, Timers, e);
      assert Look(e);
      forall p | 0 <= p < |b.activeq|
        ensures multiset(b.activeq[p])[e] == One(b.evs[e].active && p == b.evs[e].pri) &&
          (e in b.activeq[p] ==> p == b.evs[e].pri)
      {
        assert Look(p);
        MarkOf(b.activeq[p], b.evs, Active(p), e);
      }
    }
  }
}
