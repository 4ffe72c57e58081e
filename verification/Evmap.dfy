/** evmap.c for one descriptor: its events and their counts. */
module Evmap {
  import opened Common
  import opened Epoll

  /** What evmap reads of a `struct event`: who it is and its `ev_events`. */
  datatype Event = Event(id: nat, read: bool, write: bool, et: bool)

  /** `struct evmap_io`. */
  datatype Io = Io(events: seq<Event>, nread: nat, nwrite: nat)

  const EMPTY := Io([], 0, 0)
  const MAX_COUNT := 0xffff

  /** `GET_IO_SLOT_AND_CTOR`: a descriptor without an entry has no events yet. */
  function IoOf(io: map<int, Io>, fd: int): Io {
    if fd in io then io[fd] else EMPTY
  }

  function Readers(events: seq<Event>): nat {
    if events == [] then 0 else (if events[0].read then 1 else 0) + Readers(events[1..])
  }

  function Writers(events: seq<Event>): nat {
    if events == [] then 0 else (if events[0].write then 1 else 0) + Writers(events[1..])
  }

  /** The counts are those of the list, they fit in 16 bits, and no event is listed twice. */
  ghost predicate Consistent(io: Io) {
    && io.nread == Readers(io.events) <= MAX_COUNT && io.nwrite == Writers(io.events) <= MAX_COUNT
    && (forall i, j :: 0 <= i < j < |io.events| ==> io.events[i].id != io.events[j].id)
    && (forall i, j :: 0 <= i < j < |io.events| ==> io.events[i].et == io.events[j].et)
  }

  /** What is of interest on the descriptor: whatever is counted at least once. */
  function Watching(io: Io): Watch {
    Watch(io.nread > 0, io.nwrite > 0)
  }

  function One(b: bool): nat {
    if b then 1 else 0
  }

  // ---------- evmap_io_add ----------

  predicate TooMany(io: Io, ev: Event) {
    io.nread + One(ev.read) > MAX_COUNT || io.nwrite + One(ev.write) > MAX_COUNT
  }

  predicate MixesEdges(io: Io, ev: Event) {
    io.events != [] && io.events[0].et != ev.et
  }

  predicate AddFails(io: Io, ev: Event) {
    TooMany(io, ev) || MixesEdges(io, ev)
  }

  /** The `res` of `evmap_io_add`: the first reader and the first writer concern the backend. */
  function AddMask(io: Io, ev: Event): Mask {
    Mask(ev.read && io.nread == 0, ev.write && io.nwrite == 0, ev.et)
  }

  function Added(io: Io, ev: Event): Io {
    Io(io.events + [ev], io.nread + One(ev.read), io.nwrite + One(ev.write))
  }

  // ---------- evmap_io_del ----------

  function DelMask(io: Io, ev: Event): Mask {
    Mask(ev.read && io.nread == 1, ev.write && io.nwrite == 1, false)
  }

  /** `TAILQ_REMOVE`: the list without the event. */
  function Without(events: seq<Event>, ev: Event): (rest: seq<Event>)
  {
    if events == [] then [] else if events[0] == ev then events[1..] else [events[0]] + Without(events[1..], ev)
  }

  function Deleted(io: Io, ev: Event): Io
    requires io.nread >= One(ev.read) && io.nwrite >= One(ev.write)
  {
    Io(Without(io.events, ev), io.nread - One(ev.read), io.nwrite - One(ev.write))
  }

  // ---------- the counts ----------

  lemma {:induction false} CountsSplit(a: seq<Event>, b: seq<Event>)
    ensures Readers(a + b) == Readers(a) + Readers(b) && Writers(a + b) == Writers(a) + Writers(b)
  {
    if a == [] {
      assert a + b == b;
    } else {
      assert (a + b)[1..] == a[1..] + b;
      CountsSplit(a[1..], b);
    }
  }

  lemma CountsOfOne(ev: Event)
    ensures Readers([ev]) == One(ev.read) && Writers([ev]) == One(ev.write)
  {
    assert [ev][1..] == [];
  }

  lemma AddKeepsCounts(io: Io, ev: Event)
    requires Consistent(io) && !AddFails(io, ev) && forall e :: e in io.events ==> e.id != ev.id
    ensures Consistent(Added(io, ev))
  {
    CountsSplit(io.events, [ev]);
    CountsOfOne(ev);
  }

  /** An event is accepted exactly when 16 bits are enough to count it, and its trigger mode is that of the others. */
  lemma AcceptedIffFits(io: Io, ev: Event)
    requires Consistent(io) && forall e :: e in io.events ==> e.id != ev.id
    ensures var events := io.events + [ev];
      !AddFails(io, ev) <==>
      Readers(events) < 65536 && Writers(events) < 65536 && forall e :: e in io.events ==> e.et == ev.et
  {
    CountsSplit(io.events, [ev]);
    CountsOfOne(ev);
    if io.events != [] {
      assert io.events[0] in io.events;
      forall e | e in io.events ensures e.et == io.events[0].et {
        var i :| 0 <= i < |io.events| && io.events[i] == e;
      }
    }
  }

  /** A listed event is counted, and taking it off the list takes it off the counts. */
  lemma {:induction false} WithoutCounts(events: seq<Event>, ev: Event)
    requires ev in events
    ensures Readers(events) == Readers(Without(events, ev)) + One(ev.read)
    ensures Writers(events) == Writers(Without(events, ev)) + One(ev.write)
    ensures forall e :: e in Without(events, ev) ==> e in events
  {
    if events[0] != ev {
      var rest := Without(events[1..], ev);
      WithoutCounts(events[1..], ev);
      assert ([events[0]] + rest)[1..] == rest;
    }
  }

  lemma {:induction false} WithoutDistinct(events: seq<Event>, ev: Event)
    requires ev in events
    requires forall i, j :: 0 <= i < j < |events| ==> events[i].id != events[j].id && events[i].et == events[j].et
    ensures var rest := Without(events, ev);
      && ev !in rest
      && forall i, j :: 0 <= i < j < |rest| ==> rest[i].id != rest[j].id && rest[i].et == rest[j].et
  {
    if events[0] != ev {
      WithoutDistinct(events[1..], ev);
      var rest := Without(events[1..], ev);
      WithoutCounts(events[1..], ev);
      forall j | 0 <= j < |rest| ensures rest[j].id != events[0].id && rest[j].et == events[0].et {
        assert rest[j] in events[1..];
      }
    }
  }

  lemma DelKeepsCounts(io: Io, ev: Event)
    requires Consistent(io) && ev in io.events
    ensures io.nread >= One(ev.read) && io.nwrite >= One(ev.write)
    ensures Consistent(Deleted(io, ev)) && ev !in Deleted(io, ev).events
  {
    WithoutCounts(io.events, ev);
    WithoutDistinct(io.events, ev);
  }

  // ---------- evmap_io_active ----------

  /** Which listed events a report on the descriptor activates, in list order. */
  function Activated(events: seq<Event>, report: Mask): seq<Event> {
    if events == [] then []
    else (if (events[0].read && report.read) || (events[0].write && report.write) || (events[0].et && report.et)
          then [events[0]] else []) + Activated(events[1..], report)
  }

  lemma {:induction false} ActivatedAre(events: seq<Event>, report: Mask)
    ensures forall e :: e in Activated(events, report) <==>
      e in events && ((e.read && report.read) || (e.write && report.write) || (e.et && report.et))
  {
    if events != [] {
      ActivatedAre(events[1..], report);
      assert forall e :: e in events <==> e == events[0] || e in events[1..];
    }
  }

  /**
    epoll_dispatch adds EV_ET to every report. So exactly the events that wait for what happened
    are activated if and only if no edge-triggered event waits for something else.
    */
  lemma EdgeActivation(events: seq<Event>, read: bool, write: bool)
    ensures (forall e :: e in events ==>
              (e in Activated(events, Mask(read, write, true)) <==> (e.read && read) || (e.write && write)))
      <==> (forall e :: e in events && e.et ==> (e.read && read) || (e.write && write))
  {
    ActivatedAre(events, Mask(read, write, true));
  }

  /** An edge-triggered writer is activated when its descriptor can be read. */
  lemma EdgeActivatedWrongly()
    ensures var writer := Event(1, false, true, true);
      writer in Activated([Event(0, true, false, true), writer], Mask(true, false, true))
  {
    ActivatedAre([Event(0, true, false, true), Event(1, false, true, true)], Mask(true, false, true));
  }

  // ---------- the two ways to tell epoll ----------

  /** What the descriptor looks like to the base and to epoll: its events, the pending change, the kernel. */
  datatype Fd = Fd(io: Io, pending: Option<Change>, kernel: Option<Interest>)

  /** An event is added or deleted, or the pending changes are applied. */
  datatype Step = Add(ev: Event) | Del(ev: Event) | Dispatch

  /** What event.c guarantees: only events that are not listed are added, and only listed ones deleted. */
  predicate Allowed(fd: Fd, step: Step) {
    match step
    case Add(ev) => forall e :: e in fd.io.events ==> e.id != ev.id
    case Del(ev) => ev in fd.io.events && fd.io.nread >= One(ev.read) && fd.io.nwrite >= One(ev.write)
    case Dispatch => true
  }

  /** `event_changelist_get_or_construct`. */
  function GetOrConstruct(pending: Option<Change>, n: int, was: Watch): Change {
    if pending.Some? then pending.value else Change(n, was, Keep, Keep)
  }

  predicate Matters(m: Mask) {
    m.read || m.write
  }

  /** With a changelist, an add or a delete is noted down until the next dispatch. */
  function Deferred(n: int, fd: Fd, step: Step): Fd
    requires Allowed(fd, step)
  {
    match step
    case Add(ev) =>
      if AddFails(fd.io, ev) then fd
      else
        var m := AddMask(fd.io, ev);
        var pending := if Matters(m) then Some(ChangeAdd(GetOrConstruct(fd.pending, n, Watching(fd.io)), m))
          else fd.pending;
        fd.(io := Added(fd.io, ev), pending := pending)
    case Del(ev) =>
      var m := DelMask(fd.io, ev);
      var pending := if Matters(m) then Some(ChangeDel(GetOrConstruct(fd.pending, n, Watching(fd.io)), m))
        else fd.pending;
      fd.(io := Deleted(fd.io, ev), pending := pending)
    case Dispatch =>
      fd.(pending := None, kernel := if fd.pending.Some? then Applied(fd.pending.value, fd.kernel) else fd.kernel)
  }

  /** Without one, epoll is told at once. */
  function Immediate(n: int, fd: Fd, step: Step): Fd
    requires Allowed(fd, step)
  {
    match step
    case Add(ev) =>
      if AddFails(fd.io, ev) then fd
      else
        var m := AddMask(fd.io, ev);
        fd.(io := Added(fd.io, ev),
            kernel := if !Matters(m) then fd.kernel
                      else Applied(ChangeAdd(GetOrConstruct(None, n, Watching(fd.io)), m), fd.kernel))
    case Del(ev) =>
      var m := DelMask(fd.io, ev);
      fd.(io := Deleted(fd.io, ev),
          kernel := if !Matters(m) then fd.kernel
                    else Applied(ChangeDel(GetOrConstruct(None, n, Watching(fd.io)), m), fd.kernel))
    case Dispatch => fd
  }

  /** The pending change records what the kernel was told, and leads to what is wanted now. */
  ghost predicate Pending(fd: Fd, told: Watch) {
    match fd.pending
    case None => Watching(fd.io) == told
    case Some(c) => c.was == told && After(c) == Watching(fd.io)
  }

  /** One step with a changelist. */
  lemma DeferredStep(n: int, fd: Fd, step: Step, told: Watch)
    requires Consistent(fd.io) && Pending(fd, told) && Allowed(fd, step)
    ensures var next := Deferred(n, fd, step);
      && Consistent(next.io)
      && Pending(next, if step.Dispatch? then Watching(fd.io) else told)
      && (!step.Dispatch? ==> next.kernel == fd.kernel)
      && (step.Dispatch? ==> next.pending == None && next.io == fd.io)
      && (step.Dispatch? && Bits(fd.kernel) == told ==> Bits(next.kernel) == Watching(fd.io))
      && (step.Dispatch? && fd.pending.Some? && NetChange(fd.pending.value) ==> Bits(next.kernel) == Watching(fd.io))
  {
    match step
    case Add(ev) =>
      if !AddFails(fd.io, ev) {
        AddKeepsCounts(fd.io, ev);
      }
    case Del(ev) =>
      DelKeepsCounts(fd.io, ev);
    case Dispatch =>
  }

  /** One step without: the kernel always watches what is counted. */
  lemma ImmediateStep(n: int, fd: Fd, step: Step)
    requires Consistent(fd.io) && Bits(fd.kernel) == Watching(fd.io) && Allowed(fd, step)
    ensures var next := Immediate(n, fd, step);
      Consistent(next.io) && Bits(next.kernel) == Watching(next.io)
  {
    match step
    case Add(ev) =>
      if !AddFails(fd.io, ev) {
        AddKeepsCounts(fd.io, ev);
      }
    case Del(ev) =>
      DelKeepsCounts(fd.io, ev);
    case Dispatch =>
  }

  // ---------- whole histories ----------

  /** Every step of the history is allowed when its turn comes. */
  predicate History(n: int, fd: Fd, steps: seq<Step>)
    decreases |steps|
  {
    steps == [] || (Allowed(fd, steps[0]) && History(n, Deferred(n, fd, steps[0]), steps[1..]))
  }

  function RunDeferred(n: int, fd: Fd, steps: seq<Step>): Fd
    requires History(n, fd, steps)
    decreases |steps|
  {
    if steps == [] then fd else RunDeferred(n, Deferred(n, fd, steps[0]), steps[1..])
  }

  /** The same history without a changelist is allowed too, as the events listed are the same. */
  function RunImmediate(n: int, d: Fd, fd: Fd, steps: seq<Step>): Fd
    requires History(n, d, steps) && d.io == fd.io
    decreases |steps|
  {
    if steps == [] then fd
    else RunImmediate(n, Deferred(n, d, steps[0]), Immediate(n, fd, steps[0]), steps[1..])
  }

  /**
    Deferring and coalescing loses nothing: after any history of adds, deletes and dispatches,
    applying what is pending makes the kernel watch exactly what is counted, which is also what
    it watches when every change is made at once.
    */
  lemma {:induction false} DeferredRefinesImmediate(n: int, d: Fd, fd: Fd, steps: seq<Step>, told: Watch)
    requires Consistent(d.io) && d.io == fd.io && History(n, d, steps)
    requires Bits(fd.kernel) == Watching(fd.io) && Bits(d.kernel) == told && Pending(d, told)
    ensures var later := Deferred(n, RunDeferred(n, d, steps), Dispatch);
      && later.io == RunImmediate(n, d, fd, steps).io
      && Bits(later.kernel) == Watching(later.io) == Bits(RunImmediate(n, d, fd, steps).kernel)
    decreases |steps|
  {
    if steps == [] {
      DeferredStep(n, d, Dispatch, told);
    } else {
      DeferredStep(n, d, steps[0], told);
      ImmediateStep(n, fd, steps[0]);
      DeferredRefinesImmediate(n, Deferred(n, d, steps[0]), Immediate(n, fd, steps[0]), steps[1..],
                               if steps[0].Dispatch? then Watching(d.io) else told);
    }
  }

  predicate NoDispatch(steps: seq<Step>) {
    forall i :: 0 <= i < |steps| ==> !steps[i].Dispatch?
  }

  /** What the run of a history between two dispatches leaves pending. */
  lemma {:induction false} PendingAfter(n: int, d: Fd, steps: seq<Step>, told: Watch)
    requires Consistent(d.io) && Pending(d, told) && History(n, d, steps) && NoDispatch(steps)
    ensures var later := RunDeferred(n, d, steps);
      Consistent(later.io) && Pending(later, told) && later.kernel == d.kernel
    decreases |steps|
  {
    if steps != [] {
      DeferredStep(n, d, steps[0], told);
      PendingAfter(n, Deferred(n, d, steps[0]), steps[1..], told);
    }
  }

  /**
    Whatever the kernel has come to know of the descriptor in the meantime, the dispatch makes it
    watch what is counted if the history comes to a net change, and leaves it alone otherwise;
    there is a net change whenever the counts have gone from zero to positive or back.
    */
  lemma NetChangeRepairs(n: int, d: Fd, steps: seq<Step>, kernel: Option<Interest>)
    requires Consistent(d.io) && d.pending == None && History(n, d, steps) && NoDispatch(steps)
    ensures var before := RunDeferred(n, d, steps);
      var after := Deferred(n, before.(kernel := kernel), Dispatch);
      if before.pending.Some? && NetChange(before.pending.value) then Bits(after.kernel) == Watching(before.io)
      else after.kernel == kernel && Watching(before.io) == Watching(d.io)
  {
    PendingAfter(n, d, steps, Watching(d.io));
    var before := RunDeferred(n, d, steps);
    DeferredStep(n, before.(kernel := kernel), Dispatch, Watching(d.io));
  }

  // ---------- edge triggering ----------

  /** Deleting the reader of two edge-triggered events on a descriptor leaves the writer level-triggered. */
  lemma EdgeLostByDelete(n: int)
    ensures var reader, writer := Event(0, true, false, true), Event(1, false, true, true);
      var fd := Fd(Io([reader, writer], 1, 1), None, Some(Interest(true, true, true)));
      && Consistent(fd.io) && Allowed(fd, Del(reader))
      && Immediate(n, fd, Del(reader)).kernel == Some(Interest(false, true, false))
      && Deferred(n, Deferred(n, fd, Del(reader)), Dispatch).kernel == Some(Interest(false, true, false))
  {
    var reader, writer := Event(0, true, false, true), Event(1, false, true, true);
    assert [reader, writer] == [reader] + [writer];
    CountsSplit([reader], [writer]);
    CountsOfOne(reader);
    CountsOfOne(writer);
    var c := ChangeDel(Change(n, Watch(true, true), Keep, Keep), Mask(true, false, false));
    assert Applied(c, Some(Interest(true, true, true))) == Some(Interest(false, true, false));
  }

  /**
    A net change keeps the trigger mode of the descriptor if and only if it removes the last
    interest, adds something, or the mode is level-triggered anyway.
    */
  lemma EdgeKept(c: Change, et: bool, k: Option<Interest>)
    requires NetChange(c) && (c.read.Adds? ==> c.read.et == et) && (c.write.Adds? ==> c.write.et == et)
    ensures (Applied(c, k).Some? ==> Applied(c, k).value.et == et)
      <==> (After(c) == NOTHING || c.read.Adds? || c.write.Adds? || !et)
  {
  }
}
