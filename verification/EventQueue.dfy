/**
  The queues of event.c: which events are inserted, active or waiting for their time, the flags and
  counts that say so, and what the descriptors list. `Ok` is the consistency of all that; inserting an
  event into one of the queues or taking it off keeps it, and so does asking evmap.
  */
module EventQueue {
  import opened Common
  import opened Evmap
  import opened MinHeap
  import opened TimeVal

  // ---------- state ----------

  /** What `event_assign` fixes: the descriptor, `ev_events`, and EVLIST_INTERNAL. */
  datatype Kind = Kind(fd: int, read: bool, write: bool, et: bool, persist: bool, internal: bool)

  /** `ev_res`: why an event is active. */
  datatype Reason = Reason(timeout: bool, read: bool, write: bool, et: bool)

  const NO_REASON := Reason(false, false, false, false)
  const TIMED_OUT := Reason(true, false, false, false)

  /** `struct event`, with the flags EVLIST_INSERTED, EVLIST_ACTIVE and EVLIST_TIMEOUT. */
  datatype Ev = Ev(kind: Kind, pri: nat, inserted: bool, active: bool, timed: bool, res: Reason, ioTimeout: Time)

  /**
    `struct event_base`. Events are named by their place in `evs`; `deadline` holds their `ev_timeout`.
    `running`, `continued` and `broken` are `event_running_priority`, `event_continue` and `event_break`;
    `now` is what `gettime` reports, and `eventTv` the time that the loop has seen last.
    */
  datatype Base = Base(evs: seq<Ev>, deadline: seq<Time>,
                       inserted: seq<Id>, activeq: seq<seq<Id>>, heap: seq<Id>, io: map<int, Io>,
                       count: int, countActive: int,
                       running: int, continued: bool, broken: bool, now: Time, eventTv: Time)

  datatype Queue = Inserted | Active(pri: nat) | Timers

  predicate On(ev: Ev, q: Queue) {
    match q
    case Inserted => ev.inserted
    case Active(p) => ev.active && ev.pri == p
    case Timers => ev.timed
  }

  /** How many queues a user event is on; internal events are not counted. */
  function Memberships(ev: Ev): nat {
    if ev.kind.internal then 0 else One(ev.inserted) + One(ev.active) + One(ev.timed)
  }

  function AllMemberships(evs: seq<Ev>): nat {
    if evs == [] then 0 else AllMemberships(evs[..|evs| - 1]) + Memberships(evs[|evs| - 1])
  }

  function TotalLength(queues: seq<seq<Id>>): nat {
    if queues == [] then 0 else TotalLength(queues[..|queues| - 1]) + |queues[|queues| - 1]|
  }

  // ---------- consistency ----------

  /** The list holds the events that carry its flag, each exactly once, and nothing else. */
  ghost predicate Marks(s: seq<Id>, evs: seq<Ev>, q: Queue) {
    forall e: Id {:trigger Look(e)} :: Look(e) ==> multiset(s)[e] == One(e < |evs| && On(evs[e], q))
  }

  ghost predicate ActiveMarks(activeq: seq<seq<Id>>, evs: seq<Ev>) {
    && (forall p {:trigger Look(p)} :: Look(p) && 0 <= p < |activeq| ==> Marks(activeq[p], evs, Active(p)))
    && (forall e {:trigger Look(e)} :: Look(e) && 0 <= e < |evs| ==> evs[e].pri < |activeq|)
  }

  /** How evmap sees an event. */
  function Seen(e: Id, kind: Kind): Event {
    Event(e, kind.read, kind.write, kind.et)
  }

  predicate Polls(kind: Kind) {
    kind.read || kind.write
  }

  /** Every inserted event is on the list of its descriptor, and no other. */
  ghost predicate Listed(io: map<int, Io>, evs: seq<Ev>) {
    forall e {:trigger Look(e)} :: Look(e) && 0 <= e < |evs| ==>
      && (evs[e].kind.fd >= 0 ==> (Seen(e, evs[e].kind) in IoOf(io, evs[e].kind.fd).events <==> evs[e].inserted))
      && (evs[e].inserted ==> Polls(evs[e].kind))
  }

  /** Whatever is listed for a descriptor is an event that waits for it. */
  ghost predicate Genuine(io: map<int, Io>, evs: seq<Ev>) {
    forall fd, x {:trigger x in IoOf(io, fd).events} :: x in IoOf(io, fd).events ==>
      x.id < |evs| && evs[x.id].kind.fd == fd >= 0 && x == Seen(x.id, evs[x.id].kind)
  }

  /** `evmap_check_integrity`: the events listed for descriptors are the inserted ones. */
  ghost predicate Integrity(io: map<int, Io>, evs: seq<Ev>) {
    && (forall fd {:trigger Look(fd)} :: Look(fd) ==> Consistent(IoOf(io, fd)))
    && Listed(io, evs) && Genuine(io, evs)
  }

  /** HeapOrdered, looked at place by place. */
  ghost predicate TimersOrdered(h: seq<Id>, key: seq<Timeval>)
    requires InHeap(h, key)
  {
    forall i {:trigger Look(i)} :: Look(i) && 0 < i < |h| ==> AtMost(key[h[Parent(i)]], key[h[i]])
  }

  lemma TimersAreHeap(h: seq<Id>, key: seq<Timeval>)
    requires InHeap(h, key)
    ensures TimersOrdered(h, key) <==> HeapOrdered(h, key)
  {
    if TimersOrdered(h, key) {
      forall i | 0 < i < |h| ensures AtMost(key[h[Parent(i)]], key[h[i]]) {
        assert Look(i);
      }
    }
  }

  ghost predicate Ok(b: Base) {
    && |b.deadline| == |b.evs| && |b.activeq| > 0
    && InHeap(b.heap, b.deadline) && TimersOrdered(b.heap, b.deadline)
    && Marks(b.inserted, b.evs, Inserted) && ActiveMarks(b.activeq, b.evs) && Marks(b.heap, b.evs, Timers)
    && b.count == AllMemberships(b.evs) && b.countActive == TotalLength(b.activeq)
    && Integrity(b.io, b.evs)
  }

  // ---------- event_queue_insert and event_queue_remove ----------

  /** TAILQ_REMOVE. */
  function Removed(s: seq<Id>, e: Id): (r: seq<Id>)
    ensures multiset(r) == if e in s then multiset(s) - multiset{e} else multiset(s)
  {
    if s == [] then []
    else
      assert s == [s[0]] + s[1..];
      if s[0] == e then s[1..] else [s[0]] + Removed(s[1..], e)
  }

  function IndexOf(h: seq<Id>, e: Id): (i: nat)
    requires e in h
    ensures i < |h| && h[i] == e
  {
    if h[0] == e then 0 else 1 + IndexOf(h[1..], e)
  }

  function SetEv(b: Base, e: Id, ev: Ev): Base
    requires e < |b.evs|
  {
    b.(evs := b.evs[e := ev])
  }

  function Counted(ev: Ev): nat {
    One(!ev.kind.internal)
  }

  function InsertInserted(b: Base, e: Id): Base
    requires e < |b.evs|
  {
    var ev := b.evs[e];
    SetEv(b, e, ev.(inserted := true)).(inserted := b.inserted + [e], count := b.count + Counted(ev))
  }

  function RemoveInserted(b: Base, e: Id): Base
    requires e < |b.evs|
  {
    var ev := b.evs[e];
    SetEv(b, e, ev.(inserted := false)).(inserted := Removed(b.inserted, e), count := b.count - Counted(ev))
  }

  /** Inserting an active event a second time is allowed and changes nothing. */
  function InsertActive(b: Base, e: Id): Base
    requires e < |b.evs| && b.evs[e].pri < |b.activeq|
  {
    var ev := b.evs[e];
    if ev.active then b
    else
      SetEv(b, e, ev.(active := true)).(
        activeq := b.activeq[ev.pri := b.activeq[ev.pri] + [e]],
        count := b.count + Counted(ev), countActive := b.countActive + 1)
  }

  function RemoveActive(b: Base, e: Id): Base
    requires e < |b.evs| && b.evs[e].pri < |b.activeq|
  {
    var ev := b.evs[e];
    SetEv(b, e, ev.(active := false)).(
      activeq := b.activeq[ev.pri := Removed(b.activeq[ev.pri], e)],
      count := b.count - Counted(ev), countActive := b.countActive - 1)
  }

  function InsertTimer(b: Base, e: Id): Base
    requires e < |b.evs| == |b.deadline| && InHeap(b.heap, b.deadline)
  {
    var ev := b.evs[e];
    SetEv(b, e, ev.(timed := true)).(heap := Push(b.heap, b.deadline, e), count := b.count + Counted(ev))
  }

  function RemoveTimer(b: Base, e: Id): Base
    requires e < |b.evs| && InHeap(b.heap, b.deadline) && e in b.heap
  {
    var ev := b.evs[e];
    SetEv(b, e, ev.(timed := false)).(
      heap := EraseAt(b.heap, b.deadline, IndexOf(b.heap, e)), count := b.count - Counted(ev))
  }

  // ---------- what an update does to each part ----------

  lemma MarksSet(s: seq<Id>, evs: seq<Ev>, q: Queue, e: Id, ev: Ev, t: seq<Id>)
    requires Marks(s, evs, q) && e < |evs|
    requires multiset(t) == multiset(s)[e := One(On(ev, q))]
    ensures Marks(t, evs[e := ev], q)
  {
  }

  /** A list is left alone by an update that leaves its flag alone. */
  lemma MarksKept(s: seq<Id>, evs: seq<Ev>, q: Queue, e: Id, ev: Ev)
    requires Marks(s, evs, q) && e < |evs| && On(ev, q) == On(evs[e], q)
    ensures Marks(s, evs[e := ev], q)
  {
  }

  /** A flag says whether the event is on the list. */
  lemma MarkOf(s: seq<Id>, evs: seq<Ev>, q: Queue, e: Id)
    requires Marks(s, evs, q)
    ensures multiset(s)[e] == One(e < |evs| && On(evs[e], q))
    ensures e in s <==> e < |evs| && On(evs[e], q)
  {
    assert Look(e);
    assert e in s <==> e in multiset(s);
  }

  lemma MarksAppended(s: seq<Id>, evs: seq<Ev>, q: Queue, e: Id, ev: Ev)
    requires Marks(s, evs, q) && e < |evs| && !On(evs[e], q) && On(ev, q)
    ensures Marks(s + [e], evs[e := ev], q)
  {
    MarkOf(s, evs, q, e);
    MarksSet(s, evs, q, e, ev, s + [e]);
  }

  lemma MarksRemoved(s: seq<Id>, evs: seq<Ev>, q: Queue, e: Id, ev: Ev)
    requires Marks(s, evs, q) && e < |evs| && On(evs[e], q) && !On(ev, q)
    ensures Marks(Removed(s, e), evs[e := ev], q)
  {
    MarkOf(s, evs, q, e);
    MarksSet(s, evs, q, e, ev, Removed(s, e));
  }

  lemma {:induction false} MembershipsSet(evs: seq<Ev>, e: Id, ev: Ev)
    requires e < |evs|
    ensures AllMemberships(evs[e := ev]) == AllMemberships(evs) - Memberships(evs[e]) + Memberships(ev)
  {
    var n := |evs| - 1;
    if e < n {
      MembershipsSet(evs[..n], e, ev);
      assert evs[e := ev][..n] == evs[..n][e := ev];
    } else {
      assert evs[e := ev][..n] == evs[..n];
    }
  }

  lemma {:induction false} TotalSet(queues: seq<seq<Id>>, p: nat, s: seq<Id>)
    requires p < |queues|
    ensures TotalLength(queues[p := s]) == TotalLength(queues) - |queues[p]| + |s|
  {
    var n := |queues| - 1;
    if p < n {
      TotalSet(queues[..n], p, s);
      assert queues[p := s][..n] == queues[..n][p := s];
    } else {
      assert queues[p := s][..n] == queues[..n];
    }
  }

  lemma ActiveKept(activeq: seq<seq<Id>>, evs: seq<Ev>, e: Id, ev: Ev)
    requires ActiveMarks(activeq, evs) && e < |evs|
    requires ev.active == evs[e].active && (ev.pri == evs[e].pri || (!ev.active && ev.pri < |activeq|))
    ensures ActiveMarks(activeq, evs[e := ev])
  {
    forall p | 0 <= p < |activeq| ensures Marks(activeq[p], evs[e := ev], Active(p)) {
      assert Look(p);
      MarksKept(activeq[p], evs, Active(p), e, ev);
    }
    assert Look(e);
  }

  lemma PriorityInRange(b: Base, e: Id)
    requires Ok(b) && e < |b.evs|
    ensures b.evs[e].pri < |b.activeq|
  {
    assert Look(e);
  }

  lemma ActiveAppended(activeq: seq<seq<Id>>, evs: seq<Ev>, e: Id, ev: Ev)
    requires ActiveMarks(activeq, evs) && e < |evs| && evs[e].pri < |activeq|
    requires !evs[e].active && ev.active && ev.pri == evs[e].pri
    ensures ActiveMarks(activeq[ev.pri := activeq[ev.pri] + [e]], evs[e := ev])
  {
    var queues := activeq[ev.pri := activeq[ev.pri] + [e]];
    forall p | 0 <= p < |activeq| ensures Marks(queues[p], evs[e := ev], Active(p)) {
      assert Look(p);
      if p == ev.pri {
        MarksAppended(activeq[p], evs, Active(p), e, ev);
      } else {
        MarksKept(activeq[p], evs, Active(p), e, ev);
      }
    }
  }

  lemma ActiveRemoved(activeq: seq<seq<Id>>, evs: seq<Ev>, e: Id, ev: Ev)
    requires ActiveMarks(activeq, evs) && e < |evs| && evs[e].pri < |activeq|
    requires evs[e].active && !ev.active && ev.pri == evs[e].pri
    ensures ActiveMarks(activeq[ev.pri := Removed(activeq[ev.pri], e)], evs[e := ev])
  {
    var queues := activeq[ev.pri := Removed(activeq[ev.pri], e)];
    forall p | 0 <= p < |activeq| ensures Marks(queues[p], evs[e := ev], Active(p)) {
      assert Look(p);
      if p == ev.pri {
        MarksRemoved(activeq[p], evs, Active(p), e, ev);
      } else {
        MarksKept(activeq[p], evs, Active(p), e, ev);
      }
    }
  }

  /** The descriptors do not notice a change of an event that leaves it inserted or not as it was. */
  lemma IntegrityKept(io: map<int, Io>, evs: seq<Ev>, e: Id, ev: Ev)
    requires Integrity(io, evs) && e < |evs| && ev.kind == evs[e].kind && ev.inserted == evs[e].inserted
    ensures Integrity(io, evs[e := ev])
  {
  }

  // ---------- the active queues ----------

  lemma InsertActiveKeepsOk(b: Base, e: Id)
    requires Ok(b) && e < |b.evs| && b.evs[e].pri < |b.activeq|
    ensures Ok(InsertActive(b, e))
  {
    var ev := b.evs[e];
    if !ev.active {
      var ev' := ev.(active := true);
      ActiveAppended(b.activeq, b.evs, e, ev');
      MarksKept(b.inserted, b.evs, Inserted, e, ev');
      MarksKept(b.heap, b.evs, Timers, e, ev');
      MembershipsSet(b.evs, e, ev');
      TotalSet(b.activeq, ev.pri, b.activeq[ev.pri] + [e]);
      IntegrityKept(b.io, b.evs, e, ev');
    }
  }

  lemma RemoveActiveKeepsOk(b: Base, e: Id)
    requires Ok(b) && e < |b.evs| && b.evs[e].pri < |b.activeq| && b.evs[e].active
    ensures Ok(RemoveActive(b, e))
  {
    var ev := b.evs[e];
    var ev' := ev.(active := false);
    var s := b.activeq[ev.pri];
    assert Look(ev.pri);
    MarkOf(s, b.evs, Active(ev.pri), e);
    RemovedLength(s, e);
    ActiveRemoved(b.activeq, b.evs, e, ev');
    MarksKept(b.inserted, b.evs, Inserted, e, ev');
    MarksKept(b.heap, b.evs, Timers, e, ev');
    MembershipsSet(b.evs, e, ev');
    TotalSet(b.activeq, ev.pri, Removed(s, e));
    IntegrityKept(b.io, b.evs, e, ev');
  }

  lemma RemovedLength(s: seq<Id>, e: Id)
    requires e in s
    ensures |Removed(s, e)| == |s| - 1
  {
    assert |multiset(Removed(s, e))| == |multiset(s)| - 1;
  }

  // ---------- the timers ----------

  lemma InsertTimerKeepsOk(b: Base, e: Id)
    requires Ok(b) && e < |b.evs| && !b.evs[e].timed
    ensures Ok(InsertTimer(b, e))
  {
    var ev' := b.evs[e].(timed := true);
    assert TimersOrdered(Push(b.heap, b.deadline, e), b.deadline) &&
      multiset(Push(b.heap, b.deadline, e)) == multiset(b.heap) + multiset{e} by {
      TimersAreHeap(b.heap, b.deadline);
      PushKeeps(b.heap, b.deadline, e);
      TimersAreHeap(Push(b.heap, b.deadline, e), b.deadline);
    }
    MarkOf(b.heap, b.evs, Timers, e);
    MarksSet(b.heap, b.evs, Timers, e, ev', Push(b.heap, b.deadline, e));
    MarksKept(b.inserted, b.evs, Inserted, e, ev');
    ActiveKept(b.activeq, b.evs, e, ev');
    MembershipsSet(b.evs, e, ev');
    IntegrityKept(b.io, b.evs, e, ev');
  }

  lemma RemoveTimerKeepsOk(b: Base, e: Id)
    requires Ok(b) && e < |b.evs| && b.evs[e].timed
    ensures e in b.heap && Ok(RemoveTimer(b, e))
  {
    var ev' := b.evs[e].(timed := false);
    MarkOf(b.heap, b.evs, Timers, e);
    var i := IndexOf(b.heap, e);
    assert TimersOrdered(EraseAt(b.heap, b.deadline, i), b.deadline) by {
      TimersAreHeap(b.heap, b.deadline);
      EraseKeepsOrder(b.heap, b.deadline, i);
      TimersAreHeap(EraseAt(b.heap, b.deadline, i), b.deadline);
    }
    EraseKeepsOthers(b.heap, b.deadline, i);
    MarksSet(b.heap, b.evs, Timers, e, ev', EraseAt(b.heap, b.deadline, i));
    MarksKept(b.inserted, b.evs, Inserted, e, ev');
    ActiveKept(b.activeq, b.evs, e, ev');
    MembershipsSet(b.evs, e, ev');
    IntegrityKept(b.io, b.evs, e, ev');
  }

  /** The deadline of an event that is not in the heap may be changed. */
  function SetDeadline(b: Base, e: Id, t: Time): Base
    requires e < |b.deadline|
  {
    b.(deadline := b.deadline[e := t])
  }

  lemma SetDeadlineKeepsOk(b: Base, e: Id, t: Time)
    requires Ok(b) && e < |b.evs| && !b.evs[e].timed
    ensures Ok(SetDeadline(b, e, t))
  {
    MarkOf(b.heap, b.evs, Timers, e);
    assert forall i :: 0 <= i < |b.heap| ==> b.heap[i] != e;
  }

  /** So may what an event remembers besides its flags. */
  lemma SetEvKeepsOk(b: Base, e: Id, ev: Ev)
    requires Ok(b) && e < |b.evs| && ev.kind == b.evs[e].kind && ev.inserted == b.evs[e].inserted
    requires ev.timed == b.evs[e].timed && ev.active == b.evs[e].active
    requires ev.pri == b.evs[e].pri || (!ev.active && ev.pri < |b.activeq|)
    ensures Ok(SetEv(b, e, ev))
  {
    MarksKept(b.inserted, b.evs, Inserted, e, ev);
    MarksKept(b.heap, b.evs, Timers, e, ev);
    ActiveKept(b.activeq, b.evs, e, ev);
    MembershipsSet(b.evs, e, ev);
    IntegrityKept(b.io, b.evs, e, ev);
  }

  // ---------- the descriptors ----------

  /** `evmap_io_add` refuses the event. */
  predicate Refused(b: Base, e: Id)
    requires e < |b.evs|
  {
    b.evs[e].kind.fd >= 0 && AddFails(IoOf(b.io, b.evs[e].kind.fd), Seen(e, b.evs[e].kind))
  }

  /** `evmap_io_add` and then insertion: descriptors below zero are not listed anywhere. */
  function Enlist(b: Base, e: Id): Base
    requires e < |b.evs|
  {
    var kind := b.evs[e].kind;
    InsertInserted(b, e).(io := if kind.fd < 0 then b.io
      else b.io[kind.fd := Added(IoOf(b.io, kind.fd), Seen(e, kind))])
  }

  function Delist(b: Base, e: Id): Base
    requires e < |b.evs|
    requires b.evs[e].kind.fd >= 0 ==>
      var io := IoOf(b.io, b.evs[e].kind.fd);
      io.nread >= One(b.evs[e].kind.read) && io.nwrite >= One(b.evs[e].kind.write)
  {
    var kind := b.evs[e].kind;
    RemoveInserted(b, e).(io := if kind.fd < 0 then b.io
      else b.io[kind.fd := Deleted(IoOf(b.io, kind.fd), Seen(e, kind))])
  }

  /** event.c keeps what evmap.c relies on: an event is added only when it is not listed. */
  lemma NotListedYet(b: Base, e: Id)
    requires Ok(b) && e < |b.evs| && b.evs[e].kind.fd >= 0 && !b.evs[e].inserted
    ensures forall x :: x in IoOf(b.io, b.evs[e].kind.fd).events ==> x.id != e
  {
    assert Look(e);
  }

  /** The flag and the list of inserted events change together; the descriptors are looked at below. */
  lemma InsertedFlips(b: Base, e: Id, s: seq<Id>, io: map<int, Io>)
    requires Ok(b) && e < |b.evs|
    requires var ev' := b.evs[e].(inserted := !b.evs[e].inserted);
      Marks(s, b.evs[e := ev'], Inserted) && Integrity(io, b.evs[e := ev'])
    ensures var on := !b.evs[e].inserted;
      var count := if on then b.count + Counted(b.evs[e]) else b.count - Counted(b.evs[e]);
      Ok(SetEv(b, e, b.evs[e].(inserted := on)).(inserted := s, io := io, count := count))
  {
    var ev' := b.evs[e].(inserted := !b.evs[e].inserted);
    MarksKept(b.heap, b.evs, Timers, e, ev');
    ActiveKept(b.activeq, b.evs, e, ev');
    MembershipsSet(b.evs, e, ev');
  }

  /** Below zero there is no list to be on. */
  lemma IntegrityBelowZero(io: map<int, Io>, evs: seq<Ev>, e: Id, on: bool)
    requires Integrity(io, evs) && e < |evs| && evs[e].kind.fd < 0 && Polls(evs[e].kind)
    ensures Integrity(io, evs[e := evs[e].(inserted := on)])
  {
  }

  lemma EnlistKeepsOk(b: Base, e: Id)
    requires Ok(b) && e < |b.evs| && !b.evs[e].inserted && Polls(b.evs[e].kind) && !Refused(b, e)
    ensures Ok(Enlist(b, e))
  {
    MarksAppended(b.inserted, b.evs, Inserted, e, b.evs[e].(inserted := true));
    if b.evs[e].kind.fd >= 0 {
      NotListedYet(b, e);
      IntegrityAdded(b.io, b.evs, e);
    } else {
      IntegrityBelowZero(b.io, b.evs, e, true);
    }
    InsertedFlips(b, e, b.inserted + [e], Enlist(b, e).io);
  }

  lemma IntegrityAdded(io: map<int, Io>, evs: seq<Ev>, e: Id)
    requires Integrity(io, evs) && e < |evs| && evs[e].kind.fd >= 0 && Polls(evs[e].kind)
    requires !AddFails(IoOf(io, evs[e].kind.fd), Seen(e, evs[e].kind))
    requires forall x :: x in IoOf(io, evs[e].kind.fd).events ==> x.id != e
    ensures Integrity(io[evs[e].kind.fd := Added(IoOf(io, evs[e].kind.fd), Seen(e, evs[e].kind))],
                      evs[e := evs[e].(inserted := true)])
  {
    var fd, seen := evs[e].kind.fd, Seen(e, evs[e].kind);
    var was, now := IoOf(io, fd), Added(IoOf(io, fd), seen);
    assert Look(fd);
    AddKeepsCounts(was, seen);
    assert forall x :: x in now.events <==> x in was.events || x == seen;
    IntegrityChanged(io, evs, e, now, true);
  }

  /** One event comes to or goes from the list of its descriptor. */
  lemma IntegrityChanged(io: map<int, Io>, evs: seq<Ev>, e: Id, now: Io, on: bool)
    requires Integrity(io, evs) && e < |evs| && evs[e].kind.fd >= 0 && Polls(evs[e].kind) && Consistent(now)
    requires forall x :: x in now.events <==>
      if x == Seen(e, evs[e].kind) then on else x in IoOf(io, evs[e].kind.fd).events
    ensures Integrity(io[evs[e].kind.fd := now], evs[e := evs[e].(inserted := on)])
  {
    var fd := evs[e].kind.fd;
    var io', evs' := io[fd := now], evs[e := evs[e].(inserted := on)];
    assert forall n :: IoOf(io', n) == if n == fd then now else IoOf(io, n);
    ListedChanged(io, evs, e, now, on);
    assert Genuine(io', evs') by {
      forall n, x | x in IoOf(io', n).events
        ensures x.id < |evs'| && evs'[x.id].kind.fd == n >= 0 && x == Seen(x.id, evs'[x.id].kind)
      {
        assert n != fd || x != Seen(e, evs[e].kind) ==> x in IoOf(io, n).events;
      }
    }
  }

  lemma ListedChanged(io: map<int, Io>, evs: seq<Ev>, e: Id, now: Io, on: bool)
    requires Listed(io, evs) && e < |evs| && evs[e].kind.fd >= 0 && Polls(evs[e].kind)
    requires forall x :: x in now.events <==>
      if x == Seen(e, evs[e].kind) then on else x in IoOf(io, evs[e].kind.fd).events
    ensures Listed(io[evs[e].kind.fd := now], evs[e := evs[e].(inserted := on)])
  {
  }

  /** ... and deleted only when it is. */
  lemma ListedNow(b: Base, e: Id)
    requires Ok(b) && e < |b.evs| && b.evs[e].kind.fd >= 0 && b.evs[e].inserted
    ensures var io := IoOf(b.io, b.evs[e].kind.fd);
      && Seen(e, b.evs[e].kind) in io.events
      && io.nread >= One(b.evs[e].kind.read) && io.nwrite >= One(b.evs[e].kind.write)
  {
    assert Look(e) && Look(b.evs[e].kind.fd);
    DelKeepsCounts(IoOf(b.io, b.evs[e].kind.fd), Seen(e, b.evs[e].kind));
  }

  lemma DelistKeepsOk(b: Base, e: Id)
    requires Ok(b) && e < |b.evs| && b.evs[e].inserted
    ensures b.evs[e].kind.fd >= 0 ==>
      var io := IoOf(b.io, b.evs[e].kind.fd);
      io.nread >= One(b.evs[e].kind.read) && io.nwrite >= One(b.evs[e].kind.write)
    ensures Ok(Delist(b, e))
  {
    MarksRemoved(b.inserted, b.evs, Inserted, e, b.evs[e].(inserted := false));
    assert Look(e);
    if b.evs[e].kind.fd >= 0 {
      ListedNow(b, e);
      IntegrityDeleted(b.io, b.evs, e);
    } else {
      IntegrityBelowZero(b.io, b.evs, e, false);
    }
    InsertedFlips(b, e, Removed(b.inserted, e), Delist(b, e).io);
  }

  lemma IntegrityDeleted(io: map<int, Io>, evs: seq<Ev>, e: Id)
    requires Integrity(io, evs) && e < |evs| && evs[e].kind.fd >= 0 && Polls(evs[e].kind)
    requires Seen(e, evs[e].kind) in IoOf(io, evs[e].kind.fd).events
    requires IoOf(io, evs[e].kind.fd).nread >= One(evs[e].kind.read) &&
      IoOf(io, evs[e].kind.fd).nwrite >= One(evs[e].kind.write)
    ensures Integrity(io[evs[e].kind.fd := Deleted(IoOf(io, evs[e].kind.fd), Seen(e, evs[e].kind))],
                      evs[e := evs[e].(inserted := false)])
  {
    var fd, seen := evs[e].kind.fd, Seen(e, evs[e].kind);
    var was, now := IoOf(io, fd), Deleted(IoOf(io, fd), seen);
    assert Look(fd);
    DelKeepsCounts(was, seen);
    WithoutCounts(was.events, seen);
    WithoutOthers(was.events, seen);
    IntegrityChanged(io, evs, e, now, false);
  }

  /** Taking an event off a list leaves the others on it. */
  lemma {:induction false} WithoutOthers(events: seq<Event>, ev: Event)
    ensures forall x :: x in events && x != ev ==> x in Without(events, ev)
  {
    if events != [] && events[0] != ev {
      WithoutOthers(events[1..], ev);
    }
  }
}
