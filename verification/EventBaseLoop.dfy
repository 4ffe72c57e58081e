/**
  `event_base_loop`: rounds of waiting, reports, timeouts and callbacks. What a round meets is its
  input: whether the backend fails, what it reports, the time, and the scripts of the callbacks;
  `Loop` does the rounds one by one until the flags, a callback or the lack of events end it. The two
  counts of the base tell whether any event of a user is left, and all rounds respect priorities.
  */
module EventBaseLoop {
  import opened Common
  import opened Epoll
  import opened EventClock
  import opened EventLoop
  import opened EventOps
  import opened EventQueue
  import opened EventTimeouts
  import opened Evmap
  import opened MinHeap
  import opened TimeVal

  // ---------- reports ----------

  /** `ev->ev_events & events`. */
  function ReasonFor(ev: Event, report: Mask): Reason {
    Reason(false, ev.read && report.read, ev.write && report.write, ev.et && report.et)
  }

  function ActivateAll(b: Base, events: seq<Event>, report: Mask): (r: Base)
    requires Ok(b) && forall x :: x in events ==> x.id < |b.evs|
    ensures Ok(r) && |r.evs| == |b.evs| && |r.activeq| == |b.activeq| && r.running == b.running
    decreases |events|
  {
    if events == [] then b
    else ActivateAll(ActiveNolock(b, events[0].id, ReasonFor(events[0], report)), events[1..], report)
  }

  /** `evmap_io_active`. */
  function IoActive(b: Base, fd: int, report: Mask): (r: Base)
    requires Ok(b)
    ensures Ok(r) && |r.activeq| == |b.activeq| && r.running == b.running
  {
    var events := IoOf(b.io, fd).events;
    assert forall x :: x in Activated(events, report) ==> x in events && x.id < |b.evs| by {
      ActivatedAre(events, report);
    }
    ActivateAll(b, Activated(events, report), report)
  }

  /** What the backend found while it waited. */
  datatype Report = Report(fd: int, what: Mask)

  function IoActiveAll(b: Base, reports: seq<Report>): (r: Base)
    requires Ok(b)
    ensures Ok(r) && |r.activeq| == |b.activeq| && r.running == b.running
    decreases |reports|
  {
    if reports == [] then b else IoActiveAll(IoActive(b, reports[0].fd, reports[0].what), reports[1..])
  }

  // ---------- the loop ----------

  /**
    What one round meets: the clock at its start; the backend's dispatch, which fails, or returns
    reports when time has passed; then what the callbacks do.
    */
  datatype Round = Round(start: Time, fails: bool, reports: seq<Report>, now: Time, script: seq<seq<EventOps.Op>>)

  /** EVLOOP_ONCE and EVLOOP_NONBLOCK, and whether the clock is a monotonic one. */
  datatype Flags = Flags(once: bool, nonblock: bool, monotonic: bool)

  /**
    The loop has returned with a result, or it is still running after the rounds that are given;
    `turns` are those of all callbacks up to there.
    */
  datatype Outcome = Returned(r: int, base: Base, turns: seq<Turn>) | Running(base: Base, turns: seq<Turn>)

  /** No event of the user is on any queue, and nothing is active. */
  ghost predicate Idle(b: Base) {
    && (forall e :: 0 <= e < |b.evs| && !b.evs[e].kind.internal ==>
          !b.evs[e].inserted && !b.evs[e].active && !b.evs[e].timed)
    && (forall p :: 0 <= p < |b.activeq| ==> b.activeq[p] == [])
  }

  /** The base when the callbacks of a round are due. */
  function Ready(b: Base, round: Round): (r: Base)
    requires Ok(b)
    ensures Ok(r)
  {
    TimeoutProcess(IoActiveAll(b, round.reports).(now := round.now)).0
  }

  /** The part of a round behind a successful dispatch: the base, whether the loop is done, and the turns. */
  function AfterDispatch(b: Base, round: Round, flags: Flags): (r: (Base, bool, seq<Turn>))
    requires Ok(b)
    ensures Ok(r.0)
  {
    var b1 := Ready(b, round);
    if b1.countActive != 0 then
      var s := ProcessActive(b1, round.script);
      (s.base, flags.once && s.base.countActive == 0 && s.count != 0, s.turns)
    else (b1, flags.nonblock, [])
  }

  /** A round that nothing has stopped before, and the result if the loop ends in it. */
  function OneRound(b: Base, round: Round, flags: Flags): (r: (Base, Option<int>, seq<Turn>))
    requires Ok(b)
    ensures Ok(r.0)
  {
    var b1 := ClockCorrected(b, flags.monotonic, round.start);
    if !(b1.count > 0) && b1.countActive == 0 then (b1, Some(1), [])
    else
      var b2 := b1.(eventTv := b1.now);
      if round.fails then (b2, Some(-1), [])
      else
        var (b3, done, turns) := AfterDispatch(b2, round, flags);
        (b3, if done then Some(0) else None, turns)
  }

  function Loop(b: Base, rounds: seq<Round>, flags: Flags): (o: Outcome)
    requires Ok(b)
    ensures Ok(o.base)
    decreases |rounds|
  {
    var b0 := b.(continued := false);
    if b0.broken then Returned(0, b0, [])
    else if rounds == [] then Running(b0, [])
    else
      var (b1, result, turns) := OneRound(b0, rounds[0], flags);
      if result.Some? then Returned(result.value, b1, turns) else Behind(turns, Loop(b1, rounds[1..], flags))
  }

  /** The same with some turns in front. */
  function Behind(turns: seq<Turn>, o: Outcome): Outcome {
    o.(turns := turns + o.turns)
  }

  lemma LoopUnfolded(b: Base, rounds: seq<Round>, flags: Flags)
    requires Ok(b)
    ensures b.broken ==> Loop(b, rounds, flags) == Returned(0, b.(continued := false), [])
    ensures !b.broken && rounds == [] ==> Loop(b, rounds, flags) == Running(b.(continued := false), [])
    ensures !b.broken && rounds != [] ==>
      var (r, result, more) := OneRound(b.(continued := false), rounds[0], flags);
      Loop(b, rounds, flags) ==
        if result.Some? then Returned(result.value, r, more) else Behind(more, Loop(r, rounds[1..], flags))
  {
  }

  lemma BehindTwice(a: seq<Turn>, b: seq<Turn>, o: Outcome)
    ensures Behind(a, Behind(b, o)) == Behind(a + b, o)
  {
    assert a + (b + o.turns) == a + b + o.turns;
  }

  /** The base that a round hands to the backend. */
  function Prepared(b: Base, round: Round, flags: Flags): (r: Base)
    requires Ok(b)
    ensures Ok(r) && r == b.(continued := false, now := round.start, eventTv := round.start, deadline := r.deadline)
  {
    ClockCorrected(b.(continued := false), flags.monotonic, round.start).(eventTv := round.start)
  }

  /** `event_base_loop` first clears `event_break`. */
  function BaseLoop(b: Base, rounds: seq<Round>, flags: Flags): (o: Outcome)
    requires Ok(b)
    ensures Ok(o.base)
  {
    Loop(b.(broken := false), rounds, flags)
  }

  // ---------- when it returns 1 ----------

  lemma {:induction false} NoMemberships(evs: seq<Ev>)
    ensures AllMemberships(evs) == 0 <==> forall e :: 0 <= e < |evs| ==> Memberships(evs[e]) == 0
  {
    if evs != [] {
      var n := |evs| - 1;
      NoMemberships(evs[..n]);
      assert forall e :: 0 <= e < n ==> evs[..n][e] == evs[e];
    }
  }

  lemma {:induction false} NothingActive(queues: seq<seq<Id>>)
    ensures TotalLength(queues) == 0 <==> forall p :: 0 <= p < |queues| ==> queues[p] == []
  {
    if queues != [] {
      var n := |queues| - 1;
      NothingActive(queues[..n]);
      assert forall p :: 0 <= p < n ==> queues[..n][p] == queues[p];
    }
  }

  /** The counts the loop looks at are zero exactly if no user event is on a queue and nothing is active. */
  lemma CountsTellIdle(b: Base)
    requires Ok(b)
    ensures !(b.count > 0) && b.countActive == 0 <==> Idle(b)
  {
    NoMemberships(b.evs);
    NothingActive(b.activeq);
  }

  /** The loop returns 1 only when no event of the user is on any queue. */
  lemma {:induction false} OneMeansIdle(b: Base, rounds: seq<Round>, flags: Flags)
    requires Ok(b)
    ensures var o := Loop(b, rounds, flags);
      o.Returned? && o.r == 1 ==> Idle(o.base)
    decreases |rounds|
  {
    if rounds != [] {
      CountsTellIdle(ClockCorrected(b.(continued := false), flags.monotonic, rounds[0].start));
      if !rounds[0].fails {
        OneMeansIdle(AfterDispatch(Prepared(b, rounds[0], flags), rounds[0], flags).0, rounds[1..], flags);
      }
    }
  }

  /** ... and in the first round when that is so from the start: only the clock is looked at then. */
  lemma IdleReturnsOne(b: Base, rounds: seq<Round>, flags: Flags)
    requires Ok(b) && rounds != []
    ensures var r := ClockCorrected(b.(broken := false, continued := false), flags.monotonic, rounds[0].start);
      BaseLoop(b, rounds, flags) == Returned(1, r, []) <==> Idle(b)
  {
    var r := ClockCorrected(b.(broken := false, continued := false), flags.monotonic, rounds[0].start);
    CountsTellIdle(r);
    assert Idle(r) <==> Idle(b);
    if !Idle(b) {
      OneMeansIdle(b.(broken := false), rounds, flags);
    }
  }

  // ---------- no inversion in any round ----------

  lemma {:induction false} ActivationsKeepInternalAtEnds(b: Base, events: seq<Event>, report: Mask)
    requires Ok(b) && (forall x :: x in events ==> x.id < |b.evs|) && InternalAtEnds(b) && b.running <= 0 &&
      !b.continued
    ensures InternalAtEnds(ActivateAll(b, events, report)) && !ActivateAll(b, events, report).continued
    decreases |events|
  {
    if events != [] {
      var e, res := events[0].id, ReasonFor(events[0], report);
      OnlyKeepsInternalAtEnds(b, ActiveNolock(b, e, res), e);
      ActivationsKeepInternalAtEnds(ActiveNolock(b, e, res), events[1..], report);
    }
  }

  lemma {:induction false} ReportsKeepInternalAtEnds(b: Base, reports: seq<Report>)
    requires Ok(b) && InternalAtEnds(b) && b.running <= 0 && !b.continued
    ensures InternalAtEnds(IoActiveAll(b, reports)) && !IoActiveAll(b, reports).continued
    decreases |reports|
  {
    if reports != [] {
      var events := IoOf(b.io, reports[0].fd).events;
      ActivatedAre(events, reports[0].what);
      ActivationsKeepInternalAtEnds(b, Activated(events, reports[0].what), reports[0].what);
      ReportsKeepInternalAtEnds(IoActive(b, reports[0].fd, reports[0].what), reports[1..]);
    }
  }

  lemma {:induction false} TimeoutsKeepInternalAtEnds(b: Base)
    requires Ok(b) && InternalAtEnds(b) && b.running <= 0 && !b.continued
    ensures InternalAtEnds(TimeoutProcess(b).0) && !TimeoutProcess(b).0.continued && TimeoutProcess(b).0.running <= 0
    decreases |b.heap|
  {
    EventTimeouts.Round(b);
    if !Stops(b) {
      var e := b.heap[0];
      var b1 := Expire(b, e);
      OnlyKeepsInternalAtEnds(b, b1, e);
      assert !b1.continued by {
        PriorityInRange(b, e);
        DelDequeues(b, e);
      }
      TimeoutsKeepInternalAtEnds(b1);
    }
  }

  lemma ReadyKeepsInternalAtEnds(b: Base, round: Round)
    requires Ok(b) && InternalAtEnds(b) && b.running <= 0 && !b.continued
    ensures InternalAtEnds(Ready(b, round)) && !Ready(b, round).continued && Ready(b, round).running <= 0
  {
    ReportsKeepInternalAtEnds(b, round.reports);
    TimeoutsKeepInternalAtEnds(IoActiveAll(b, round.reports).(now := round.now));
  }

  /** A round serves the queues without priority inversion and leaves the base ready for the next. */
  lemma RoundHasNoInversion(b: Base, round: Round, flags: Flags)
    requires Ok(b) && InternalAtEnds(b) && b.running <= 0 && !b.continued
    ensures var (r, _, turns) := AfterDispatch(b, round, flags);
      NoInversion(turns) && InternalAtEnds(r) && r.running <= 0
  {
    ReadyKeepsInternalAtEnds(b, round);
    NoPriorityInversion(Ready(b, round), round.script);
  }

  /** In no run of the loop is an event served while a more urgent one is active. */
  lemma {:induction false} LoopHasNoInversion(b: Base, rounds: seq<Round>, flags: Flags)
    requires Ok(b) && InternalAtEnds(b) && b.running <= 0
    ensures NoInversion(Loop(b, rounds, flags).turns)
    decreases |rounds|
  {
    if rounds != [] {
      var (r, result, turns) := OneRound(b.(continued := false), rounds[0], flags);
      assert NoInversion(turns) && InternalAtEnds(r) && r.running <= 0 by {
        RoundInOrder(b, rounds[0], flags);
      }
      LoopUnfolded(b, rounds, flags);
      if !b.broken && result.None? {
        LoopHasNoInversion(r, rounds[1..], flags);
        BehindInOrder(turns, Loop(r, rounds[1..], flags));
      }
    }
  }

  lemma RoundInOrder(b: Base, round: Round, flags: Flags)
    requires Ok(b) && InternalAtEnds(b) && b.running <= 0
    ensures var (r, result, turns) := OneRound(b.(continued := false), round, flags);
      NoInversion(turns) && InternalAtEnds(r) && r.running <= 0
  {
    var b0, r := Prepared(b, round, flags), OneRound(b.(continued := false), round, flags);
    var s := AfterDispatch(b0, round, flags);
    assert NoInversion(s.2) && InternalAtEnds(s.0) && s.0.running <= 0 by {
      SameInternalAtEnds(b, b0);
      RoundHasNoInversion(b0, round, flags);
    }
    RoundUnfolded(b, round, flags);
    EitherInOrder(b, r.0, r.2, s);
  }

  lemma EitherInOrder(b: Base, r: Base, turns: seq<Turn>, s: (Base, bool, seq<Turn>))
    requires InternalAtEnds(b) && b.running <= 0 && NoInversion(s.2) && InternalAtEnds(s.0) && s.0.running <= 0
    requires SameEvents(b, r, turns) || (turns == s.2 && r == s.0)
    ensures NoInversion(turns) && InternalAtEnds(r) && r.running <= 0
  {
  }

  ghost predicate SameEvents(b: Base, r: Base, turns: seq<Turn>) {
    turns == [] && r.evs == b.evs && r.activeq == b.activeq && r.running == b.running
  }

  lemma SameInternalAtEnds(b: Base, r: Base)
    requires InternalAtEnds(b) && r.evs == b.evs && r.activeq == b.activeq
    ensures InternalAtEnds(r)
  {
  }

  lemma RoundUnfolded(b: Base, round: Round, flags: Flags)
    requires Ok(b)
    ensures var b0 := Prepared(b, round, flags);
      var (r, _, turns) := OneRound(b.(continued := false), round, flags);
      var s := AfterDispatch(b0, round, flags);
      SameEvents(b, r, turns) || (turns == s.2 && r == s.0)
  {
  }

  lemma BehindInOrder(turns: seq<Turn>, o: Outcome)
    requires NoInversion(turns) && NoInversion(o.turns)
    ensures NoInversion(Behind(turns, o).turns)
  {
  }
}
