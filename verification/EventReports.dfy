/** Which events reports and timeouts activate, and why. */
module EventReports {
  import opened Common
  import opened EventBaseLoop
  import opened EventLoop
  import opened EventOps
  import opened EventQueue
  import opened EventTimeouts
  import opened Evmap
  import opened MinHeap
  import opened TimeVal
  import Epoll

  /** The part of a report that concerns an event. */
  function What(kind: Kind, what: Epoll.Mask): Reason {
    Reason(false, kind.read && what.read, kind.write && what.write, kind.et && what.et)
  }

  /** The event is inserted for the descriptor and waits for something that is reported. */
  predicate Concerns(report: Report, ev: Ev) {
    ev.inserted && ev.kind.fd == report.fd && What(ev.kind, report.what) != NO_REASON
  }

  /** Active, for this reason too. */
  function Struck(ev: Ev, res: Reason): Ev {
    ev.(active := true, res := if ev.active then Either(ev.res, res) else res)
  }

  // ---------- one report ----------

  ghost predicate Different(events: seq<Event>) {
    forall i, j :: 0 <= i < j < |events| ==> events[i].id != events[j].id
  }

  ghost predicate Known(events: seq<Event>, evs: seq<Ev>) {
    forall x :: x in events ==> x.id < |evs| && x == Seen(x.id, evs[x.id].kind)
  }

  ghost predicate Names(events: seq<Event>, e: Id) {
    exists x :: x in events && x.id == e
  }

  lemma NamesTail(events: seq<Event>, e: Id)
    requires events != [] && Different(events)
    ensures Names(events, e) <==> events[0].id == e || Names(events[1..], e)
    ensures Different(events[1..]) && !Names(events[1..], events[0].id)
  {
    assert forall x :: x in events <==> x == events[0] || x in events[1..];
    assert forall i :: 1 <= i < |events| ==> events[i] == events[1..][i - 1];
  }

  lemma {:induction false} ActivatedDifferent(events: seq<Event>, what: Epoll.Mask)
    requires Different(events)
    ensures Different(Activated(events, what))
  {
    if events != [] {
      NamesTail(events, 0);
      ActivatedDifferent(events[1..], what);
      ActivatedAre(events[1..], what);
      assert forall x :: x in Activated(events[1..], what) ==> x.id != events[0].id;
    }
  }

  lemma {:induction false} EventsStruck(b: Base, events: seq<Event>, what: Epoll.Mask, e: Id)
    requires Ok(b) && Known(events, b.evs) && Different(events) && e < |b.evs|
    ensures ActivateAll(b, events, what).evs[e] ==
      if Names(events, e) then Struck(b.evs[e], What(b.evs[e].kind, what)) else b.evs[e]
    decreases |events|
  {
    if events != [] {
      var x := events[0];
      NamesTail(events, e);
      EventsStruck(ActiveNolock(b, x.id, ReasonFor(x, what)), events[1..], what, e);
    }
  }

  /** The events that the report concerns are the listed ones that are activated. */
  lemma ConcernsIffNamed(b: Base, report: Report, e: Id)
    requires Ok(b) && e < |b.evs| && report.fd >= 0
    ensures var events := Activated(IoOf(b.io, report.fd).events, report.what);
      Known(events, b.evs) && Different(events) && (Names(events, e) <==> Concerns(report, b.evs[e]))
  {
    var all := IoOf(b.io, report.fd).events;
    ActivatedAre(all, report.what);
    assert Look(report.fd) && Look(e);
    ActivatedDifferent(all, report.what);
    if Concerns(report, b.evs[e]) {
      assert Seen(e, b.evs[e].kind) in Activated(all, report.what);
    }
  }

  /** A report activates exactly the events it concerns, for what is reported and they wait for. */
  lemma ReportStrikes(b: Base, report: Report, e: Id)
    requires Ok(b) && e < |b.evs| && report.fd >= 0
    ensures var r := IoActive(b, report.fd, report.what);
      && |r.evs| == |b.evs|
      && r.evs[e] == if Concerns(report, b.evs[e]) then Struck(b.evs[e], What(b.evs[e].kind, report.what)) else b.evs[e]
  {
    ConcernsIffNamed(b, report, e);
    EventsStruck(b, Activated(IoOf(b.io, report.fd).events, report.what), report.what, e);
  }

  // ---------- the order in the active queues ----------

  /** The events of a priority that were not active, in list order. */
  function Joining(events: seq<Event>, evs: seq<Ev>, p: nat): seq<Id>
    requires forall x :: x in events ==> x.id < |evs|
  {
    if events == [] then []
    else
      var ev := evs[events[0].id];
      (if !ev.active && ev.pri == p then [events[0].id] else []) + Joining(events[1..], evs, p)
  }

  lemma {:induction false} JoiningAlike(events: seq<Event>, evs: seq<Ev>, e: Id, ev: Ev, p: nat)
    requires (forall x :: x in events ==> x.id < |evs|) && e < |evs| && !Names(events, e)
    ensures Joining(events, evs[e := ev], p) == Joining(events, evs, p)
  {
    if events != [] {
      assert events[0] in events;
      assert forall x :: x in events[1..] ==> x in events;
      JoiningAlike(events[1..], evs, e, ev, p);
    }
  }

  lemma ActivationJoins(b: Base, e: Id, res: Reason, p: nat)
    requires Ok(b) && e < |b.evs| && p < |b.activeq|
    ensures ActiveNolock(b, e, res).activeq[p] ==
      b.activeq[p] + if !b.evs[e].active && b.evs[e].pri == p then [e] else []
  {
    PriorityInRange(b, e);
    assert b.activeq[p] + [] == b.activeq[p];
  }

  lemma RestKnown(b: Base, events: seq<Event>, what: Epoll.Mask)
    requires Ok(b) && events != [] && Known(events, b.evs) && Different(events)
    ensures var b1 := ActiveNolock(b, events[0].id, ReasonFor(events[0], what));
      Known(events[1..], b1.evs) && Different(events[1..]) && !Names(events[1..], events[0].id)
  {
    NamesTail(events, events[0].id);
  }

  lemma JoinedBehind(queue: seq<Id>, one: seq<Id>, more: seq<Id>)
    ensures queue + one + more == queue + (one + more)
  {
  }

  /** The queue of each priority gets those of its events that were not active, behind the others. */
  lemma {:induction false} EventsJoin(b: Base, events: seq<Event>, what: Epoll.Mask, p: nat)
    requires Ok(b) && Known(events, b.evs) && Different(events) && p < |b.activeq|
    ensures ActivateAll(b, events, what).activeq[p] == b.activeq[p] + Joining(events, b.evs, p)
    decreases |events|
  {
    if events == [] {
      assert b.activeq[p] + [] == b.activeq[p];
    } else {
      var x, rest := events[0], events[1..];
      var b1 := ActiveNolock(b, x.id, ReasonFor(x, what));
      var one := if !b.evs[x.id].active && b.evs[x.id].pri == p then [x.id] else [];
      assert b1.activeq[p] == b.activeq[p] + one by {
        ActivationJoins(b, x.id, ReasonFor(x, what), p);
      }
      RestKnown(b, events, what);
      assert ActivateAll(b1, rest, what).activeq[p] == b1.activeq[p] + Joining(rest, b1.evs, p) by {
        EventsJoin(b1, rest, what, p);
      }
      assert Joining(rest, b1.evs, p) == Joining(rest, b.evs, p) by {
        JoiningAlike(rest, b.evs, x.id, b1.evs[x.id], p);
      }
      JoinedBehind(b.activeq[p], one, Joining(rest, b.evs, p));
    }
  }

  lemma ReportJoins(b: Base, report: Report, p: nat)
    requires Ok(b) && p < |b.activeq|
    ensures var events := Activated(IoOf(b.io, report.fd).events, report.what);
      && (forall x :: x in events ==> x.id < |b.evs|)
      && IoActive(b, report.fd, report.what).activeq[p] == b.activeq[p] + Joining(events, b.evs, p)
  {
    var all := IoOf(b.io, report.fd).events;
    ActivatedAre(all, report.what);
    assert Look(report.fd);
    ActivatedDifferent(all, report.what);
    EventsJoin(b, Activated(all, report.what), report.what, p);
  }

  // ---------- all reports of a round ----------

  ghost predicate SomeConcerns(reports: seq<Report>, ev: Ev) {
    exists i :: 0 <= i < |reports| && Concerns(reports[i], ev)
  }

  /** What all reports that concern the event say, together. */
  function Together(reports: seq<Report>, ev: Ev): Reason {
    if reports == [] then NO_REASON
    else
      Either(if Concerns(reports[0], ev) then What(ev.kind, reports[0].what) else NO_REASON, Together(reports[1..], ev))
  }

  lemma SomeConcernsTail(reports: seq<Report>, ev: Ev)
    requires reports != []
    ensures SomeConcerns(reports, ev) <==> Concerns(reports[0], ev) || SomeConcerns(reports[1..], ev)
  {
    assert forall i :: 1 <= i < |reports| ==> reports[i] == reports[1..][i - 1];
    if SomeConcerns(reports[1..], ev) {
      var i :| 0 <= i < |reports| - 1 && Concerns(reports[1..][i], ev);
      assert reports[i + 1] == reports[1..][i];
    }
  }

  lemma {:induction false} NothingTogether(reports: seq<Report>, ev: Ev)
    requires !SomeConcerns(reports, ev)
    ensures Together(reports, ev) == NO_REASON
  {
    if reports != [] {
      SomeConcernsTail(reports, ev);
      NothingTogether(reports[1..], ev);
    }
  }

  /** Being active, or why, does not matter for the reports to come. */
  lemma {:induction false} StillConcerned(reports: seq<Report>, was: Ev, now: Ev)
    requires now == was.(active := now.active, res := now.res)
    ensures Together(reports, now) == Together(reports, was)
    ensures SomeConcerns(reports, now) <==> SomeConcerns(reports, was)
  {
    if reports != [] {
      StillConcerned(reports[1..], was, now);
      SomeConcernsTail(reports, was);
      SomeConcernsTail(reports, now);
    }
  }

  /**
    The reports of a round activate exactly the events that one of them concerns, for all that they say
    together; an event that was active keeps its reasons.
    */
  lemma {:induction false} ReportsStrike(b: Base, reports: seq<Report>, e: Id)
    requires Ok(b) && e < |b.evs| && forall i :: 0 <= i < |reports| ==> reports[i].fd >= 0
    ensures var r := IoActiveAll(b, reports);
      && |r.evs| == |b.evs|
      && r.evs[e] == if SomeConcerns(reports, b.evs[e]) then Struck(b.evs[e], Together(reports, b.evs[e])) else b.evs[e]
    decreases |reports|
  {
    if reports != [] {
      var b1 := IoActive(b, reports[0].fd, reports[0].what);
      ReportStrikes(b, reports[0], e);
      ReportsStrike(b1, reports[1..], e);
      var was, mid := b.evs[e], b1.evs[e];
      StruckOnceMore(reports, was, mid, IoActiveAll(b1, reports[1..]).evs[e], Concerns(reports[0], was),
        What(was.kind, reports[0].what), SomeConcerns(reports[1..], mid), Together(reports[1..], mid));
    }
  }

  lemma StruckKeeps(was: Ev, mid: Ev, res: Reason)
    requires mid == was || mid == Struck(was, res)
    ensures mid == was.(active := mid.active, res := mid.res)
  {
  }

  lemma StruckOnceMore(reports: seq<Report>, was: Ev, mid: Ev, now: Ev, first: bool, a: Reason,
                       later: bool, rest: Reason)
    requires reports != [] && first == Concerns(reports[0], was) && a == What(was.kind, reports[0].what)
    requires later == SomeConcerns(reports[1..], mid) && rest == Together(reports[1..], mid)
    requires mid == (if first then Struck(was, a) else was) && now == if later then Struck(mid, rest) else mid
    ensures now == if SomeConcerns(reports, was) then Struck(was, Together(reports, was)) else was
  {
    StruckKeeps(was, mid, a);
    StillConcerned(reports[1..], was, mid);
    SomeConcernsTail(reports, was);
    if !later {
      NothingTogether(reports[1..], mid);
    }
    StruckInTurn(was, mid, now, first, a, later, rest, Together(reports, was));
  }

  lemma StruckInTurn(was: Ev, mid: Ev, now: Ev, first: bool, a: Reason, later: bool, rest: Reason, all: Reason)
    requires mid == if first then Struck(was, a) else was
    requires now == if later then Struck(mid, rest) else mid
    requires all == Either(if first then a else NO_REASON, rest) && (!later ==> rest == NO_REASON)
    ensures now == if first || later then Struck(was, all) else was
  {
    if first {
      StruckTwice(was, a, rest);
    } else {
      StruckTwice(was, NO_REASON, rest);
    }
  }

  lemma StruckTwice(was: Ev, a: Reason, b: Reason)
    ensures Struck(Struck(was, a), b) == Struck(was, Either(a, b))
    ensures Either(a, NO_REASON) == a && Either(NO_REASON, b) == b
  {
  }

  // ---------- all that happens in a round before its callbacks ----------

  lemma {:induction false} ActivationsKeepTimes(b: Base, events: seq<Event>, what: Epoll.Mask)
    requires Ok(b) && forall x :: x in events ==> x.id < |b.evs|
    ensures ActivateAll(b, events, what).deadline == b.deadline
    decreases |events|
  {
    if events != [] {
      ActivationsKeepTimes(ActiveNolock(b, events[0].id, ReasonFor(events[0], what)), events[1..], what);
    }
  }

  lemma {:induction false} ReportsKeepTimes(b: Base, reports: seq<Report>)
    requires Ok(b)
    ensures IoActiveAll(b, reports).deadline == b.deadline
    decreases |reports|
  {
    if reports != [] {
      var events := IoOf(b.io, reports[0].fd).events;
      ActivatedAre(events, reports[0].what);
      ActivationsKeepTimes(b, Activated(events, reports[0].what), reports[0].what);
      ReportsKeepTimes(IoActive(b, reports[0].fd, reports[0].what), reports[1..]);
    }
  }

  /** The event behind the reports. */
  ghost function Reported(reports: seq<Report>, ev: Ev): Ev {
    if SomeConcerns(reports, ev) then Struck(ev, Together(reports, ev)) else ev
  }

  /**
    When the callbacks of a round are due: an event whose time has come is active because of that alone,
    and neither timed nor inserted any more; any other one is as the reports have left it.
    */
  lemma RoundActivates(b: Base, round: EventBaseLoop.Round, e: Id)
    requires Ok(b) && e < |b.evs| && forall i :: 0 <= i < |round.reports| ==> round.reports[i].fd >= 0
    ensures var r, ev := Ready(b, round), Reported(round.reports, b.evs[e]);
      && |r.evs| == |b.evs|
      && r.evs[e] ==
         if b.evs[e].timed && AtMost(b.deadline[e], round.now)
         then ev.(timed := false, active := true, inserted := false, res := TIMED_OUT) else ev
  {
    var b1 := IoActiveAll(b, round.reports);
    ReportsStrike(b, round.reports, e);
    ReportsKeepTimes(b, round.reports);
    FiredAreActive(b1.(now := round.now), e);
    StruckKeepsTimer(round.reports, b.evs[e]);
    TimeoutsKeepEvents(b1.(now := round.now));
  }

  lemma StruckKeepsTimer(reports: seq<Report>, ev: Ev)
    ensures Reported(reports, ev).timed == ev.timed
  {
  }

  lemma {:induction false} TimeoutsKeepEvents(b: Base)
    requires Ok(b)
    ensures |TimeoutProcess(b).0.evs| == |b.evs|
    decreases |b.heap|
  {
    EventTimeouts.Round(b);
    if !Stops(b) {
      TimeoutsKeepEvents(Expire(b, b.heap[0]));
    }
  }
}
