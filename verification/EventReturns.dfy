/** When `event_base_loop` returns, and with what. */
module EventReturns {
  import opened Common
  import opened EventBaseLoop
  import opened EventClock
  import opened EventLoop
  import opened EventOps
  import opened EventQueue
  import opened EventTimeouts
  import opened EventTurns
  import opened Evmap
  import opened MinHeap
  import opened TimeVal

  // ---------- one round ----------

  ghost predicate NoneActive(b: Base) {
    forall p :: 0 <= p < |b.activeq| ==> b.activeq[p] == []
  }

  lemma CountTellsActive(b: Base)
    requires Ok(b)
    ensures b.countActive == 0 <==> NoneActive(b)
  {
    NothingActive(b.activeq);
  }

  /** Some callback of a user has run. */
  ghost predicate ServedUser(turns: seq<Turn>) {
    exists t :: t in turns && ServesUser(t)
  }

  lemma {:induction false} UserTurnsTell(turns: seq<Turn>)
    ensures UserTurns(turns) > 0 <==> ServedUser(turns)
  {
    if turns != [] {
      UserTurnsTell(turns[1..]);
      assert forall t :: t in turns <==> t == turns[0] || t in turns[1..];
    }
  }

  /**
    The callbacks of a round: none if nothing has become active; otherwise events are served, each from
    the head of its queue, and the first from the most urgent one.
    */
  ghost predicate RoundServes(ready: Base, r: Base, turns: seq<Turn>) {
    if NoneActive(ready) then r.(continued := false) == ready.(continued := false) && turns == []
    else
      && ServeHeads(turns)
      && (forall p: nat :: FirstActive(ready, 0, p) ==>
            turns != [] && turns[0] == Turn(ready.(running := p), p, ready.activeq[p][0]))
  }

  /**
    Whether a flag ends the loop: EVLOOP_NONBLOCK when nothing has become active, and EVLOOP_ONCE when a
    callback of a user has run or has broken the loop, and nothing is left active.
    */
  ghost predicate FlagEnds(ready: Base, r: Base, turns: seq<Turn>, flags: Flags) {
    if NoneActive(ready) then flags.nonblock
    else flags.once && NoneActive(r) && (r.broken || ServedUser(turns))
  }

  lemma ProcessedServes(ready: Base, script: seq<seq<EventOps.Op>>)
    requires Ok(ready) && !ready.broken && !NoneActive(ready)
    ensures var s := ProcessActive(ready, script);
      && RoundServes(ready, s.base, s.turns)
      && (s.count != 0 <==> s.base.broken || ServedUser(s.turns))
  {
    var s := ProcessActive(ready, script);
    assert CountsTurns(s, 0) by {
      ProcessCounts(ready, 0, script);
    }
    UserTurnsTell(s.turns);
    forall p: nat | FirstActive(ready, 0, p)
      ensures BeginsWith(s, Turn(ready.(running := p), p, ready.activeq[p][0]))
    {
      ProcessBegins(ready, 0, script, p);
    }
  }

  lemma DispatchedEnds(b: Base, round: Round, flags: Flags)
    requires Ok(b) && !b.broken
    ensures var ready := Ready(b, round);
      var (r, done, turns) := AfterDispatch(b, round, flags);
      RoundServes(ready, r, turns) && (done <==> FlagEnds(ready, r, turns, flags))
  {
    var ready := Ready(b, round);
    CountTellsActive(ready);
    if !NoneActive(ready) {
      ReadyIsNotBroken(b, round);
      ProcessedServes(ready, round.script);
      CountTellsActive(ProcessActive(ready, round.script).base);
    }
  }

  // ---------- nothing before the callbacks breaks the loop ----------

  lemma {:induction false} ActivationsDoNotBreak(b: Base, events: seq<Event>, report: Epoll.Mask)
    requires Ok(b) && forall x :: x in events ==> x.id < |b.evs|
    ensures ActivateAll(b, events, report).broken == b.broken
    decreases |events|
  {
    if events != [] {
      ActivationsDoNotBreak(ActiveNolock(b, events[0].id, ReasonFor(events[0], report)), events[1..], report);
    }
  }

  lemma {:induction false} ReportsDoNotBreak(b: Base, reports: seq<Report>)
    requires Ok(b)
    ensures IoActiveAll(b, reports).broken == b.broken
    decreases |reports|
  {
    if reports != [] {
      var events := IoOf(b.io, reports[0].fd).events;
      ActivatedAre(events, reports[0].what);
      ActivationsDoNotBreak(b, Activated(events, reports[0].what), reports[0].what);
      ReportsDoNotBreak(IoActive(b, reports[0].fd, reports[0].what), reports[1..]);
    }
  }

  lemma {:induction false} TimeoutsDoNotBreak(b: Base)
    requires Ok(b)
    ensures TimeoutProcess(b).0.broken == b.broken
    decreases |b.heap|
  {
    EventTimeouts.Round(b);
    if !Stops(b) {
      TimeoutsDoNotBreak(Expire(b, b.heap[0]));
    }
  }

  lemma ReadyIsNotBroken(b: Base, round: Round)
    requires Ok(b) && !b.broken
    ensures !Ready(b, round).broken
  {
    ReportsDoNotBreak(b, round.reports);
    TimeoutsDoNotBreak(IoActiveAll(b, round.reports).(now := round.now));
  }

  // ---------- the clock ----------

  /** A round first looks at the clock: if it has been set back, every timer still has as long to wait as before. */
  lemma RoundCorrects(b: Base, round: Round, flags: Flags, e: Id)
    requires Ok(b) && e < |b.evs|
    ensures var r := Prepared(b, round, flags);
      && r.now == round.start
      && if !flags.monotonic && Less(round.start, b.eventTv) && b.evs[e].timed then
           Micros(r.deadline[e]) - Micros(round.start) == Micros(b.deadline[e]) - Micros(b.eventTv)
         else r.deadline[e] == b.deadline[e]
  {
    DistancesStay(b.(continued := false), flags.monotonic, round.start, e);
  }

  // ---------- the loop, round by round ----------

  /** How one more round goes when the loop has not returned before. */
  ghost predicate EndsIn(b: Base, round: Round, flags: Flags, o: Outcome)
    requires Ok(b)
  {
    if Idle(b) then o.Returned? && o.r == 1 && o.turns == []
    else if round.fails then o.Returned? && o.r == -1 && o.turns == []
    else
      var ready := Ready(Prepared(b, round, flags), round);
      && RoundServes(ready, o.base, o.turns)
      && (o.Returned? <==> o.base.broken || FlagEnds(ready, o.base, o.turns, flags))
      && (o.Returned? ==> o.r == 0)
  }

  ghost predicate RoundGives(b: Base, round: Round, flags: Flags, r: Base, result: Option<int>, turns: seq<Turn>)
    requires Ok(b)
  {
    if Idle(b) then result == Some(1) && turns == []
    else if round.fails then result == Some(-1) && turns == []
    else
      var ready := Ready(Prepared(b, round, flags), round);
      && RoundServes(ready, r, turns)
      && result == if FlagEnds(ready, r, turns, flags) then Some(0) else None
  }

  lemma RoundGoes(b: Base, round: Round, flags: Flags)
    requires Ok(b) && !b.broken
    ensures var (r, result, turns) := OneRound(b.(continued := false), round, flags);
      RoundGives(b, round, flags, r, result, turns)
  {
    var b1 := ClockCorrected(b.(continued := false), flags.monotonic, round.start);
    CountsTellIdle(b1);
    assert Idle(b1) <==> Idle(b);
    if !Idle(b) && !round.fails {
      assert b1.(eventTv := b1.now) == Prepared(b, round, flags);
      DispatchedEnds(Prepared(b, round, flags), round, flags);
    }
  }

  /** The loop looks for a break before the next round. */
  lemma EndsAsGiven(b: Base, round: Round, flags: Flags, r: Base, result: Option<int>, turns: seq<Turn>, o: Outcome)
    requires Ok(b) && RoundGives(b, round, flags, r, result, turns)
    requires o ==
      if result.Some? then Returned(result.value, r, turns)
      else if r.broken then Returned(0, r.(continued := false), turns)
      else Running(r.(continued := false), turns)
    ensures EndsIn(b, round, flags, o)
  {
  }

  lemma LoopOnce(b: Base, round: Round, flags: Flags)
    requires Ok(b) && !b.broken
    ensures EndsIn(b, round, flags, Loop(b, [round], flags))
  {
    var (r, result, turns) := OneRound(b.(continued := false), round, flags);
    assert RoundGives(b, round, flags, r, result, turns) by {
      RoundGoes(b, round, flags);
    }
    OneRoundLoop(b, round, flags);
    EndsAsGiven(b, round, flags, r, result, turns, Loop(b, [round], flags));
  }

  lemma OneRoundLoop(b: Base, round: Round, flags: Flags)
    requires Ok(b) && !b.broken
    ensures var (r, result, turns) := OneRound(b.(continued := false), round, flags);
      Loop(b, [round], flags) ==
        if result.Some? then Returned(result.value, r, turns)
        else if r.broken then Returned(0, r.(continued := false), turns)
        else Running(r.(continued := false), turns)
  {
    var (r, result, turns) := OneRound(b.(continued := false), round, flags);
    LoopUnfolded(b, [round], flags);
    if result.None? {
      LoopUnfolded(r, [], flags);
      OnlyInFront(turns, Loop(r, [], flags));
    }
  }

  lemma OnlyInFront(turns: seq<Turn>, o: Outcome)
    requires o.turns == []
    ensures Behind(turns, o) == o.(turns := turns)
  {
    assert turns + [] == turns;
  }

  /** Whether the loop has returned or goes on with one more round. */
  ghost predicate OneMore(o: Outcome, next: Outcome, round: Round, flags: Flags)
    requires Ok(o.base)
  {
    var last := Loop(o.base, [round], flags);
    if o.Returned? then next == o
    else !o.base.broken && next == Behind(o.turns, last) && EndsIn(o.base, round, flags, last)
  }

  /**
    The loop does one round after the other. When it has returned it stays so; otherwise it has not been
    broken, and the next round ends it exactly as `EndsIn` says.
    */
  lemma {:induction false} ReturnsExactly(b: Base, rounds: seq<Round>, round: Round, flags: Flags)
    requires Ok(b)
    ensures OneMore(Loop(b, rounds, flags), Loop(b, rounds + [round], flags), round, flags)
    decreases |rounds|
  {
    if rounds == [] {
      assert [] + [round] == [round];
      FirstRound(b, round, flags);
    } else {
      var (r, result, turns) := OneRound(b.(continued := false), rounds[0], flags);
      var o, next := Loop(r, rounds[1..], flags), Loop(r, rounds[1..] + [round], flags);
      LoopUnfolded(b, rounds, flags);
      LoopLonger(b, rounds, round, flags);
      if !b.broken && result.None? {
        assert OneMore(o, next, round, flags) by {
          ReturnsExactly(r, rounds[1..], round, flags);
        }
        OneMoreBehind(turns, o, next, round, flags);
      }
    }
  }

  lemma FirstRound(b: Base, round: Round, flags: Flags)
    requires Ok(b)
    ensures OneMore(Loop(b, [], flags), Loop(b, [round], flags), round, flags)
  {
    var b0 := b.(continued := false);
    LoopUnfolded(b, [], flags);
    if b.broken {
      LoopUnfolded(b, [round], flags);
    } else {
      assert Loop(b, [round], flags) == Loop(b0, [round], flags) by {
        OneRoundLoop(b, round, flags);
        OneRoundLoop(b0, round, flags);
      }
      LoopOnce(b0, round, flags);
      BehindNothing(Loop(b0, [round], flags));
    }
  }

  lemma LoopLonger(b: Base, rounds: seq<Round>, round: Round, flags: Flags)
    requires Ok(b) && rounds != []
    ensures b.broken ==> Loop(b, rounds + [round], flags) == Returned(0, b.(continued := false), [])
    ensures !b.broken ==>
      var (r, result, turns) := OneRound(b.(continued := false), rounds[0], flags);
      Loop(b, rounds + [round], flags) ==
        if result.Some? then Returned(result.value, r, turns)
        else Behind(turns, Loop(r, rounds[1..] + [round], flags))
  {
    var longer := rounds + [round];
    assert longer[0] == rounds[0] && longer[1..] == rounds[1..] + [round];
    LoopUnfolded(b, longer, flags);
  }

  lemma OneMoreBehind(turns: seq<Turn>, o: Outcome, next: Outcome, round: Round, flags: Flags)
    requires Ok(o.base) && OneMore(o, next, round, flags)
    ensures OneMore(Behind(turns, o), Behind(turns, next), round, flags)
  {
    BehindTwice(turns, o.turns, Loop(o.base, [round], flags));
  }

  lemma BehindNothing(o: Outcome)
    ensures Behind([], o) == o
  {
    assert [] + o.turns == o.turns;
  }

  /** The loop returns nothing else, and 0 only when it is broken or one of the flags is given. */
  ghost predicate Reasoned(o: Outcome, flags: Flags) {
    o.Returned? ==> o.r in {-1, 0, 1} && (o.r == 0 ==> o.base.broken || flags.once || flags.nonblock)
  }

  lemma StaysReasoned(o: Outcome, next: Outcome, round: Round, flags: Flags)
    requires Ok(o.base) && OneMore(o, next, round, flags) && Reasoned(o, flags)
    ensures Reasoned(next, flags)
  {
  }

  lemma {:induction false} ZeroNeedsReason(b: Base, rounds: seq<Round>, flags: Flags)
    requires Ok(b)
    ensures Reasoned(Loop(b, rounds, flags), flags)
    decreases |rounds|, 1
  {
    if rounds == [] {
      LoopUnfolded(b, rounds, flags);
    } else {
      var n := |rounds| - 1;
      assert rounds == rounds[..n] + [rounds[n]];
      OneMoreReasoned(b, rounds, rounds[..n], rounds[n], flags);
    }
  }

  lemma {:induction false} OneMoreReasoned(b: Base, rounds: seq<Round>, before: seq<Round>, round: Round, flags: Flags)
    requires Ok(b) && rounds == before + [round]
    ensures Reasoned(Loop(b, rounds, flags), flags)
    decreases |rounds|, 0
  {
    ZeroNeedsReason(b, before, flags);
    ReturnsExactly(b, before, round, flags);
    StaysReasoned(Loop(b, before, flags), Loop(b, rounds, flags), round, flags);
  }

  /** `event_base_loop` starts afresh: a break from before does not count. */
  lemma StartsAfresh(b: Base, flags: Flags)
    requires Ok(b)
    ensures BaseLoop(b, [], flags) == Running(b.(broken := false, continued := false), [])
  {
    LoopUnfolded(b.(broken := false), [], flags);
  }
}
