/** Which turns are taken, and what they do to their events. */
module EventTurns {
  import opened Common
  import opened EventLoop
  import opened EventOps
  import opened EventQueue
  import opened MinHeap
  import opened TimeVal

  // ---------- the turns of a queue and of all queues ----------

  predicate ServesUser(t: Turn) {
    t.e < |t.before.evs| && !t.before.evs[t.e].kind.internal
  }

  /** How many callbacks of users have run. */
  function UserTurns(turns: seq<Turn>): nat {
    if turns == [] then 0 else (if ServesUser(turns[0]) then 1 else 0) + UserTurns(turns[1..])
  }

  /** The event is the first in its queue. */
  predicate ServesHead(t: Turn) {
    t.queue < |t.before.activeq| && t.before.activeq[t.queue] != [] && t.before.activeq[t.queue][0] == t.e
  }

  ghost predicate ServeHeads(turns: seq<Turn>) {
    forall t :: t in turns ==> ServesHead(t)
  }

  lemma {:induction false} UserTurnsCat(a: seq<Turn>, b: seq<Turn>)
    ensures UserTurns(a + b) == UserTurns(a) + UserTurns(b)
  {
    if a == [] {
      assert a + b == b;
    } else {
      assert (a + b)[1..] == a[1..] + b;
      UserTurnsCat(a[1..], b);
    }
  }

  /** What the result of a queue, or of all, says; `before` user events have been counted already. */
  ghost predicate CountsTurns(s: Served, before: nat) {
    && (s.count == -1 <==> s.base.broken)
    && (s.count != -1 ==> s.count == before + UserTurns(s.turns))
    && ServeHeads(s.turns)
  }

  lemma CountedBehind(turn: Turn, s: Served, before: nat)
    requires ServesHead(turn) && CountsTurns(s, before + if ServesUser(turn) then 1 else 0)
    ensures CountsTurns(s.(turns := [turn] + s.turns), before)
  {
    assert ([turn] + s.turns)[1..] == s.turns;
  }

  lemma CountedLast(turn: Turn, b: Base, rest: seq<seq<Op>>, before: nat, n: nat)
    requires ServesHead(turn) && n == before + if ServesUser(turn) then 1 else 0
    ensures CountsTurns(Served(b, rest, if b.broken then -1 else n, [turn]), before)
  {
    assert [turn][1..] == [];
  }

  /**
    A queue is served from its head. The result is -1 if and only if a callback has broken the loop, else
    the number of user events that have been served; unless a callback has stopped it the queue runs dry.
    */
  lemma {:induction false} QueueCounts(b: Base, i: nat, script: seq<seq<Op>>, count: nat)
    requires Ok(b) && i < |b.activeq| && !b.broken
    ensures var s := SingleQueue(b, i, script, count);
      CountsTurns(s, count) && (!s.base.broken && !s.base.continued ==> s.base.activeq[i] == [])
    decreases |script|, |b.activeq[i]|
  {
    if b.activeq[i] != [] {
      var e := b.activeq[i][0];
      HeadIsActive(b, i);
      var n := if b.evs[e].kind.internal then count else count + 1;
      var (b1, rest) := Callback(Serve(b, e), script);
      OneTurn(b, i, script, count, n, b1, rest);
      if b1.broken || b1.continued {
        CountedLast(Turn(b, i, e), b1, rest, count, n);
      } else {
        QueueCounts(b1, i, rest, n);
        CountedBehind(Turn(b, i, e), SingleQueue(b1, i, rest, n), count);
      }
    }
  }

  lemma QueueBegins(b: Base, i: nat, script: seq<seq<Op>>)
    requires Ok(b) && i < |b.activeq| && b.activeq[i] != []
    ensures BeginsWith(SingleQueue(b, i, script, 0), Turn(b, i, b.activeq[i][0]))
  {
    HeadIsActive(b, i);
  }

  /** The same for all queues. */
  lemma {:induction false} ProcessCounts(b: Base, i: nat, script: seq<seq<Op>>)
    requires Ok(b) && i <= |b.activeq| && !b.broken
    ensures CountsTurns(ProcessFrom(b, i, script), 0)
    decreases |b.activeq| - i, 1
  {
    if i < |b.activeq| {
      if b.activeq[i] == [] {
        ProcessCountsBehind(b, i, i + 1, script);
      } else {
        ProcessCountsOn(b, i, script);
      }
    }
  }

  lemma {:induction false} ProcessCountsBehind(b: Base, i: nat, next: nat, script: seq<seq<Op>>)
    requires Ok(b) && i < |b.activeq| && next == i + 1 && b.activeq[i] == [] && !b.broken
    ensures CountsTurns(ProcessFrom(b, i, script), 0)
    decreases |b.activeq| - i, 0
  {
    EmptySkipped(b, i, script);
    ProcessCounts(b, next, script);
  }

  lemma {:induction false} ProcessCountsOn(b: Base, i: nat, script: seq<seq<Op>>)
    requires Ok(b) && i < |b.activeq| && b.activeq[i] != [] && !b.broken
    ensures CountsTurns(ProcessFrom(b, i, script), 0)
    decreases |b.activeq| - i, 0
  {
    var s := SingleQueue(b.(running := i), i, script, 0);
    assert CountsTurns(s, 0) by {
      QueueCounts(b.(running := i), i, script, 0);
    }
    NextQueue(b, i, script, s);
    if s.count == 0 {
      var t := ProcessFrom(s.base, i + 1, s.script);
      assert CountsTurns(t, 0) by {
        ProcessCounts(s.base, i + 1, s.script);
      }
      CountedTogether(s, t);
    }
  }

  lemma CountedTogether(s: Served, t: Served)
    requires CountsTurns(s, 0) && s.count == 0 && CountsTurns(t, 0)
    ensures CountsTurns(Later(s.turns, t), 0)
  {
    UserTurnsCat(s.turns, t.turns);
  }

  /** Some queue from `i` on is not empty; this is the first one. */
  ghost predicate FirstActive(b: Base, i: nat, p: nat) {
    i <= p < |b.activeq| && b.activeq[p] != [] && forall q :: i <= q < p ==> b.activeq[q] == []
  }

  /** The first turn is that of the first event in the most urgent queue. */
  lemma {:induction false} ProcessBegins(b: Base, i: nat, script: seq<seq<Op>>, p: nat)
    requires Ok(b) && FirstActive(b, i, p)
    ensures BeginsWith(ProcessFrom(b, i, script), Turn(b.(running := p), p, b.activeq[p][0]))
    decreases p - i, 1
  {
    if i < p {
      ProcessBeginsBehind(b, i, i + 1, script, p);
    } else {
      var s := SingleQueue(b.(running := i), i, script, 0);
      QueueBegins(b.(running := i), i, script);
      NextQueue(b, i, script, s);
    }
  }

  ghost predicate BeginsWith(s: Served, turn: Turn) {
    s.turns != [] && s.turns[0] == turn
  }

  lemma {:induction false} ProcessBeginsBehind(b: Base, i: nat, next: nat, script: seq<seq<Op>>, p: nat)
    requires Ok(b) && FirstActive(b, i, p) && i < p && next == i + 1
    ensures BeginsWith(ProcessFrom(b, i, script), Turn(b.(running := p), p, b.activeq[p][0]))
    decreases p - i, 0
  {
    EmptySkipped(b, i, script);
    ProcessBegins(b, next, script, p);
  }

  // ---------- how far a pass goes ----------

  /** Behind the turn of a user event all turns are those of the same queue. */
  ghost predicate OneUserQueue(turns: seq<Turn>) {
    forall j, k :: 0 <= j < k < |turns| && ServesUser(turns[j]) ==> turns[k].queue == turns[j].queue
  }

  ghost predicate AllIn(turns: seq<Turn>, i: nat) {
    forall j :: 0 <= j < |turns| ==> turns[j].queue == i
  }

  lemma {:induction false} QueueStaysIn(b: Base, i: nat, script: seq<seq<Op>>, count: nat)
    requires Ok(b) && i < |b.activeq|
    ensures AllIn(SingleQueue(b, i, script, count).turns, i)
    decreases |script|, |b.activeq[i]|
  {
    if b.activeq[i] != [] {
      var e := b.activeq[i][0];
      HeadIsActive(b, i);
      var n := if b.evs[e].kind.internal then count else count + 1;
      var (b1, rest) := Callback(Serve(b, e), script);
      OneTurn(b, i, script, count, n, b1, rest);
      if !b1.broken && !b1.continued {
        QueueStaysIn(b1, i, rest, n);
        AllInBehind(Turn(b, i, e), SingleQueue(b1, i, rest, n).turns, i);
      }
    }
  }

  lemma AllInBehind(turn: Turn, turns: seq<Turn>, i: nat)
    requires turn.queue == i && AllIn(turns, i)
    ensures AllIn([turn] + turns, i)
  {
  }

  lemma {:induction false} NoUserTurns(turns: seq<Turn>)
    requires UserTurns(turns) == 0
    ensures forall j :: 0 <= j < |turns| ==> !ServesUser(turns[j])
  {
    if turns != [] {
      NoUserTurns(turns[1..]);
      assert forall j :: 1 <= j < |turns| ==> turns[j] == turns[1..][j - 1];
    }
  }

  lemma OneUserQueueBehind(a: seq<Turn>, b: seq<Turn>)
    requires UserTurns(a) == 0 && OneUserQueue(b)
    ensures OneUserQueue(a + b)
  {
    NoUserTurns(a);
  }

  /** So a pass serves the user events of one queue only; then the backend is asked again. */
  lemma {:induction false} PassServesOneQueue(b: Base, i: nat, script: seq<seq<Op>>)
    requires Ok(b) && i <= |b.activeq| && !b.broken
    ensures OneUserQueue(ProcessFrom(b, i, script).turns)
    decreases |b.activeq| - i, 1
  {
    if i < |b.activeq| {
      PassServesOneQueueOn(b, i, i + 1, script);
    }
  }

  lemma {:induction false} PassServesOneQueueOn(b: Base, i: nat, next: nat, script: seq<seq<Op>>)
    requires Ok(b) && i < |b.activeq| && next == i + 1 && !b.broken
    ensures OneUserQueue(ProcessFrom(b, i, script).turns)
    decreases |b.activeq| - i, 0
  {
    if b.activeq[i] == [] {
      EmptySkipped(b, i, script);
      PassServesOneQueue(b, next, script);
    } else {
      var s := SingleQueue(b.(running := i), i, script, 0);
      QueueStaysIn(b.(running := i), i, script, 0);
      QueueCounts(b.(running := i), i, script, 0);
      NextQueue(b, i, script, s);
      if s.count == 0 {
        PassServesOneQueue(s.base, next, s.script);
        OneUserQueueBehind(s.turns, ProcessFrom(s.base, next, s.script).turns);
      }
    }
  }

  lemma {:induction false} QueueKeepsUrgent(b: Base, i: nat, script: seq<seq<Op>>, count: nat)
    requires Ok(b) && i < |b.activeq| && Urgent(b, i) && InternalAtEnds(b)
    ensures var s := SingleQueue(b, i, script, count); Urgent(s.base, i) && InternalAtEnds(s.base)
    decreases |script|, |b.activeq[i]|
  {
    if b.activeq[i] != [] {
      var e := b.activeq[i][0];
      HeadIsActive(b, i);
      var n := if b.evs[e].kind.internal then count else count + 1;
      var (b1, rest) := Callback(Serve(b, e), script);
      OneTurn(b, i, script, count, n, b1, rest);
      TurnKeepsUrgent(b, e, i, script);
      if !b1.broken && !b1.continued {
        QueueKeepsUrgent(b1, i, rest, n);
      }
    }
  }

  /** A queue that is served without a user event, a break or a more urgent activation runs dry. */
  lemma QueueLeavesNothing(b: Base, i: nat, script: seq<seq<Op>>)
    requires Ok(b) && i < |b.activeq| && InternalAtEnds(b) && LowerEmpty(b, i) && !b.continued && !b.broken
    ensures var s := SingleQueue(b.(running := i), i, script, 0);
      s.count == 0 ==> InternalAtEnds(s.base) && !s.base.broken && (!s.base.continued ==> LowerEmpty(s.base, i + 1))
  {
    var b1 := b.(running := i);
    assert Urgent(b1, i) && InternalAtEnds(b1);
    QueueKeepsUrgent(b1, i, script, 0);
    QueueCounts(b1, i, script, 0);
  }

  lemma QueueGoesOn(b: Base, i: nat, script: seq<seq<Op>>)
    requires Ok(b) && i < |b.activeq| && InternalAtEnds(b) && LowerEmpty(b, i) && !b.continued && b.activeq[i] != []
    ensures var s := SingleQueue(b.(running := i), i, script, 0);
      s.count == 0 ==> i == |b.activeq| - 1 || !s.base.continued
  {
    var b1 := b.(running := i);
    assert Urgent(b1, i) && InternalAtEnds(b1);
    QueueHasNoInversion(b1, i, script, 0);
  }

  /**
    A pass that has served no user event, and that no callback has stopped, leaves nothing active: it goes
    on to the next queue as long as only internal events have been served.
    */
  lemma {:induction false} PassLeavesNothing(b: Base, i: nat, script: seq<seq<Op>>)
    requires Ok(b) && i <= |b.activeq| && InternalAtEnds(b) && LowerEmpty(b, i) && !b.continued && !b.broken
    ensures var s := ProcessFrom(b, i, script);
      s.count == 0 && !s.base.continued ==> LowerEmpty(s.base, |s.base.activeq|)
    decreases |b.activeq| - i, 1
  {
    if i < |b.activeq| {
      PassLeavesNothingOn(b, i, i + 1, script);
    }
  }

  lemma {:induction false} PassLeavesNothingOn(b: Base, i: nat, next: nat, script: seq<seq<Op>>)
    requires Ok(b) && i < |b.activeq| && next == i + 1
    requires InternalAtEnds(b) && LowerEmpty(b, i) && !b.continued && !b.broken
    ensures var s := ProcessFrom(b, i, script);
      s.count == 0 && !s.base.continued ==> LowerEmpty(s.base, |s.base.activeq|)
    decreases |b.activeq| - i, 0
  {
    if b.activeq[i] == [] {
      EmptySkipped(b, i, script);
      PassLeavesNothing(b, next, script);
    } else {
      var s := SingleQueue(b.(running := i), i, script, 0);
      QueueLeavesNothing(b, i, script);
      QueueGoesOn(b, i, script);
      NextQueue(b, i, script, s);
      if s.count == 0 && !s.base.continued {
        PassLeavesNothing(s.base, next, s.script);
      }
    }
  }

  // ---------- the event of a turn ----------

  /** An event that is not persistent is deleted before its callback. */
  lemma OneShotIsDeleted(b: Base, e: Id)
    requires Ok(b) && e < |b.evs| && b.evs[e].active && !b.evs[e].kind.persist
    ensures Serve(b, e).evs == b.evs[e := b.evs[e].(timed := false, active := false, inserted := false)]
  {
  }

  /** A persistent event without an interval keeps everything but its place in the active queue. */
  lemma PersistentStays(b: Base, e: Id)
    requires Ok(b) && e < |b.evs| && b.evs[e].active && b.evs[e].kind.persist
    requires b.evs[e].ioTimeout.sec == 0 && b.evs[e].ioTimeout.usec == 0
    ensures Serve(b, e).evs == b.evs[e := b.evs[e].(active := false)] && Serve(b, e).deadline == b.deadline
  {
  }

  /**
    One with an interval that is still inserted, or waits for time alone, stays so and gets a new
    deadline: if it has run because of its timeout, an interval after it was due unless that is past;
    otherwise, and if it is past, an interval after now.
    */
  lemma PersistentIsRescheduled(b: Base, e: Id)
    requires Ok(b) && e < |b.evs| && b.evs[e].active && b.evs[e].kind.persist
    requires b.evs[e].ioTimeout.sec > 0 || (b.evs[e].ioTimeout.sec == 0 && b.evs[e].ioTimeout.usec > 0)
    requires b.evs[e].inserted || !Polls(b.evs[e].kind)
    ensures var r, ev := Serve(b, e), b.evs[e];
      var due := Micros(b.deadline[e]) + Micros(ev.ioTimeout);
      && r.evs == b.evs[e := ev.(active := false, timed := true)]
      && Micros(r.deadline[e]) ==
         if ev.res.timeout && due >= Micros(b.now) then due else Micros(b.now) + Micros(ev.ioTimeout)
  {
    var ev := b.evs[e];
    NeverBeforeNow(b.deadline[e], ev.res.timeout, ev.ioTimeout, b.now);
    RescheduledAt(b, e, RunAt(b.deadline[e], ev.res.timeout, ev.ioTimeout, b.now));
  }

  lemma RescheduledAt(b: Base, e: Id, at: Time)
    requires Ok(b) && e < |b.evs| && b.evs[e].active && b.evs[e].kind.persist
    requires b.evs[e].ioTimeout.sec != 0 || b.evs[e].ioTimeout.usec != 0
    requires b.evs[e].inserted || !Polls(b.evs[e].kind)
    requires at == RunAt(b.deadline[e], b.evs[e].res.timeout, b.evs[e].ioTimeout, b.now)
    ensures var r := Serve(b, e);
      r.evs == b.evs[e := b.evs[e].(active := false, timed := true)] && r.deadline == b.deadline[e := at]
  {
    var b1 := Take(b, e);
    assert b1.evs[e] == b.evs[e].(active := false) && b1.deadline == b.deadline && b1.now == b.now;
    assert Register(b1, e) == (b1, 0);
    assert Serve(b, e) == Schedule(b1, e, at, true);
  }

  // ---------- where intervals and priorities come from ----------

  /** Adding a persistent event with a timeout makes this its interval, counted from now. */
  lemma IntervalIsRemembered(b: Base, e: Id, tv: Time)
    requires Ok(b) && e < |b.evs| && b.evs[e].kind.persist && AddInternal(b, e, Some(tv), false).1 == 0
    ensures var r := AddInternal(b, e, Some(tv), false).0;
      r.evs[e].ioTimeout == tv && Micros(r.deadline[e]) == Micros(b.now) + Micros(tv)
  {
    NormalArithmetic(b.now, tv);
  }

  /** A new event has as many priorities in front of it as behind it, or one more. */
  lemma NewInTheMiddle(b: Base, kind: Kind)
    requires Ok(b)
    ensures var r := Assign(b, kind);
      && |r.evs| == |b.evs| + 1
      && var ev := r.evs[|b.evs|];
        && ev.kind == kind && !ev.inserted && !ev.active && !ev.timed
        && |b.activeq| - 1 - ev.pri <= ev.pri <= |b.activeq| - ev.pri
  {
  }
}
