/**
  Which internal events let priorities be respected: the converse of `EventLoop.NoPriorityInversion`.
  Behind an internal event that is neither in the first queue nor in the last, a base is staged in which
  only that event and one of the last queue are active; when its callback activates an event of the
  first queue, the loop goes on to the last one all the same.
  */
module EventInversion {
  import opened Common
  import opened EventLoop
  import opened EventOps
  import opened EventQueue
  import opened MinHeap
  import opened TimeVal

  // ---------- runs in parts ----------

  lemma {:induction false} RunMore(b: Base, first: seq<Op>, more: seq<Op>)
    requires Ok(b)
    ensures Run(b, first + more) == Run(Run(b, first), more)
    decreases |first|
  {
    if first == [] {
      assert first + more == more;
    } else {
      var b1, rest := Exec(b, first[0]), first[1..] + more;
      assert Run(b, first + more) == Run(b1, rest) by {
        assert (first + more)[0] == first[0] && (first + more)[1..] == rest;
      }
      assert Run(b1, rest) == Run(Run(b1, first[1..]), more) by {
        RunMore(b1, first[1..], more);
      }
    }
  }

  lemma RunOne(b: Base, op: Op)
    requires Ok(b)
    ensures Run(b, [op]) == Exec(b, op)
  {
    var rest := [op][1..];
    assert Run(Exec(b, op), rest) == Exec(b, op);
  }

  /** Nothing has been told to stop, and no queue runs that something might be more urgent than. */
  predicate Quiet(b: Base) {
    !b.continued && !b.broken && b.running <= 0
  }

  lemma RunKeepsUnbroken(b: Base, ops: seq<Op>)
    requires Ok(b) && InternalAtEnds(b) && b.running <= 0 && !b.continued
    ensures InternalAtEnds(Run(b, ops)) && !Run(b, ops).continued
  {
    RunKeepsUrgent(b, ops, b.running);
  }

  // ---------- a base in which nothing is active but two events ----------

  /** The first `n` events are deleted; all events keep their kinds and priorities. */
  ghost predicate Cleared(b: Base, r: Base, n: nat) {
    && Ok(r) && Quiet(r) && |r.evs| == |b.evs| && |r.activeq| == |b.activeq| && n <= |b.evs|
    && (forall e :: 0 <= e < n ==> !r.evs[e].active)
    && (forall e :: 0 <= e < |b.evs| ==> r.evs[e].kind == b.evs[e].kind && r.evs[e].pri == b.evs[e].pri)
  }

  lemma {:induction false} DeleteAll(b: Base, n: nat) returns (ops: seq<Op>)
    requires Ok(b) && Quiet(b) && n <= |b.evs|
    ensures Cleared(b, Run(b, ops), n)
  {
    if n == 0 {
      ops := [];
    } else {
      var before := DeleteAll(b, n - 1);
      var r := Run(b, before);
      ops := before + [DelOp(n - 1)];
      assert Run(b, ops) == DelInternal(r, n - 1) by {
        RunMore(b, before, [DelOp(n - 1)]);
        RunOne(r, DelOp(n - 1));
      }
      DeleteOne(b, r, n - 1);
    }
  }

  lemma DeleteOne(b: Base, r: Base, n: nat)
    requires Cleared(b, r, n) && n < |b.evs|
    ensures Cleared(b, DelInternal(r, n), n + 1)
  {
    assert !DelInternal(r, n).continued by {
      PriorityInRange(r, n);
      DelDequeues(r, n);
    }
  }

  /** Only the internal event `e` and the event `y` are active; `x` would come first, and `y` comes last. */
  ghost predicate Staged(b: Base, e: Id, x: Id, y: Id) {
    && Ok(b) && Quiet(b) && e < |b.evs| && x < |b.evs| && y < |b.evs|
    && 0 < b.evs[e].pri < |b.activeq| - 1 && b.evs[x].pri == 0 && b.evs[y].pri == |b.activeq| - 1
    && b.evs[e].kind.internal && !b.evs[x].active
    && forall z :: 0 <= z < |b.evs| ==> b.evs[z].active == (z == e || z == y)
  }

  lemma Stage(b: Base, e: Id) returns (ops: seq<Op>, x: Id, y: Id)
    requires Ok(b) && Quiet(b) && e < |b.evs| && b.evs[e].kind.internal && 0 < b.evs[e].pri < |b.activeq| - 1
    ensures Staged(Run(b, ops), e, x, y)
  {
    var clear := DeleteAll(b, |b.evs|);
    var r := Run(b, clear);
    x, y := |b.evs|, |b.evs| + 1;
    var kind := Kind(-1, false, false, false, false, false);
    var stage := [AssignOp(kind), AssignOp(kind), PriorityOp(x, 0), PriorityOp(y, |b.activeq| - 1),
                  ActiveOp(e, TIMED_OUT), ActiveOp(y, TIMED_OUT)];
    StageCleared(r, e, kind, stage);
    ops := clear + stage;
    RunMore(b, clear, stage);
  }

  lemma StageCleared(b: Base, e: Id, kind: Kind, ops: seq<Op>)
    requires Ok(b) && Quiet(b) && e < |b.evs| && b.evs[e].kind.internal && 0 < b.evs[e].pri < |b.activeq| - 1
    requires !kind.internal && forall z :: 0 <= z < |b.evs| ==> !b.evs[z].active
    requires ops == [AssignOp(kind), AssignOp(kind), PriorityOp(|b.evs|, 0), PriorityOp(|b.evs| + 1, |b.activeq| - 1),
                     ActiveOp(e, TIMED_OUT), ActiveOp(|b.evs| + 1, TIMED_OUT)]
    ensures Staged(Run(b, ops), e, |b.evs|, |b.evs| + 1)
  {
    var x, y := |b.evs|, |b.evs| + 1;
    var b4 := TwoMore(b, ops[0], ops[1], ops[2], ops[3], kind);
    var b6 := TwoActivated(b4, e, x, y, ops[4], ops[5]);
    assert Run(b, ops) == b6 by {
      RunSix(b, ops);
    }
  }

  /** Two new events, the first of them of the highest priority, the other of the lowest. */
  lemma TwoMore(b: Base, op1: Op, op2: Op, op3: Op, op4: Op, kind: Kind) returns (r: Base)
    requires Ok(b) && Quiet(b) && !kind.internal && op1 == op2 == AssignOp(kind) && |b.activeq| > 1
    requires op3 == PriorityOp(|b.evs|, 0) && op4 == PriorityOp(|b.evs| + 1, |b.activeq| - 1)
    requires forall z :: 0 <= z < |b.evs| ==> !b.evs[z].active
    ensures r == Exec(Exec(Exec(Exec(b, op1), op2), op3), op4)
    ensures Ok(r) && Quiet(r) && |r.activeq| == |b.activeq| && |r.evs| == |b.evs| + 2 && r.evs[..|b.evs|] == b.evs
    ensures r.evs[|b.evs|].pri == 0 && r.evs[|b.evs| + 1].pri == |b.activeq| - 1
    ensures forall z :: 0 <= z < |r.evs| ==> !r.evs[z].active
  {
    var b1, ev := Assigned(b, op1, kind);
    var b2, ev' := Assigned(b1, op2, kind);
    r := FirstAndLast(b2, op3, op4, |b.evs|, |b.evs| + 1);
    assert b2.evs == b.evs + [ev, ev'];
    assert r.evs == b.evs + [ev.(pri := 0), ev'.(pri := |b.activeq| - 1)];
  }

  lemma Assigned(b: Base, op: Op, kind: Kind) returns (r: Base, ev: Ev)
    requires Ok(b) && !kind.internal && op == AssignOp(kind)
    ensures r == Exec(b, op) && Ok(r) && !ev.active && !ev.kind.internal
    ensures r == b.(evs := b.evs + [ev], deadline := b.deadline + [ZERO])
  {
    assert kind.(internal := false) == kind;
    r := Exec(b, op);
    ev := Ev(kind, |b.activeq| / 2, false, false, false, NO_REASON, ZERO);
  }

  lemma FirstAndLast(b: Base, op3: Op, op4: Op, x: Id, y: Id) returns (r: Base)
    requires Ok(b) && x != y && x < |b.evs| && y < |b.evs| && !b.evs[x].active && !b.evs[y].active
    requires !b.evs[x].kind.internal && !b.evs[y].kind.internal
    requires op3 == PriorityOp(x, 0) && op4 == PriorityOp(y, |b.activeq| - 1)
    ensures r == Exec(Exec(b, op3), op4) && Ok(r)
    ensures r == b.(evs := b.evs[x := b.evs[x].(pri := 0)][y := b.evs[y].(pri := |b.activeq| - 1)])
  {
    r := Exec(Exec(b, op3), op4);
  }

  lemma TwoActivated(b: Base, e: Id, x: Id, y: Id, op5: Op, op6: Op) returns (r: Base)
    requires op5 == ActiveOp(e, TIMED_OUT) && op6 == ActiveOp(y, TIMED_OUT)
    requires Ok(b) && Quiet(b) && e < |b.evs| && x < |b.evs| && y < |b.evs| && e != x && x != y
    requires 0 < b.evs[e].pri < |b.activeq| - 1 && b.evs[x].pri == 0 && b.evs[y].pri == |b.activeq| - 1
    requires b.evs[e].kind.internal && forall z :: 0 <= z < |b.evs| ==> !b.evs[z].active
    ensures r == Exec(Exec(b, op5), op6) && Staged(r, e, x, y)
  {
    var b1 := ActiveNolock(b, e, TIMED_OUT);
    ActivatedQuietly(b, e);
    r := ActiveNolock(b1, y, TIMED_OUT);
    ActivatedQuietly(b1, y);
    OnlyTwoActive(b.evs, b1.evs, r.evs, e, y);
  }

  lemma OnlyTwoActive(evs: seq<Ev>, evs1: seq<Ev>, evs2: seq<Ev>, e: Id, y: Id)
    requires e < |evs| == |evs1| == |evs2| && y < |evs| && forall z :: 0 <= z < |evs| ==> !evs[z].active
    requires evs1 == evs[e := evs1[e]] && evs2 == evs1[y := evs2[y]] && evs1[e].active && evs2[y].active
    ensures forall z :: 0 <= z < |evs| ==> evs2[z].active == (z == e || z == y)
  {
  }

  lemma ActivatedQuietly(b: Base, e: Id)
    requires Ok(b) && Quiet(b) && e < |b.evs|
    ensures Quiet(ActiveNolock(b, e, TIMED_OUT))
  {
  }

  lemma RunSix(b: Base, ops: seq<Op>)
    requires Ok(b) && |ops| == 6
    ensures Run(b, ops) == Exec(Exec(Exec(Exec(Exec(Exec(b, ops[0]), ops[1]), ops[2]), ops[3]), ops[4]), ops[5])
  {
    var b1 := Exec(b, ops[0]);
    var b2 := Exec(b1, ops[1]);
    var b3 := Exec(b2, ops[2]);
    var b4 := Exec(b3, ops[3]);
    var b5 := Exec(b4, ops[4]);
    RunOne(b5, ops[5]);
    assert ops[5..] == [ops[5]];
    RunHead(b4, ops, 4);
    RunHead(b3, ops, 3);
    RunHead(b2, ops, 2);
    RunHead(b1, ops, 1);
    RunHead(b, ops, 0);
    assert ops[0..] == ops;
  }

  lemma RunHead(b: Base, ops: seq<Op>, k: nat)
    requires Ok(b) && k < |ops|
    ensures Run(b, ops[k..]) == Run(Exec(b, ops[k]), ops[k + 1..])
  {
    assert ops[k..][1..] == ops[k + 1..];
  }

  // ---------- what the loop does with it ----------

  lemma OnlyOne(b: Base, e: Id)
    requires Ok(b) && e < |b.evs| && b.evs[e].active && b.evs[e].pri < |b.activeq|
    requires forall z :: 0 <= z < |b.evs| && b.evs[z].active && b.evs[z].pri == b.evs[e].pri ==> z == e
    ensures b.activeq[b.evs[e].pri] == [e]
  {
    var p := b.evs[e].pri;
    var q := b.activeq[p];
    assert Look(p);
    assert Marks(q, b.evs, Active(p));
    MarkOf(q, b.evs, Active(p), e);
    forall k | 0 <= k < |q| ensures q[k] == e {
      MarkOf(q, b.evs, Active(p), q[k]);
    }
    OneCopy(q, e);
  }

  lemma OneCopy(q: seq<Id>, e: Id)
    requires multiset(q)[e] == 1 && forall k :: 0 <= k < |q| ==> q[k] == e
    ensures q == [e]
  {
    assert q == [e] + q[1..];
    assert multiset(q[1..])[e] == 0;
  }

  lemma NoneThere(b: Base, p: nat)
    requires Ok(b) && p < |b.activeq| && forall z :: 0 <= z < |b.evs| && b.evs[z].active ==> b.evs[z].pri != p
    ensures b.activeq[p] == []
  {
    if b.activeq[p] != [] {
      assert Look(p);
      MarkOf(b.activeq[p], b.evs, Active(p), b.activeq[p][0]);
    }
  }

  ghost predicate EmptyBetween(b: Base, i: nat, j: nat) {
    i <= j <= |b.activeq| && forall p {:trigger Look(p)} :: Look(p) && i <= p < j ==> b.activeq[p] == []
  }

  lemma {:induction false} EmptyQueuesSkipped(b: Base, i: nat, j: nat, script: seq<seq<Op>>)
    requires Ok(b) && EmptyBetween(b, i, j)
    ensures ProcessFrom(b, i, script) == ProcessFrom(b, j, script)
    decreases j - i
  {
    if i < j {
      assert Look(i);
      assert ProcessFrom(b, i, script) == ProcessFrom(b, i + 1, script) by {
        EmptySkipped(b, i, script);
      }
      assert ProcessFrom(b, i + 1, script) == ProcessFrom(b, j, script) by {
        EmptyQueuesSkipped(b, i + 1, j, script);
      }
    }
  }

  /** The queues of a staged base. */
  lemma StagedQueues(b: Base, e: Id, x: Id, y: Id)
    requires Staged(b, e, x, y)
    ensures b.activeq[b.evs[e].pri] == [e] && b.activeq[|b.activeq| - 1] == [y]
    ensures EmptyBetween(b, 0, b.evs[e].pri) && EmptyBetween(b, b.evs[e].pri + 1, |b.activeq| - 1)
  {
    OnlyOne(b, e);
    OnlyOne(b, y);
    forall q | 0 <= q < |b.activeq| && q != b.evs[e].pri && q != |b.activeq| - 1 ensures b.activeq[q] == [] {
      NoneThere(b, q);
    }
  }

  ghost predicate Inverts(s: Served) {
    exists t :: t in s.turns && !LowerEmpty(t.before, t.queue)
  }

  /** The callback of the internal event activates `x`; it counts for nothing, so the loop goes on to `y`. */
  lemma StagedInverts(b: Base, e: Id, x: Id, y: Id)
    requires Staged(b, e, x, y)
    ensures Inverts(ProcessActive(b, [[ActiveOp(x, TIMED_OUT)]]))
  {
    StagedQueues(b, e, x, y);
    StagedTurns(b, e, x, y, [[ActiveOp(x, TIMED_OUT)]]);
  }

  lemma StagedTurns(b: Base, e: Id, x: Id, y: Id, script: seq<seq<Op>>)
    requires Ok(b) && Quiet(b) && e < |b.evs| && x < |b.evs| && e != x && script == [[ActiveOp(x, TIMED_OUT)]]
    requires 0 < b.evs[e].pri < |b.activeq| - 1 && b.evs[x].pri == 0
    requires b.evs[e].kind.internal && b.evs[e].active && !b.evs[x].active
    requires b.activeq[b.evs[e].pri] == [e] && b.activeq[|b.activeq| - 1] == [y]
    requires EmptyBetween(b, 0, b.evs[e].pri) && EmptyBetween(b, b.evs[e].pri + 1, |b.activeq| - 1)
    ensures Inverts(ProcessFrom(b, 0, script))
  {
    var p := b.evs[e].pri;
    assert b.activeq[0] == [] by {
      assert Look(0);
    }
    assert ProcessFrom(b, 0, script) == ProcessFrom(b, p, script) by {
      EmptyQueuesSkipped(b, 0, p, script);
    }
    assert Inverts(ProcessFrom(b, p, script)) by {
      InternalThenLast(b, e, x, y, script);
    }
  }

  lemma InternalThenLast(b: Base, e: Id, x: Id, y: Id, script: seq<seq<Op>>)
    requires Ok(b) && Quiet(b) && e < |b.evs| && x < |b.evs| && e != x && script == [[ActiveOp(x, TIMED_OUT)]]
    requires 0 < b.evs[e].pri < |b.activeq| - 1 && b.evs[x].pri == 0
    requires b.evs[e].kind.internal && b.evs[e].active && !b.evs[x].active
    requires b.activeq[b.evs[e].pri] == [e] && b.activeq[|b.activeq| - 1] == [y] && b.activeq[0] == []
    requires EmptyBetween(b, b.evs[e].pri + 1, |b.activeq| - 1)
    ensures Inverts(ProcessFrom(b, b.evs[e].pri, script))
  {
    var p := b.evs[e].pri;
    var r := InternalTurn(b.(running := p), e, x, script);
    var s := Served(r, [], 0, [Turn(b.(running := p), p, e)]);
    assert Inverts(Next(r, p)) by {
      QueuesAfter(b, r, p, x, y);
      LastTurn(r, p + 1, x, y);
    }
    NothingCounted(b, p, script, s);
  }

  lemma QueuesAfter(b: Base, r: Base, p: nat, x: Id, y: Id)
    requires 0 < p < |b.activeq| - 1 && r.activeq == b.activeq[p := []][0 := [x]]
    requires b.activeq[|b.activeq| - 1] == [y] && EmptyBetween(b, p + 1, |b.activeq| - 1)
    ensures |r.activeq| == |b.activeq| && r.activeq[0] == [x] && r.activeq[|r.activeq| - 1] == [y]
    ensures EmptyBetween(r, p + 1, |r.activeq| - 1)
  {
  }

  /** What is behind queue `i`, when no callbacks are left. */
  function Next(b: Base, i: nat): Served
    requires Ok(b) && i < |b.activeq|
  {
    ProcessFrom(b, i + 1, [])
  }

  /** A queue of which nothing counts is followed by the next one. */
  lemma NothingCounted(b: Base, i: nat, script: seq<seq<Op>>, s: Served)
    requires Ok(b) && i < |b.activeq| && b.activeq[i] != [] && s == SingleQueue(b.(running := i), i, script, 0)
    requires s.count == 0 && s.script == [] && Inverts(Next(s.base, i))
    ensures Inverts(ProcessFrom(b, i, script))
  {
    ContinuesBehind(b, i, script, s);
    TurnsBehind(s.turns, ProcessFrom(s.base, i + 1, []));
  }

  lemma ContinuesBehind(b: Base, i: nat, script: seq<seq<Op>>, s: Served)
    requires Ok(b) && i < |b.activeq| && b.activeq[i] != [] && s == SingleQueue(b.(running := i), i, script, 0)
    requires s.count == 0
    ensures var t := ProcessFrom(s.base, i + 1, s.script);
      ProcessFrom(b, i, script) == t.(turns := s.turns + t.turns)
  {
  }

  lemma TurnsBehind(turns: seq<Turn>, s: Served)
    requires Inverts(s)
    ensures Inverts(s.(turns := turns + s.turns))
  {
  }

  lemma Activated(b: Base, x: Id)
    requires Ok(b) && x < |b.evs| && !b.evs[x].active && b.evs[x].pri < |b.activeq|
    ensures var r := Run(b, [ActiveOp(x, TIMED_OUT)]);
      && r.activeq == b.activeq[b.evs[x].pri := b.activeq[b.evs[x].pri] + [x]] && r.broken == b.broken
      && r.continued == (b.continued || b.evs[x].pri < b.running)
  {
    RunOne(b, ActiveOp(x, TIMED_OUT));
  }

  lemma ServedAlone(b: Base, e: Id, x: Id) returns (r: Base)
    requires Ok(b) && !b.continued && !b.broken && e < |b.evs| && x < |b.evs| && e != x
    requires b.evs[e].active && b.evs[e].pri < |b.activeq| && b.activeq[b.evs[e].pri] == [e]
    ensures r == Serve(b, e) && Ok(r) && r.activeq == b.activeq[b.evs[e].pri := []]
    ensures !r.continued && !r.broken && r.running == b.running && |r.evs| == |b.evs| && r.evs[x] == b.evs[x]
  {
    r := Serve(b, e);
    ServeDequeues(b, e);
    assert Removed([e], e) == [];
    ServeKeepsPriority(b, e);
  }

  /** The turn of the internal event, as the first and only one of its queue. */
  lemma InternalTurn(b: Base, e: Id, x: Id, script: seq<seq<Op>>) returns (r: Base)
    requires Ok(b) && !b.continued && !b.broken && e < |b.evs| && x < |b.evs| && e != x
    requires script == [[ActiveOp(x, TIMED_OUT)]]
    requires b.evs[e].active && b.evs[e].kind.internal && 0 < b.evs[e].pri < |b.activeq| && b.running == b.evs[e].pri
    requires b.activeq[b.evs[e].pri] == [e] && !b.evs[x].active && b.evs[x].pri == 0 && b.activeq[0] == []
    ensures Ok(r) && r.activeq == b.activeq[b.evs[e].pri := []][0 := [x]]
    ensures SingleQueue(b, b.evs[e].pri, script, 0) == Served(r, [], 0, [Turn(b, b.evs[e].pri, e)])
  {
    var p := b.evs[e].pri;
    var b1 := ServedAlone(b, e, x);
    r := Run(b1, script[0]);
    assert b1.activeq[0] == [] && script[0] == [ActiveOp(x, TIMED_OUT)];
    assert r.activeq == b1.activeq[0 := [x]] && r.continued && !r.broken by {
      Activated(b1, x);
      assert [] + [x] == [x];
    }
    assert script[1..] == [];
    assert SingleQueue(b, p, script, 0) == Served(r, [], 0, [Turn(b, p, e)]) by {
      OneTurn(b, p, script, 0, 0, r, []);
    }
  }

  /** The event of the last queue is served while `x` is active. */
  lemma LastTurn(b: Base, i: nat, x: Id, y: Id)
    requires Ok(b) && i < |b.activeq| && b.activeq[0] == [x] && b.activeq[|b.activeq| - 1] == [y] && 0 < |b.activeq| - 1
    requires EmptyBetween(b, i, |b.activeq| - 1)
    ensures Inverts(ProcessFrom(b, i, []))
  {
    var last := |b.activeq| - 1;
    assert Inverts(ProcessFrom(b, last, [])) by {
      LastQueueTurn(b, last, x, y);
    }
    assert ProcessFrom(b, i, []) == ProcessFrom(b, last, []) by {
      EmptyQueuesSkipped(b, i, last, []);
    }
  }

  lemma LastQueueTurn(b: Base, last: nat, x: Id, y: Id)
    requires Ok(b) && 0 < last == |b.activeq| - 1 && b.activeq[0] == [x] && b.activeq[last] == [y]
    ensures Inverts(ProcessFrom(b, last, []))
  {
    var t := Turn(b.(running := last), last, y);
    assert Look(0) && !LowerEmpty(t.before, t.queue);
    FirstTurnTaken(b, last, []);
  }

  /** The loop starts with the event at the head of the queue. */
  lemma FirstTurnTaken(b: Base, i: nat, script: seq<seq<Op>>)
    requires Ok(b) && i < |b.activeq| && b.activeq[i] != []
    ensures Turn(b.(running := i), i, b.activeq[i][0]) in ProcessFrom(b, i, script).turns
  {
    HeadIsServed(b.(running := i), i, script);
  }

  lemma HeadIsServed(b: Base, i: nat, script: seq<seq<Op>>)
    requires Ok(b) && i < |b.activeq| && b.activeq[i] != []
    ensures Turn(b, i, b.activeq[i][0]) in SingleQueue(b, i, script, 0).turns
  {
    var e := b.activeq[i][0];
    HeadIsActive(b, i);
    var (b1, rest) := Callback(Serve(b, e), script);
    OneTurn(b, i, script, 0, if b.evs[e].kind.internal then 0 else 1, b1, rest);
  }

  lemma RespectedWhenAtEnds(b: Base, ops: seq<Op>, script: seq<seq<Op>>)
    requires Ok(b) && Quiet(b) && InternalAtEnds(b)
    ensures NoInversion(ProcessActive(Run(b, ops), script).turns)
  {
    RunKeepsUnbroken(b, ops);
    NoPriorityInversion(Run(b, ops), script);
  }

  /** With an internal event between the first queue and the last, some operations lead to an inversion. */
  lemma InversionBehind(b: Base, e: Id) returns (ops: seq<Op>, script: seq<seq<Op>>)
    requires Ok(b) && Quiet(b) && e < |b.evs| && b.evs[e].kind.internal
    requires b.evs[e].pri != 0 && b.evs[e].pri != |b.activeq| - 1
    ensures !NoInversion(ProcessActive(Run(b, ops), script).turns)
  {
    var x, y;
    PriorityInRange(b, e);
    ops, x, y := Stage(b, e);
    script := [[ActiveOp(x, TIMED_OUT)]];
    assert Inverts(ProcessActive(Run(b, ops), script)) by {
      StagedInverts(Run(b, ops), e, x, y);
    }
  }

  /**
    The exact condition, for any base between two rounds of the loop: whatever is done to it before,
    and whatever the callbacks do, priorities are respected if and only if no internal event is
    between the first queue and the last.
    */
  lemma RespectedIffInternalAtEnds(b: Base)
    requires Ok(b) && Quiet(b)
    ensures InternalAtEnds(b) <==>
      forall ops, script {:trigger ProcessActive(Run(b, ops), script)} ::
        NoInversion(ProcessActive(Run(b, ops), script).turns)
  {
    if InternalAtEnds(b) {
      forall ops, script ensures NoInversion(ProcessActive(Run(b, ops), script).turns) {
        RespectedWhenAtEnds(b, ops, script);
      }
    } else {
      var e :| 0 <= e < |b.evs| && b.evs[e].kind.internal && b.evs[e].pri != 0 && b.evs[e].pri != |b.activeq| - 1;
      var ops, script := InversionBehind(b, e);
    }
  }
}
