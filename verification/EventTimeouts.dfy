/**
  Expired timers: `timeout_process` takes events off the heap as long as the earliest is due, and
  activates them. `TimeoutProcess` gives the base and these events in the order in which they are
  taken: exactly the due ones, by deadline. Each of them joins the active queue of its priority
  behind those that are there.
  */
module EventTimeouts {
  import opened Common
  import opened EventLoop
  import opened EventOps
  import opened EventQueue
  import opened Evmap
  import opened MinHeap
  import opened TimeVal

  // ---------- timeout_process ----------

  lemma TopIsTimed(b: Base)
    requires Ok(b) && b.heap != []
    ensures b.heap[0] < |b.evs| && b.evs[b.heap[0]].timed
  {
    MarkOf(b.heap, b.evs, Timers, b.heap[0]);
  }

  /** One round of the loop: the event is deleted and becomes active. */
  function Expire(b: Base, e: Id): (r: Base)
    requires Ok(b) && e < |b.evs|
    ensures Ok(r) && r.deadline == b.deadline
    ensures Only(b, r, e, b.evs[e].(timed := false, active := true, inserted := false, res := TIMED_OUT))
  {
    var b1 := DelInternal(b, e);
    var r := ActiveNolock(b1, e, TIMED_OUT);
    OnlyTwice(b, b1, r, e, r.evs[e]);
    r
  }

  /** The timer heap loses the event and only that. */
  lemma ExpireHeap(b: Base, e: Id)
    requires Ok(b) && e < |b.evs| && b.evs[e].timed
    ensures e in b.heap && Expire(b, e).heap == EraseAt(b.heap, b.deadline, IndexOf(b.heap, e))
    ensures multiset(Expire(b, e).heap) == multiset(b.heap) - multiset{e}
    ensures multiset(b.heap)[e] == 1
  {
    MarkOf(b.heap, b.evs, Timers, e);
    EraseKeepsOthers(b.heap, b.deadline, IndexOf(b.heap, e));
    var b1 := StopTimer(b, e);
    assert Withdraw(Deactivate(b1, e), e).heap == b1.heap;
  }

  /** Its queue gets the event at the end, and has it nowhere else. */
  lemma ExpireQueues(b: Base, e: Id)
    requires Ok(b) && e < |b.evs| && b.evs[e].pri < |b.activeq|
    ensures Expire(b, e).activeq == b.activeq[b.evs[e].pri := Removed(b.activeq[b.evs[e].pri], e) + [e]]
  {
    var p := b.evs[e].pri;
    var b1 := DelInternal(b, e);
    assert b1.activeq == b.activeq[p := Removed(b.activeq[p], e)] by {
      DelDequeues(b, e);
      if !b.evs[e].active {
        NotQueued(b, e, p);
      }
    }
    ActivateAppends(b1, e);
    Overwritten(b.activeq, p, Removed(b.activeq[p], e), Removed(b.activeq[p], e) + [e]);
  }

  lemma ActivateAppends(b: Base, e: Id)
    requires Ok(b) && e < |b.evs| && !b.evs[e].active && b.evs[e].pri < |b.activeq|
    ensures ActiveNolock(b, e, TIMED_OUT).activeq == b.activeq[b.evs[e].pri := b.activeq[b.evs[e].pri] + [e]]
  {
  }

  lemma NotQueued(b: Base, e: Id, p: nat)
    requires Ok(b) && e < |b.evs| && p < |b.activeq| && !b.evs[e].active
    ensures Removed(b.activeq[p], e) == b.activeq[p]
  {
    assert Look(p);
    MarkOf(b.activeq[p], b.evs, Active(p), e);
    RemovedAbsent(b.activeq[p], e);
  }

  lemma {:induction false} RemovedAbsent(s: seq<Id>, e: Id)
    requires e !in s
    ensures Removed(s, e) == s
  {
    if s != [] {
      RemovedAbsent(s[1..], e);
      assert s == [s[0]] + s[1..];
    }
  }

  /** `timeout_process`: the base afterwards, and the events whose time had come, in the order of the loop. */
  function TimeoutProcess(b: Base): (r: (Base, seq<Id>))
    requires Ok(b)
    ensures Ok(r.0) && |r.0.activeq| == |b.activeq| && |r.0.evs| == |b.evs|
    decreases |b.heap|
  {
    if b.heap == [] then (b, [])
    else
      var e := b.heap[0];
      if Less(b.now, b.deadline[e]) then (b, [])
      else
        TopIsTimed(b);
        ExpireHeap(b, e);
        var (r, fired) := TimeoutProcess(Expire(b, e));
        (r, [e] + fired)
  }

  predicate Stops(b: Base)
    requires Ok(b)
  {
    b.heap == [] || Less(b.now, b.deadline[b.heap[0]])
  }

  /** One round of the loop, in terms of the rest of it. */
  lemma Round(b: Base)
    requires Ok(b)
    ensures Stops(b) ==> TimeoutProcess(b) == (b, [])
    ensures !Stops(b) ==>
      var e := b.heap[0];
      && e < |b.evs| && b.evs[e].timed && AtMost(b.deadline[e], b.now)
      && multiset(b.heap)[e] == 1 && |Expire(b, e).heap| < |b.heap|
      && TimeoutProcess(b).0 == TimeoutProcess(Expire(b, e)).0
      && TimeoutProcess(b).1 == [e] + TimeoutProcess(Expire(b, e)).1
  {
    if !Stops(b) {
      TopIsTimed(b);
      ExpireHeap(b, b.heap[0]);
    }
  }

  // ---------- which events fire ----------

  predicate Due(b: Base, e: Id)
    requires |b.deadline| == |b.evs|
  {
    e < |b.evs| && b.evs[e].timed && AtMost(b.deadline[e], b.now)
  }

  /** When the loop stops, nothing is due. */
  lemma NoneDue(b: Base, e: Id)
    requires Ok(b) && Stops(b)
    ensures !Due(b, e)
  {
    MarkOf(b.heap, b.evs, Timers, e);
    if e in b.heap {
      TimersAreHeap(b.heap, b.deadline);
      TopIsEarliest(b.heap, b.deadline, IndexOf(b.heap, e));
    }
  }

  /** Exactly the timers that are due fire, each of them once. */
  lemma {:induction false} FiredAreDue(b: Base, e: Id)
    requires Ok(b)
    ensures multiset(TimeoutProcess(b).1)[e] == One(Due(b, e))
    ensures e in TimeoutProcess(b).1 <==> Due(b, e)
    decreases |b.heap|
  {
    Round(b);
    if Stops(b) {
      NoneDue(b, e);
    } else {
      var top := b.heap[0];
      var b1 := Expire(b, top);
      var fired := TimeoutProcess(b1).1;
      FiredAreDue(b1, e);
      assert multiset([top] + fired) == multiset{top} + multiset(fired);
      assert Due(b, e) <==> e == top || Due(b1, e);
      assert !Due(b1, top);
    }
  }

  lemma InOrderCons(e: Id, s: seq<Id>, key: seq<Timeval>)
    requires e < |key| && InHeap(s, key) && InOrder(s, key) && forall x :: x in s ==> AtMost(key[e], key[x])
    ensures InHeap([e] + s, key) && InOrder([e] + s, key)
  {
  }

  lemma DueLater(b: Base, b1: Base, x: Id)
    requires Ok(b) && b.heap != [] && b.heap[0] < |b.evs| == |b1.evs| == |b1.deadline|
    requires Only(b, b1, b.heap[0], b1.evs[b.heap[0]]) && !b1.evs[b.heap[0]].timed && Due(b1, x)
    ensures AtMost(b.deadline[b.heap[0]], b.deadline[x])
  {
    TopComesFirst(b, x);
  }

  /** They fire in the order of their deadlines. */
  lemma {:induction false} FiredInOrder(b: Base)
    requires Ok(b)
    ensures InHeap(TimeoutProcess(b).1, b.deadline) && InOrder(TimeoutProcess(b).1, b.deadline)
    decreases |b.heap|
  {
    Round(b);
    if !Stops(b) {
      var e := b.heap[0];
      var b1 := Expire(b, e);
      var fired := TimeoutProcess(b1).1;
      FiredInOrder(b1);
      forall x | x in fired ensures AtMost(b.deadline[e], b.deadline[x]) {
        FiredAreDue(b1, x);
        DueLater(b, b1, x);
      }
      InOrderCons(e, fired, b.deadline);
    }
  }

  lemma TopComesFirst(b: Base, e: Id)
    requires Ok(b) && b.heap != [] && e < |b.evs| && b.evs[e].timed
    ensures AtMost(b.deadline[b.heap[0]], b.deadline[e])
  {
    MarkOf(b.heap, b.evs, Timers, e);
    TimersAreHeap(b.heap, b.deadline);
    TopIsEarliest(b.heap, b.deadline, IndexOf(b.heap, e));
  }

  // ---------- what becomes of the events and of the queues ----------

  /** An event that fires is active because of its timeout alone; the others are as they were. */
  lemma {:induction false} FiredAreActive(b: Base, e: Id)
    requires Ok(b) && e < |b.evs|
    ensures TimeoutProcess(b).0.evs[e] ==
      if Due(b, e) then b.evs[e].(timed := false, active := true, inserted := false, res := TIMED_OUT) else b.evs[e]
    decreases |b.heap|
  {
    Round(b);
    if Stops(b) {
      NoneDue(b, e);
    } else {
      FiredAreActive(Expire(b, b.heap[0]), e);
    }
  }

  /** The events of a list that are not in another. */
  function Others(s: seq<Id>, fired: seq<Id>): seq<Id> {
    if s == [] then [] else (if s[0] in fired then [] else [s[0]]) + Others(s[1..], fired)
  }

  function OfPriority(fired: seq<Id>, evs: seq<Ev>, p: nat): seq<Id> {
    if fired == [] then []
    else (if fired[0] < |evs| && evs[fired[0]].pri == p then [fired[0]] else []) + OfPriority(fired[1..], evs, p)
  }

  lemma {:induction false} OthersOfNone(s: seq<Id>)
    ensures Others(s, []) == s
  {
    if s != [] {
      OthersOfNone(s[1..]);
    }
  }

  lemma {:induction false} OthersAppend(s: seq<Id>, t: seq<Id>, fired: seq<Id>)
    ensures Others(s + t, fired) == Others(s, fired) + Others(t, fired)
  {
    if s == [] {
      assert s + t == t;
    } else {
      assert (s + t)[1..] == s[1..] + t;
      OthersAppend(s[1..], t, fired);
    }
  }

  /** Leaving out one event first, which is there once at most. */
  lemma {:induction false} OthersOfRemoved(s: seq<Id>, e: Id, fired: seq<Id>)
    requires multiset(s)[e] <= 1
    ensures Others(Removed(s, e), fired) == Others(s, [e] + fired)
  {
    if s != [] {
      assert s == [s[0]] + s[1..];
      if s[0] == e {
        assert e !in multiset(s[1..]) && e !in s[1..];
        OthersOfAbsent(s[1..], e, fired);
      } else {
        OthersOfRemoved(s[1..], e, fired);
        assert ([s[0]] + Removed(s[1..], e))[1..] == Removed(s[1..], e);
      }
    }
  }

  lemma {:induction false} OthersOfAbsent(s: seq<Id>, e: Id, fired: seq<Id>)
    requires e !in s
    ensures Others(s, fired) == Others(s, [e] + fired)
  {
    if s != [] {
      OthersOfAbsent(s[1..], e, fired);
    }
  }

  lemma {:induction false} SamePriorities(fired: seq<Id>, evs: seq<Ev>, evs': seq<Ev>, p: nat)
    requires |evs| == |evs'| && forall x :: 0 <= x < |evs| ==> evs'[x].pri == evs[x].pri
    ensures OfPriority(fired, evs, p) == OfPriority(fired, evs', p)
  {
    if fired != [] {
      SamePriorities(fired[1..], evs, evs', p);
    }
  }

  /** Each active queue keeps its other events in order, followed by those of its priority that fired. */
  lemma {:induction false} FiredAreQueued(b: Base, p: nat)
    requires Ok(b) && p < |b.activeq|
    ensures TimeoutProcess(b).0.activeq[p] ==
      Others(b.activeq[p], TimeoutProcess(b).1) + OfPriority(TimeoutProcess(b).1, b.evs, p)
    decreases |b.heap|
  {
    Round(b);
    if Stops(b) {
      OthersOfNone(b.activeq[p]);
    } else {
      var e := b.heap[0];
      var b1 := Expire(b, e);
      var fired := TimeoutProcess(b1).1;
      FiredAreQueued(b1, p);
      assert e !in fired by {
        FiredAreDue(b1, e);
      }
      QueuedBehind(b, e, p, fired);
    }
  }

  lemma QueuedBehind(b: Base, e: Id, p: nat, fired: seq<Id>)
    requires Ok(b) && p < |b.activeq| && e < |b.evs| && e !in fired
    ensures Others(Expire(b, e).activeq[p], fired) + OfPriority(fired, Expire(b, e).evs, p) ==
      Others(b.activeq[p], [e] + fired) + OfPriority([e] + fired, b.evs, p)
  {
    SamePriorities(fired, b.evs, Expire(b, e).evs, p);
    ExpiredQueue(b, e, p, fired);
    QueuedFirst(e, fired, b.evs, p, Others(b.activeq[p], [e] + fired));
  }

  lemma QueuedFirst(e: Id, fired: seq<Id>, evs: seq<Ev>, p: nat, q: seq<Id>)
    requires e < |evs|
    ensures q + (if p == evs[e].pri then [e] else []) + OfPriority(fired, evs, p) == q + OfPriority([e] + fired, evs, p)
  {
    assert ([e] + fired)[1..] == fired;
  }

  lemma ExpiredQueue(b: Base, e: Id, p: nat, fired: seq<Id>)
    requires Ok(b) && p < |b.activeq| && e < |b.evs| && e !in fired
    ensures Others(Expire(b, e).activeq[p], fired) ==
      Others(b.activeq[p], [e] + fired) + (if p == b.evs[e].pri then [e] else [])
  {
    var q := b.activeq[p];
    assert Expire(b, e).activeq[p] == if p == b.evs[e].pri then Removed(q, e) + [e] else q by {
      PriorityInRange(b, e);
      ExpireQueues(b, e);
    }
    assert multiset(q)[e] == One(b.evs[e].active && p == b.evs[e].pri) by {
      assert Look(p);
      MarkOf(q, b.evs, Active(p), e);
    }
    if p == b.evs[e].pri {
      Requeued(q, e, fired);
    } else {
      assert e !in multiset(q);
      OthersOfAbsent(q, e, fired);
    }
  }

  lemma Requeued(q: seq<Id>, e: Id, fired: seq<Id>)
    requires multiset(q)[e] <= 1 && e !in fired
    ensures Others(Removed(q, e) + [e], fired) == Others(q, [e] + fired) + [e]
  {
    OthersAppend(Removed(q, e), [e], fired);
    OthersOfRemoved(q, e, fired);
    assert Others([e], fired) == [e];
  }
}
