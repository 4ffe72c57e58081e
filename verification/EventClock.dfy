/** The clock of event.c: a clock that has been set back, and how long to wait for the next timer. */
module EventClock {
  import opened Common
  import opened EventQueue
  import opened MinHeap
  import opened TimeVal

  // ---------- timeout_correct ----------

  /** The deadlines when those of the heap have been moved back. */
  function MovedBack(deadline: seq<Time>, heap: seq<Id>, off: Time): (r: seq<Time>)
    ensures |r| == |deadline|
    ensures forall e :: 0 <= e < |deadline| ==> r[e] == if e in heap then Difference(deadline[e], off) else deadline[e]
  {
    if deadline == [] then []
    else
      var n := |deadline| - 1;
      MovedBack(deadline[..n], heap, off) + [if n in heap then Difference(deadline[n], off) else deadline[n]]
  }

  /** `timeout_correct`, when the clock reads `tv`; one that is monotonic is never set back. */
  function ClockCorrected(b: Base, monotonic: bool, tv: Time): (r: Base)
    requires Ok(b)
    ensures Ok(r) && r == b.(now := tv, eventTv := r.eventTv, deadline := r.deadline)
  {
    var b1 := b.(now := tv);
    if monotonic then b1
    else if AtMost(b.eventTv, tv) then b1.(eventTv := tv)
    else
      MovingKeepsOk(b, Difference(b.eventTv, tv));
      b1.(eventTv := tv, deadline := MovedBack(b.deadline, b.heap, Difference(b.eventTv, tv)))
  }

  /** Every key changes by the same amount, so the heap stays one. */
  lemma MovingKeepsOk(b: Base, off: Time)
    requires Ok(b)
    ensures Ok(b.(deadline := MovedBack(b.deadline, b.heap, off)))
  {
    var moved := MovedBack(b.deadline, b.heap, off);
    forall i | 0 < i < |b.heap| ensures AtMost(moved[b.heap[Parent(i)]], moved[b.heap[i]]) {
      assert Look(i);
      ShiftKeepsOrder(b.deadline[b.heap[Parent(i)]], b.deadline[b.heap[i]], off);
    }
  }

  /**
    However far the clock has been set back, each timer still has as long to wait as it had when the
    loop looked at the clock last, and no other deadline changes; otherwise none does.
    */
  lemma DistancesStay(b: Base, monotonic: bool, tv: Time, e: Id)
    requires Ok(b) && e < |b.evs|
    ensures var r := ClockCorrected(b, monotonic, tv);
      if !monotonic && Less(tv, b.eventTv) && b.evs[e].timed then
        Micros(r.deadline[e]) - Micros(tv) == Micros(b.deadline[e]) - Micros(b.eventTv)
      else r.deadline[e] == b.deadline[e]
  {
    MarkOf(b.heap, b.evs, Timers, e);
    NormalArithmetic(b.eventTv, tv);
    NormalArithmetic(b.deadline[e], Difference(b.eventTv, tv));
  }

  // ---------- how long the loop waits ----------

  function Earliest(b: Base): Option<Time>
    requires Ok(b)
  {
    if b.heap == [] then None else Some(b.deadline[b.heap[0]])
  }

  /** What the loop lets the backend wait: nothing if there is something to do, else until the next timer. */
  function Wait(b: Base, nonblock: bool): Option<Time>
    requires Ok(b)
  {
    if b.countActive != 0 || nonblock then Some(ZERO) else TimeoutNext(Earliest(b), b.now)
  }

  /** The event on top of the heap is the one with the least time left. */
  lemma EarliestIsLeast(b: Base)
    requires Ok(b)
    ensures Earliest(b).None? <==> forall e :: 0 <= e < |b.evs| ==> !b.evs[e].timed
    ensures Earliest(b).Some? ==> b.heap[0] < |b.evs| && b.evs[b.heap[0]].timed
    ensures forall e :: 0 <= e < |b.evs| && b.evs[e].timed ==>
      Earliest(b).Some? && Micros(Earliest(b).value) <= Micros(b.deadline[e])
  {
    forall e | 0 <= e < |b.evs| && b.evs[e].timed
      ensures b.heap != [] && Micros(b.deadline[b.heap[0]]) <= Micros(b.deadline[e])
    {
      MarkOf(b.heap, b.evs, Timers, e);
      TimersAreHeap(b.heap, b.deadline);
      TopIsEarliest(b.heap, b.deadline, IndexOf(b.heap, e));
      NormalArithmetic(b.deadline[b.heap[0]], b.deadline[e]);
    }
    if b.heap != [] {
      MarkOf(b.heap, b.evs, Timers, b.heap[0]);
    }
  }

  /** The milliseconds left to a timer, rounded up, and 35 minutes at most. */
  function WaitFor(b: Base, e: Id): int
    requires e < |b.evs| && |b.evs| == |b.deadline|
  {
    var msec := CeilingMsec(b.deadline[e], b.now);
    if msec <= MAX_WAIT then msec else MAX_WAIT
  }

  /**
    The milliseconds handed to epoll: without limit only when nothing is active and nothing timed; none
    when something is active; else the time left to the timer with the least, rounded up, and 35
    minutes at most. So no timer is slept over, and there is no waking up before the first.
    */
  lemma EpollWaitsForEarliest(b: Base, nonblock: bool, longMax: nat)
    requires Ok(b) && IsLongMax(longMax)
    ensures var wait := EpollTimeout(Wait(b, nonblock), longMax);
      && -1 <= wait <= MAX_WAIT
      && (wait == -1 <==> b.countActive == 0 && !nonblock && forall e :: 0 <= e < |b.evs| ==> !b.evs[e].timed)
      && (b.countActive != 0 || nonblock ==> wait == 0)
      && (b.countActive == 0 && !nonblock ==>
            && (forall e :: 0 <= e < |b.evs| && b.evs[e].timed ==> wait <= WaitFor(b, e))
            && (wait != -1 ==> exists e :: 0 <= e < |b.evs| && b.evs[e].timed && wait == WaitFor(b, e)))
  {
    EarliestIsLeast(b);
    if Earliest(b).Some? {
      WaitIsExact(Earliest(b).value, b.now, longMax);
    }
  }
}
