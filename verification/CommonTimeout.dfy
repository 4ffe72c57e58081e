/**
  Common timeouts of event.c: queues of equal intervals, whose deadlines carry the number of their
  queue in the upper bits of `tv_usec`.
  */
module CommonTimeout {
  import opened Bits
  import opened Common
  import opened MinHeap
  import opened TimeVal

  // ---------- tags ----------

  /** MICROSECONDS_MASK: 20 bits. */
  function Micros20(usec: nat): nat {
    Low(usec, 20)
  }

  /** COMMON_TIMEOUT_IDX. */
  function Index(usec: nat): nat {
    Low(Shr(usec, 20), 8)
  }

  function Magic(usec: nat): nat {
    Low(Shr(usec, 28), 4)
  }

  /** `is_common_timeout`, for a base with `n` common timeouts. */
  predicate IsCommon(usec: nat, n: nat) {
    Magic(usec) == 5 && Index(usec) < n
  }

  /** What is not microseconds; `is_same_common_timeout` compares it. */
  function Tag(usec: nat): nat {
    Shr(usec, 20)
  }

  /** `usec | COMMON_TIMEOUT_MAGIC | (i << COMMON_TIMEOUT_IDX_SHIFT)`. */
  function Tagged(usec: nat, i: nat): nat {
    Or(usec, Or(Shl(5, 28), Shl(i, 20)))
  }

  /** `usec | (tag << 20)`: a tag that was taken off is put back. */
  function WithTag(usec: nat, tag: nat): nat {
    Or(usec, Shl(tag, 20))
  }

  lemma TwoTo20()
    ensures Pow2(20) == 1_048_576 && Pow2(8) == 256 && Pow2(4) == 16
  {
    assert Pow2(4) == 2 * Pow2(3) == 4 * Pow2(2) == 8 * Pow2(1) == 16;
    assert Pow2(8) == 2 * Pow2(7) == 4 * Pow2(6) == 8 * Pow2(5) == 16 * Pow2(4);
    assert Pow2(12) == 2 * Pow2(11) == 4 * Pow2(10) == 8 * Pow2(9) == 16 * Pow2(8);
    assert Pow2(16) == 2 * Pow2(15) == 4 * Pow2(14) == 8 * Pow2(13) == 16 * Pow2(12);
    assert Pow2(20) == 2 * Pow2(19) == 4 * Pow2(18) == 8 * Pow2(17) == 16 * Pow2(16);
  }

  /** A number that fits is its own low part. */
  lemma LowOfFitting(n: nat, k: nat)
    requires n < Pow2(k)
    ensures Low(n, k) == n
  {
    forall j: nat ensures Bit(Low(n, k), j) == Bit(n, j) {
      BitOfLow(n, k, j);
      if j >= k {
        NoBitsAbove(n, k, j);
      }
    }
    SameBits(Low(n, k), n);
  }

  /** The tag and the microseconds do not disturb each other. */
  lemma TagTakenOff(usec: nat, tag: nat)
    requires usec < MILLION
    ensures Micros20(WithTag(usec, tag)) == usec && Tag(WithTag(usec, tag)) == tag
  {
    TwoTo20();
    var t := WithTag(usec, tag);
    forall j: nat ensures Bit(Micros20(t), j) == Bit(usec, j) {
      BitOfLow(t, 20, j);
      BitOfOr(usec, Shl(tag, 20), j);
      BitOfShl(tag, 20, j);
      if j >= 20 {
        NoBitsAbove(usec, 20, j);
      }
    }
    SameBits(Micros20(t), usec);
    forall j: nat ensures Bit(Tag(t), j) == Bit(tag, j) {
      BitOfShr(t, 20, j);
      BitOfOr(usec, Shl(tag, 20), 20 + j);
      BitOfShl(tag, 20, 20 + j);
      NoBitsAbove(usec, 20, 20 + j);
    }
    SameBits(Tag(t), tag);
  }

  /** The magic number above the index. */
  function TagOf(i: nat): nat {
    Or(Shl(5, 8), i)
  }

  lemma TaggedIsWithTag(usec: nat, i: nat)
    ensures Tagged(usec, i) == WithTag(usec, TagOf(i))
  {
    forall j: nat ensures Bit(Tagged(usec, i), j) == Bit(WithTag(usec, TagOf(i)), j) {
      BitOfOr(usec, Or(Shl(5, 28), Shl(i, 20)), j);
      BitOfOr(Shl(5, 28), Shl(i, 20), j);
      BitOfShl(5, 28, j);
      BitOfShl(i, 20, j);
      BitOfOr(usec, Shl(TagOf(i), 20), j);
      BitOfShl(TagOf(i), 20, j);
      if j >= 20 {
        BitOfOr(Shl(5, 8), i, j - 20);
        BitOfShl(5, 8, j - 20);
      }
    }
    SameBits(Tagged(usec, i), WithTag(usec, TagOf(i)));
  }

  /** Index and magic number of a tagged time can be read back, and the microseconds are untouched. */
  lemma TagRecovered(usec: nat, i: nat)
    requires usec < MILLION && i < 256
    ensures Micros20(Tagged(usec, i)) == usec && Index(Tagged(usec, i)) == i && Magic(Tagged(usec, i)) == 5
    ensures Tag(Tagged(usec, i)) == TagOf(i)
    ensures forall n: nat :: IsCommon(Tagged(usec, i), n) <==> i < n
  {
    TwoTo20();
    TaggedIsWithTag(usec, i);
    TagTakenOff(usec, TagOf(i));
    var t := Tagged(usec, i);
    forall j: nat ensures Bit(Low(TagOf(i), 8), j) == Bit(i, j) {
      BitOfLow(TagOf(i), 8, j);
      BitOfOr(Shl(5, 8), i, j);
      BitOfShl(5, 8, j);
      if j >= 8 {
        NoBitsAbove(i, 8, j);
      }
    }
    SameBits(Low(TagOf(i), 8), i);
    forall j: nat ensures Bit(Low(Shr(t, 28), 4), j) == Bit(5, j) {
      BitOfLow(Shr(t, 28), 4, j);
      BitOfShr(t, 28, j);
      BitOfShr(t, 20, 8 + j);
      BitOfOr(Shl(5, 8), i, 8 + j);
      BitOfShl(5, 8, 8 + j);
      NoBitsAbove(i, 8, 8 + j);
      if j >= 4 {
        NoBitsAbove(5, 4, j);
      }
    }
    SameBits(Low(Shr(t, 28), 4), 5);
  }

  /** Plain microseconds are never taken for a common timeout. */
  lemma PlainIsNotCommon(usec: nat, n: nat)
    requires usec < MILLION
    ensures !IsCommon(usec, n) && Micros20(usec) == usec && Tag(usec) == 0
  {
    TwoTo20();
    LowOfFitting(usec, 20);
    forall j: nat ensures Bit(Shr(usec, 20), j) == Bit(0, j) && Bit(Shr(usec, 28), j) == Bit(0, j) {
      BitOfShr(usec, 20, j);
      BitOfShr(usec, 28, j);
      NoBitsAbove(usec, 20, 20 + j);
      NoBitsAbove(usec, 20, 28 + j);
      BitOfZero(j);
    }
    SameBits(Shr(usec, 20), 0);
    SameBits(Shr(usec, 28), 0);
    assert Low(0, 4) == 0 by {
      LowOfFitting(0, 4);
    }
  }

  // ---------- times with tags ----------

  /** A time of queue `i` and the plain time it stands for. */
  function Mark(t: Timeval, i: nat): Timeval
    requires Normal(t)
  {
    Timeval(t.sec, Tagged(t.usec, i))
  }

  function Plain(t: Timeval): Timeval
    requires t.usec >= 0
  {
    Timeval(t.sec, Micros20(t.usec))
  }

  /** Within a queue, tagged times compare like plain ones. */
  lemma MarkedCompare(a: Timeval, b: Timeval, i: nat)
    requires Normal(a) && Normal(b) && i < 256
    ensures AtMost(Mark(a, i), Mark(b, i)) <==> AtMost(a, b)
    ensures Less(Mark(a, i), Mark(b, i)) <==> Less(a, b)
  {
    TaggedSum(a.usec, i);
    TaggedSum(b.usec, i);
  }

  lemma TaggedSum(usec: nat, i: nat)
    requires usec < MILLION && i < 256
    ensures Tagged(usec, i) == TagOf(i) * Pow2(20) + usec
  {
    TagRecovered(usec, i);
    AsArithmetic(Tagged(usec, i), 20);
  }

  // ---------- the queues ----------

  /** What is before place `i` is not later than the event, and what is behind is. */
  ghost predicate Splits(queue: seq<Id>, ev: Id, key: seq<Timeval>, i: nat)
    requires InHeap(queue, key) && ev < |key| && i <= |queue|
  {
    && (forall j :: 0 <= j < i ==> AtMost(key[queue[j]], key[ev]))
    && (forall j :: i <= j < |queue| ==> Less(key[ev], key[queue[j]]))
  }

  /** `insert_common_timeout_inorder`: from the end, behind the first event that is not later. */
  method InsertInOrder(queue: seq<Id>, ev: Id, key: seq<Timeval>) returns (r: seq<Id>)
    requires InHeap(queue, key) && InOrder(queue, key) && ev < |key|
    ensures InHeap(r, key) && InOrder(r, key)
    ensures exists i :: 0 <= i <= |queue| && r == queue[..i] + [ev] + queue[i..] && Splits(queue, ev, key, i)
  {
    var i := |queue|;
    while i > 0 && Less(key[ev], key[queue[i - 1]])
      invariant 0 <= i <= |queue| && forall j :: i <= j < |queue| ==> Less(key[ev], key[queue[j]])
    {
      i := i - 1;
    }
    r := queue[..i] + [ev] + queue[i..];
    InsertedInOrder(queue, ev, key, i);
  }

  lemma InsertedInOrder(queue: seq<Id>, ev: Id, key: seq<Timeval>, i: nat)
    requires InHeap(queue, key) && InOrder(queue, key) && ev < |key| && i <= |queue|
    requires i > 0 ==> AtMost(key[queue[i - 1]], key[ev])
    requires forall j :: i <= j < |queue| ==> Less(key[ev], key[queue[j]])
    ensures InHeap(queue[..i] + [ev] + queue[i..], key) && InOrder(queue[..i] + [ev] + queue[i..], key)
    ensures forall j :: 0 <= j < i ==> AtMost(key[queue[j]], key[ev])
  {
    forall j | 0 <= j < i ensures AtMost(key[queue[j]], key[ev]) {
      assert j < i - 1 ==> AtMost(key[queue[j]], key[queue[i - 1]]);
    }
    var r := queue[..i] + [ev] + queue[i..];
    forall a, b | 0 <= a < b < |r| ensures AtMost(key[r[a]], key[r[b]]) {
      if a != i && b != i {
        assert r[a] == queue[if a < i then a else a - 1] && r[b] == queue[if b < i then b else b - 1];
      }
    }
  }

  /** All times in queue `q` carry its tag. */
  ghost predicate MarkedQueue(queue: seq<Id>, key: seq<Timeval>, q: nat) {
    InHeap(queue, key) && q < 256 && forall i :: 0 <= i < |queue| ==>
      key[queue[i]].usec >= 0 && Normal(Plain(key[queue[i]])) && key[queue[i]] == Mark(Plain(key[queue[i]]), q)
  }

  /** So the order of the queue is that of the plain times. */
  lemma QueueComparesPlain(queue: seq<Id>, key: seq<Timeval>, q: nat, i: nat, j: nat)
    requires MarkedQueue(queue, key, q) && InOrder(queue, key) && i <= j < |queue|
    ensures AtMost(Plain(key[queue[i]]), Plain(key[queue[j]]))
  {
    var a, b := Plain(key[queue[i]]), Plain(key[queue[j]]);
    MarkedCompare(a, b, q);
  }

  lemma RestIsLater(queue: seq<Id>, key: seq<Timeval>, q: nat, n: nat)
    requires MarkedQueue(queue, key, q) && InOrder(queue, key) && n <= |queue|
    ensures MarkedQueue(queue[n..], key, q)
    ensures forall e :: e in queue[n..] ==> AtMost(Plain(key[queue[n]]), Plain(key[e]))
  {
    var rest := queue[n..];
    forall e | e in rest ensures AtMost(Plain(key[queue[n]]), Plain(key[e])) {
      var j :| 0 <= j < |rest| && rest[j] == e;
      QueueComparesPlain(queue, key, q, n, n + j);
    }
  }

  /**
    `common_timeout_callback`: exactly the due events leave the queue, in order, to be deleted and
    activated, and the timer of the queue is set for the earliest of the others, if there is one.
    */
  method FireDue(queue: seq<Id>, key: seq<Timeval>, q: nat, now: Timeval)
      returns (fired: seq<Id>, rest: seq<Id>, scheduled: Option<Timeval>)
    requires MarkedQueue(queue, key, q) && InOrder(queue, key) && Normal(now)
    ensures fired + rest == queue && MarkedQueue(rest, key, q)
    ensures forall e :: e in fired ==> e < |key| && key[e].usec >= 0 && AtMost(Plain(key[e]), now)
    ensures forall e :: e in rest ==> Less(now, Plain(key[e]))
    ensures scheduled.None? <==> rest == []
    ensures scheduled.Some? ==>
      Less(now, scheduled.value) && (forall e :: e in rest ==> AtMost(scheduled.value, Plain(key[e])))
        && exists e :: e in rest && Plain(key[e]) == scheduled.value
  {
    var n := 0;
    while n < |queue| && !Less(now, Plain(key[queue[n]]))
      invariant 0 <= n <= |queue| && forall j :: 0 <= j < n ==> AtMost(Plain(key[queue[j]]), now)
    {
      n := n + 1;
    }
    fired, rest := queue[..n], queue[n..];
    RestIsLater(queue, key, q, n);
    scheduled := if rest == [] then None else Some(Plain(key[rest[0]]));
    assert rest != [] ==> rest[0] in rest;
  }

  // ---------- timeout_correct ----------

  /** What the loop over queue `i` does to a time. */
  function Corrected(t: Timeval, i: nat, off: Timeval): Timeval
    requires t.usec >= 0 && Normal(off)
  {
    TwoTo20();
    LowFits(t.usec, 20);
    var d := Difference(Plain(t), off);
    Timeval(d.sec, if d.usec >= 0 then Tagged(d.usec, i) else d.usec)
  }

  /** A time of a queue stays one, moved by the jump. */
  lemma CorrectedIsMarked(t: Timeval, i: nat, off: Timeval)
    requires Normal(t) && Normal(off) && i < 256
    ensures Corrected(Mark(t, i), i, off) == Mark(Difference(t, off), i)
  {
    TagRecovered(t.usec, i);
    NormalArithmetic(t, off);
  }

  /** Every timer is in the heap or in one of the queues, and in only one place. */
  ghost predicate Apart(heap: seq<Id>, queues: seq<seq<Id>>) {
    && (forall i, j :: 0 <= i < j < |heap| ==> heap[i] != heap[j])
    && (forall q, i, j :: 0 <= q < |queues| && 0 <= i < j < |queues[q]| ==> queues[q][i] != queues[q][j])
    && (forall q, e :: 0 <= q < |queues| && e in queues[q] ==> e !in heap)
    && (forall p, q, e :: 0 <= p < q < |queues| && e in queues[p] ==> e !in queues[q])
  }

  /** `timeout_correct`: when the clock has been set back, every deadline moves back with it. */
  method TimeoutCorrect(monotonic: bool, tv: Timeval, eventTv: Timeval, heap: seq<Id>, queues: seq<seq<Id>>,
                        deadline: array<Timeval>) returns (lastTv: Timeval)
    requires Normal(tv) && Normal(eventTv) && Apart(heap, queues)
    requires (forall i :: 0 <= i < |heap| ==> heap[i] < deadline.Length)
    requires forall q, i :: 0 <= q < |queues| && 0 <= i < |queues[q]| ==>
      queues[q][i] < deadline.Length && deadline[queues[q][i]].usec >= 0
    modifies deadline
    ensures lastTv == if monotonic then eventTv else tv
    ensures monotonic || AtMost(eventTv, tv) ==> deadline[..] == old(deadline[..])
    ensures !monotonic && Less(tv, eventTv) ==>
      Moved(old(deadline[..]), deadline[..], heap, queues, Difference(eventTv, tv))
  {
    if monotonic {
      return eventTv;
    }
    lastTv := tv;
    if AtMost(eventTv, tv) {
      return;
    }
    var off := Difference(eventTv, tv);
    NormalArithmetic(eventTv, tv);
    MoveHeap(heap, deadline, off);
    label moved:
    for q := 0 to |queues|
      invariant forall e :: 0 <= e < deadline.Length && (forall p :: 0 <= p < q ==> e !in queues[p]) ==>
        deadline[e] == old@moved(deadline[e])
      invariant forall p, i :: 0 <= p < q && 0 <= i < |queues[p]| ==>
        deadline[queues[p][i]] == Corrected(old(deadline[queues[p][i]]), p, off)
    {
      MoveQueue(queues[q], q, deadline, off);
    }
  }

  /** What has become of all deadlines. */
  ghost predicate Moved(was: seq<Timeval>, now: seq<Timeval>, heap: seq<Id>, queues: seq<seq<Id>>, off: Timeval) {
    && |now| == |was| && Normal(off) && InHeap(heap, was)
    && (forall i :: 0 <= i < |heap| ==> now[heap[i]] == Difference(was[heap[i]], off))
    && (forall q, i :: 0 <= q < |queues| && 0 <= i < |queues[q]| ==>
          queues[q][i] < |was| && was[queues[q][i]].usec >= 0 &&
          now[queues[q][i]] == Corrected(was[queues[q][i]], q, off))
    && (forall e :: 0 <= e < |was| && e !in heap && (forall q :: 0 <= q < |queues| ==> e !in queues[q]) ==>
      now[e] == was[e])
  }

  method MoveHeap(heap: seq<Id>, deadline: array<Timeval>, off: Timeval)
    requires forall i, j :: 0 <= i < j < |heap| ==> heap[i] != heap[j]
    requires forall i :: 0 <= i < |heap| ==> heap[i] < deadline.Length
    modifies deadline
    ensures forall i :: 0 <= i < |heap| ==> deadline[heap[i]] == Difference(old(deadline[heap[i]]), off)
    ensures forall e :: 0 <= e < deadline.Length && e !in heap ==> deadline[e] == old(deadline[e])
  {
    for i := 0 to |heap|
      invariant forall j :: 0 <= j < i ==> deadline[heap[j]] == Difference(old(deadline[heap[j]]), off)
      invariant forall j :: i <= j < |heap| ==> deadline[heap[j]] == old(deadline[heap[j]])
      invariant forall e :: 0 <= e < deadline.Length && e !in heap ==> deadline[e] == old(deadline[e])
    {
      deadline[heap[i]] := Difference(deadline[heap[i]], off);
    }
  }

  method MoveQueue(queue: seq<Id>, q: nat, deadline: array<Timeval>, off: Timeval)
    requires Normal(off) && forall i, j :: 0 <= i < j < |queue| ==> queue[i] != queue[j]
    requires forall i :: 0 <= i < |queue| ==> queue[i] < deadline.Length && deadline[queue[i]].usec >= 0
    modifies deadline
    ensures forall i :: 0 <= i < |queue| ==> deadline[queue[i]] == Corrected(old(deadline[queue[i]]), q, off)
    ensures forall e :: 0 <= e < deadline.Length && e !in queue ==> deadline[e] == old(deadline[e])
  {
    for i := 0 to |queue|
      invariant forall j :: 0 <= j < i ==> deadline[queue[j]] == Corrected(old(deadline[queue[j]]), q, off)
      invariant forall j :: i <= j < |queue| ==> deadline[queue[j]] == old(deadline[queue[j]])
      invariant forall e :: 0 <= e < deadline.Length && e !in queue ==> deadline[e] == old(deadline[e])
    {
      deadline[queue[i]] := Corrected(deadline[queue[i]], q, off);
    }
  }

  /** The heap stays a heap. */
  lemma MovedHeapOrdered(was: seq<Timeval>, now: seq<Timeval>, heap: seq<Id>, queues: seq<seq<Id>>, off: Timeval)
    requires Moved(was, now, heap, queues, off) && HeapOrdered(heap, was)
    requires forall i :: 0 <= i < |heap| ==> Normal(was[heap[i]])
    ensures InHeap(heap, now) && HeapOrdered(heap, now)
  {
    forall i | 0 < i < |heap| ensures AtMost(now[heap[Parent(i)]], now[heap[i]]) {
      ShiftKeepsOrder(was[heap[Parent(i)]], was[heap[i]], off);
    }
  }

  /** The queues stay in order, and their times keep their tags. */
  lemma MovedQueueInOrder(was: seq<Timeval>, now: seq<Timeval>, heap: seq<Id>, queues: seq<seq<Id>>, off: Timeval,
                          q: nat)
    requires Moved(was, now, heap, queues, off) && q < |queues|
    requires InHeap(queues[q], was) && InOrder(queues[q], was) && MarkedQueue(queues[q], was, q)
    ensures InHeap(queues[q], now) && InOrder(queues[q], now) && MarkedQueue(queues[q], now, q)
  {
    var queue := queues[q];
    forall i | 0 <= i < |queue|
      ensures now[queue[i]] == Mark(Difference(Plain(was[queue[i]]), off), q)
      ensures now[queue[i]].usec >= 0 && Plain(now[queue[i]]) == Difference(Plain(was[queue[i]]), off)
      ensures Normal(Plain(now[queue[i]]))
    {
      var t := Plain(was[queue[i]]);
      CorrectedIsMarked(t, q, off);
      NormalArithmetic(t, off);
      TagRecovered(Difference(t, off).usec, q);
    }
    forall i, j | 0 <= i < j < |queue| ensures AtMost(now[queue[i]], now[queue[j]]) {
      var a, b := Plain(was[queue[i]]), Plain(was[queue[j]]);
      assert AtMost(was[queue[i]], was[queue[j]]);
      MarkedCompare(a, b, q);
      ShiftKeepsOrder(a, b, off);
      NormalArithmetic(a, off);
      NormalArithmetic(b, off);
      MarkedCompare(Difference(a, off), Difference(b, off), q);
    }
  }

  // ---------- event_persist_closure on a common timeout ----------

  /** The branch of `event_persist_closure` for common timeouts: the tag is set aside and put back. */
  function RunAtCommon(deadline: Timeval, timedOut: bool, interval: Timeval, now: Timeval): Timeval
    requires deadline.usec >= 0 && interval.usec >= 0 && Normal(now)
  {
    var delay := Plain(interval);
    var relativeTo := if timedOut then Plain(deadline) else now;
    var runAt := Sum(relativeTo, delay);
    var at := if Less(runAt, now) then Sum(now, delay) else runAt;
    Timeval(at.sec, if at.usec >= 0 then WithTag(at.usec, Tag(interval.usec)) else at.usec)
  }

  /** It keeps the tag of the interval, and the time behind it is never before now. */
  lemma CommonNeverBeforeNow(deadline: Timeval, timedOut: bool, interval: Timeval, now: Timeval, i: nat)
    requires Normal(deadline) && Normal(interval) && Normal(now) && interval.sec >= 0 && i < 256
    ensures var at := RunAtCommon(Mark(deadline, i), timedOut, Mark(interval, i), now);
      && at.usec >= 0 && Tag(at.usec) == TagOf(i) && Normal(Plain(at)) && at == Mark(Plain(at), i)
      && AtMost(now, Plain(at))
      && Micros(Plain(at)) ==
         if timedOut && Micros(deadline) + Micros(interval) >= Micros(now) then Micros(deadline) + Micros(interval)
         else Micros(now) + Micros(interval)
  {
    TagRecovered(deadline.usec, i);
    TagRecovered(interval.usec, i);
    var relativeTo := if timedOut then deadline else now;
    NormalArithmetic(relativeTo, interval);
    NormalArithmetic(now, interval);
    NormalArithmetic(Sum(relativeTo, interval), now);
    var at := if Less(Sum(relativeTo, interval), now) then Sum(now, interval) else Sum(relativeTo, interval);
    NormalArithmetic(now, at);
    TagTakenOff(at.usec, TagOf(i));
    TaggedIsWithTag(at.usec, i);
  }
}
