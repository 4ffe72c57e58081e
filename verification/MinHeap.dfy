/** The timer heap of minheap-internal.h: what its operations do to the array, and the code itself. */
module MinHeap {
  import opened Common
  import opened TimeVal

  /** An event, by its place among the events of the base; `key[e]` is its `ev_timeout`. */
  type Id = nat

  function Parent(i: nat): nat
    requires i > 0
  {
    (i - 1) / 2
  }

  predicate InHeap(h: seq<Id>, key: seq<Timeval>) {
    forall i :: 0 <= i < |h| ==> h[i] < |key|
  }

  /** Earliest first. */
  predicate InOrder(s: seq<Id>, key: seq<Timeval>)
    requires InHeap(s, key)
  {
    forall i, j :: 0 <= i < j < |s| ==> AtMost(key[s[i]], key[s[j]])
  }

  /** `min_heap_elem_greater`. */
  predicate Greater(key: seq<Timeval>, a: Id, b: Id)
    requires a < |key| && b < |key|
  {
    Less(key[b], key[a])
  }

  /** `min_heap_shift_up_`: where the hole moves until `e` fits. */
  function ShiftUp(h: seq<Id>, key: seq<Timeval>, hole: nat, e: Id): (r: seq<Id>)
    requires hole < |h| && InHeap(h, key) && e < |key|
    ensures |r| == |h| && InHeap(r, key)
    decreases hole
  {
    if hole > 0 && Greater(key, h[Parent(hole)], e)
    then ShiftUp(h[hole := h[Parent(hole)]], key, Parent(hole), e)
    else h[hole := e]
  }

  /** The child that moves up: the smaller one, the right one on a tie. */
  function MinChild(h: seq<Id>, key: seq<Timeval>, hole: nat): nat
    requires 2 * (hole + 1) <= |h| && InHeap(h, key)
  {
    var right := 2 * (hole + 1);
    if right == |h| || Greater(key, h[right], h[right - 1]) then right - 1 else right
  }

  /** `min_heap_shift_down_`. */
  function ShiftDown(h: seq<Id>, key: seq<Timeval>, hole: nat, e: Id): (r: seq<Id>)
    requires hole < |h| && InHeap(h, key) && e < |key|
    ensures |r| == |h| && InHeap(r, key)
    decreases |h| - hole
  {
    if 2 * (hole + 1) <= |h| && Greater(key, e, h[MinChild(h, key, hole)])
    then ShiftDown(h[hole := h[MinChild(h, key, hole)]], key, MinChild(h, key, hole), e)
    else h[hole := e]
  }

  /** `min_heap_push`. */
  function Push(h: seq<Id>, key: seq<Timeval>, e: Id): (r: seq<Id>)
    requires InHeap(h, key) && e < |key|
    ensures |r| == |h| + 1 && InHeap(r, key)
  {
    ShiftUp(h + [e], key, |h|, e)
  }

  /** `min_heap_erase` of the event at `i`: the last event takes its place and is moved to where it fits. */
  function EraseAt(h: seq<Id>, key: seq<Timeval>, i: nat): (r: seq<Id>)
    requires i < |h| && InHeap(h, key)
    ensures |r| == |h| - 1 && InHeap(r, key)
  {
    var last := h[|h| - 1];
    var rest := h[..|h| - 1];
    if i == |h| - 1 then rest
    else if i > 0 && Greater(key, h[Parent(i)], last) then ShiftUp(rest, key, i, last)
    else ShiftDown(rest, key, i, last)
  }

  // ---------- order and contents ----------

  predicate HeapOrdered(h: seq<Id>, key: seq<Timeval>)
    requires InHeap(h, key)
  {
    forall i :: 0 < i < |h| ==> AtMost(key[h[Parent(i)]], key[h[i]])
  }

  /** Ordered but for the edge above `hole`; what is below `hole` already fits below its parent. */
  predicate OrderedBut(h: seq<Id>, key: seq<Timeval>, hole: nat)
    requires InHeap(h, key) && hole < |h|
  {
    && (forall i :: 0 < i < |h| && i != hole ==> AtMost(key[h[Parent(i)]], key[h[i]]))
    && (hole > 0 ==> forall i :: 0 < i < |h| && Parent(i) == hole ==> AtMost(key[h[Parent(hole)]], key[h[i]]))
  }

  /** One step up: the hole and its parent trade places. */
  lemma UpStep(h: seq<Id>, key: seq<Timeval>, hole: nat, e: Id)
    requires 0 < hole < |h| && InHeap(h, key) && e < |key| && OrderedBut(h[hole := e], key, hole)
    requires Greater(key, h[Parent(hole)], e)
    ensures OrderedBut(h[hole := h[Parent(hole)]][Parent(hole) := e], key, Parent(hole))
  {
    var p := Parent(hole);
    var g, g' := h[hole := e], h[hole := h[p]][p := e];
    forall i | 0 < i < |h| && i != p ensures AtMost(key[g'[Parent(i)]], key[g'[i]]) {
      assert i != hole ==> AtMost(key[g[Parent(i)]], key[g[i]]);
    }
    if p > 0 {
      forall i | 0 < i < |h| && Parent(i) == p ensures AtMost(key[g'[Parent(p)]], key[g'[i]]) {
        assert AtMost(key[g[Parent(p)]], key[g[p]]);
        assert i != hole ==> AtMost(key[g[p]], key[g[i]]);
      }
    }
  }

  lemma {:induction false} ShiftUpOrders(h: seq<Id>, key: seq<Timeval>, hole: nat, e: Id)
    requires hole < |h| && InHeap(h, key) && e < |key| && OrderedBut(h[hole := e], key, hole)
    ensures HeapOrdered(ShiftUp(h, key, hole, e), key)
    decreases hole
  {
    if hole > 0 && Greater(key, h[Parent(hole)], e) {
      UpStep(h, key, hole, e);
      ShiftUpOrders(h[hole := h[Parent(hole)]], key, Parent(hole), e);
    } else {
      var g := h[hole := e];
      forall i | 0 < i < |h| ensures AtMost(key[g[Parent(i)]], key[g[i]]) {
      }
    }
  }

  /** Moving an element into the hole and the hole to where it was leaves the contents alone. */
  lemma HoleMoves(h: seq<Id>, hole: nat, j: nat, e: Id)
    requires hole < |h| && j < |h| && j != hole
    ensures multiset(h[hole := h[j]][j := e]) == multiset(h[hole := e])
  {
    var g := h[hole := h[j]];
    assert multiset(g) == multiset(h) - multiset{h[hole]} + multiset{h[j]};
  }

  lemma {:induction false} ShiftUpContents(h: seq<Id>, key: seq<Timeval>, hole: nat, e: Id)
    requires hole < |h| && InHeap(h, key) && e < |key|
    ensures multiset(ShiftUp(h, key, hole, e)) == multiset(h[hole := e])
    decreases hole
  {
    if hole > 0 && Greater(key, h[Parent(hole)], e) {
      HoleMoves(h, hole, Parent(hole), e);
      ShiftUpContents(h[hole := h[Parent(hole)]], key, Parent(hole), e);
    }
  }

  /** Ordered but for the edges below `hole`; what is below `hole` already fits below its parent. */
  predicate OrderedAbove(h: seq<Id>, key: seq<Timeval>, hole: nat)
    requires InHeap(h, key) && hole < |h|
  {
    && (forall i :: 0 < i < |h| && Parent(i) != hole ==> AtMost(key[h[Parent(i)]], key[h[i]]))
    && (hole > 0 ==> forall i :: 0 < i < |h| && Parent(i) == hole ==> AtMost(key[h[Parent(hole)]], key[h[i]]))
  }

  /** One step down: the hole and its smaller child trade places. */
  lemma DownStep(h: seq<Id>, key: seq<Timeval>, hole: nat, e: Id)
    requires 2 * (hole + 1) <= |h| && InHeap(h, key) && e < |key| && OrderedAbove(h[hole := e], key, hole)
    requires Greater(key, e, h[MinChild(h, key, hole)])
    ensures var c := MinChild(h, key, hole);
      OrderedAbove(h[hole := h[c]][c := e], key, c)
  {
    var c := MinChild(h, key, hole);
    var g, g' := h[hole := e], h[hole := h[c]][c := e];
    forall i | 0 < i < |h| && Parent(i) != c ensures AtMost(key[g'[Parent(i)]], key[g'[i]]) {
      assert Parent(i) != hole ==> AtMost(key[g[Parent(i)]], key[g[i]]);
      if i == hole {
        assert AtMost(key[g[Parent(hole)]], key[g[c]]);
      }
    }
    forall i | 0 < i < |h| && Parent(i) == c ensures AtMost(key[g'[Parent(c)]], key[g'[i]]) {
      assert AtMost(key[g[c]], key[g[i]]);
    }
  }

  /** The hole stays where no child is smaller. */
  lemma Settled(h: seq<Id>, key: seq<Timeval>, hole: nat, e: Id)
    requires hole < |h| && InHeap(h, key) && e < |key| && OrderedAbove(h[hole := e], key, hole)
    requires 2 * (hole + 1) <= |h| ==> !Greater(key, e, h[MinChild(h, key, hole)])
    ensures HeapOrdered(h[hole := e], key)
  {
    var g := h[hole := e];
    forall i | 0 < i < |h| ensures AtMost(key[g[Parent(i)]], key[g[i]]) {
      if Parent(i) == hole {
        assert i == 2 * hole + 1 || i == 2 * hole + 2;
        assert g[i] == h[i] && g[hole] == e;
      }
    }
  }

  lemma {:induction false} ShiftDownOrders(h: seq<Id>, key: seq<Timeval>, hole: nat, e: Id)
    requires hole < |h| && InHeap(h, key) && e < |key| && OrderedAbove(h[hole := e], key, hole)
    ensures HeapOrdered(ShiftDown(h, key, hole, e), key)
    decreases |h| - hole
  {
    if 2 * (hole + 1) <= |h| && Greater(key, e, h[MinChild(h, key, hole)]) {
      var c := MinChild(h, key, hole);
      DownStep(h, key, hole, e);
      ShiftDownOrders(h[hole := h[c]], key, c, e);
    } else {
      Settled(h, key, hole, e);
    }
  }

  lemma {:induction false} ShiftDownContents(h: seq<Id>, key: seq<Timeval>, hole: nat, e: Id)
    requires hole < |h| && InHeap(h, key) && e < |key|
    ensures multiset(ShiftDown(h, key, hole, e)) == multiset(h[hole := e])
    decreases |h| - hole
  {
    if 2 * (hole + 1) <= |h| && Greater(key, e, h[MinChild(h, key, hole)]) {
      HoleMoves(h, hole, MinChild(h, key, hole), e);
      ShiftDownContents(h[hole := h[MinChild(h, key, hole)]], key, MinChild(h, key, hole), e);
    }
  }

  /** The parent of every event is no later, so the first event is the earliest. */
  lemma {:induction false} TopIsEarliest(h: seq<Id>, key: seq<Timeval>, i: nat)
    requires InHeap(h, key) && HeapOrdered(h, key) && i < |h|
    ensures AtMost(key[h[0]], key[h[i]])
    decreases i
  {
    if i > 0 {
      TopIsEarliest(h, key, Parent(i));
    }
  }

  lemma PushKeeps(h: seq<Id>, key: seq<Timeval>, e: Id)
    requires InHeap(h, key) && e < |key| && HeapOrdered(h, key)
    ensures HeapOrdered(Push(h, key, e), key)
    ensures multiset(Push(h, key, e)) == multiset(h) + multiset{e}
  {
    var g := h + [e];
    assert g[|h| := e] == g;
    forall i | 0 < i < |g| && i != |h| ensures AtMost(key[g[Parent(i)]], key[g[i]]) {
      assert g[i] == h[i] && g[Parent(i)] == h[Parent(i)];
    }
    ShiftUpOrders(g, key, |h|, e);
    ShiftUpContents(g, key, |h|, e);
  }

  /** With the last event in the place of another, only the edges at that place may be wrong. */
  lemma Replaced(h: seq<Id>, key: seq<Timeval>, i: nat, g: seq<Id>)
    requires i < |h| - 1 && InHeap(h, key) && HeapOrdered(h, key) && g == h[..|h| - 1][i := h[|h| - 1]]
    ensures i > 0 && Greater(key, h[Parent(i)], h[|h| - 1]) ==> OrderedBut(g, key, i)
    ensures !(i > 0 && Greater(key, h[Parent(i)], h[|h| - 1])) ==> OrderedAbove(g, key, i)
  {
    forall k | 0 < k < |g| && Parent(k) == i && i > 0 ensures AtMost(key[h[Parent(i)]], key[h[k]]) {
      assert AtMost(key[h[Parent(i)]], key[h[i]]) && AtMost(key[h[i]], key[h[k]]);
    }
    forall k | 0 < k < |g| && k != i && Parent(k) != i ensures AtMost(key[g[Parent(k)]], key[g[k]]) {
      assert AtMost(key[h[Parent(k)]], key[h[k]]);
    }
  }

  lemma EraseKeepsOrder(h: seq<Id>, key: seq<Timeval>, i: nat)
    requires i < |h| && InHeap(h, key) && HeapOrdered(h, key)
    ensures HeapOrdered(EraseAt(h, key, i), key)
  {
    var last := h[|h| - 1];
    var rest := h[..|h| - 1];
    if i == |h| - 1 {
      forall k | 0 < k < |rest| ensures AtMost(key[rest[Parent(k)]], key[rest[k]]) {
        assert AtMost(key[h[Parent(k)]], key[h[k]]);
      }
    } else {
      Replaced(h, key, i, rest[i := last]);
      if i > 0 && Greater(key, h[Parent(i)], last) {
        ShiftUpOrders(rest, key, i, last);
      } else {
        ShiftDownOrders(rest, key, i, last);
      }
    }
  }

  lemma EraseKeepsOthers(h: seq<Id>, key: seq<Timeval>, i: nat)
    requires i < |h| && InHeap(h, key)
    ensures multiset(EraseAt(h, key, i)) == multiset(h) - multiset{h[i]}
  {
    var last := h[|h| - 1];
    var rest := h[..|h| - 1];
    assert h == rest + [last];
    if i < |h| - 1 {
      assert multiset(rest[i := last]) == multiset(h) - multiset{h[i]};
      ShiftUpContents(rest, key, i, last);
      ShiftDownContents(rest, key, i, last);
    }
  }

  // ---------- the array ----------

  /** `ev_timeout_pos.min_heap_idx`. */
  function Idx(idx: map<Id, int>, e: Id): int {
    if e in idx then idx[e] else -1
  }

  /** Every event in the heap knows its place, and no other event but `gone` claims one. */
  ghost predicate Linked(h: seq<Id>, idx: map<Id, int>, gone: int) {
    && (forall i {:trigger Look(i)} :: Look(i) && 0 <= i < |h| ==> Idx(idx, h[i]) == i)
    && (forall e: Id {:trigger Look(e)} :: Look(e) && e != gone && Idx(idx, e) != -1 ==>
          0 <= Idx(idx, e) < |h| && h[Idx(idx, e)] == e)
  }

  lemma LinkMoves(h: seq<Id>, idx: map<Id, int>, hole: nat, j: nat, e: Id, gone: int)
    requires hole < |h| && j < |h| && j != hole && e != gone
    requires Linked(h[hole := e], idx[e := hole], gone)
    ensures Linked(h[hole := h[j]][j := e], idx[h[j] := hole][e := j], gone)
  {
    var g := h[hole := e];
    assert g[hole] == e && g[j] == h[j];
    assert Look(hole) && Look(j);
  }

  lemma LinkAppended(h: seq<Id>, idx: map<Id, int>, e: Id)
    requires Linked(h, idx, -1) && Idx(idx, e) == -1
    ensures Linked((h + [e])[|h| := e], idx[e := |h|], -1)
  {
  }

  /** The last event takes the place of the one at `i`. */
  lemma LinkReplaced(h: seq<Id>, idx: map<Id, int>, i: nat)
    requires Linked(h, idx, -1) && i < |h|
    ensures var last, rest := h[|h| - 1], h[..|h| - 1];
      if i < |rest| then last != h[i] && Linked(rest[i := last], idx[last := i], h[i])
      else Linked(rest, idx, h[i]) && h[i] !in rest
  {
    assert Look(i) && Look(|h| - 1);
    var rest := h[..|h| - 1];
    if i == |rest| && h[i] in rest {
      var k :| 0 <= k < |rest| && rest[k] == h[i];
      assert Look(k);
    }
  }

  lemma OnlyPlace(h: seq<Id>, idx: map<Id, int>, i: nat)
    requires Linked(h, idx, -1) && i < |h|
    ensures h[i] !in h[..i] && h[i] !in h[i + 1..]
  {
    assert Look(i);
    forall k | 0 <= k < |h| && k != i ensures h[k] != h[i] {
      assert Look(k);
    }
  }

  lemma ErasedIsGone(h: seq<Id>, key: seq<Timeval>, idx: map<Id, int>, i: nat)
    requires InHeap(h, key) && Linked(h, idx, -1) && i < |h|
    ensures h[i] !in EraseAt(h, key, i)
  {
    OnlyPlace(h, idx, i);
    EraseKeepsOthers(h, key, i);
    GoneFrom(h, EraseAt(h, key, i), i);
  }

  /** What was at one place only and has been taken out is not there any more. */
  lemma GoneFrom(h: seq<Id>, r: seq<Id>, i: nat)
    requires i < |h| && multiset(r) == multiset(h) - multiset{h[i]}
    requires forall k :: 0 <= k < |h| && k != i ==> h[k] != h[i]
    ensures h[i] !in r
  {
    assert h == h[..i] + [h[i]] + h[i + 1..];
    assert multiset(r) == multiset(h[..i]) + multiset(h[i + 1..]);
    assert h[i] !in multiset(r);
  }

  lemma LinkDropped(h: seq<Id>, idx: map<Id, int>, e: Id)
    requires Linked(h, idx, e) && e !in h
    ensures Linked(h, idx[e := -1], -1)
  {
  }

  /** `struct min_heap`, with the `min_heap_idx` of the events. */
  class TimerHeap {
    /** `p`, of length `a`, and `n`. */
    var p: array<Id>
    var n: nat
    var idx: map<Id, int>

    ghost predicate Valid()
      reads this, p
    {
      n <= p.Length && Linked(p[..n], idx, -1)
    }

    constructor ()
      ensures Valid() && fresh(p) && n == 0
    {
      p := new Id[0];
      n, idx := 0, map[];
    }

    method Top() returns (e: int)
      requires Valid()
      ensures e == if n > 0 then p[0] else -1
    {
      e := if n > 0 then p[0] else -1;
    }

    /** `min_heap_reserve`: 8 places at first, then twice as many. */
    method Reserve(wanted: nat)
      requires Valid()
      modifies this`p
      ensures Valid() && p.Length >= wanted && p[..n] == old(p[..n])
      ensures p == old(p) || fresh(p)
    {
      if p.Length < wanted {
        var present := p;
        var a := if present.Length > 0 then present.Length * 2 else 8;
        if a < wanted {
          a := wanted;
        }
        var grown := new Id[a];
        for i := 0 to n
          invariant forall k :: 0 <= k < i ==> grown[k] == present[k]
        {
          grown[i] := present[i];
        }
        p := grown;
        assert p[..n] == old(p[..n]);
      }
    }

    method ShiftUpFrom(start: nat, e: Id, key: seq<Timeval>, ghost gone: int)
      requires start < n <= p.Length && InHeap(p[..n], key) && e < |key| && e != gone
      requires Linked(p[..n][start := e], idx[e := start], gone)
      modifies p, this`idx
      ensures p[..n] == ShiftUp(old(p[..n]), key, start, e) && Linked(p[..n], idx, gone)
    {
      var hole := start;
      ghost var h := p[..n];
      while hole > 0 && Greater(key, p[Parent(hole)], e)
        invariant 0 <= hole < n && h == p[..n] && InHeap(h, key)
        invariant ShiftUp(h, key, hole, e) == ShiftUp(old(p[..n]), key, start, e)
        invariant Linked(h[hole := e], idx[e := hole], gone)
      {
        LinkMoves(h, idx, hole, Parent(hole), e, gone);
        var up := p[Parent(hole)];
        p[hole] := up;
        assert p[..n] == h[hole := up];
        h := p[..n];
        idx := idx[up := hole];
        hole := Parent(hole);
      }
      p[hole] := e;
      idx := idx[e := hole];
      assert p[..n] == h[hole := e];
    }

    /** The hole may be the place behind the heap, when the last event is erased; then nothing moves. */
    method ShiftDownFrom(start: nat, e: Id, key: seq<Timeval>, ghost gone: int)
      requires start <= n <= p.Length && start < p.Length && InHeap(p[..n], key) && e < |key|
      requires start < n ==> e != gone && Linked(p[..n][start := e], idx[e := start], gone)
      requires start == n ==> e == gone && Linked(p[..n], idx, gone) && e !in p[..n]
      modifies p, this`idx
      ensures p[..n] == (if start < n then ShiftDown(old(p[..n]), key, start, e) else old(p[..n]))
      ensures Linked(p[..n], idx, gone)
    {
      var hole := start;
      ghost var h := p[..n];
      var minChild := 2 * (hole + 1);
      while minChild <= n
        invariant 0 <= hole <= n && (hole == n ==> start == n) && h == p[..n] && InHeap(h, key) &&
          minChild == 2 * (hole + 1)
        invariant start < n ==> ShiftDown(h, key, hole, e) == ShiftDown(old(p[..n]), key, start, e)
        invariant start < n ==> Linked(h[hole := e], idx[e := hole], gone)
        invariant start == n ==> hole == start && h == old(p[..n]) && idx == old(idx)
        decreases n - hole
      {
        if minChild == n || Greater(key, p[minChild], p[minChild - 1]) {
          minChild := minChild - 1;
        }
        if !Greater(key, e, p[minChild]) {
          break;
        }
        assert minChild == MinChild(h, key, hole);
        LinkMoves(h, idx, hole, minChild, e, gone);
        var up := p[minChild];
        p[hole] := up;
        assert p[..n] == h[hole := up];
        h := p[..n];
        idx := idx[up := hole];
        hole := minChild;
        minChild := 2 * (hole + 1);
      }
      p[hole] := e;
      idx := idx[e := hole];
      assert p[..n] == if hole < n then h[hole := e] else h;
    }

    /** `min_heap_push`. */
    method Insert(e: Id, key: seq<Timeval>)
      requires Valid() && InHeap(p[..n], key) && e < |key| && Idx(idx, e) == -1
      modifies this, p
      ensures Valid() && (p == old(p) || fresh(p)) && p[..n] == Push(old(p[..n]), key, e)
    {
      Reserve(n + 1);
      ghost var h := p[..n];
      n := n + 1;
      p[n - 1] := e;
      assert p[..n] == h + [e];
      LinkAppended(h, idx, e);
      ShiftUpFrom(n - 1, e, key, -1);
    }

    /** `min_heap_erase`; an event that is not in the heap would end the program. */
    method Erase(e: Id, key: seq<Timeval>)
      requires Valid() && InHeap(p[..n], key) && HeapOrdered(p[..n], key) && e < |key| && Idx(idx, e) != -1
      modifies this`n, this`idx, p
      ensures 0 <= old(Idx(idx, e)) < old(n)
      ensures Valid() && p[..n] == EraseAt(old(p[..n]), key, old(Idx(idx, e))) && Idx(idx, e) == -1
    {
      ghost var h := p[..n];
      var i := idx[e];
      assert 0 <= i < n && h[i] == e by {
        assert Look(e);
      }
      ErasedIsGone(h, key, idx, i);
      n := n - 1;
      Refill(i, e, key, h);
      LinkDropped(p[..n], idx, e);
      idx := idx[e := -1];
    }

    /** The last event, which is not counted any more, goes to the place of the erased one. */
    method Refill(i: nat, e: Id, key: seq<Timeval>, ghost h: seq<Id>)
      requires n < p.Length && h == p[..n + 1] && i <= n && h[i] == e
      requires Linked(h, idx, -1) && InHeap(h, key) && HeapOrdered(h, key)
      modifies p, this`idx
      ensures p[..n] == EraseAt(h, key, i) && Linked(p[..n], idx, e)
    {
      var last := p[n];
      assert p[..n] == h[..n];
      LinkReplaced(h, idx, i);
      if i > 0 && Greater(key, p[Parent(i)], last) {
        assert i < n;
        ShiftUpFrom(i, last, key, e);
      } else {
        ShiftDownFrom(i, last, key, e);
      }
    }
  }
}
