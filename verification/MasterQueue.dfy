/** The queue of the master, whose bytes say what to do with the message in front: add or delete an event. */
module MasterQueue {
  import opened Common

  /** The bytes 'r' and 'd'. */
  datatype Kind = AddEvent | DelEvent

  /** Which kind of request a message belongs to, and its event. */
  datatype Message = Message(kind: Kind, event: nat)

  /** A program between its push and its write, with the byte it is going to write. */
  datatype Producer = Idle | Pushed(kind: Kind)

  /** `reading` is the byte the master has read and not yet acted upon. */
  datatype State = State(queue: seq<Message>, pipe: seq<Kind>, producers: seq<Producer>, reading: Option<Kind>,
                         pushed: seq<Message>, written: seq<Kind>, handled: seq<(Kind, Message)>)

  datatype Action = Push(producer: nat, message: Message) | Write(producer: nat) | Read | Pop

  predicate Enabled(s: State, a: Action) {
    match a
    case Push(p, _) => p < |s.producers| && s.producers[p].Idle?
    case Write(p) => p < |s.producers| && s.producers[p].Pushed?
    case Read => s.reading.None? && s.pipe != []
    case Pop => s.reading.Some?
  }

  function Next(s: State, a: Action): Option<State>
    requires Enabled(s, a)
  {
    match a
    case Push(p, m) =>
      Some(s.(queue := s.queue + [m], pushed := s.pushed + [m], producers := s.producers[p := Pushed(m.kind)]))
    case Write(p) =>
      var k := s.producers[p].kind;
      Some(s.(pipe := s.pipe + [k], written := s.written + [k], producers := s.producers[p := Idle]))
    case Read => Some(s.(reading := Some(s.pipe[0]), pipe := s.pipe[1..]))
    case Pop =>
      if s.queue == [] then None
      else Some(s.(queue := s.queue[1..], reading := None, handled := s.handled + [(s.reading.value, s.queue[0])]))
  }

  function One(p: Producer, k: Kind): nat {
    if p == Pushed(k) then 1 else 0
  }

  /** How many programs have a byte of this kind still to write. */
  function Owed(producers: seq<Producer>, k: Kind): nat {
    if producers == [] then 0 else One(producers[0], k) + Owed(producers[1..], k)
  }

  function KindsOf(messages: seq<Message>): (kinds: seq<Kind>)
    ensures |kinds| == |messages|
    ensures forall k :: 0 <= k < |messages| ==> kinds[k] == messages[k].kind
  {
    if messages == [] then [] else KindsOf(messages[..|messages| - 1]) + [messages[|messages| - 1].kind]
  }

  function Pending(reading: Option<Kind>): seq<Kind> {
    if reading.Some? then [reading.value] else []
  }

  /** Every push brings one byte of its kind, written or owed. */
  ghost predicate Balanced(s: State) {
    forall k: Kind {:trigger Owed(s.producers, k)} :: BalancedFor(s, k)
  }

  ghost predicate BalancedFor(s: State, k: Kind) {
    multiset(s.written)[k] + Owed(s.producers, k) == multiset(KindsOf(s.pushed))[k]
  }

  /** Bytes and messages are taken in the order in which they were written and pushed. */
  ghost predicate InOrder(s: State) {
    && |s.handled| <= |s.written| && |s.handled| <= |s.pushed|
    && Pending(s.reading) + s.pipe == s.written[|s.handled|..]
    && s.queue == s.pushed[|s.handled|..]
    && forall k :: 0 <= k < |s.handled| ==> s.handled[k] == (s.written[k], s.pushed[k])
  }

  ghost predicate InStep(s: State) {
    Balanced(s) && InOrder(s)
  }

  lemma {:induction false} OwedSet(ps: seq<Producer>, i: nat, p: Producer, k: Kind)
    requires i < |ps|
    ensures Owed(ps[i := p], k) == Owed(ps, k) - One(ps[i], k) + One(p, k)
    ensures One(ps[i], k) <= Owed(ps, k)
  {
    if i > 0 {
      assert ps[i := p][1..] == ps[1..][i - 1 := p];
      OwedSet(ps[1..], i - 1, p, k);
    } else {
      assert ps[i := p][1..] == ps[1..];
    }
  }

  lemma OneMore(kinds: seq<Kind>, next: Kind, k: Kind)
    ensures multiset(kinds + [next])[k] == multiset(kinds)[k] + if k == next then 1 else 0
  {
  }

  lemma {:induction false} EachKind(kinds: seq<Kind>)
    ensures multiset(kinds)[AddEvent] + multiset(kinds)[DelEvent] == |kinds|
  {
    if kinds != [] {
      var n := |kinds| - 1;
      EachKind(kinds[..n]);
      assert kinds == kinds[..n] + [kinds[n]];
      OneMore(kinds[..n], kinds[n], AddEvent);
      OneMore(kinds[..n], kinds[n], DelEvent);
    }
  }

  /** As many bytes as messages, but for those that are owed. */
  lemma WrittenAndOwed(s: State)
    requires Balanced(s)
    ensures |s.written| + Owed(s.producers, AddEvent) + Owed(s.producers, DelEvent) == |s.pushed|
  {
    EachKind(s.written);
    EachKind(KindsOf(s.pushed));
  }

  lemma PushBalances(s: State, p: nat, m: Message, k: Kind)
    requires BalancedFor(s, k) && Enabled(s, Push(p, m))
    ensures BalancedFor(Next(s, Push(p, m)).value, k)
  {
    OwedSet(s.producers, p, Pushed(m.kind), k);
    OneMore(KindsOf(s.pushed), m.kind, k);
    assert (s.pushed + [m])[..|s.pushed|] == s.pushed;
  }

  lemma WriteBalances(s: State, p: nat, k: Kind)
    requires BalancedFor(s, k) && Enabled(s, Write(p))
    ensures BalancedFor(Next(s, Write(p)).value, k)
  {
    OwedSet(s.producers, p, Idle, k);
    OneMore(s.written, s.producers[p].kind, k);
  }

  lemma StepKeepsBalance(s: State, a: Action)
    requires Balanced(s) && Enabled(s, a) && Next(s, a).Some?
    ensures Balanced(Next(s, a).value)
  {
    forall k: Kind ensures BalancedFor(Next(s, a).value, k) {
      assert Owed(s.producers, k) >= 0;
      if a.Push? {
        PushBalances(s, a.producer, a.message, k);
      } else if a.Write? {
        WriteBalances(s, a.producer, k);
      }
    }
  }

  lemma StepKeepsOrder(s: State, a: Action)
    requires InOrder(s) && Enabled(s, a) && Next(s, a).Some?
    ensures InOrder(Next(s, a).value)
  {
    var n := |s.handled|;
    match a
    case Push(p, m) =>
      assert (s.pushed + [m])[n..] == s.pushed[n..] + [m];
    case Write(p) =>
      var k := s.producers[p].kind;
      assert (s.written + [k])[n..] == s.written[n..] + [k];
      assert Pending(s.reading) + (s.pipe + [k]) == Pending(s.reading) + s.pipe + [k];
    case Read =>
      assert [s.pipe[0]] + s.pipe[1..] == Pending(s.reading) + s.pipe;
    case Pop =>
      PopKeepsOrder(s);
  }

  lemma PopKeepsOrder(s: State)
    requires InOrder(s) && s.reading.Some? && s.queue != []
    ensures InOrder(Next(s, Pop).value)
  {
    var n := |s.handled|;
    var rest := s.written[n..];
    assert Pending(s.reading) + s.pipe == rest && rest[0] == s.reading.value && |rest| > 0;
    assert s.written[n] == rest[0] && s.written[n + 1..] == rest[1..] == s.pipe;
    assert s.pushed[n] == s.pushed[n..][0] == s.queue[0] && s.pushed[n + 1..] == s.queue[1..];
    assert Pending(None) + s.pipe == s.pipe;
  }

  /** Behind a byte that has been read there is a message. */
  lemma ReadMeetsMessage(s: State)
    requires InStep(s) && s.reading.Some?
    ensures s.queue != []
  {
    WrittenAndOwed(s);
    assert |Pending(s.reading) + s.pipe| > 0;
  }

  lemma StepKeepsStep(s: State, a: Action)
    requires InStep(s) && Enabled(s, a)
    ensures Next(s, a).Some? && InStep(Next(s, a).value)
  {
    if a.Pop? {
      ReadMeetsMessage(s);
    }
    StepKeepsBalance(s, a);
    StepKeepsOrder(s, a);
  }

  ghost predicate Reaches(s: State, actions: seq<Action>, t: State)
    decreases |actions|
  {
    if actions == [] then s == t
    else Enabled(s, actions[0]) && Next(s, actions[0]).Some? && Reaches(Next(s, actions[0]).value, actions[1..], t)
  }

  predicate AllIdle(producers: seq<Producer>) {
    forall i :: 0 <= i < |producers| ==> producers[i].Idle?
  }

  ghost predicate Initial(s: State) {
    && s.queue == [] && s.pipe == [] && s.reading == None && s.pushed == [] && s.written == [] && s.handled == []
    && AllIdle(s.producers)
  }

  lemma {:induction false} NothingOwed(producers: seq<Producer>, k: Kind)
    requires AllIdle(producers)
    ensures Owed(producers, k) == 0
  {
    if producers != [] {
      NothingOwed(producers[1..], k);
    }
  }

  lemma InitialInStep(s: State)
    requires Initial(s)
    ensures InStep(s) && WritesMatch(s)
  {
    forall k: Kind ensures BalancedFor(s, k) {
      NothingOwed(s.producers, k);
    }
    assert Pending(s.reading) + s.pipe == [];
  }

  lemma {:induction false} RunKeepsStep(s: State, actions: seq<Action>, t: State)
    requires InStep(s) && Reaches(s, actions, t)
    ensures InStep(t)
    decreases |actions|
  {
    if actions != [] {
      StepKeepsStep(s, actions[0]);
      RunKeepsStep(Next(s, actions[0]).value, actions[1..], t);
    }
  }

  /** For any interleaving, the k-th byte handled is the k-th one written and meets the k-th message pushed. */
  lemma RequestsHandledInOrder(s: State, actions: seq<Action>, t: State)
    requires Initial(s) && Reaches(s, actions, t)
    ensures |t.handled| <= |t.written| <= |t.pushed|
    ensures forall k :: 0 <= k < |t.handled| ==> t.handled[k] == (t.written[k], t.pushed[k])
  {
    InitialInStep(s);
    RunKeepsStep(s, actions, t);
    WrittenAndOwed(t);
  }

  // ---------- when the bytes meet messages of their kind ----------

  /** No two programs are between a push and a write for requests of different kinds. */
  predicate Alike(producers: seq<Producer>) {
    forall p, q :: 0 <= p < |producers| && 0 <= q < |producers| && producers[p].Pushed? && producers[q].Pushed? ==>
      producers[p].kind == producers[q].kind
  }

  /** The bytes written so far are those of the first messages pushed. */
  predicate WritesMatch(s: State) {
    s.written <= KindsOf(s.pushed)
  }

  /** Every request handled so far was carried out as it was meant. */
  ghost predicate CarriedOut(s: State) {
    forall k :: 0 <= k < |s.handled| ==> s.handled[k].0 == s.handled[k].1.kind
  }

  lemma MatchedAreCarriedOut(s: State)
    requires InStep(s) && WritesMatch(s)
    ensures CarriedOut(s)
  {
  }

  lemma {:induction false} OwedBySome(ps: seq<Producer>, k: Kind)
    requires Owed(ps, k) > 0
    ensures exists p :: 0 <= p < |ps| && ps[p] == Pushed(k)
  {
    if ps[0] != Pushed(k) {
      OwedBySome(ps[1..], k);
      var p :| 0 <= p < |ps| - 1 && ps[1..][p] == Pushed(k);
      assert ps[p + 1] == Pushed(k);
    }
  }

  /** While the writes match, the next message is one whose byte is owed. */
  lemma NextIsOwed(s: State, p: nat)
    requires Balanced(s) && WritesMatch(s) && p < |s.producers| && s.producers[p].Pushed?
    ensures |s.written| < |s.pushed|
    ensures exists q :: 0 <= q < |s.producers| && s.producers[q] == Pushed(s.pushed[|s.written|].kind)
  {
    var kinds, n := KindsOf(s.pushed), |s.written|;
    assert n < |s.pushed| by {
      OwedSet(s.producers, p, Idle, s.producers[p].kind);
      WrittenAndOwed(s);
    }
    assert Owed(s.producers, kinds[n]) > 0 by {
      assert kinds == s.written + kinds[n..];
      assert kinds[n..][0] == kinds[n] && kinds[n] in multiset(kinds[n..]);
    }
    OwedBySome(s.producers, kinds[n]);
  }

  lemma AlikeStepMatches(s: State, a: Action)
    requires InStep(s) && WritesMatch(s) && Alike(s.producers) && Enabled(s, a) && Next(s, a).Some?
    ensures WritesMatch(Next(s, a).value)
  {
    match a
    case Push(p, m) =>
      assert (s.pushed + [m])[..|s.pushed|] == s.pushed;
    case Write(p) =>
      NextIsOwed(s, p);
      assert s.producers[p].kind == KindsOf(s.pushed)[|s.written|];
    case Read =>
    case Pop =>
  }

  /** At no point of the run do two programs owe bytes of different kinds. */
  ghost predicate AlikeRun(s: State, actions: seq<Action>)
    decreases |actions|
  {
    && Alike(s.producers)
    && (actions != [] && Enabled(s, actions[0]) && Next(s, actions[0]).Some? ==>
          AlikeRun(Next(s, actions[0]).value, actions[1..]))
  }

  lemma {:induction false} AlikeRunMatches(s: State, actions: seq<Action>, t: State)
    requires InStep(s) && WritesMatch(s) && AlikeRun(s, actions) && Reaches(s, actions, t)
    ensures InStep(t) && WritesMatch(t)
    decreases |actions|
  {
    if actions != [] {
      StepKeepsStep(s, actions[0]);
      AlikeStepMatches(s, actions[0]);
      AlikeRunMatches(Next(s, actions[0]).value, actions[1..], t);
    }
  }

  /** If no two programs ever owe bytes of different kinds, all requests are carried out as they were meant. */
  lemma AlikeRequestsMatch(s: State, actions: seq<Action>, t: State)
    requires Initial(s) && AlikeRun(s, actions) && Reaches(s, actions, t)
    ensures WritesMatch(t) && CarriedOut(t)
  {
    InitialInStep(s);
    AlikeRunMatches(s, actions, t);
    MatchedAreCarriedOut(t);
  }

  // ---------- when they do not ----------

  lemma {:induction false} ReachesMore(s: State, a: seq<Action>, t: State, b: seq<Action>, u: State)
    requires Reaches(s, a, t) && Reaches(t, b, u)
    ensures Reaches(s, a + b, u)
    decreases |a|
  {
    if a == [] {
      assert a + b == b;
    } else {
      ReachesMore(Next(s, a[0]).value, a[1..], t, b, u);
      assert (a + b)[0] == a[0] && (a + b)[1..] == a[1..] + b;
    }
  }

  lemma ReachesNext(s: State, a: Action)
    requires Enabled(s, a) && Next(s, a).Some?
    ensures Reaches(s, [a], Next(s, a).value)
  {
    assert [a][1..] == [];
  }

  predicate Pushless(actions: seq<Action>) {
    forall k :: 0 <= k < |actions| ==> !actions[k].Push?
  }

  /** The master can always handle all bytes that have been written. */
  lemma {:induction false} CanDrain(s: State) returns (actions: seq<Action>, t: State)
    requires InStep(s)
    ensures Reaches(s, actions, t) && Pushless(actions) && InStep(t)
    ensures |t.handled| == |t.written| && t.written == s.written && t.pushed == s.pushed && t.producers == s.producers
    decreases |s.written| - |s.handled|, s.reading.None?
  {
    if s.reading.None? && s.pipe == [] {
      actions, t := [], s;
      assert s.written[|s.handled|..] == [];
    } else {
      var a := if s.reading.Some? then Pop else Read;
      StepKeepsStep(s, a);
      ReachesNext(s, a);
      var rest;
      rest, t := CanDrain(Next(s, a).value);
      actions := [a] + rest;
      ReachesMore(s, [a], Next(s, a).value, rest, t);
    }
  }

  /** When two programs owe bytes of different kinds, they can be written the wrong way round. */
  lemma UnlikeCanMismatch(s: State) returns (actions: seq<Action>, t: State)
    requires InStep(s) && WritesMatch(s) && !Alike(s.producers)
    ensures Reaches(s, actions, t) && Pushless(actions) && !CarriedOut(t)
  {
    var p, q :| 0 <= p < |s.producers| && 0 <= q < |s.producers| && s.producers[p].Pushed? && s.producers[q].Pushed? &&
      s.producers[p].kind != s.producers[q].kind;
    NextIsOwed(s, p);
    var n := |s.written|;
    var w := if s.producers[p].kind == s.pushed[n].kind then q else p;
    var u := Next(s, Write(w)).value;
    StepKeepsStep(s, Write(w));
    ReachesNext(s, Write(w));
    var rest;
    rest, t := CanDrain(u);
    actions := [Write(w)] + rest;
    ReachesMore(s, [Write(w)], u, rest, t);
    assert t.handled[n] == (t.written[n], t.pushed[n]);
  }

  lemma {:induction false} PushlessStaysAlike(s: State, actions: seq<Action>, t: State)
    requires Alike(s.producers) && Pushless(actions) && Reaches(s, actions, t)
    ensures AlikeRun(s, actions)
    decreases |actions|
  {
    if actions != [] {
      assert !actions[0].Push?;
      PushlessStaysAlike(Next(s, actions[0]).value, actions[1..], t);
    }
  }

  /**
    The exact condition, at any point where the writes have matched so far: whatever happens next,
    without another push, all requests are carried out as they were meant if and only if no two
    programs owe bytes of different kinds. Two requests of the same kind may interleave.
    */
  lemma RequestsMatchIffAlike(s: State, actions: seq<Action>, t: State)
    requires Initial(s) && Reaches(s, actions, t) && WritesMatch(t)
    ensures Alike(t.producers) <==> forall more, u :: Pushless(more) && Reaches(t, more, u) ==> CarriedOut(u)
  {
    InitialInStep(s);
    RunKeepsStep(s, actions, t);
    if Alike(t.producers) {
      forall more, u | Pushless(more) && Reaches(t, more, u) ensures CarriedOut(u) {
        PushlessStaysAlike(t, more, u);
        AlikeRunMatches(t, more, u);
        MatchedAreCarriedOut(u);
      }
    } else {
      var more, u := UnlikeCanMismatch(t);
    }
  }

  // ---------- programs that do not interleave ----------

  /** No program pushes while another is between its push and its write. */
  ghost predicate ExclusiveRun(s: State, actions: seq<Action>)
    decreases |actions|
  {
    actions != [] ==>
      && Enabled(s, actions[0]) && (actions[0].Push? ==> AllIdle(s.producers)) && Next(s, actions[0]).Some?
      && ExclusiveRun(Next(s, actions[0]).value, actions[1..])
  }

  /** At most one program is between its push and its write. */
  predicate AtMostOne(ps: seq<Producer>) {
    forall p, q :: 0 <= p < |ps| && 0 <= q < |ps| && ps[p].Pushed? && ps[q].Pushed? ==> p == q
  }

  lemma {:induction false} ExclusiveIsAlike(s: State, actions: seq<Action>)
    requires ExclusiveRun(s, actions) && AtMostOne(s.producers)
    ensures AlikeRun(s, actions)
    decreases |actions|
  {
    if actions != [] {
      ExclusiveIsAlike(Next(s, actions[0]).value, actions[1..]);
    }
  }

  /** If the pairs of push and write do not interleave, each byte meets the message pushed with it. */
  lemma ExclusiveRequestsMatch(s: State, actions: seq<Action>, t: State)
    requires Initial(s) && ExclusiveRun(s, actions) && Reaches(s, actions, t)
    ensures forall k :: 0 <= k < |t.handled| ==> t.handled[k].0 == t.handled[k].1.kind
  {
    ExclusiveIsAlike(s, actions);
    AlikeRequestsMatch(s, actions, t);
  }

  /** When they do interleave, an event that was to be added is deleted. */
  lemma InterleavedRequestsMismatch()
    ensures var s := State([], [], [Idle, Idle], None, [], [], []);
      var actions := [Push(0, Message(AddEvent, 7)), Push(1, Message(DelEvent, 8)), Write(1), Read, Pop];
      exists t :: Initial(s) && Reaches(s, actions, t) && t.handled == [(DelEvent, Message(AddEvent, 7))]
  {
    var s0 := State([], [], [Idle, Idle], None, [], [], []);
    var a, b := Message(AddEvent, 7), Message(DelEvent, 8);
    var s1 := Next(s0, Push(0, a)).value;
    var s2 := Next(s1, Push(1, b)).value;
    var s3 := Next(s2, Write(1)).value;
    var s4 := Next(s3, Read).value;
    var s5 := Next(s4, Pop).value;
    assert s5.handled == [(DelEvent, a)];
    var actions := [Push(0, a), Push(1, b), Write(1), Read, Pop];
    assert Reaches(s5, [], s5);
    assert actions[1..][1..][1..][1..][1..] == [];
    assert actions[1..][1..][1..][1..] == [Pop] && Reaches(s4, [Pop], s5);
    assert actions[1..][1..][1..] == [Read, Pop] && Reaches(s3, actions[1..][1..][1..], s5);
    assert Reaches(s2, actions[1..][1..], s5);
    assert Reaches(s1, actions[1..], s5);
    assert Reaches(s0, actions, s5);
  }
}
