/** The hand-off of concurrent.c as interleaved atomic steps of producers and slaves. */
module Handoff {
  import opened Common

  /**
    Producers push a message on the shared queue and then write a byte to the pipe of some slave; a
    slave that has read a byte takes the message in front. Between the push and the write of
    `concurrent_master_add_message`, or not:
    */
  datatype Producer = Idle | Pushed

  /** Between the read and `llist_detach_front` in the handler of the slave, or not. */
  datatype Slave = Waiting | HasRead

  /** A message is named by a number; `pushed` and `executed` record the history. */
  datatype State = State(queue: seq<nat>, pipes: seq<nat>, producers: seq<Producer>, slaves: seq<Slave>,
                         assignmentCount: nat, pushed: seq<nat>, executed: seq<nat>)

  datatype Action =
    | Push(producer: nat, message: nat)
    | Notify(producer: nat)
    | AddTask
    | Read(slave: nat)
    | Pop(slave: nat)

  /** An action is possible: a program is at this point, and a read finds a byte. */
  predicate Enabled(s: State, a: Action) {
    match a
    case Push(p, _) => p < |s.producers| && s.producers[p].Idle?
    case Notify(p) => p < |s.producers| && s.producers[p].Pushed? && |s.pipes| > 0
    case AddTask => true
    case Read(i) => i < |s.slaves| && i < |s.pipes| && s.slaves[i].Waiting? && s.pipes[i] > 0
    case Pop(i) => i < |s.slaves| && s.slaves[i].HasRead?
  }

  /** One step; None when a slave detaches from an empty queue and follows a null pointer. */
  function Next(s: State, a: Action): Option<State>
    requires Enabled(s, a)
  {
    match a
    case Push(p, m) =>
      Some(s.(queue := s.queue + [m], producers := s.producers[p := Pushed], pushed := s.pushed + [m]))
    case Notify(p) =>
      var i := s.assignmentCount % |s.pipes|;
      Some(s.(pipes := s.pipes[i := s.pipes[i] + 1], producers := s.producers[p := Idle]))
    case AddTask =>
      Some(s.(assignmentCount := (s.assignmentCount + 1) % 256))
    case Read(i) =>
      Some(s.(pipes := s.pipes[i := s.pipes[i] - 1], slaves := s.slaves[i := HasRead]))
    case Pop(i) =>
      if s.queue == [] then None
      else Some(s.(queue := s.queue[1..], slaves := s.slaves[i := Waiting], executed := s.executed + [s.queue[0]]))
  }

  // ---------- the invariant ----------

  function Bytes(pipes: seq<nat>): nat {
    if pipes == [] then 0 else pipes[0] + Bytes(pipes[1..])
  }

  function Unnotified(producers: seq<Producer>): nat {
    if producers == [] then 0 else (if producers[0].Pushed? then 1 else 0) + Unnotified(producers[1..])
  }

  function Unpopped(slaves: seq<Slave>): nat {
    if slaves == [] then 0 else (if slaves[0].HasRead? then 1 else 0) + Unpopped(slaves[1..])
  }

  /**
    Every message on the queue is accounted for by a byte that is to be written, in a pipe, or has been
    read; and messages are executed in the order in which they were pushed.
    */
  ghost predicate Balanced(s: State) {
    && |s.queue| == Bytes(s.pipes) + Unnotified(s.producers) + Unpopped(s.slaves)
    && s.pushed == s.executed + s.queue
  }

  lemma {:induction false} BytesSet(pipes: seq<nat>, i: nat, n: nat)
    requires i < |pipes|
    ensures Bytes(pipes[i := n]) == Bytes(pipes) - pipes[i] + n
  {
    if i > 0 {
      assert pipes[i := n][1..] == pipes[1..][i - 1 := n];
      BytesSet(pipes[1..], i - 1, n);
    } else {
      assert pipes[i := n][1..] == pipes[1..];
    }
  }

  lemma {:induction false} UnnotifiedSet(ps: seq<Producer>, i: nat, p: Producer)
    requires i < |ps|
    ensures Unnotified(ps[i := p]) ==
      Unnotified(ps) - (if ps[i].Pushed? then 1 else 0) + (if p.Pushed? then 1 else 0)
  {
    if i > 0 {
      assert ps[i := p][1..] == ps[1..][i - 1 := p];
      UnnotifiedSet(ps[1..], i - 1, p);
    } else {
      assert ps[i := p][1..] == ps[1..];
    }
  }

  lemma {:induction false} UnpoppedSet(ss: seq<Slave>, i: nat, x: Slave)
    requires i < |ss|
    ensures Unpopped(ss[i := x]) == Unpopped(ss) - (if ss[i].HasRead? then 1 else 0) + (if x.HasRead? then 1 else 0)
    ensures ss[i].HasRead? ==> Unpopped(ss) > 0
  {
    if i > 0 {
      assert ss[i := x][1..] == ss[1..][i - 1 := x];
      UnpoppedSet(ss[1..], i - 1, x);
    } else {
      assert ss[i := x][1..] == ss[1..];
    }
  }

  /** No step fails, and every step keeps the balance. */
  lemma StepKeepsBalance(s: State, a: Action)
    requires Balanced(s) && Enabled(s, a)
    ensures Next(s, a).Some? && Balanced(Next(s, a).value)
  {
    match a
    case Push(p, m) =>
      UnnotifiedSet(s.producers, p, Pushed);
      assert s.executed + (s.queue + [m]) == s.executed + s.queue + [m];
    case Notify(p) =>
      var i := s.assignmentCount % |s.pipes|;
      UnnotifiedSet(s.producers, p, Idle);
      BytesSet(s.pipes, i, s.pipes[i] + 1);
    case AddTask =>
    case Read(i) =>
      BytesSet(s.pipes, i, s.pipes[i] - 1);
      UnpoppedSet(s.slaves, i, HasRead);
    case Pop(i) =>
      UnpoppedSet(s.slaves, i, Waiting);
      assert s.executed + [s.queue[0]] + s.queue[1..] == s.executed + s.queue;
  }

  // ---------- runs ----------

  /** Some interleaving of the steps of all threads leads from one state to another. */
  ghost predicate Reaches(s: State, actions: seq<Action>, t: State)
    decreases |actions|
  {
    if actions == [] then s == t
    else Enabled(s, actions[0]) && Next(s, actions[0]).Some? && Reaches(Next(s, actions[0]).value, actions[1..], t)
  }

  /** Producers and slaves that have not started, with empty pipes and an empty queue. */
  ghost predicate Initial(s: State) {
    && s.queue == [] && s.pushed == [] && s.executed == []
    && (forall i :: 0 <= i < |s.pipes| ==> s.pipes[i] == 0)
    && (forall i :: 0 <= i < |s.producers| ==> s.producers[i].Idle?)
    && (forall i :: 0 <= i < |s.slaves| ==> s.slaves[i].Waiting?)
  }

  lemma {:induction false} InitiallyBalanced(pipes: seq<nat>, producers: seq<Producer>, slaves: seq<Slave>)
    requires forall i :: 0 <= i < |pipes| ==> pipes[i] == 0
    requires forall i :: 0 <= i < |producers| ==> producers[i].Idle?
    requires forall i :: 0 <= i < |slaves| ==> slaves[i].Waiting?
    ensures Bytes(pipes) == 0 && Unnotified(producers) == 0 && Unpopped(slaves) == 0
    decreases |pipes| + |producers| + |slaves|
  {
    if pipes != [] {
      InitiallyBalanced(pipes[1..], producers, slaves);
    } else if producers != [] {
      InitiallyBalanced(pipes, producers[1..], slaves);
    } else if slaves != [] {
      InitiallyBalanced(pipes, producers, slaves[1..]);
    }
  }

  lemma {:induction false} RunKeepsBalance(s: State, actions: seq<Action>, t: State)
    requires Balanced(s) && Reaches(s, actions, t)
    ensures Balanced(t)
    decreases |actions|
  {
    if actions != [] {
      StepKeepsBalance(s, actions[0]);
      RunKeepsBalance(Next(s, actions[0]).value, actions[1..], t);
    }
  }

  /**
    In every reachable state, a slave that has read its byte finds a message; what has been executed is
    what was pushed first, each message once and in order; and once no byte is left to be written, read
    or acted upon, every message has been executed.
    */
  lemma HandoffIsSafe(s: State, actions: seq<Action>, t: State, i: nat)
    requires Initial(s) && Reaches(s, actions, t)
    ensures i < |t.slaves| && t.slaves[i].HasRead? ==> t.queue != []
    ensures t.executed <= t.pushed && t.pushed == t.executed + t.queue
    ensures Bytes(t.pipes) == 0 && Unnotified(t.producers) == 0 && Unpopped(t.slaves) == 0 ==> t.executed == t.pushed
  {
    InitiallyBalanced(s.pipes, s.producers, s.slaves);
    RunKeepsBalance(s, actions, t);
    if i < |t.slaves| && t.slaves[i].HasRead? {
      UnpoppedSet(t.slaves, i, Waiting);
    }
  }

  // ---------- which slave is notified ----------

  function Tasks(actions: seq<Action>): nat {
    if actions == [] then 0 else (if actions[0].AddTask? then 1 else 0) + Tasks(actions[1..])
  }

  lemma CountedOn(count: nat, one: nat, more: nat, next: nat, last: nat)
    requires next == (count + one) % 256 && last == (next + more) % 256
    ensures last == (count + (one + more)) % 256
  {
  }

  /** The tasks that have been added are counted in eight bits. */
  lemma {:induction false} TasksAreCounted(s: State, actions: seq<Action>, t: State)
    requires Reaches(s, actions, t) && s.assignmentCount < 256
    ensures t.assignmentCount == (s.assignmentCount + Tasks(actions)) % 256 && |t.pipes| == |s.pipes|
    decreases |actions|
  {
    if actions != [] {
      var next := Next(s, actions[0]).value;
      TasksAreCounted(next, actions[1..], t);
      CountedOn(s.assignmentCount, if actions[0].AddTask? then 1 else 0, Tasks(actions[1..]),
        next.assignmentCount, t.assignmentCount);
    }
  }

  lemma AtLeastOnce(n: nat, k: nat)
    requires k >= 1
    ensures k * n >= n
  {
  }

  /** Quotient and remainder are unique. */
  lemma SameRemainder(n: nat, k: nat, i: nat, q: nat, r: nat)
    requires i < n && r < n && k * n + i == q * n + r
    ensures i == r
  {
    if k > q {
      assert k * n - q * n == (k - q) * n;
      AtLeastOnce(n, k - q);
    } else if q > k {
      assert q * n - k * n == (q - k) * n;
      AtLeastOnce(n, q - k);
    }
  }

  lemma Remainder(n: nat, k: nat, i: nat, count: nat)
    requires i < n && count == k * n + i
    ensures count % n == i
  {
    assert count == count / n * n + count % n;
    SameRemainder(n, k, i, count / n, count % n);
  }

  /**
    A byte goes to the slaves in turn, by the number of tasks added so far: to slave `i` after any run with
    `i` tasks more than a multiple of the number of slaves, as long as that number fits in eight bits.
    */
  lemma ByteGoesInTurn(s: State, actions: seq<Action>, t: State, p: nat, k: nat, i: nat)
    requires s.assignmentCount == 0 && Reaches(s, actions, t) && Enabled(t, Notify(p))
    requires i < |t.pipes| && Tasks(actions) == k * |t.pipes| + i && Tasks(actions) < 256
    ensures Next(t, Notify(p)).value.pipes == t.pipes[i := t.pipes[i] + 1]
  {
    TasksAreCounted(s, actions, t);
    Remainder(|t.pipes|, k, i, t.assignmentCount);
  }

  // ---------- the steps as they are taken ----------

  /** What the threads share. */
  class Shared {
    var messageQue: seq<nat>
    var pipes: seq<nat>
    var assignmentCount: nat
    ghost var producers: seq<Producer>
    ghost var slaves: seq<Slave>
    ghost var pushed: seq<nat>
    ghost var executed: seq<nat>

    ghost function Value(): State
      reads this
    {
      State(messageQue, pipes, producers, slaves, assignmentCount, pushed, executed)
    }

    constructor (slaveAmount: nat, ghost producerAmount: nat)
      ensures Initial(Value()) && |pipes| == |slaves| == slaveAmount && |producers| == producerAmount
    {
      messageQue, assignmentCount, pushed, executed := [], 0, [], [];
      pipes := Zeros(slaveAmount);
      slaves := AllWaiting(slaveAmount);
      producers := AllIdle(producerAmount);
    }

    /** The first half of `concurrent_master_add_message`. */
    method PushBack(ghost p: nat, message: nat)
      requires Enabled(Value(), Push(p, message))
      modifies this
      ensures Some(Value()) == Next(old(Value()), Push(p, message))
    {
      messageQue := messageQue + [message];
      producers, pushed := producers[p := Pushed], pushed + [message];
    }

    /** The second half: `concurrent_master_notify_slave`. */
    method NotifySlave(ghost p: nat) returns (i: nat)
      requires Enabled(Value(), Notify(p))
      modifies this
      ensures Some(Value()) == Next(old(Value()), Notify(p))
      ensures i < |old(pipes)| && pipes == old(pipes)[i := old(pipes)[i] + 1]
      ensures exists k :: assignmentCount == k * |pipes| + i
    {
      i := assignmentCount % |pipes|;
      assert assignmentCount == assignmentCount / |pipes| * |pipes| + i;
      pipes := pipes[i := pipes[i] + 1];
      producers := producers[p := Idle];
    }

    /** The read in `slave_event_handler_process_message`. */
    method ReadByte(i: nat)
      requires Enabled(Value(), Read(i))
      modifies this
      ensures Some(Value()) == Next(old(Value()), Read(i))
    {
      pipes := pipes[i := pipes[i] - 1];
      slaves := slaves[i := HasRead];
    }

    /** The rest of the handler: the queue is never empty here. */
    method DetachFront(i: nat) returns (message: nat)
      requires Balanced(Value()) && Enabled(Value(), Pop(i))
      modifies this
      ensures Some(Value()) == Next(old(Value()), Pop(i)) && Balanced(Value())
      ensures executed == old(executed) + [message] && [message] + messageQue == old(messageQue)
    {
      StepKeepsBalance(Value(), Pop(i));
      message := messageQue[0];
      messageQue := messageQue[1..];
      slaves, executed := slaves[i := Waiting], executed + [message];
    }
  }

  function Zeros(n: nat): (s: seq<nat>)
    ensures |s| == n && forall i :: 0 <= i < n ==> s[i] == 0
  {
    if n == 0 then [] else Zeros(n - 1) + [0]
  }

  function AllWaiting(n: nat): (s: seq<Slave>)
    ensures |s| == n && forall i :: 0 <= i < n ==> s[i].Waiting?
  {
    if n == 0 then [] else AllWaiting(n - 1) + [Waiting]
  }

  function AllIdle(n: nat): (s: seq<Producer>)
    ensures |s| == n && forall i :: 0 <= i < n ==> s[i].Idle?
  {
    if n == 0 then [] else AllIdle(n - 1) + [Idle]
  }
}
