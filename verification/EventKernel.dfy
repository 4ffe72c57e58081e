/** What epoll watches while event.c, evmap.c and the changelist work together. */
module EventKernel {
  import opened Common
  import opened Epoll
  import opened EventBaseLoop
  import opened EventOps
  import opened EventQueue
  import opened EventRequests
  import opened Evmap
  import opened TimeVal

  /** A public operation, a dispatch of the backend alone, or a run of `event_base_loop`. */
  datatype Move = Do(op: EventOps.Op) | Wait | RunLoop(rounds: seq<EventBaseLoop.Round>, flags: Flags)

  function Moved(b: Base, m: Move): (r: Base)
    requires Ok(b)
    ensures Ok(r)
  {
    match m
    case Do(op) => Exec(b, op)
    case Wait => b
    case RunLoop(rounds, flags) => BaseLoop(b, rounds, flags).base
  }

  function RunMoves(b: Base, moves: seq<Move>): (r: Base)
    requires Ok(b)
    ensures Ok(r)
    decreases |moves|
  {
    if moves == [] then b else RunMoves(Moved(b, moves[0]), moves[1..])
  }

  /** What a move asks of evmap for a descriptor. */
  function Asked(b: Base, m: Move, fd: int): seq<Step>
    requires Ok(b)
  {
    match m
    case Do(op) => ByOp(b, op, fd)
    case Wait => [Step.Dispatch]
    case RunLoop(rounds, flags) => ByLoop(b.(broken := false), rounds, flags, fd)
  }

  function AllAsked(b: Base, moves: seq<Move>, fd: int): seq<Step>
    requires Ok(b)
    decreases |moves|
  {
    if moves == [] then [] else Asked(b, moves[0], fd) + AllAsked(Moved(b, moves[0]), moves[1..], fd)
  }

  lemma AskedLeads(b: Base, m: Move, fd: nat)
    requires Ok(b)
    ensures Leads(IoOf(b.io, fd), Asked(b, m, fd), IoOf(Moved(b, m).io, fd))
  {
    match m
    case Do(op) => OpLeads(b, op, fd);
    case Wait => LeadsOne(IoOf(b.io, fd), Step.Dispatch);
    case RunLoop(rounds, flags) => LoopLeads(b.(broken := false), rounds, flags, fd);
  }

  lemma {:induction false} AllAskedLead(b: Base, moves: seq<Move>, fd: nat)
    requires Ok(b)
    ensures Leads(IoOf(b.io, fd), AllAsked(b, moves, fd), IoOf(RunMoves(b, moves).io, fd))
    decreases |moves|
  {
    if moves != [] {
      var b1, to := Moved(b, moves[0]), IoOf(RunMoves(b, moves).io, fd);
      var more := AllAsked(b1, moves[1..], fd);
      assert Leads(IoOf(b.io, fd), Asked(b, moves[0], fd), IoOf(b1.io, fd)) by {
        AskedLeads(b, moves[0], fd);
      }
      assert Leads(IoOf(b1.io, fd), more, to) by {
        AllAskedLead(b1, moves[1..], fd);
      }
      LeadsOn(IoOf(b.io, fd), Asked(b, moves[0], fd), IoOf(b1.io, fd), more, to);
    }
  }

  lemma {:induction false} CountedIsListed(events: seq<Event>)
    ensures Readers(events) > 0 <==> exists x :: x in events && x.read
    ensures Writers(events) > 0 <==> exists x :: x in events && x.write
  {
    if events != [] {
      CountedIsListed(events[1..]);
      assert forall x :: x in events <==> x == events[0] || x in events[1..];
    }
  }

  /** Some inserted event waits for that on the descriptor. */
  predicate Wanted(b: Base, fd: int, writing: bool) {
    exists e :: 0 <= e < |b.evs| && b.evs[e].inserted && b.evs[e].kind.fd == fd &&
      (if writing then b.evs[e].kind.write else b.evs[e].kind.read)
  }

  lemma CountedIsWanted(b: Base, fd: nat)
    requires Ok(b)
    ensures Watching(IoOf(b.io, fd)) == Watch(Wanted(b, fd, false), Wanted(b, fd, true))
  {
    var events := IoOf(b.io, fd).events;
    assert Look(fd);
    CountedIsListed(events);
    forall e | 0 <= e < |b.evs| && b.evs[e].kind.fd == fd
      ensures b.evs[e].inserted <==> Seen(e, b.evs[e].kind) in events
    {
      assert Look(e);
    }
    forall x | x in events ensures x.id < |b.evs| && b.evs[x.id].kind.fd == fd && x == Seen(x.id, b.evs[x.id].kind) {
      assert x in IoOf(b.io, fd).events;
    }
  }

  /**
    After any operations, dispatches and runs of the loop on a new base, whatever the backend reports
    and the callbacks do in them, applying the changes that are pending makes the kernel watch a
    descriptor for reading, or for writing, if and only if some inserted event waits for that on it;
    without a changelist it does so all the time.
    */
  lemma KernelWatchesInserted(n: nat, now: Time, moves: seq<Move>, fd: nat)
    requires n > 0
    ensures Ok(Fresh(n, now))
    ensures var b := RunMoves(Fresh(n, now), moves);
      var wanted := Watch(Wanted(b, fd, false), Wanted(b, fd, true));
      var unknown := Fd(EMPTY, None, None);
      var steps := AllAsked(Fresh(n, now), moves, fd);
      && History(fd, unknown, steps)
      && Bits(Deferred(fd, RunDeferred(fd, unknown, steps), Step.Dispatch).kernel) == wanted
      && Bits(RunImmediate(fd, unknown, unknown, steps).kernel) == wanted
  {
    FreshIsOk(n, now);
    var b0, unknown := Fresh(n, now), Fd(EMPTY, None, None);
    var steps := AllAsked(b0, moves, fd);
    var d := RunMoves(b0, moves);
    assert History(fd, unknown, steps) && RunDeferred(fd, unknown, steps).io == IoOf(d.io, fd) by {
      AllAskedLead(b0, moves, fd);
      LeadsDeferred(fd, unknown, steps, IoOf(d.io, fd));
    }
    DeferredRefinesImmediate(fd, unknown, unknown, steps, NOTHING);
    DispatchKeepsIo(fd, RunDeferred(fd, unknown, steps));
    CountedIsWanted(d, fd);
  }

  lemma DispatchKeepsIo(n: int, d: Fd)
    ensures Deferred(n, d, Step.Dispatch).io == d.io
  {
  }
}
