/** evmap over select.c: the counts of the events and what the backend watches. */
module EvmapSelect {
  import opened Backend
  import opened Evmap
  import opened Select

  class EventBase {
    var io: map<int, Io>
    const selectop: SelectOp

    /** Every descriptor is watched for exactly what is counted on it. */
    ghost predicate Valid()
      reads this, selectop, selectop.readset, selectop.writeset
    {
      && selectop.Valid() && Sound(io)
      && forall fd {:trigger IoOf(io, fd)} :: selectop.Watched(fd) == Watching(IoOf(io, fd))
    }

    constructor ()
      ensures Valid() && fresh(selectop) && fresh(selectop.readset) && fresh(selectop.writeset) && io == map[]
    {
      io := map[];
      selectop := new SelectOp();
    }

    /** `evmap_io_add`. */
    method IoAdd(fd: int, ev: Event) returns (retval: int)
      requires Valid() && Permitted(io, AddEvent(fd, ev))
      modifies this`io, selectop, selectop.readset, selectop.writeset
      ensures Valid()
      ensures (selectop.readset == old(selectop.readset) && selectop.writeset == old(selectop.writeset))
        || (fresh(selectop.readset) && fresh(selectop.writeset))
      ensures retval == RequestResult(old(io), AddEvent(fd, ev)) && io == Requested(old(io), AddEvent(fd, ev))
    {
      if fd < 0 {
        return 0;
      }
      var ctx := IoOf(io, fd);
      if AddFails(ctx, ev) {
        return -1;
      }
      retval := 0;
      ghost var was := io;
      assert Consistent(ctx);
      CountsStayWatched(ctx, ev);
      RequestKeepsSound(io, AddEvent(fd, ev));
      var res := AddMask(ctx, ev);
      if Matters(res) {
        var r := selectop.Add(fd, res);
        assert r == 0;
        retval := 1;
      }
      io := io[fd := Added(ctx, ev)];
      forall other ensures selectop.Watched(other) == Watching(IoOf(io, other)) {
        assert Consistent(IoOf(was, other));
      }
    }

    /** `evmap_io_del`. */
    method IoDel(fd: int, ev: Event) returns (retval: int)
      requires Valid() && Permitted(io, DelEvent(fd, ev))
      modifies this`io, selectop, selectop.readset, selectop.writeset
      ensures Valid() && selectop.readset == old(selectop.readset) && selectop.writeset == old(selectop.writeset)
      ensures retval == RequestResult(old(io), DelEvent(fd, ev)) && io == Requested(old(io), DelEvent(fd, ev))
    {
      if fd < 0 {
        return 0;
      }
      var ctx := IoOf(io, fd);
      retval := 0;
      ghost var was := io;
      assert Consistent(ctx);
      CountsStayWatched(ctx, ev);
      RequestKeepsSound(io, DelEvent(fd, ev));
      var res := DelMask(ctx, ev);
      if Matters(res) {
        var r := selectop.Del(fd, res);
        assert r == 0;
        retval := 1;
      }
      io := io[fd := Deleted(ctx, ev)];
      forall other ensures selectop.Watched(other) == Watching(IoOf(io, other)) {
        assert Consistent(IoOf(was, other));
      }
    }

    /** After any history the backend watches what the history has left. */
    method Perform(history: seq<Request>)
      requires Valid() && Lawful(io, history)
      modifies this`io, selectop, selectop.readset, selectop.writeset
      ensures Valid() && io == AllRequested(old(io), history)
      ensures forall fd :: selectop.Watched(fd) == Watching(IoOf(AllRequested(old(io), history), fd))
    {
      for i := 0 to |history|
        invariant Valid()
        invariant (selectop.readset == old(selectop.readset) && selectop.writeset == old(selectop.writeset))
          || (fresh(selectop.readset) && fresh(selectop.writeset))
        invariant Lawful(io, history[i..]) && AllRequested(io, history[i..]) == AllRequested(old(io), history)
      {
        assert history[i..][0] == history[i] && history[i..][1..] == history[i + 1..];
        match history[i]
        case AddEvent(fd, ev) => var r := IoAdd(fd, ev);
        case DelEvent(fd, ev) => var r := IoDel(fd, ev);
      }
    }
  }
}
