/** select.c: two bit sets that grow by doubling. */
module Select {
  import opened Backend
  import opened Epoll

  /** SELECT_ALLOC_SIZE: the bytes of the 8-byte masks that hold `n` bits. */
  function AllocSize(n: nat): (size: nat)
    ensures n <= 8 * size < n + 64
  {
    (n + 63) / 64 * 8
  }

  class SelectOp {
    /** The bits of `event_readset_in` and `event_writeset_in`, both of `event_fdsz` bytes. */
    var readset: array<bool>
    var writeset: array<bool>
    var eventFds: nat
    var eventFdsz: nat

    ghost predicate Valid()
      reads this, readset, writeset
    {
      && readset != writeset && readset.Length == writeset.Length == 8 * eventFdsz
      && eventFds < readset.Length
      && forall fd :: eventFds < fd < readset.Length ==> !readset[fd] && !writeset[fd]
    }

    ghost function Watched(fd: int): Watch
      reads this, readset, writeset
      requires Valid()
    {
      if 0 <= fd < readset.Length then Watch(readset[fd], writeset[fd]) else NOTHING
    }

    constructor ()
      ensures Valid() && fresh(readset) && fresh(writeset) && forall fd :: Watched(fd) == NOTHING
    {
      eventFds, eventFdsz := 0, AllocSize(33);
      readset := new bool[8 * AllocSize(33)](_ => false);
      writeset := new bool[8 * AllocSize(33)](_ => false);
    }

    /** `select_resize`: longer sets with the new bits cleared. */
    method Resize(fdsz: nat)
      requires Valid() && fdsz >= eventFdsz
      modifies this`readset, this`writeset, this`eventFdsz
      ensures Valid() && fresh(readset) && fresh(writeset) && eventFdsz == fdsz
      ensures forall fd :: Watched(fd) == old(Watched(fd))
    {
      var r, w := readset, writeset;
      var size := r.Length;
      var newRead := new bool[8 * fdsz](_ => false);
      var newWrite := new bool[8 * fdsz](_ => false);
      for i := 0 to size
        invariant forall k :: 0 <= k < 8 * fdsz ==> newRead[k] == (k < i && r[k])
        invariant forall k :: 0 <= k < 8 * fdsz ==> newWrite[k] == (k < i && w[k])
      {
        newRead[i], newWrite[i] := r[i], w[i];
      }
      readset, writeset, eventFdsz := newRead, newWrite, fdsz;
    }

    /** `select_add`. */
    method Add(fd: nat, events: Mask) returns (r: int)
      requires Valid()
      modifies this, readset, writeset
      ensures Valid() && r == 0
      ensures (readset == old(readset) && writeset == old(writeset)) || (fresh(readset) && fresh(writeset))
      ensures Watched(fd) == Plus(old(Watched(fd)), events)
      ensures forall other :: other != fd ==> Watched(other) == old(Watched(other))
    {
      if eventFds < fd {
        var fdsz := eventFdsz;
        if fdsz < 8 {
          fdsz := 8;
        }
        while fdsz < AllocSize(fd + 1)
          invariant fdsz >= eventFdsz && fdsz >= 8 && eventFdsz == old(eventFdsz)
          invariant Valid() && readset == old(readset) && writeset == old(writeset)
          decreases AllocSize(fd + 1) - fdsz
        {
          fdsz := 2 * fdsz;
        }
        if fdsz != eventFdsz {
          Resize(fdsz);
        }
        eventFds := fd;
      }
      if events.read {
        readset[fd] := true;
      }
      if events.write {
        writeset[fd] := true;
      }
      r := 0;
    }

    /** `select_del`. */
    method Del(fd: nat, events: Mask) returns (r: int)
      requires Valid()
      modifies readset, writeset
      ensures Valid() && r == 0
      ensures Watched(fd) == Minus(old(Watched(fd)), events)
      ensures forall other :: other != fd ==> Watched(other) == old(Watched(other))
    {
      if eventFds < fd {
        return 0;
      }
      if events.read {
        readset[fd] := false;
      }
      if events.write {
        writeset[fd] := false;
      }
      r := 0;
    }

    /**
      The scan of `select_dispatch`, over what `select` has left of the two sets: although it stops at
      `event_fds`, it reports exactly the descriptors that are still set, whatever the random start.
      */
    method Dispatch(readsetOut: seq<bool>, writesetOut: seq<bool>, random: nat) returns (reports: seq<Report>)
      requires Valid() && |readsetOut| == |writesetOut| == readset.Length
      requires forall fd :: 0 <= fd < readset.Length ==>
        (readsetOut[fd] ==> readset[fd]) && (writesetOut[fd] ==> writeset[fd])
      ensures forall fd, r, w :: Report(fd, r, w) in reports <==>
        (r || w) && 0 <= fd < |readsetOut| && readsetOut[fd] == r && writesetOut[fd] == w
    {
      var nfds := eventFds + 1;
      var ready: seq<Report> := [];
      for i := 0 to nfds
        invariant |ready| == i && forall k :: 0 <= k < i ==> ready[k] == Report(k, readsetOut[k], writesetOut[k])
      {
        ready := ready + [Report(i, readsetOut[i], writesetOut[i])];
      }
      reports := Collect(ready, random);
      AllReadyReported(ready, random % |ready|);
      forall fd, r, w
        ensures Report(fd, r, w) in ready <==> 0 <= fd < nfds && readsetOut[fd] == r && writesetOut[fd] == w
      {
        if 0 <= fd < nfds {
          assert ready[fd] == Report(fd, readsetOut[fd], writesetOut[fd]);
        }
      }
    }
  }
}
