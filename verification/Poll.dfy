/** poll.c: the watched descriptors, packed at the front of an array. */
module Poll {
  import opened Common
  import opened Backend
  import opened Epoll

  /** `struct pollfd`: a descriptor with POLLIN and POLLOUT of its `events`. */
  datatype PollFd = PollFd(fd: int, input: bool, output: bool)

  function Idx(idxplus1: map<int, nat>, fd: int): nat {
    if fd in idxplus1 then idxplus1[fd] else 0
  }

  /** `poll_check_ok`: the entries and the per-descriptor indices are inverse to each other. */
  ghost predicate Packed(set_: seq<PollFd>, idxplus1: map<int, nat>) {
    && (forall k {:trigger Look(k)} :: Look(k) && 0 <= k < |set_| ==>
          Idx(idxplus1, set_[k].fd) == k + 1 && (set_[k].input || set_[k].output))
    && (forall fd {:trigger Look(fd)} :: Look(fd) && Idx(idxplus1, fd) != 0 ==>
          Idx(idxplus1, fd) <= |set_| && set_[Idx(idxplus1, fd) - 1].fd == fd)
  }

  function WatchedAt(set_: seq<PollFd>, idxplus1: map<int, nat>, fd: int): Watch {
    var i := Idx(idxplus1, fd);
    if 0 < i <= |set_| then Watch(set_[i - 1].input, set_[i - 1].output) else NOTHING
  }

  /** Writing the entry of a descriptor in place. */
  lemma Rewritten(set_: seq<PollFd>, idxplus1: map<int, nat>, k: nat, p: PollFd)
    requires Packed(set_, idxplus1) && k < |set_| && p.fd == set_[k].fd && (p.input || p.output)
    ensures Packed(set_[k := p], idxplus1)
    ensures WatchedAt(set_[k := p], idxplus1, p.fd) == Watch(p.input, p.output)
    ensures forall fd :: fd != p.fd ==> WatchedAt(set_[k := p], idxplus1, fd) == WatchedAt(set_, idxplus1, fd)
  {
    assert Look(k);
    forall fd | fd != p.fd ensures WatchedAt(set_[k := p], idxplus1, fd) == WatchedAt(set_, idxplus1, fd) {
      assert Look(fd);
    }
  }

  lemma Appended(set_: seq<PollFd>, idxplus1: map<int, nat>, p: PollFd)
    requires Packed(set_, idxplus1) && Idx(idxplus1, p.fd) == 0 && (p.input || p.output)
    ensures var idx' := idxplus1[p.fd := |set_| + 1];
      && Packed(set_ + [p], idx') && WatchedAt(set_ + [p], idx', p.fd) == Watch(p.input, p.output)
      && forall fd :: fd != p.fd ==> WatchedAt(set_ + [p], idx', fd) == WatchedAt(set_, idxplus1, fd)
  {
    var idx' := idxplus1[p.fd := |set_| + 1];
    assert forall fd :: Idx(idx', fd) == if fd == p.fd then |set_| + 1 else Idx(idxplus1, fd);
    forall fd | fd != p.fd ensures WatchedAt(set_ + [p], idx', fd) == WatchedAt(set_, idxplus1, fd) {
      assert Look(fd);
    }
  }

  /** Dropping an entry: the last one takes its place. */
  function Dropped(set_: seq<PollFd>, k: nat): seq<PollFd>
    requires k < |set_|
  {
    set_[k := set_[|set_| - 1]][..|set_| - 1]
  }

  function Reindexed(set_: seq<PollFd>, idxplus1: map<int, nat>, k: nat): map<int, nat>
    requires k < |set_|
  {
    var cleared := idxplus1[set_[k].fd := 0];
    if k == |set_| - 1 then cleared else cleared[set_[|set_| - 1].fd := k + 1]
  }

  lemma SwappedOut(set_: seq<PollFd>, idxplus1: map<int, nat>, k: nat)
    requires Packed(set_, idxplus1) && k < |set_|
    ensures Packed(Dropped(set_, k), Reindexed(set_, idxplus1, k))
    ensures WatchedAt(Dropped(set_, k), Reindexed(set_, idxplus1, k), set_[k].fd) == NOTHING
    ensures forall fd :: fd != set_[k].fd ==>
      WatchedAt(Dropped(set_, k), Reindexed(set_, idxplus1, k), fd) == WatchedAt(set_, idxplus1, fd)
  {
    var last := |set_| - 1;
    var set', idx' := Dropped(set_, k), Reindexed(set_, idxplus1, k);
    assert Look(k) && Look(last);
    assert forall fd ::
      Idx(idx', fd) == (if fd == set_[k].fd then 0 else if fd == set_[last].fd then k + 1 else Idx(idxplus1, fd));
    forall fd | fd != set_[k].fd ensures WatchedAt(set', idx', fd) == WatchedAt(set_, idxplus1, fd) {
      assert Look(fd);
    }
  }

  class PollOp {
    /** `event_set`, of length `event_count`, and `nfds`. */
    var eventSet: array<PollFd>
    var nfds: nat
    /** The `struct pollidx` that evmap keeps for each descriptor; 0 where there is none. */
    var idxplus1: map<int, nat>

    ghost predicate Valid()
      reads this, eventSet
    {
      nfds <= eventSet.Length && Packed(eventSet[..nfds], idxplus1)
    }

    ghost function Watched(fd: int): Watch
      reads this, eventSet
      requires Valid()
    {
      WatchedAt(eventSet[..nfds], idxplus1, fd)
    }

    constructor ()
      ensures Valid() && fresh(eventSet) && forall fd :: Watched(fd) == NOTHING
    {
      eventSet := new PollFd[0];
      nfds, idxplus1 := 0, map[];
    }

    /** Room for one entry more than is needed: 32 at first, then twice as many. */
    method Grow()
      requires Valid()
      modifies this`eventSet
      ensures Valid() && fresh(eventSet) && eventSet[..nfds] == old(eventSet[..nfds])
      ensures eventSet.Length == if old(eventSet.Length) < 32 then 32 else 2 * old(eventSet.Length)
    {
      var present := eventSet;
      var grown := new PollFd[if present.Length < 32 then 32 else 2 * present.Length];
      for i := 0 to nfds
        invariant forall k :: 0 <= k < i ==> grown[k] == present[k]
      {
        grown[i] := present[i];
      }
      eventSet := grown;
      assert eventSet[..nfds] == old(eventSet[..nfds]);
    }

    /** `poll_add`. */
    method Add(fd: int, events: Mask) returns (r: int)
      requires Valid()
      modifies this, eventSet
      ensures Valid() && (eventSet == old(eventSet) || fresh(eventSet)) && r == 0
      ensures Watched(fd) == Plus(old(Watched(fd)), events)
      ensures forall other :: other != fd ==> Watched(other) == old(Watched(other))
    {
      if !events.read && !events.write {
        return 0;
      }
      if nfds + 1 >= eventSet.Length {
        Grow();
      }
      var i := Idx(idxplus1, fd) - 1;
      if i >= 0 {
        assert i < nfds && eventSet[..nfds][i].fd == fd && (eventSet[i].input || eventSet[i].output) by {
          assert Look(fd) && Look(i);
        }
        var p := eventSet[i];
        Put(i, PollFd(p.fd, p.input || events.read, p.output || events.write));
      } else {
        Append(PollFd(fd, events.read, events.write));
      }
      r := 0;
    }

    /** Writes an entry in place. */
    method Put(i: nat, p: PollFd)
      requires Valid() && i < nfds && p.fd == eventSet[i].fd && (p.input || p.output)
      modifies eventSet
      ensures Valid() && Watched(p.fd) == Watch(p.input, p.output)
      ensures forall other :: other != p.fd ==> Watched(other) == old(Watched(other))
    {
      ghost var set_ := eventSet[..nfds];
      Rewritten(set_, idxplus1, i, p);
      eventSet[i] := p;
      assert eventSet[..nfds] == set_[i := p];
    }

    /** Takes the next entry for a descriptor that has none. */
    method Append(p: PollFd)
      requires Valid() && nfds < eventSet.Length && Idx(idxplus1, p.fd) == 0 && (p.input || p.output)
      modifies this`nfds, this`idxplus1, eventSet
      ensures Valid() && Watched(p.fd) == Watch(p.input, p.output)
      ensures forall other :: other != p.fd ==> Watched(other) == old(Watched(other))
    {
      ghost var set_, idx := eventSet[..nfds], idxplus1;
      Appended(set_, idx, p);
      var i := nfds;
      nfds := nfds + 1;
      eventSet[i] := p;
      idxplus1 := idxplus1[p.fd := i + 1];
      assert eventSet[..nfds] == set_ + [p];
    }

    /** `poll_del`: -1 for a descriptor that is not watched. */
    method Del(fd: int, events: Mask) returns (r: int)
      requires Valid()
      modifies this`nfds, this`idxplus1, eventSet
      ensures Valid()
      ensures r == if (events.read || events.write) && old(Watched(fd)) == NOTHING then -1 else 0
      ensures Watched(fd) == Minus(old(Watched(fd)), events)
      ensures forall other :: other != fd ==> Watched(other) == old(Watched(other))
    {
      if !events.read && !events.write {
        return 0;
      }
      ghost var set_, idx := eventSet[..nfds], idxplus1;
      var i := Idx(idxplus1, fd) - 1;
      if i < 0 {
        return -1;
      }
      assert set_[i].fd == fd && Idx(idx, fd) == i + 1 && (set_[i].input || set_[i].output) by {
        assert Look(fd) && Look(i);
      }
      var p := eventSet[i];
      var changed := PollFd(p.fd, p.input && !events.read, p.output && !events.write);
      if changed.input || changed.output {
        Put(i, changed);
        return 0;
      }
      Drop(i);
      r := 0;
    }

    /** The entry is not needed any more: the last one takes its place. */
    method Drop(i: nat)
      requires Valid() && i < nfds
      modifies this`nfds, this`idxplus1, eventSet
      ensures Valid() && Watched(old(eventSet[i].fd)) == NOTHING
      ensures forall other :: other != old(eventSet[i].fd) ==> Watched(other) == old(Watched(other))
    {
      ghost var set_, idx := eventSet[..nfds], idxplus1;
      SwappedOut(set_, idx, i);
      idxplus1 := idxplus1[eventSet[i].fd := 0];
      nfds := nfds - 1;
      if i != nfds {
        eventSet[i] := eventSet[nfds];
        idxplus1 := idxplus1[eventSet[i].fd := i + 1];
      }
      assert eventSet[..nfds] == Dropped(set_, i);
    }
  }
}
