/** The event base of evmap.c: a growing table of records that index an array of pending changes. */
module EvmapCode {
  import opened Common
  import opened Epoll
  import opened Evmap

  /** A pointer to `struct evmap_io` with the `idxplus1` of its changelist data, or NULL. */
  datatype Slot = Null | Ctx(io: Io, idxplus1: nat)

  // ---------- the two tables and how they index each other ----------

  predicate Holds(entries: seq<Slot>, fd: int) {
    0 <= fd < |entries| && entries[fd].Ctx?
  }

  /** The assertions of `event_changelist_check`: records and pending changes index each other. */
  ghost predicate Linked(entries: seq<Slot>, cs: seq<Change>) {
    && (forall k {:trigger Look(k)} :: Look(k) && 0 <= k < |cs| ==>
          Holds(entries, cs[k].fd) && entries[cs[k].fd].idxplus1 == k + 1)
    && (forall i {:trigger Look(i)} :: Look(i) && Holds(entries, i) && entries[i].idxplus1 != 0 ==>
          entries[i].idxplus1 <= |cs| && cs[entries[i].idxplus1 - 1].fd == i)
  }

  ghost predicate Counted(entries: seq<Slot>) {
    forall i {:trigger Look(i)} :: Look(i) && Holds(entries, i) ==> Consistent(entries[i].io)
  }

  function IoAt(entries: seq<Slot>, fd: int): Io {
    if Holds(entries, fd) then entries[fd].io else EMPTY
  }

  function PendingAt(entries: seq<Slot>, cs: seq<Change>, fd: int): Option<Change> {
    if Holds(entries, fd) && 0 < entries[fd].idxplus1 <= |cs| then Some(cs[entries[fd].idxplus1 - 1]) else None
  }

  lemma PlaceOf(entries: seq<Slot>, cs: seq<Change>, fd: nat)
    requires Linked(entries, cs) && Holds(entries, fd) && entries[fd].idxplus1 != 0
    ensures entries[fd].idxplus1 <= |cs| && cs[entries[fd].idxplus1 - 1].fd == fd
  {
    assert Look(fd);
  }

  /** No descriptor has two entries in the changelist. */
  lemma OneEntryPerFd(entries: seq<Slot>, cs: seq<Change>, j: nat, k: nat)
    requires Linked(entries, cs) && j < |cs| && k < |cs| && cs[j].fd == cs[k].fd
    ensures j == k
  {
    assert Look(j) && Look(k);
  }

  /** More slots, all empty. */
  lemma MoreSlots(entries: seq<Slot>, cs: seq<Change>, cleared: seq<Slot>)
    requires Linked(entries, cs) && Counted(entries)
    requires forall i :: 0 <= i < |cleared| ==> cleared[i] == Null
    ensures Linked(entries + cleared, cs) && Counted(entries + cleared)
  {
  }

  lemma NewRecord(entries: seq<Slot>, cs: seq<Change>, fd: nat)
    requires Linked(entries, cs) && Counted(entries) && fd < |entries| && entries[fd] == Null
    ensures Linked(entries[fd := Ctx(EMPTY, 0)], cs) && Counted(entries[fd := Ctx(EMPTY, 0)])
  {
  }

  /** Appending a change and noting its place in the record. */
  lemma NewChange(entries: seq<Slot>, cs: seq<Change>, c: Change)
    requires Linked(entries, cs) && Counted(entries) && Holds(entries, c.fd) && entries[c.fd].idxplus1 == 0
    ensures var entries' := entries[c.fd := entries[c.fd].(idxplus1 := |cs| + 1)];
      Linked(entries', cs + [c]) && Counted(entries')
  {
  }

  lemma NewChangeOthers(entries: seq<Slot>, cs: seq<Change>, c: Change, n: int)
    requires Linked(entries, cs) && Holds(entries, c.fd) && entries[c.fd].idxplus1 == 0 && n != c.fd
    ensures var entries' := entries[c.fd := entries[c.fd].(idxplus1 := |cs| + 1)];
      IoAt(entries', n) == IoAt(entries, n) && PendingAt(entries', cs + [c], n) == PendingAt(entries, cs, n)
  {
    assert Look(n);
  }

  /** Rewriting a change in place. */
  lemma SameChange(entries: seq<Slot>, cs: seq<Change>, k: nat, c: Change)
    requires Linked(entries, cs) && k < |cs| && c.fd == cs[k].fd
    ensures Linked(entries, cs[k := c]) && PendingAt(entries, cs[k := c], c.fd) == Some(c)
  {
    assert Look(k);
  }

  lemma SameChangeOthers(entries: seq<Slot>, cs: seq<Change>, k: nat, c: Change, n: int)
    requires Linked(entries, cs) && k < |cs| && c.fd == cs[k].fd && n != c.fd
    ensures PendingAt(entries, cs[k := c], n) == PendingAt(entries, cs, n)
  {
    assert Look(n);
  }

  /** Replacing the list and the counts of a record. */
  lemma NewIo(entries: seq<Slot>, cs: seq<Change>, fd: nat, io: Io)
    requires Linked(entries, cs) && Counted(entries) && Holds(entries, fd) && Consistent(io)
    ensures Linked(entries[fd := entries[fd].(io := io)], cs) && Counted(entries[fd := entries[fd].(io := io)])
  {
  }

  // ---------- the base ----------

  class EventBase {
    /** `io.entries`, of length `io.nentries`. */
    var entries: seq<Slot>
    /** `changelist.changes`, of length `changes_size`, and `n_changes`. */
    var changes: array<Change>
    var nChanges: nat
    const kernel: Kernel
    /** Is `evsel` the changelist variant of epoll? */
    const deferring: bool

    ghost predicate Valid()
      reads this, changes
    {
      && nChanges <= changes.Length && Linked(entries, changes[..nChanges]) && Counted(entries)
      && (!deferring ==> nChanges == 0)
    }

    /** Everything there is to know about a descriptor. */
    ghost function View(fd: int): Fd
      reads this, changes, kernel
      requires Valid()
    {
      Fd(IoAt(entries, fd), PendingAt(entries, changes[..nChanges], fd), kernel.At(fd))
    }

    constructor (deferring: bool)
      ensures Valid() && fresh(changes) && fresh(kernel)
      ensures this.deferring == deferring
      ensures forall fd :: View(fd) == Fd(EMPTY, None, None)
    {
      this.deferring := deferring;
      entries, nChanges := [], 0;
      changes := new Change[0];
      kernel := new Kernel();
    }

    // ---------- the table ----------

    /** `evmap_make_space`: room for the slot, by doubling from the present size or from 32. */
    method MakeSpace(slot: nat)
      requires Valid()
      modifies this`entries
      ensures Valid() && |entries| > slot
      ensures |entries| <=
        if old(|entries|) > slot then old(|entries|) else if old(|entries|) == 0 && slot < 32 then 32 else 2 * slot
      ensures forall fd :: View(fd) == old(View(fd))
    {
      var present: nat := |entries|;
      if present <= slot {
        var nentries: int := if present != 0 then present else 32;
        while nentries <= slot
          invariant present <= nentries && 0 < nentries && entries == old(entries)
          invariant if present == 0 && slot < 32 then nentries == 32 else nentries <= 2 * slot
          decreases slot - nentries
        {
          nentries := nentries * 2;
        }
        var cleared := Cleared(nentries - present);
        MoreSlots(entries, changes[..nChanges], cleared);
        entries := entries + cleared;
      }
    }

    /** `GET_IO_SLOT_AND_CTOR`. */
    method GetCtx(fd: nat)
      requires Valid()
      modifies this`entries
      ensures Valid() && Holds(entries, fd)
      ensures forall other :: View(other) == old(View(other))
    {
      MakeSpace(fd);
      if entries[fd] == Null {
        NewRecord(entries, changes[..nChanges], fd);
        entries := entries[fd := Ctx(EMPTY, 0)];
      }
    }

    // ---------- the changelist ----------

    /** `event_changelist_grow`: 64 entries, then twice as many. */
    method Grow()
      requires Valid()
      modifies this`changes
      ensures Valid() && fresh(changes) && changes[..nChanges] == old(changes[..nChanges])
      ensures changes.Length == if old(changes.Length) < 64 then 64 else 2 * old(changes.Length)
    {
      var present := changes;
      var newSize := if present.Length < 64 then 64 else 2 * present.Length;
      var grown := new Change[newSize];
      for i := 0 to nChanges
        invariant forall k :: 0 <= k < i ==> grown[k] == present[k]
      {
        grown[i] := present[i];
      }
      changes := grown;
      assert changes[..nChanges] == old(changes[..nChanges]);
    }

    /** The branch of `event_changelist_get_or_construct` that appends an entry. */
    method AppendChange(change: Change) returns (idx: nat)
      requires Valid() && deferring && nChanges < changes.Length
      requires Holds(entries, change.fd) && entries[change.fd].idxplus1 == 0
      modifies this`entries, this`nChanges, changes
      ensures Valid() && idx < nChanges && changes[idx] == change && Holds(entries, change.fd)
      ensures IoAt(entries, change.fd) == old(IoAt(entries, change.fd))
      ensures PendingAt(entries, changes[..nChanges], change.fd) == Some(change)
      ensures forall other :: other != change.fd ==> View(other) == old(View(other))
    {
      ghost var es, cs := entries, changes[..nChanges];
      NewChange(es, cs, change);
      idx := nChanges;
      nChanges := nChanges + 1;
      entries := entries[change.fd := entries[change.fd].(idxplus1 := idx + 1)];
      changes[idx] := change;
      assert changes[..nChanges] == cs + [change];
      forall other | other != change.fd ensures View(other) == old(View(other)) {
        NewChangeOthers(es, cs, change, other);
      }
    }

    /** `event_changelist_get_or_construct`: the place of the entry of the descriptor. */
    method GetOrConstructChange(fd: nat, was: Watch) returns (idx: nat)
      requires Valid() && deferring && Holds(entries, fd)
      modifies this`entries, this`changes, this`nChanges, changes
      ensures Valid() && (changes == old(changes) || fresh(changes))
      ensures idx < nChanges && Holds(entries, fd) && changes[idx].fd == fd
      ensures IoAt(entries, fd) == old(IoAt(entries, fd))
      ensures PendingAt(entries, changes[..nChanges], fd) == Some(changes[idx])
      ensures changes[idx] == GetOrConstruct(old(View(fd)).pending, fd, was)
      ensures forall other :: other != fd ==> View(other) == old(View(other))
    {
      if entries[fd].idxplus1 == 0 {
        if nChanges == changes.Length {
          Grow();
        }
        idx := AppendChange(Change(fd, was, Keep, Keep));
      } else {
        PlaceOf(entries, changes[..nChanges], fd);
        idx := entries[fd].idxplus1 - 1;
      }
    }

    /** Writes an entry back; the C code changes it through the pointer. */
    method PutChange(idx: nat, change: Change)
      requires Valid() && idx < nChanges && changes[idx].fd == change.fd
      modifies changes
      ensures Valid() && PendingAt(entries, changes[..nChanges], change.fd) == Some(change)
      ensures forall other :: other != change.fd ==> View(other) == old(View(other))
    {
      ghost var cs := changes[..nChanges];
      SameChange(entries, cs, idx, change);
      changes[idx] := change;
      assert changes[..nChanges] == cs[idx := change];
      forall other | other != change.fd ensures View(other) == old(View(other)) {
        SameChangeOthers(entries, cs, idx, change, other);
      }
    }

    /** `event_changelist_add`. */
    method ChangelistAdd(fd: nat, was: Watch, events: Mask)
      requires Valid() && deferring && Holds(entries, fd)
      modifies this`entries, this`changes, this`nChanges, changes
      ensures Valid() && (changes == old(changes) || fresh(changes)) && Holds(entries, fd)
      ensures View(fd) == old(View(fd)).(
        pending := Some(ChangeAdd(GetOrConstruct(old(View(fd)).pending, fd, was), events)))
      ensures forall other :: other != fd ==> View(other) == old(View(other))
    {
      var idx := GetOrConstructChange(fd, was);
      var change := changes[idx];
      if events.read {
        change := change.(read := Adds(events.et));
      }
      if events.write {
        change := change.(write := Adds(events.et));
      }
      PutChange(idx, change);
    }

    /** `event_changelist_del`. */
    method ChangelistDel(fd: nat, was: Watch, events: Mask)
      requires Valid() && deferring && Holds(entries, fd)
      modifies this`entries, this`changes, this`nChanges, changes
      ensures Valid() && (changes == old(changes) || fresh(changes)) && Holds(entries, fd)
      ensures View(fd) == old(View(fd)).(
        pending := Some(ChangeDel(GetOrConstruct(old(View(fd)).pending, fd, was), events)))
      ensures forall other :: other != fd ==> View(other) == old(View(other))
    {
      var idx := GetOrConstructChange(fd, was);
      var change := changes[idx];
      if events.read {
        if !change.was.read && change.read.Adds? {
          change := change.(read := Keep);
        } else {
          change := change.(read := Deletes);
        }
      }
      if events.write {
        if !change.was.write && change.write.Adds? {
          change := change.(write := Keep);
        } else {
          change := change.(write := Deletes);
        }
      }
      PutChange(idx, change);
    }

    // ---------- adding and deleting ----------

    /** `evsel->add`: the changelist, or `epoll_nochangelist_add`. */
    method BackendAdd(fd: nat, was: Watch, events: Mask)
      requires Valid() && Holds(entries, fd)
      modifies this`entries, this`changes, this`nChanges, changes, kernel
      ensures Valid() && (changes == old(changes) || fresh(changes)) && Holds(entries, fd)
      ensures View(fd) ==
        if deferring then old(View(fd)).(
          pending := Some(ChangeAdd(GetOrConstruct(old(View(fd)).pending, fd, was), events)))
        else old(View(fd)).(kernel := Applied(ChangeAdd(Change(fd, was, Keep, Keep), events), old(View(fd)).kernel))
      ensures forall other :: other != fd ==> View(other) == old(View(other))
    {
      if deferring {
        ChangelistAdd(fd, was, events);
      } else {
        var ch := Change(fd, was, Keep, Keep);
        if events.write {
          ch := ch.(write := Adds(events.et));
        }
        if events.read {
          ch := ch.(read := Adds(events.et));
        }
        var r := kernel.ApplyOneChange(ch);
      }
    }

    /** `evsel->del`: the changelist, or `epoll_nochangelist_del`. */
    method BackendDel(fd: nat, was: Watch, events: Mask)
      requires Valid() && Holds(entries, fd)
      modifies this`entries, this`changes, this`nChanges, changes, kernel
      ensures Valid() && (changes == old(changes) || fresh(changes)) && Holds(entries, fd)
      ensures View(fd) ==
        if deferring then old(View(fd)).(
          pending := Some(ChangeDel(GetOrConstruct(old(View(fd)).pending, fd, was), events)))
        else old(View(fd)).(kernel := Applied(ChangeDel(Change(fd, was, Keep, Keep), events), old(View(fd)).kernel))
      ensures forall other :: other != fd ==> View(other) == old(View(other))
    {
      if deferring {
        ChangelistDel(fd, was, events);
      } else {
        var ch := Change(fd, was, Keep, Keep);
        if events.write {
          ch := ch.(write := Deletes);
        }
        if events.read {
          ch := ch.(read := Deletes);
        }
        var r := kernel.ApplyOneChange(ch);
      }
    }

    /** Stores the new list and counts of a descriptor. */
    method PutIo(fd: nat, io: Io)
      requires Valid() && Holds(entries, fd) && Consistent(io)
      modifies this`entries
      ensures Valid() && View(fd) == old(View(fd)).(io := io)
      ensures forall other :: other != fd ==> View(other) == old(View(other))
    {
      NewIo(entries, changes[..nChanges], fd, io);
      entries := entries[fd := entries[fd].(io := io)];
    }

    /** What a step does to a descriptor, by the backend in use. */
    ghost function Stepped(fd: int, v: Fd, step: Step): Fd
      requires Allowed(v, step)
    {
      if deferring then Deferred(fd, v, step) else Immediate(fd, v, step)
    }

    /**
      `evmap_io_add`: -1 and no change at all for an event too many or one that mixes trigger
      modes, else 1 if the backend had to be told and 0 if not.
      */
    method IoAdd(fd: int, ev: Event) returns (retval: int)
      requires Valid() && Allowed(View(fd), Add(ev))
      modifies this`entries, this`changes, this`nChanges, changes, kernel
      ensures Valid() && (changes == old(changes) || fresh(changes))
      ensures retval == if fd < 0 then 0 else if AddFails(old(View(fd)).io, ev) then -1
                        else if Matters(AddMask(old(View(fd)).io, ev)) then 1 else 0
      ensures View(fd) == if fd < 0 then old(View(fd)) else Stepped(fd, old(View(fd)), Add(ev))
      ensures forall other :: other != fd ==> View(other) == old(View(other))
    {
      if fd < 0 {
        return 0;
      }
      GetCtx(fd);
      var io := entries[fd].io;
      var nread, nwrite := io.nread, io.nwrite;
      var was := Watch(nread > 0, nwrite > 0);
      var res := Mask(false, false, ev.et);
      if ev.read {
        nread := nread + 1;
        if nread == 1 {
          res := res.(read := true);
        }
      }
      if ev.write {
        nwrite := nwrite + 1;
        if nwrite == 1 {
          res := res.(write := true);
        }
      }
      if nread > 0xffff || nwrite > 0xffff {
        return -1;
      }
      if io.events != [] && io.events[0].et != ev.et {
        return -1;
      }
      assert res == AddMask(io, ev);
      retval := Enlist(fd, ev, was, res, nread, nwrite);
    }

    /** The end of `evmap_io_add`: the backend is told, then the counts and the list are updated. */
    method Enlist(fd: nat, ev: Event, was: Watch, res: Mask, nread: nat, nwrite: nat) returns (retval: int)
      requires Valid() && Holds(entries, fd) && Allowed(View(fd), Add(ev)) && !AddFails(View(fd).io, ev)
      requires was == Watching(View(fd).io) && res == AddMask(View(fd).io, ev)
      requires nread == View(fd).io.nread + One(ev.read) && nwrite == View(fd).io.nwrite + One(ev.write)
      modifies this`entries, this`changes, this`nChanges, changes, kernel
      ensures Valid() && (changes == old(changes) || fresh(changes))
      ensures retval == if Matters(res) then 1 else 0
      ensures View(fd) == Stepped(fd, old(View(fd)), Add(ev))
      ensures forall other :: other != fd ==> View(other) == old(View(other))
    {
      retval := 0;
      var io := entries[fd].io;
      if res.read || res.write {
        BackendAdd(fd, was, res);
        retval := 1;
      }
      assert Consistent(io) by {
        assert Look(fd);
      }
      AddKeepsCounts(io, ev);
      PutIo(fd, Io(io.events + [ev], nread, nwrite));
    }

    /**
      `evmap_io_del`: -1 for a descriptor outside the table, else 1 if the backend had to be told and
      0 if not; the assertions `nread >= 0` and `nwrite >= 0` hold.
      */
    method IoDel(fd: int, ev: Event) returns (retval: int)
      requires Valid() && (0 <= fd < |entries| ==> Allowed(View(fd), Del(ev)))
      modifies this`entries, this`changes, this`nChanges, changes, kernel
      ensures Valid() && (changes == old(changes) || fresh(changes))
      ensures retval == if fd < 0 then 0 else if fd >= old(|entries|) then -1
                        else if Matters(DelMask(old(View(fd)).io, ev)) then 1 else 0
      ensures View(fd) == if 0 <= fd < old(|entries|) then Stepped(fd, old(View(fd)), Del(ev)) else old(View(fd))
      ensures forall other :: other != fd ==> View(other) == old(View(other))
    {
      if fd < 0 {
        return 0;
      }
      if fd >= |entries| {
        return -1;
      }
      retval := 0;
      var io := entries[fd].io;
      var nread: int, nwrite: int := io.nread, io.nwrite;
      var was := Watch(nread > 0, nwrite > 0);
      var res := Mask(false, false, false);
      if ev.read {
        nread := nread - 1;
        if nread == 0 {
          res := res.(read := true);
        }
        assert nread >= 0;
      }
      if ev.write {
        nwrite := nwrite - 1;
        if nwrite == 0 {
          res := res.(write := true);
        }
        assert nwrite >= 0;
      }
      if res.read || res.write {
        BackendDel(fd, was, res);
        retval := 1;
      }
      assert Consistent(io) by {
        assert Look(fd);
      }
      DelKeepsCounts(io, ev);
      PutIo(fd, Io(Without(io.events, ev), nread, nwrite));
    }

    // ---------- dispatch ----------

    /** `epoll_apply_changes`: every change in turn. */
    method ApplyChanges() returns (r: int)
      requires Valid()
      modifies kernel
      ensures Valid() && r == 0
      ensures forall fd :: View(fd) == old(View(fd)).(kernel := Deferred(fd, old(View(fd)), Step.Dispatch).kernel)
    {
      r := 0;
      ghost var cs := changes[..nChanges];
      for i := 0 to nChanges
        invariant r == 0
        invariant forall k :: 0 <= k < i ==> kernel.At(cs[k].fd) == Applied(cs[k], old(kernel.At(cs[k].fd)))
        invariant forall fd :: (forall k :: 0 <= k < i ==> cs[k].fd != fd) ==> kernel.At(fd) == old(kernel.At(fd))
      {
        forall k | 0 <= k < i ensures cs[k].fd != cs[i].fd {
          if cs[k].fd == cs[i].fd {
            OneEntryPerFd(entries, cs, k, i);
          }
        }
        label before:
        var one := kernel.ApplyOneChange(changes[i]);
        if one < 0 {
          r := -1;
        }
      }
      forall fd ensures View(fd) == old(View(fd)).(kernel := Deferred(fd, old(View(fd)), Step.Dispatch).kernel) {
        if old(View(fd)).pending.Some? {
          PlaceOf(entries, cs, fd);
        } else {
          forall k | 0 <= k < nChanges ensures cs[k].fd != fd {
            assert Look(k);
          }
        }
      }
    }

    /** `event_changelist_remove_all`. */
    method RemoveAll()
      requires Valid()
      modifies this`entries, this`nChanges
      ensures Valid() && nChanges == 0
      ensures forall fd :: View(fd) == old(View(fd)).(pending := None)
    {
      ghost var es, cs := entries, changes[..nChanges];
      for i := 0 to nChanges
        invariant Unlinked(es, cs, i, entries)
      {
        assert cs[i] == changes[i];
        UnlinkOne(es, cs, i, entries);
        entries := entries[changes[i].fd := entries[changes[i].fd].(idxplus1 := 0)];
      }
      UnlinkAll(es, cs, entries);
      nChanges := 0;
    }

    /** The start of `epoll_dispatch`: what is pending takes effect and is forgotten. */
    method Dispatch()
      requires Valid()
      modifies this`entries, this`nChanges, kernel
      ensures Valid()
      ensures forall fd :: View(fd) == Stepped(fd, old(View(fd)), Step.Dispatch)
    {
      var r := ApplyChanges();
      RemoveAll();
    }
  }

  // ---------- taking the changes off the records ----------

  /** The first `i` changes have been taken off their records. */
  ghost predicate Unlinked(es: seq<Slot>, cs: seq<Change>, i: int, entries: seq<Slot>) {
    && 0 <= i <= |cs| && |entries| == |es|
    && forall n {:trigger Look(n)} :: Look(n) && 0 <= n < |es| ==>
         entries[n] == if es[n].Ctx? && 0 < es[n].idxplus1 <= i then es[n].(idxplus1 := 0) else es[n]
  }

  lemma UnlinkOne(es: seq<Slot>, cs: seq<Change>, i: nat, entries: seq<Slot>)
    requires Linked(es, cs) && i < |cs| && Unlinked(es, cs, i, entries)
    ensures Holds(entries, cs[i].fd) && entries[cs[i].fd].idxplus1 == i + 1
    ensures Unlinked(es, cs, i + 1, entries[cs[i].fd := entries[cs[i].fd].(idxplus1 := 0)])
  {
    assert Look(i) && Look(cs[i].fd);
  }

  lemma UnlinkAll(es: seq<Slot>, cs: seq<Change>, entries: seq<Slot>)
    requires Linked(es, cs) && Counted(es) && Unlinked(es, cs, |cs|, entries)
    ensures Linked(entries, []) && Counted(entries)
    ensures forall fd :: IoAt(entries, fd) == IoAt(es, fd) && PendingAt(entries, [], fd) == None
  {
    forall fd ensures IoAt(entries, fd) == IoAt(es, fd) {
      assert Look(fd);
    }
  }

  function Cleared(n: nat): (slots: seq<Slot>)
    ensures |slots| == n && forall i :: 0 <= i < n ==> slots[i] == Null
  {
    if n == 0 then [] else [Null] + Cleared(n - 1)
  }
}
