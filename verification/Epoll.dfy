/**
  changelist-internal.h and epoll.c: pending changes to what the kernel watches on a descriptor,
  and how one change becomes a call to `epoll_ctl`.
  */
module Epoll {
  import opened Common

  /** Whether reading and writing are of interest (EV_READ, EV_WRITE). */
  datatype Watch = Watch(read: bool, write: bool)

  /** The `events` argument of a backend's add and del: what to change, and EV_ET. */
  datatype Mask = Mask(read: bool, write: bool, et: bool)

  /** `read_change` and `write_change`: 0, EV_CHANGE_ADD with flags, or EV_CHANGE_DEL. */
  datatype Action = Keep | Adds(et: bool) | Deletes

  /** `struct event_change`. */
  datatype Change = Change(fd: int, was: Watch, read: Action, write: Action)

  /** The events registered with epoll for a descriptor. */
  datatype Interest = Interest(input: bool, output: bool, et: bool)

  const NOTHING := Watch(false, false)

  // ---------- changes ----------

  /** `event_changelist_add` on the entry of the descriptor. */
  function ChangeAdd(c: Change, events: Mask): Change {
    c.(read := if events.read then Adds(events.et) else c.read,
       write := if events.write then Adds(events.et) else c.write)
  }

  function DeleteAction(was: bool, a: Action): Action {
    if !was && a.Adds? then Keep else Deletes
  }

  /** `event_changelist_del`: a delete removes an earlier add of something that was not there before. */
  function ChangeDel(c: Change, events: Mask): Change {
    c.(read := if events.read then DeleteAction(c.was.read, c.read) else c.read,
       write := if events.write then DeleteAction(c.was.write, c.write) else c.write)
  }

  function After1(was: bool, a: Action): bool {
    a.Adds? || (a.Keep? && was)
  }

  /** What should be watched once the change has been made. */
  function After(c: Change): Watch {
    Watch(After1(c.was.read, c.read), After1(c.was.write, c.write))
  }

  /** Is there anything left to do? */
  predicate NetChange(c: Change) {
    !c.read.Keep? || !c.write.Keep?
  }

  // ---------- the kernel ----------

  datatype Op = AddOp | ModOp | DelOp

  datatype Errno = ENOENT | EEXIST

  /** `epoll_ctl` on one descriptor: the error, if any, and what is registered afterwards. */
  function EpollCtl(k: Option<Interest>, op: Op, events: Interest): (Option<Errno>, Option<Interest>) {
    match op
    case AddOp => if k.Some? then (Some(EEXIST), k) else (None, Some(events))
    case ModOp => if k.None? then (Some(ENOENT), k) else (None, Some(events))
    case DelOp => if k.None? then (Some(ENOENT), k) else (None, None)
  }

  /** What the kernel reports on. */
  function Bits(k: Option<Interest>): Watch {
    if k.None? then NOTHING else Watch(k.value.input, k.value.output)
  }

  /** A registration always asks for something. */
  predicate Registered(k: Option<Interest>) {
    k.Some? ==> k.value.input || k.value.output
  }

  predicate AddsEdge(a: Action) {
    a.Adds? && a.et
  }

  /** What `epoll_apply_one_change` leaves registered. */
  function Applied(c: Change, k: Option<Interest>): Option<Interest> {
    if !NetChange(c) then k
    else if After(c) == NOTHING then None
    else Some(Interest(After(c).read, After(c).write, AddsEdge(c.read) || AddsEdge(c.write)))
  }

  /**
    A net change takes effect whether or not the kernel still knew the descriptor (it may have
    been closed and reopened, or duplicated); without one, nothing is touched.
    */
  lemma AppliedWatches(c: Change, k: Option<Interest>)
    ensures Registered(k) ==> Registered(Applied(c, k))
    ensures NetChange(c) ==> Bits(Applied(c, k)) == After(c)
    ensures !NetChange(c) ==> Applied(c, k) == k && After(c) == c.was
  {
  }

  /** The registered events of all descriptors, changed by `epoll_ctl` only. */
  class Kernel {
    var table: map<int, Interest>

    constructor ()
      ensures table == map[]
    {
      table := map[];
    }

    ghost function At(fd: int): (k: Option<Interest>)
      reads this
    {
      if fd in table then Some(table[fd]) else None
    }

    method Ctl(op: Op, fd: int, events: Interest) returns (errno: Option<Errno>)
      modifies this
      ensures (errno, At(fd)) == EpollCtl(old(At(fd)), op, events)
      ensures forall other :: other != fd ==> At(other) == old(At(other))
    {
      errno := None;
      match op
      case AddOp =>
        if fd in table {
          return Some(EEXIST);
        }
        table := table[fd := events];
      case ModOp =>
        if fd !in table {
          return Some(ENOENT);
        }
        table := table[fd := events];
      case DelOp =>
        if fd !in table {
          return Some(ENOENT);
        }
        table := table - {fd};
    }

    /** `epoll_apply_one_change`; with ENOENT and EEXIST as the only errors, it always succeeds. */
    method ApplyOneChange(ch: Change) returns (r: int)
      modifies this
      ensures r == 0
      ensures At(ch.fd) == Applied(ch, old(At(ch.fd)))
      ensures forall other :: other != ch.fd ==> At(other) == old(At(other))
    {
      var op := AddOp;
      var input, output, et := false, false, false;
      if ch.read.Adds? || ch.write.Adds? {
        if ch.read.Adds? {
          input := true;
        } else if ch.read.Deletes? {
        } else if ch.was.read {
          input := true;
        }
        if ch.write.Adds? {
          output := true;
        } else if ch.write.Deletes? {
        } else if ch.was.write {
          output := true;
        }
        if AddsEdge(ch.read) || AddsEdge(ch.write) {
          et := true;
        }
        if ch.was.read || ch.was.write {
          op := ModOp;
        }
      } else if ch.read.Deletes? || ch.write.Deletes? {
        op := DelOp;
        if ch.read.Deletes? {
          if ch.write.Deletes? {
            input, output := true, true;
          } else if ch.was.write {
            output := true;
            op := ModOp;
          } else {
            input := true;
          }
        } else if ch.write.Deletes? {
          if ch.was.read {
            input := true;
            op := ModOp;
          } else {
            output := true;
          }
        }
      }
      if !input && !output {
        return 0;
      }
      var epev := Interest(input, output, et);
      var errno := Ctl(op, ch.fd, epev);
      if errno.Some? {
        if op == ModOp && errno.value == ENOENT {
          var again := Ctl(AddOp, ch.fd, epev);
          if again.Some? {
            return -1;
          }
        } else if op == AddOp && errno.value == EEXIST {
          var again := Ctl(ModOp, ch.fd, epev);
          if again.Some? {
            return -1;
          }
        } else if op == DelOp && errno.value == ENOENT {
          // closed before the dispatch: nothing to delete
        } else {
          return -1;
        }
      }
      r := 0;
    }
  }
}
