/** What evmap relies on in every backend, and the order in which poll and select report. */
module Backend {
  import opened Epoll
  import opened Evmap

  function Plus(w: Watch, m: Mask): Watch {
    Watch(w.read || m.read, w.write || m.write)
  }

  function Minus(w: Watch, m: Mask): Watch {
    Watch(w.read && !m.read, w.write && !m.write)
  }

  /** A backend that watches what is counted does so after an add and after a delete as well. */
  lemma CountsStayWatched(io: Io, ev: Event)
    requires Consistent(io)
    ensures !AddFails(io, ev) ==> Plus(Watching(io), AddMask(io, ev)) == Watching(Added(io, ev))
    ensures ev in io.events ==> io.nread >= One(ev.read) && io.nwrite >= One(ev.write)
    ensures ev in io.events ==> Minus(Watching(io), DelMask(io, ev)) == Watching(Deleted(io, ev))
  {
    if ev in io.events {
      DelKeepsCounts(io, ev);
    }
  }

  // ---------- histories of adds and deletes ----------

  /** A call of `evmap_io_add` or `evmap_io_del`. */
  datatype Request = AddEvent(fd: int, ev: Event) | DelEvent(fd: int, ev: Event)

  /** Every descriptor is consistent. */
  ghost predicate Sound(io: map<int, Io>) {
    forall fd {:trigger IoOf(io, fd)} :: Consistent(IoOf(io, fd))
  }

  /** What event.c guarantees: it adds only events that are not listed, and deletes only listed ones. */
  predicate Permitted(io: map<int, Io>, r: Request) {
    match r
    case AddEvent(fd, ev) => forall e :: e in IoOf(io, fd).events ==> e.id != ev.id
    case DelEvent(fd, ev) => fd < 0 || ev in IoOf(io, fd).events
  }

  /** The descriptors after a request; one for a negative descriptor, and an add that is refused, change nothing. */
  function Requested(io: map<int, Io>, r: Request): map<int, Io> {
    var was := IoOf(io, r.fd);
    if r.fd < 0 then io
    else if r.AddEvent? then
      if AddFails(was, r.ev) then io else io[r.fd := Added(was, r.ev)]
    else if was.nread >= One(r.ev.read) && was.nwrite >= One(r.ev.write) then io[r.fd := Deleted(was, r.ev)]
    else io
  }

  function RequestResult(io: map<int, Io>, r: Request): int {
    var was := IoOf(io, r.fd);
    if r.fd < 0 then 0
    else if r.AddEvent? then
      if AddFails(was, r.ev) then -1 else if Matters(AddMask(was, r.ev)) then 1 else 0
    else if Matters(DelMask(was, r.ev)) then 1 else 0
  }

  predicate Lawful(io: map<int, Io>, history: seq<Request>)
    decreases |history|
  {
    history == [] || (Permitted(io, history[0]) && Lawful(Requested(io, history[0]), history[1..]))
  }

  function AllRequested(io: map<int, Io>, history: seq<Request>): map<int, Io>
    decreases |history|
  {
    if history == [] then io else AllRequested(Requested(io, history[0]), history[1..])
  }

  lemma RequestKeepsSound(io: map<int, Io>, r: Request)
    requires Sound(io) && Permitted(io, r)
    ensures Sound(Requested(io, r))
  {
    var was := IoOf(io, r.fd);
    if r.AddEvent? && !AddFails(was, r.ev) {
      AddKeepsCounts(was, r.ev);
    } else if r.DelEvent? && r.fd >= 0 {
      DelKeepsCounts(was, r.ev);
    }
    forall fd ensures Consistent(IoOf(Requested(io, r), fd)) {
      assert Consistent(IoOf(io, fd));
    }
  }

  // ---------- the rotation ----------

  /** The index visited in turn `j` when the random start was `start`. */
  function Visited(start: nat, n: nat, j: nat): nat
    requires start < n
  {
    if start + 1 + j < n then start + 1 + j else start + 1 + j - n
  }

  /** Starting anywhere, each index has exactly one turn. */
  lemma EachOnce(start: nat, n: nat, i: nat)
    requires start < n && i < n
    ensures exists j :: 0 <= j < n && Visited(start, n, j) == i
    ensures forall j, k :: 0 <= j < n && 0 <= k < n && Visited(start, n, j) == i == Visited(start, n, k) ==> j == k
  {
    var j: int := if i > start then i - start - 1 else i - start - 1 + n;
    assert Visited(start, n, j) == i;
  }

  /** What a descriptor was reported for, and EV_READ and EV_WRITE. */
  datatype Report = Report(fd: int, read: bool, write: bool)

  /** The ready entries in the order of their turns, from turn `j` on. */
  function Reports(ready: seq<Report>, start: nat, j: nat): seq<Report>
    requires start < |ready| && j <= |ready|
    decreases |ready| - j
  {
    if j == |ready| then []
    else
      var r := ready[Visited(start, |ready|, j)];
      (if r.read || r.write then [r] else []) + Reports(ready, start, j + 1)
  }

  lemma ReportsNext(ready: seq<Report>, start: nat, j: nat, i: nat, before: seq<Report>)
    requires start < |ready| && j < |ready| && i == Visited(start, |ready|, j)
    ensures before + Reports(ready, start, j) ==
      (if ready[i].read || ready[i].write then before + [ready[i]] else before) + Reports(ready, start, j + 1)
  {
    var rest := Reports(ready, start, j + 1);
    if ready[i].read || ready[i].write {
      assert before + ([ready[i]] + rest) == before + [ready[i]] + rest;
    } else {
      assert [] + rest == rest;
    }
  }

  /** The loop of `poll_dispatch` and `select_dispatch`. */
  method Collect(ready: seq<Report>, random: nat) returns (reports: seq<Report>)
    requires ready != []
    ensures reports == Reports(ready, random % |ready|, 0)
  {
    var nfds := |ready|;
    var i := random % nfds;
    ghost var start := i;
    reports := [];
    for j := 0 to nfds
      invariant i < nfds && i == if j == 0 then start else Visited(start, nfds, j - 1)
      invariant reports + Reports(ready, start, j) == Reports(ready, start, 0)
    {
      i := i + 1;
      if i == nfds {
        i := 0;
      }
      ReportsNext(ready, start, j, i, reports);
      if ready[i].read || ready[i].write {
        reports := reports + [ready[i]];
      }
    }
    assert reports + [] == reports;
  }

  lemma {:induction false} ReportsFrom(ready: seq<Report>, start: nat, j: nat)
    requires start < |ready| && j <= |ready|
    ensures forall r :: r in Reports(ready, start, j) <==>
      (r.read || r.write) && exists k :: j <= k < |ready| && ready[Visited(start, |ready|, k)] == r
    decreases |ready| - j
  {
    if j < |ready| {
      ReportsFrom(ready, start, j + 1);
    }
  }

  /** Every ready entry is reported, and nothing else is. */
  lemma AllReadyReported(ready: seq<Report>, start: nat)
    requires start < |ready|
    ensures forall r :: r in Reports(ready, start, 0) <==> (r.read || r.write) && r in ready
  {
    ReportsFrom(ready, start, 0);
    forall r | r in ready ensures exists k :: 0 <= k < |ready| && ready[Visited(start, |ready|, k)] == r {
      var i :| 0 <= i < |ready| && ready[i] == r;
      EachOnce(start, |ready|, i);
    }
  }
}
