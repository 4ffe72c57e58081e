/** `struct timeval` and the wait that is handed to epoll. */
module TimeVal {
  import opened Common

  datatype Timeval = Timeval(sec: int, usec: int)

  const ZERO: Time := Timeval(0, 0)
  const MILLION := 1_000_000

  predicate Normal(t: Timeval) {
    0 <= t.usec < MILLION
  }

  /** What the library expects of its callers, and computes from such times itself. */
  type Time = t: Timeval | Normal(t) witness Timeval(0, 0)

  function Micros(t: Timeval): int {
    t.sec * MILLION + t.usec
  }

  /** `evutil_timercmp(a, b, <)`; the other comparisons follow the same pattern. */
  predicate Less(a: Timeval, b: Timeval) {
    if a.sec == b.sec then a.usec < b.usec else a.sec < b.sec
  }

  predicate AtMost(a: Timeval, b: Timeval) {
    if a.sec == b.sec then a.usec <= b.usec else a.sec < b.sec
  }

  /** `evutil_timeradd`. */
  function Sum(a: Timeval, b: Timeval): Timeval {
    if a.usec + b.usec >= MILLION then Timeval(a.sec + b.sec + 1, a.usec + b.usec - MILLION)
    else Timeval(a.sec + b.sec, a.usec + b.usec)
  }

  /** `evutil_timersub`. */
  function Difference(a: Timeval, b: Timeval): Timeval {
    if a.usec - b.usec < 0 then Timeval(a.sec - b.sec - 1, a.usec - b.usec + MILLION)
    else Timeval(a.sec - b.sec, a.usec - b.usec)
  }

  /** On normal times the field-wise order and arithmetic are those of the microseconds. */
  lemma NormalArithmetic(a: Timeval, b: Timeval)
    requires Normal(a) && Normal(b)
    ensures Less(a, b) <==> Micros(a) < Micros(b)
    ensures AtMost(a, b) <==> Micros(a) <= Micros(b)
    ensures Normal(Sum(a, b)) && Micros(Sum(a, b)) == Micros(a) + Micros(b)
    ensures Normal(Difference(a, b)) && Micros(Difference(a, b)) == Micros(a) - Micros(b)
  {
  }

  /** Moving all times by the same amount keeps their order. */
  lemma ShiftKeepsOrder(a: Timeval, b: Timeval, off: Timeval)
    requires Normal(a) && Normal(b) && Normal(off)
    ensures AtMost(Difference(a, off), Difference(b, off)) <==> AtMost(a, b)
    ensures Normal(Difference(a, off))
  {
    NormalArithmetic(a, off);
    NormalArithmetic(b, off);
    NormalArithmetic(a, b);
    NormalArithmetic(Difference(a, off), Difference(b, off));
  }

  /** LONG_MAX where `long` has 32 or 64 bits. */
  predicate IsLongMax(m: int) {
    m == 0x7fff_ffff || m == 0x7fff_ffff_ffff_ffff
  }

  /** `evutil_tv_to_msec`. */
  function ToMsec(tv: Timeval, longMax: nat): int
    requires IsLongMax(longMax)
  {
    if tv.usec > MILLION || tv.sec > (longMax - 999) / 1000 then -1
    else tv.sec * 1000 + (tv.usec + 999) / 1000
  }

  /** Milliseconds are rounded up, and what is computed always fits into a `long`. */
  lemma MsecRoundsUp(tv: Timeval, longMax: nat)
    requires IsLongMax(longMax) && tv.sec >= 0 && tv.usec >= 0
    ensures ToMsec(tv, longMax) == -1 || 1000 * ToMsec(tv, longMax) - 1000 < Micros(tv) <= 1000 * ToMsec(tv, longMax)
    ensures ToMsec(tv, longMax) <= longMax
    ensures ToMsec(tv, longMax) == -1 <==> tv.usec > MILLION || tv.sec > (longMax - 999) / 1000
  {
  }

  /** MAX_EPOLL_TIMEOUT_MSEC: 35 minutes. */
  const MAX_WAIT := 35 * 60 * 1000

  /** The timeout `epoll_dispatch` passes on; -1 is forever. */
  function EpollTimeout(tv: Option<Timeval>, longMax: nat): int
    requires IsLongMax(longMax)
  {
    if tv.None? then -1
    else
      var timeout := ToMsec(tv.value, longMax);
      if timeout < 0 || timeout > MAX_WAIT then MAX_WAIT else timeout
  }

  /** `timeout_next`: how long until the earliest deadline; nothing to wait for if there is none. */
  function TimeoutNext(earliest: Option<Time>, now: Time): Option<Time> {
    if earliest.None? then None
    else if AtMost(earliest.value, now) then Some(ZERO)
    else Some(Difference(earliest.value, now))
  }

  /** The milliseconds until a deadline, rounded up; none once it has passed. */
  function CeilingMsec(deadline: Timeval, now: Timeval): int {
    var d := Micros(deadline) - Micros(now);
    if d <= 0 then 0 else (d + 999) / 1000
  }

  /**
    The loop waits for exactly the time to the earliest deadline, rounded up to milliseconds so
    that it does not wake before it, and for 35 minutes at most.
    */
  lemma WaitIsExact(deadline: Time, now: Time, longMax: nat)
    requires IsLongMax(longMax)
    ensures var wait := EpollTimeout(TimeoutNext(Some(deadline), now), longMax);
      var exact := CeilingMsec(deadline, now);
      && wait == (if exact <= MAX_WAIT then exact else MAX_WAIT)
      && (wait < MAX_WAIT ==> Micros(now) + 1000 * wait >= Micros(deadline))
    ensures EpollTimeout(TimeoutNext(None, now), longMax) == -1
  {
    NormalArithmetic(deadline, now);
    if !AtMost(deadline, now) {
      MsecRoundsUp(Difference(deadline, now), longMax);
    }
  }
}
