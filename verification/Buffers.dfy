/** Character buffers that are filled from the front. */
module Buffers {
  import opened CText

  /**
    `s` and its terminator have been written at `at`; what stood before is still there.
    (What lies behind the terminator is never read again.)
    */
  twostate predicate Wrote(buf: array<char>, at: nat, s: string)
    reads buf
  {
    && at + |s| < buf.Length
    && (forall i :: 0 <= i < at ==> buf[i] == old(buf[i]))
    && (forall i :: 0 <= i < |s| ==> buf[at + i] == s[i])
    && buf[at + |s|] == NUL
  }

  /** Stores `s` at `at`, moving nothing else; the C code does this with strcpy or by hand. */
  method Store(buf: array<char>, at: nat, s: string) returns (end: nat)
    requires at + |s| <= buf.Length
    modifies buf
    ensures end == at + |s|
    ensures forall i :: 0 <= i < |s| ==> buf[at + i] == s[i]
    ensures forall i :: 0 <= i < at || end <= i < buf.Length ==> buf[i] == old(buf[i])
  {
    for i := 0 to |s|
      invariant forall j :: 0 <= j < i ==> buf[at + j] == s[j]
      invariant forall j :: 0 <= j < at || at + i <= j < buf.Length ==> buf[j] == old(buf[j])
    {
      buf[at + i] := s[i];
    }
    end := at + |s|;
  }

  /** What is in the output so far. */
  ghost predicate Composed(out: array<char>, p: nat, done: string)
    reads out
  {
    p == |done| && p <= out.Length && forall i :: 0 <= i < p ==> out[i] == done[i]
  }

  method Compose(out: array<char>, p: nat, s: string, ghost done: string) returns (q: nat)
    requires Composed(out, p, done) && p + |s| <= out.Length
    modifies out
    ensures Composed(out, q, done + s)
  {
    q := Store(out, p, s);
  }
}
