/**
  C strings. A text is the sequence of characters before the terminator, a `char *` into it is a
  position, and reading at the end yields the terminator. `Reads` says that some characters stand at a
  position; a text that is put together from parts is read part by part, each at its own position.
  */
module CText {
  import opened Common

  const NUL: char := '\0'

  /** What `s[p]` reads; nothing is read past the terminator. */
  function At(s: string, p: nat): char {
    if p < |s| then s[p] else NUL
  }

  predicate IsDigit(c: char) {
    '0' <= c <= '9'
  }

  /** No terminator inside, so the text can be stored in a C string. */
  predicate NulFree(s: string) {
    forall i :: 0 <= i < |s| ==> s[i] != NUL
  }

  lemma NulFreeCat(a: string, b: string)
    requires NulFree(a) && NulFree(b)
    ensures NulFree(a + b)
  {
  }

  lemma Regroup(a: string, b: string, c: string)
    ensures a + (b + c) == a + b + c
  {
  }

  /** The characters of `s` stand in `text` from position `p` on. */
  predicate Reads(text: string, p: nat, s: string) {
    p + |s| <= |text| && forall i {:trigger Look(i)} :: Look(i) && 0 <= i < |s| ==> text[p + i] == s[i]
  }

  lemma ReadsAt(text: string, p: nat, s: string, i: nat)
    requires Reads(text, p, s) && i < |s|
    ensures p + i < |text| && text[p + i] == s[i]
  {
    assert Look(i);
  }

  /** The first character of a text that stands somewhere. */
  lemma ReadsHead(text: string, p: nat, s: string)
    requires Reads(text, p, s) && s != ""
    ensures p < |text| && text[p] == s[0]
  {
    ReadsAt(text, p, s, 0);
  }

  /** The parts of a text stand one behind the other, at the positions `q`, `r`, ... */
  lemma ReadsSplit(text: string, p: nat, a: string, q: nat, b: string)
    requires Reads(text, p, a + b) && q == p + |a|
    ensures Reads(text, p, a) && Reads(text, q, b)
  {
    forall i | 0 <= i < |a| ensures text[p + i] == a[i] {
      ReadsAt(text, p, a + b, i);
    }
    forall i | 0 <= i < |b| ensures text[q + i] == b[i] {
      ReadsAt(text, p, a + b, |a| + i);
    }
  }

  lemma ReadsSplit3(text: string, p: nat, a: string, q: nat, b: string, r: nat, c: string)
    requires Reads(text, p, a + (b + c)) && q == p + |a| && r == q + |b|
    ensures Reads(text, p, a) && Reads(text, q, b) && Reads(text, r, c)
  {
    ReadsSplit(text, p, a, q, b + c);
    ReadsSplit(text, q, b, r, c);
  }

  lemma ReadsSplit4(text: string, p: nat, a: string, q: nat, b: string, r: nat, c: string, t: nat, d: string)
    requires Reads(text, p, a + (b + (c + d))) && q == p + |a| && r == q + |b| && t == r + |c|
    ensures Reads(text, p, a) && Reads(text, q, b) && Reads(text, r, c) && Reads(text, t, d)
  {
    ReadsSplit(text, p, a, q, b + (c + d));
    ReadsSplit3(text, q, b, r, c, t, d);
  }

  lemma ReadsWhole(s: string)
    ensures Reads(s, 0, s)
  {
  }

  /** The text stored from `start` in a buffer: everything up to the first terminator. */
  function TextFrom(buffer: seq<char>, start: nat): (s: string)
    requires start <= |buffer|
    ensures |s| <= |buffer| - start
    decreases |buffer| - start
  {
    if start == |buffer| || buffer[start] == NUL then ""
    else [buffer[start]] + TextFrom(buffer, start + 1)
  }

  /** A terminated copy of `s` at `start` is read back as `s`. */
  lemma {:induction false} TextFromStored(buffer: seq<char>, start: nat, s: string)
    requires start + |s| < |buffer| && NulFree(s)
    requires Reads(buffer, start, s) && buffer[start + |s|] == NUL
    ensures TextFrom(buffer, start) == s
    decreases |s|
  {
    if s != [] {
      ReadsHead(buffer, start, s);
      assert s == s[..1] + s[1..];
      ReadsSplit(buffer, start, s[..1], start + 1, s[1..]);
      TextFromStored(buffer, start + 1, s[1..]);
    }
  }
}
