/** The loops of cjson.c that print and parse one string, over buffers and text positions. */
module JsonStringCode {
  import opened Buffers
  import opened Common
  import opened CText
  import opened JsonString
  import opened Numerals

  // ---------- print_string_ptr ----------

  /** The first pass: does any character need escaping? */
  method NeedsEscaping(str: string) returns (flag: bool)
    ensures flag <==> exists i :: 0 <= i < |str| && NeedsEscape(str[i])
  {
    flag := false;
    for i := 0 to |str|
      invariant flag <==> exists k :: 0 <= k < i && NeedsEscape(str[k])
    {
      flag := flag || NeedsEscape(str[i]);
    }
  }

  /** The second pass: the space the escaped text takes is known exactly before it is written. */
  method EscapedLength(str: string) returns (len: nat)
    ensures len == |Escape(str)|
  {
    len := 0;
    for i := 0 to |str|
      invariant len == |Escape(str[..i])|
    {
      EscapeAppend(str[..i], str[i]);
      assert str[..i] + [str[i]] == str[..i + 1];
      len := len + 1;
      if ShortEscape(str[i]).Some? {
        len := len + 1;
      } else if str[i] < ' ' {
        len := len + 5;
      }
    }
    assert str[..|str|] == str;
  }

  lemma {:induction false} PlainEscape(str: string)
    requires forall i :: 0 <= i < |str| ==> !NeedsEscape(str[i])
    ensures Escape(str) == str
  {
    if str != "" {
      PlainEscape(str[1..]);
      assert [str[0]] + str[1..] == str;
    }
  }

  lemma {:induction false} EscapeSplit(str: string, i: nat)
    requires i <= |str|
    ensures Escape(str) == Escape(str[..i]) + Escape(str[i..])
  {
    if i > 0 {
      EscapeSplit(str[1..], i - 1);
      assert str[1..][..i - 1] == str[..i][1..] && str[1..][i - 1..] == str[i..];
    } else {
      assert str[0..] == str;
    }
  }

  /** The escaped form of character `i` stands right behind that of the characters before it. */
  lemma EscapePrefix(str: string, i: nat)
    requires i < |str|
    ensures Escape(str[..i + 1]) == Escape(str[..i]) + EscapeChar(str[i])
    ensures |Escape(str[..i + 1])| <= |Escape(str)|
  {
    assert str[..i + 1] == str[..i] + [str[i]];
    EscapeAppend(str[..i], str[i]);
    EscapeSplit(str, i + 1);
  }

  /** The third pass of `print_string_ptr`: writes the quoted text into the reserved bytes. */
  method WriteEscaped(buf: array<char>, at: nat, str: string)
    requires at + |Quote(str)| < buf.Length
    modifies buf
    ensures Wrote(buf, at, Quote(str))
  {
    buf[at] := '"';
    var p := at + 1;
    ghost var done := "\"";
    assert str[..0] == "";
    for i := 0 to |str|
      invariant done == "\"" + Escape(str[..i]) && p == at + |done| && |done| <= 1 + |Escape(str)|
      invariant forall j :: 0 <= j < |done| ==> buf[at + j] == done[j]
      invariant forall j :: 0 <= j < at ==> buf[j] == old(buf[j])
    {
      p, done := WriteNext(buf, at, str, i, p, done);
    }
    assert str[..|str|] == str;
    done := done + "\"";
    buf[p] := '"';
    buf[p + 1] := NUL;
  }

  /** The body of its loop: one character, escaped if it has to be. */
  method WriteNext(buf: array<char>, ghost at: nat, str: string, i: nat, from: nat, ghost before: string)
      returns (p: nat, ghost done: string)
    requires at + |Quote(str)| < buf.Length && i < |str|
    requires before == "\"" + Escape(str[..i]) && from == at + |before| && |before| <= 1 + |Escape(str)|
    requires forall j :: 0 <= j < |before| ==> buf[at + j] == before[j]
    modifies buf
    ensures done == "\"" + Escape(str[..i + 1]) && p == at + |done| && |done| <= 1 + |Escape(str)|
    ensures forall j :: 0 <= j < |done| ==> buf[at + j] == done[j]
    ensures forall j :: 0 <= j < at ==> buf[j] == old(buf[j])
  {
    EscapePrefix(str, i);
    Regroup("\"", Escape(str[..i]), EscapeChar(str[i]));
    done := before + EscapeChar(str[i]);
    p := Store(buf, from, EscapeChar(str[i]));
  }

  /** The quick pass when nothing needs escaping: a plain copy between two quotes. */
  method WritePlain(buf: array<char>, at: nat, str: string)
    requires at + |str| + 3 <= buf.Length
    requires forall i :: 0 <= i < |str| ==> !NeedsEscape(str[i])
    modifies buf
    ensures Wrote(buf, at, Quote(str))
  {
    PlainEscape(str);
    buf[at] := '"';
    var p := Store(buf, at + 1, str);
    buf[p] := '"';
    buf[p + 1] := NUL;
  }

  /** `print_string_ptr` without a print buffer: exactly `|Quote(str)| + 1` bytes are allocated. */
  method PrintString(str: string) returns (out: array<char>)
    requires NulFree(str)
    ensures fresh(out) && out.Length == |Quote(str)| + 1
    ensures TextFrom(out[..], 0) == Quote(str)
  {
    var flag := NeedsEscaping(str);
    if !flag {
      PlainEscape(str);
      out := new char[|str| + 3];
      WritePlain(out, 0, str);
    } else {
      var len := EscapedLength(str);
      out := new char[len + 3];
      WriteEscaped(out, 0, str);
    }
    EscapeNulFree(str);
    TextFromStored(out[..], 0, Quote(str));
  }

  // ---------- parse_string ----------

  /** The counting pass. */
  method CountString(text: string, start: nat) returns (r: Option<Scan>)
    requires start <= |text|
    ensures r == ScanString(text, start)
  {
    var endPtr, len := start, 0;
    while At(text, endPtr) != '"' && At(text, endPtr) != NUL
      invariant start <= endPtr <= |text|
      invariant len <= endPtr - start
      invariant ScanString(text, start) == Counted(len, ScanString(text, endPtr))
      decreases |text| - endPtr
    {
      len := len + 1;
      endPtr := endPtr + 1;
      if text[endPtr - 1] == '\\' {
        if At(text, endPtr) == NUL {
          return None;
        }
        endPtr := endPtr + 1;
      }
    }
    return Some(Scan(endPtr, len));
  }

  /** `parse_hex4`, digit by digit. */
  method ReadHex4(text: string, p: nat) returns (h: nat)
    ensures h == if p + 4 <= |text| && AllHex(text[p..p + 4]) then HexNumber(text[p..p + 4]) else 0
    ensures h == ParseHex4(text, p)
  {
    Hex4IsNumber(text, p);
    var v := HexVal(At(text, p));
    if v.None? {
      return 0;
    }
    h := v.value;
    v := HexVal(At(text, p + 1));
    if v.None? {
      return 0;
    }
    h := h * 16 + v.value;
    v := HexVal(At(text, p + 2));
    if v.None? {
      return 0;
    }
    h := h * 16 + v.value;
    v := HexVal(At(text, p + 3));
    if v.None? {
      return 0;
    }
    h := h * 16 + v.value;
  }

  /** The `u` case of the switch, with the bounds checks that the counting pass makes possible. */
  method DecodeUnicode(text: string, ptr: nat, endPtr: nat) returns (u: Option<Unit>)
    requires ptr < |text|
    requires UnescapeUnicode(text, ptr).Some? ==> ptr + UnescapeUnicode(text, ptr).value.width <= endPtr
    ensures u == UnescapeUnicode(text, ptr)
  {
    var uc := ReadHex4(text, ptr + 1);
    var last := ptr + 4;
    if last >= endPtr {
      return None;
    }
    if 0xDC00 <= uc <= 0xDFFF || uc == 0 {
      return None;
    }
    if 0xD800 <= uc <= 0xDBFF {
      if last + 6 > endPtr {
        return None;
      }
      if At(text, last + 1) != '\\' || At(text, last + 2) != 'u' {
        return None;
      }
      var uc2 := ReadHex4(text, last + 3);
      last := last + 6;
      if uc2 < 0xDC00 || uc2 > 0xDFFF {
        return None;
      }
      uc := JoinSurrogates(uc, uc2);
    }
    return Some(Unit(Utf8(uc), last + 1 - ptr));
  }

  /**
    The state of the decoding pass: `done` has been written, the body is still to be read from
    `ptr` on, and what the counting pass counted from there fits behind `done` with its terminator.
    */
  ghost predicate Decoding(text: string, start: nat, endPtr: nat, size: nat, ptr: nat, done: string)
    requires start <= |text|
  {
    && ptr <= endPtr <= |text|
    && ScanString(text, ptr).Some? && ScanString(text, ptr).value.end == endPtr
    && |done| + ScanString(text, ptr).value.count < size
    && Unescape(text, start) == Prepend(done, Unescape(text, ptr))
  }

  lemma PrependTwice(a: string, b: string, r: Option<Decoded>)
    ensures Prepend(a, Prepend(b, r)) == Prepend(a + b, r)
  {
    if r.Some? {
      assert a + (b + r.value.value) == a + b + r.value.value;
    }
  }

  lemma DecodingStarts(text: string, start: nat)
    requires start <= |text| && ScanString(text, start).Some?
    ensures var scan := ScanString(text, start).value; Decoding(text, start, scan.end, scan.count + 1, start, "")
  {
    var r := Unescape(text, start);
    assert r.Some? ==> "" + r.value.value == r.value.value;
  }

  lemma DecodingInside(text: string, start: nat, endPtr: nat, size: nat, ptr: nat, done: string)
    requires start <= |text| && Decoding(text, start, endPtr, size, ptr, done) && ptr < endPtr
    ensures !AtEnd(text, ptr) && |done| + 1 < size
    ensures text[ptr] == '\\' ==> ptr + 1 < |text| && text[ptr + 1] != NUL
  {
  }

  lemma DecodingPlain(text: string, start: nat, endPtr: nat, size: nat, ptr: nat, done: string)
    requires start <= |text| && Decoding(text, start, endPtr, size, ptr, done) && ptr < endPtr
    requires text[ptr] != '\\'
    ensures Decoding(text, start, endPtr, size, ptr + 1, done + [text[ptr]])
  {
    PrependTwice(done, [text[ptr]], Unescape(text, ptr + 1));
  }

  lemma DecodingEscape(text: string, start: nat, endPtr: nat, size: nat, ptr: nat, done: string)
    requires start <= |text| && Decoding(text, start, endPtr, size, ptr, done) && ptr < endPtr
    requires text[ptr] == '\\' && ptr + 1 < |text| && text[ptr + 1] != NUL
    ensures UnescapeOne(text, ptr + 1).None? ==> Unescape(text, start).None?
    ensures UnescapeOne(text, ptr + 1).Some? ==>
      var u := UnescapeOne(text, ptr + 1).value;
      Decoding(text, start, endPtr, size, ptr + 1 + u.width, done + u.bytes)
  {
    if UnescapeOne(text, ptr + 1).Some? {
      var _ := ScanEscape(text, ptr);
      var u := UnescapeOne(text, ptr + 1).value;
      PrependTwice(done, u.bytes, Unescape(text, ptr + 1 + u.width));
    }
  }

  /** A body that the counting pass ends at `ptr` is read as empty there. */
  lemma DecodingEnds(text: string, start: nat, endPtr: nat, size: nat, done: string)
    requires start <= |text| && Decoding(text, start, endPtr, size, endPtr, done)
    ensures Unescape(text, start) == Some(Decoded(done, endPtr))
  {
    assert done + "" == done;
  }

  /** What the switch of the decoding pass does for one escape whose backslash stands at `ptr - 1`. */
  method DecodeEscape(text: string, ptr: nat, ghost start: nat, endPtr: nat, ghost size: nat, ghost done: string)
    returns (u: Option<Unit>)
    requires start <= |text| && 1 <= ptr < |text| && text[ptr - 1] == '\\' && text[ptr] != NUL
    requires Decoding(text, start, endPtr, size, ptr - 1, done) && ptr - 1 < endPtr
    ensures u.None? ==> Unescape(text, start).None?
    ensures u.Some? ==> Decoding(text, start, endPtr, size, ptr + u.value.width, done + u.value.bytes)
    ensures u.Some? ==> u.value.width >= 1
  {
    DecodingEscape(text, start, endPtr, size, ptr - 1, done);
    if text[ptr] == 'b' {
      u := Some(Unit([8 as char], 1));
    } else if text[ptr] == 'f' {
      u := Some(Unit([12 as char], 1));
    } else if text[ptr] == 'n' {
      u := Some(Unit("\n", 1));
    } else if text[ptr] == 'r' {
      u := Some(Unit("\r", 1));
    } else if text[ptr] == 't' {
      u := Some(Unit("\t", 1));
    } else if text[ptr] == 'u' {
      u := DecodeUnicode(text, ptr, endPtr);
    } else {
      u := Some(Unit([text[ptr]], 1));
    }
    assert u == UnescapeOne(text, ptr);
  }

  /**
    The decoding pass. The output buffer has the counted size plus one for the terminator, every
    write lands in it, and the pass ends exactly at the position the counting pass found.
    */
  method DecodeString(text: string, start: nat, endPtr: nat, out: array<char>) returns (len: Option<nat>)
    requires start <= |text| && Decoding(text, start, endPtr, out.Length, start, "")
    modifies out
    ensures len.None? ==> Unescape(text, start).None?
    ensures len.Some? ==> len.value < out.Length
    ensures len.Some? ==> Unescape(text, start) == Some(Decoded(out[..len.value], endPtr))
  {
    var ptr, ptr2 := start, 0;
    ghost var done := "";
    var ok := true;
    while ptr < endPtr
      invariant Decoding(text, start, endPtr, out.Length, ptr, done)
      invariant ptr2 == |done| && forall i :: 0 <= i < ptr2 ==> out[i] == done[i]
    {
      ok, ptr, ptr2, done := DecodeNext(text, start, endPtr, out, ptr, ptr2, done);
      if !ok {
        return None;
      }
    }
    DecodingEnds(text, start, endPtr, out.Length, done);
    assert out[..ptr2] == done;
    return Some(ptr2);
  }

  /** The body of its loop: one character, or one escape sequence. */
  method DecodeNext(text: string, start: nat, endPtr: nat, out: array<char>, at: nat, into: nat, ghost before: string)
      returns (ok: bool, ptr: nat, ptr2: nat, ghost done: string)
    requires start <= |text| && Decoding(text, start, endPtr, out.Length, at, before) && at < endPtr
    requires into == |before| && forall i :: 0 <= i < into ==> out[i] == before[i]
    modifies out
    ensures !ok ==> Unescape(text, start).None?
    ensures ok ==> at < ptr && Decoding(text, start, endPtr, out.Length, ptr, done)
    ensures ok ==> ptr2 == |done| && forall i :: 0 <= i < ptr2 ==> out[i] == done[i]
  {
    DecodingInside(text, start, endPtr, out.Length, at, before);
    ok, ptr, ptr2, done := true, at, into, before;
    if text[ptr] != '\\' {
      DecodingPlain(text, start, endPtr, out.Length, ptr, done);
      out[ptr2] := text[ptr];
      done := done + [text[ptr]];
      ptr, ptr2 := ptr + 1, ptr2 + 1;
    } else {
      ptr := ptr + 1;
      var u := DecodeEscape(text, ptr, start, endPtr, out.Length, done);
      if u.None? {
        ok := false;
        return;
      }
      ptr := ptr + u.value.width;
      ptr2 := Store(out, ptr2, u.value.bytes);
      done := done + u.value.bytes;
    }
  }

  /** `parse_string`: both passes, over a buffer of the counted size. */
  method ParseStringAt(text: string, str: nat) returns (r: Parsed<string>)
    requires str <= |text|
    ensures r == ParseString(text, str)
  {
    if At(text, str) != '"' {
      return Err(Some(str));
    }
    var scan := CountString(text, str + 1);
    if scan.None? {
      return Err(None);
    }
    var out := new char[scan.value.count + 1];
    DecodingStarts(text, str + 1);
    var len := DecodeString(text, str + 1, scan.value.end, out);
    if len.None? {
      return Err(Some(str));
    }
    var value, ptr := out[..len.value], scan.value.end;
    out[len.value] := NUL;
    return Ok(value, if At(text, ptr) == '"' then ptr + 1 else ptr);
  }
}
