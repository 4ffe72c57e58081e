/** The builder of blob.c: records are appended, and a table gets its length when it ends. */
module BlobCode {
  import opened Blob
  import opened Common

  // ---------- what has been added so far ----------

  /** A table that has been started, with the records added to it; the outermost one has no header. */
  datatype Frame = Frame(name: seq<Byte>, done: seq<Attr>)

  /** While a table is open its header claims an empty one. */
  function OpenHeader(name: seq<Byte>): (h: seq<Byte>)
    requires |name| + 1 + HEADER < 0x1_0000
  {
    Header(TABLE, name, HEADER + |name| + 1)
  }

  ghost predicate FrameOk(f: Frame) {
    |f.name| + 1 + HEADER < 0x1_0000 && 0 !in f.name && ProperAll(f.done)
  }

  ghost predicate FramesOk(frames: seq<Frame>) {
    frames != [] && forall i :: 0 <= i < |frames| ==> FrameOk(frames[i])
  }

  /** The bytes written so far. */
  ghost function Pending(frames: seq<Frame>): seq<Byte>
    requires FramesOk(frames)
  {
    var last := frames[|frames| - 1];
    if |frames| == 1 then EncodeAll(last.done)
    else Pending(frames[..|frames| - 1]) + (OpenHeader(last.name) + EncodeAll(last.done))
  }

  /** Where the open tables start, the innermost one last. */
  ghost function Starts(frames: seq<Frame>): seq<nat>
    requires FramesOk(frames)
  {
    if |frames| == 1 then [] else Starts(frames[..|frames| - 1]) + [|Pending(frames[..|frames| - 1])|]
  }

  ghost function WithRecord(frames: seq<Frame>, a: Attr): (r: seq<Frame>)
    requires frames != []
    ensures |r| == |frames|
  {
    var n := |frames| - 1;
    frames[..n] + [Frame(frames[n].name, frames[n].done + [a])]
  }

  /** A record goes to the end of the innermost table. */
  lemma RecordPending(frames: seq<Frame>, a: Attr)
    requires FramesOk(frames) && Proper(a)
    ensures FramesOk(WithRecord(frames, a))
    ensures Pending(WithRecord(frames, a)) == Pending(frames) + Encode(a)
    ensures Starts(WithRecord(frames, a)) == Starts(frames)
  {
    var n := |frames| - 1;
    var f, next := frames[n], WithRecord(frames, a);
    EncodeAppend(f.done, a);
    assert next[..n] == frames[..n];
    if n > 0 {
      Reassociate(Pending(frames[..n]), OpenHeader(f.name), EncodeAll(f.done), Encode(a));
    }
  }

  lemma Reassociate(a: seq<Byte>, b: seq<Byte>, c: seq<Byte>, d: seq<Byte>)
    ensures a + (b + (c + d)) == a + (b + c) + d
  {
  }

  lemma TablePending(frames: seq<Frame>, name: seq<Byte>)
    requires FramesOk(frames) && FrameOk(Frame(name, []))
    ensures FramesOk(frames + [Frame(name, [])])
    ensures Pending(frames + [Frame(name, [])]) == Pending(frames) + OpenHeader(name)
    ensures Starts(frames + [Frame(name, [])]) == Starts(frames) + [|Pending(frames)|]
  {
    var next := frames + [Frame(name, [])];
    assert next[..|frames|] == frames;
    assert OpenHeader(name) + [] == OpenHeader(name);
  }

  /** The innermost table is closed and becomes a record of the one around it. */
  ghost function Closed(frames: seq<Frame>): seq<Frame>
    requires |frames| > 1
  {
    var n := |frames| - 1;
    WithRecord(frames[..n], Table(frames[n].name, frames[n].done))
  }

  /** Patching the length in its header makes the open table a record. */
  lemma ClosedPending(frames: seq<Frame>, len: nat)
    requires FramesOk(frames) && |frames| > 1 && |Pending(frames)| < 0x1_0000
    requires len == |Pending(frames)| - |Pending(frames[..|frames| - 1])|
    ensures FramesOk(Closed(frames)) && Starts(Closed(frames)) == Starts(frames[..|frames| - 1])
    ensures len < 0x1_0000
    ensures var f := frames[|frames| - 1];
      Pending(Closed(frames)) == Pending(frames[..|frames| - 1]) + (Header(TABLE, f.name, len) + EncodeAll(f.done))
  {
    var n := |frames| - 1;
    var f := frames[n];
    var table := Table(f.name, f.done);
    assert Size(table) == len && Proper(table);
    RecordPending(frames[..n], table);
  }

  /** The parts of a record, place by place. */
  lemma RecordBytes(buf: seq<Byte>, p: nat, kind: Byte, name: seq<Byte>, len: nat, value: seq<Byte>)
    requires len == HEADER + |name| + 1 + |value| < 0x1_0000 && p + len <= |buf|
    requires buf[p] == kind && buf[p + 1] == len / 256 && buf[p + 2] == len % 256
    requires buf[p + 3] == (|name| + 1) / 256 && buf[p + 4] == (|name| + 1) % 256
    requires buf[p + HEADER..p + HEADER + |name|] == name && buf[p + HEADER + |name|] == 0
    requires buf[p + HEADER + |name| + 1..p + len] == value
    ensures buf[p..p + len] == Header(kind, name, len) + value
  {
    var q := p + HEADER;
    assert buf[p..q] == [kind] + Be16(len) + Be16(|name| + 1);
    assert buf[p..p + len] == buf[p..q] + buf[q..q + |name|] + [buf[q + |name|]] + buf[q + |name| + 1..p + len];
  }

  // ---------- the builder ----------

  class Builder {
    /** `head`, whose size `len` is kept in 16 bits, and `tail`. */
    const head: array<Byte>
    var tail: nat
    /** `tbl_stack`. */
    var tblStack: seq<nat>
    ghost var frames: seq<Frame>

    ghost predicate Valid()
      reads this, head
    {
      && tail <= head.Length < 0x1_0000 && FramesOk(frames)
      && head[..tail] == Pending(frames) && tblStack == Starts(frames)
    }

    /** `blob_create` and `blob_init`. */
    constructor ()
      ensures Valid() && fresh(head) && head.Length == 512 && frames == [Frame([], [])]
    {
      head := new Byte[512](_ => 0);
      tail, tblStack, frames := 0, [], [Frame([], [])];
    }

    /** The first stores of `blob_add`: type, length of the name, and the name. */
    method WriteName(kind: Byte, name: seq<Byte>)
      requires tail + HEADER + |name| + 1 <= head.Length < 0x1_0000
      modifies head
      ensures head[tail] == kind && head[tail + 3] == (|name| + 1) / 256 && head[tail + 4] == (|name| + 1) % 256
      ensures head[tail + HEADER..tail + HEADER + |name|] == name && head[tail + HEADER + |name|] == 0
      ensures forall i :: 0 <= i < tail ==> head[i] == old(head[i])
    {
      var nameLen := |name| + 1;
      head[tail] := kind;
      head[tail + 3], head[tail + 4] := nameLen / 256, nameLen % 256;
      Copy(tail + HEADER, name);
      head[tail + HEADER + |name|] := 0;
    }

    /** The stores of `blob_add`. */
    method WriteRecord(kind: Byte, name: seq<Byte>, value: seq<Byte>) returns (attrLen: nat)
      requires tail + HEADER + |name| + 1 + |value| <= head.Length < 0x1_0000
      modifies head
      ensures attrLen == HEADER + |name| + 1 + |value|
      ensures head[tail..tail + attrLen] == Header(kind, name, attrLen) + value
      ensures forall i :: 0 <= i < tail ==> head[i] == old(head[i])
    {
      WriteName(kind, name);
      ghost var named := head[..];
      Copy(tail + HEADER + |name| + 1, value);
      attrLen := HEADER + |name| + 1 + |value|;
      head[tail + 1], head[tail + 2] := attrLen / 256, attrLen % 256;
      assert head[tail + HEADER..tail + HEADER + |name|] == named[tail + HEADER..tail + HEADER + |name|];
      RecordBytes(head[..], tail, kind, name, attrLen, value);
    }

    /** `blob_add` as far as the bytes go. */
    method Append(kind: Byte, name: seq<Byte>, value: seq<Byte>) returns (attrLen: nat)
      requires tail + HEADER + |name| + 1 + |value| <= head.Length < 0x1_0000
      modifies this`tail, head
      ensures attrLen == HEADER + |name| + 1 + |value| && tail == old(tail) + attrLen
      ensures head[..tail] == old(head[..tail]) + (Header(kind, name, attrLen) + value)
    {
      attrLen := WriteRecord(kind, name, value);
      assert head[..tail + attrLen] == head[..tail] + head[tail..tail + attrLen];
      tail := tail + attrLen;
    }

    /** memcpy. */
    method Copy(at: nat, s: seq<Byte>)
      requires at + |s| <= head.Length
      modifies head
      ensures head[at..at + |s|] == s
      ensures forall i :: 0 <= i < at || at + |s| <= i < head.Length ==> head[i] == old(head[i])
    {
      for i := 0 to |s|
        invariant forall k :: 0 <= k < i ==> head[at + k] == s[k]
        invariant forall k :: 0 <= k < at || at + i <= k < head.Length ==> head[k] == old(head[k])
      {
        head[at + i] := s[i];
      }
    }

    /** `blob_add`. */
    method Add(kind: Byte, name: seq<Byte>, value: seq<Byte>) returns (attrLen: nat)
      requires Valid() && kind != TABLE && 0 !in name && tail + Size(Leaf(kind, name, value)) <= head.Length
      modifies this, head
      ensures Valid() && attrLen == Size(Leaf(kind, name, value)) && tail == old(tail) + attrLen
      ensures frames == WithRecord(old(frames), Leaf(kind, name, value))
    {
      var was := tail;
      attrLen := Append(kind, name, value);
      RecordPending(frames, Leaf(kind, name, value));
      frames := WithRecord(frames, Leaf(kind, name, value));
    }

    method AddU8(name: seq<Byte>, val: Byte) returns (attrLen: nat)
      requires Valid() && 0 !in name && tail + HEADER + |name| + 2 <= head.Length
      modifies this, head
      ensures Valid() && frames == WithRecord(old(frames), Leaf(8, name, Big(val, 1)))
    {
      assert Big(val, 1) == [val];
      attrLen := Add(8, name, [val]);
    }

    /** `blob_add_u16`, `blob_add_u32` and `blob_add_u64`: big-endian. */
    method AddNumber(name: seq<Byte>, val: nat, width: nat) returns (attrLen: nat)
      requires Valid() && 0 !in name && width in {2, 4, 8} && tail + HEADER + |name| + 1 + width <= head.Length
      modifies this, head
      ensures Valid()
      ensures frames == WithRecord(old(frames), Leaf(NumberKind(width), name, Big(val, width)))
    {
      attrLen := Add(NumberKind(width), name, Big(val, width));
    }

    /** `blob_add_string`, with the terminator, and `blob_add_buffer`. */
    method AddString(name: seq<Byte>, str: seq<Byte>) returns (attrLen: nat)
      requires Valid() && 0 !in name && tail + HEADER + |name| + 1 + |str| + 1 <= head.Length
      modifies this, head
      ensures Valid() && frames == WithRecord(old(frames), Leaf(3, name, str + [0]))
    {
      attrLen := Add(3, name, str + [0]);
    }

    /** `blob_add_table_start`. */
    method TableStart(name: seq<Byte>) returns (attrLen: nat)
      requires Valid() && 0 !in name && tail + HEADER + |name| + 1 <= head.Length
      modifies this, head
      ensures Valid() && attrLen == HEADER + |name| + 1 && tail == old(tail) + attrLen
      ensures frames == old(frames) + [Frame(name, [])]
    {
      TablePending(frames, name);
      tblStack := tblStack + [tail];
      attrLen := Append(TABLE, name, []);
      assert OpenHeader(name) + [] == OpenHeader(name);
      frames := frames + [Frame(name, [])];
    }

    method Patch(i: nat, hi: Byte, lo: Byte)
      requires i + 2 <= tail <= head.Length
      modifies head
      ensures head[..tail] == Patched(old(head[..tail]), i, hi, lo)
    {
      head[i], head[i + 1] := hi, lo;
    }

    method AppendBytes(s: seq<Byte>)
      requires tail + |s| <= head.Length
      modifies this`tail, head
      ensures tail == old(tail) + |s| && head[..tail] == old(head[..tail]) + s
    {
      Copy(tail, s);
      assert head[..tail + |s|] == head[..tail] + head[tail..tail + |s|];
      tail := tail + |s|;
    }

    /** `blob_add_table_end`: the length goes back into the header. */
    method TableEnd()
      requires Valid() && |frames| > 1
      modifies this, head
      ensures Valid() && tail == old(tail) && frames == Closed(old(frames))
    {
      var tableStart := tblStack[|tblStack| - 1];
      tblStack := tblStack[..|tblStack| - 1];
      var tableLen := tail - tableStart;
      TableClosed(frames, tableLen);
      Patch(tableStart + 1, tableLen / 256, tableLen % 256);
      frames := Closed(frames);
    }

    /** `blob_catenate`: a whole record from another buffer. */
    method Catenate(buf: seq<Byte>, p: nat, ghost a: Attr)
      requires Valid() && Proper(a) && Stands(buf, p, Encode(a)) && tail + Size(a) <= head.Length
      modifies this, head
      ensures Valid() && tail == old(tail) + Size(a) && frames == WithRecord(old(frames), a)
    {
      RecordRead(buf, p, a);
      RecordPending(frames, a);
      AppendBytes(buf[p..p + GetLen(buf, p)]);
      frames := WithRecord(frames, a);
    }
  }

  /** BLOB_TYPE_INT16, BLOB_TYPE_INT32 and BLOB_TYPE_INT64. */
  function NumberKind(width: nat): Byte {
    if width == 2 then 7 else if width == 4 then 6 else 5
  }

  function Patched(s: seq<Byte>, i: nat, hi: Byte, lo: Byte): seq<Byte>
    requires i + 2 <= |s|
  {
    s[..i] + [hi, lo] + s[i + 2..]
  }

  /** Two bytes of the header are the length, so writing them changes nothing else. */
  lemma HeaderPatched(s: seq<Byte>, front: seq<Byte>, name: seq<Byte>, len: nat, hi: Byte, lo: Byte, rest: seq<Byte>)
    requires |name| + 1 + HEADER < 0x1_0000 && len < 0x1_0000 && hi == len / 256 && lo == len % 256
    requires s == front + (OpenHeader(name) + rest)
    ensures |front| + HEADER <= |s|
    ensures Patched(s, |front| + 1, hi, lo) == front + (Header(TABLE, name, len) + rest)
  {
    var h, h' := OpenHeader(name), Header(TABLE, name, len);
    assert Patched(h, 1, hi, lo) == h';
  }

  /** What `blob_add_table_end` comes to: `len` is the length of the innermost table. */
  lemma TableClosed(frames: seq<Frame>, len: nat)
    requires FramesOk(frames) && |frames| > 1 && |Pending(frames)| < 0x1_0000
    requires len == |Pending(frames)| - |Pending(frames[..|frames| - 1])|
    ensures FramesOk(Closed(frames)) && Starts(Closed(frames)) == Starts(frames[..|frames| - 1]) && len < 0x1_0000
    ensures var start := |Pending(frames[..|frames| - 1])|;
      start + HEADER <= |Pending(frames)| &&
      Patched(Pending(frames), start + 1, len / 256, len % 256) == Pending(Closed(frames))
  {
    var n := |frames| - 1;
    ClosedPending(frames, len);
    HeaderPatched(Pending(frames), Pending(frames[..n]), frames[n].name, len, len / 256, len % 256,
      EncodeAll(frames[n].done));
  }

  // ---------- numbers ----------

  /** Big-endian bytes. */
  function Big(v: nat, width: nat): (s: seq<Byte>)
    ensures |s| == width
  {
    if width == 0 then [] else Big(v / 256, width - 1) + [v % 256]
  }

  function Pow256(k: nat): nat {
    if k == 0 then 1 else 256 * Pow256(k - 1)
  }

  /** What big-endian bytes stand for. */
  function FromBig(s: seq<Byte>): nat {
    if s == [] then 0 else FromBig(s[..|s| - 1]) * 256 + s[|s| - 1]
  }

  /** The first byte weighs most. */
  lemma {:induction false} FirstByteWeighs(a: Byte, rest: seq<Byte>)
    ensures FromBig([a] + rest) == (a as int) * Pow256(|rest|) + FromBig(rest)
  {
    if rest == [] {
      assert [a] + rest == [a] && [a][..0] == [];
      assert FromBig([a]) == FromBig([]) * 256 + a;
    } else {
      var n := |rest| - 1;
      assert ([a] + rest)[..n + 1] == [a] + rest[..n] && ([a] + rest)[n + 1] == rest[n];
      FirstByteWeighs(a, rest[..n]);
      assert (a as int) * Pow256(n) * 256 == (a as int) * Pow256(n + 1);
    }
  }

  lemma {:induction false} NumberRoundTrip(v: nat, width: nat)
    requires v < Pow256(width)
    ensures FromBig(Big(v, width)) == v
  {
    if width > 0 {
      NumberRoundTrip(v / 256, width - 1);
      assert Big(v, width)[..width - 1] == Big(v / 256, width - 1);
    }
  }

  /** `blob_get_u8`, `blob_get_u16` and `blob_get_u32`: the first bytes of the data. */
  function GetNumber(buf: seq<Byte>, p: nat, width: nat): nat
    requires p + HEADER <= |buf| && GetData(buf, p) + width <= |buf|
  {
    FromBig(buf[GetData(buf, p)..GetData(buf, p) + width])
  }

  /** A number that was added is read back from wherever its record stands. */
  lemma NumberRead(buf: seq<Byte>, p: nat, kind: Byte, name: seq<Byte>, v: nat, width: nat)
    requires v < Pow256(width) && Proper(Leaf(kind, name, Big(v, width)))
    requires Stands(buf, p, Encode(Leaf(kind, name, Big(v, width))))
    ensures p + HEADER <= |buf| && GetData(buf, p) + width <= |buf|
    ensures GetNumber(buf, p, width) == v
  {
    ValueStands(buf, p, kind, name, Big(v, width));
    NumberRoundTrip(v, width);
  }

  lemma ValueStands(buf: seq<Byte>, p: nat, kind: Byte, name: seq<Byte>, value: seq<Byte>)
    requires Proper(Leaf(kind, name, value)) && Stands(buf, p, Encode(Leaf(kind, name, value)))
    ensures p + HEADER <= |buf| && GetData(buf, p) + |value| <= |buf|
    ensures buf[GetData(buf, p)..GetData(buf, p) + |value|] == value
  {
    RecordRead(buf, p, Leaf(kind, name, value));
  }

  // ---------- whole sequences of calls ----------

  /** A catenation names the record that stands in the other buffer. */
  datatype Call =
    | AddCall(kind: Byte, name: seq<Byte>, value: seq<Byte>)
    | StartCall(name: seq<Byte>)
    | EndCall
    | CatenateCall(buf: seq<Byte>, p: nat, attr: Attr)

  /** The calls that build the records, tables bracketed by start and end. */
  function CallsFor(attrs: seq<Attr>): seq<Call>
    decreases attrs
  {
    if attrs == [] then [] else CallsForOne(attrs[0]) + CallsFor(attrs[1..])
  }

  function CallsForOne(a: Attr): seq<Call>
    decreases a, 0
  {
    match a
    case Leaf(kind, name, value) => [AddCall(kind, name, value)]
    case Table(name, children) => [StartCall(name)] + CallsFor(children) + [EndCall]
  }

  /** The frames after the calls; None when a table is ended that has not been started. */
  ghost function After(frames: seq<Frame>, calls: seq<Call>): Option<seq<Frame>>
    requires frames != []
    decreases |calls|
  {
    if calls == [] then Some(frames)
    else
      match calls[0]
      case AddCall(kind, name, value) => After(WithRecord(frames, Leaf(kind, name, value)), calls[1..])
      case StartCall(name) => After(frames + [Frame(name, [])], calls[1..])
      case EndCall => if |frames| == 1 then None else After(Closed(frames), calls[1..])
      case CatenateCall(_, _, a) => After(WithRecord(frames, a), calls[1..])
  }

  lemma {:induction false} AfterBoth(frames: seq<Frame>, a: seq<Call>, b: seq<Call>)
    requires frames != [] && After(frames, a).Some? && After(frames, a).value != []
    ensures After(frames, a + b) == After(After(frames, a).value, b)
    decreases |a|
  {
    if a == [] {
      assert a + b == b;
    } else {
      assert (a + b)[1..] == a[1..] + b;
      match a[0]
      case AddCall(kind, name, value) => AfterBoth(WithRecord(frames, Leaf(kind, name, value)), a[1..], b);
      case StartCall(name) => AfterBoth(frames + [Frame(name, [])], a[1..], b);
      case EndCall => AfterBoth(Closed(frames), a[1..], b);
      case CatenateCall(_, _, attr) => AfterBoth(WithRecord(frames, attr), a[1..], b);
    }
  }

  ghost function WithRecords(frames: seq<Frame>, attrs: seq<Attr>): (r: seq<Frame>)
    requires frames != []
    ensures |r| == |frames|
  {
    var n := |frames| - 1;
    frames[..n] + [Frame(frames[n].name, frames[n].done + attrs)]
  }

  /** Whatever tables are open around them, the calls for some records add exactly these. */
  lemma {:induction false} CallsBuild(frames: seq<Frame>, attrs: seq<Attr>)
    requires frames != []
    ensures After(frames, CallsFor(attrs)) == Some(WithRecords(frames, attrs))
    decreases attrs
  {
    var n := |frames| - 1;
    if attrs == [] {
      assert frames[n].done + [] == frames[n].done;
      assert WithRecords(frames, []) == frames;
    } else {
      var next := WithRecord(frames, attrs[0]);
      CallsBuildOne(frames, attrs[0]);
      AfterBoth(frames, CallsForOne(attrs[0]), CallsFor(attrs[1..]));
      CallsBuild(next, attrs[1..]);
      assert frames[n].done + [attrs[0]] + attrs[1..] == frames[n].done + attrs;
      assert next[..n] == frames[..n];
    }
  }

  lemma {:induction false} CallsBuildOne(frames: seq<Frame>, a: Attr)
    requires frames != []
    ensures After(frames, CallsForOne(a)) == Some(WithRecord(frames, a))
    decreases a, 0
  {
    match a
    case Leaf(kind, name, value) =>
      assert CallsForOne(a)[1..] == [];
    case Table(name, children) =>
      var open := frames + [Frame(name, [])];
      var calls := CallsFor(children) + [EndCall];
      assert CallsForOne(a) == [StartCall(name)] + calls;
      assert CallsForOne(a)[1..] == calls;
      CallsBuild(open, children);
      AfterBoth(open, CallsFor(children), [EndCall]);
      var full := WithRecords(open, children);
      assert [] + children == children && full[..|frames|] == frames && full[|frames|] == Frame(name, children);
      assert [EndCall][1..] == [];
      assert Closed(full) == WithRecord(frames, a);
  }

  function CallSize(c: Call): nat {
    match c
    case AddCall(_, name, value) => HEADER + |name| + 1 + |value|
    case StartCall(name) => HEADER + |name| + 1
    case EndCall => 0
    case CatenateCall(_, _, a) => Size(a)
  }

  function CallsSize(calls: seq<Call>): nat {
    if calls == [] then 0 else CallSize(calls[0]) + CallsSize(calls[1..])
  }

  ghost predicate CallOk(c: Call) {
    match c
    case AddCall(kind, name, _) => kind != TABLE && 0 !in name
    case StartCall(name) => 0 !in name
    case EndCall => true
    case CatenateCall(buf, p, a) => Proper(a) && Stands(buf, p, Encode(a))
  }

  /** Any sequence of calls that ends no more tables than it starts, in a buffer with room for what it adds. */
  method Perform(b: Builder, calls: seq<Call>)
    requires b.Valid() && After(b.frames, calls).Some? && b.tail + CallsSize(calls) <= b.head.Length
    requires forall i :: 0 <= i < |calls| ==> CallOk(calls[i])
    modifies b, b.head
    ensures b.Valid() && After(old(b.frames), calls) == Some(b.frames)
  {
    for i := 0 to |calls|
      invariant b.Valid() && b.tail + CallsSize(calls[i..]) <= b.head.Length
      invariant After(b.frames, calls[i..]) == After(old(b.frames), calls)
    {
      assert calls[i..][0] == calls[i] && calls[i..][1..] == calls[i + 1..];
      match calls[i]
      case AddCall(kind, name, value) => var n := b.Add(kind, name, value);
      case StartCall(name) => var n := b.TableStart(name);
      case EndCall => b.TableEnd();
      case CatenateCall(buf, p, a) => b.Catenate(buf, p, a);
    }
  }

  // ---------- what a walk over a finished blob finds ----------

  ghost predicate CallShort(c: Call) {
    match c
    case AddCall(_, name, _) => |name| <= 249
    case StartCall(name) => |name| <= 249
    case EndCall => true
    case CatenateCall(_, _, a) => ShortNames(a)
  }

  ghost predicate FramesShort(frames: seq<Frame>) {
    forall i :: 0 <= i < |frames| ==> |frames[i].name| <= 249 && AllShortNames(frames[i].done)
  }

  lemma {:induction false} ShortAppend(attrs: seq<Attr>, a: Attr)
    requires AllShortNames(attrs) && ShortNames(a)
    ensures AllShortNames(attrs + [a])
    decreases attrs
  {
    if attrs == [] {
      assert attrs + [a] == [a] && [a][1..] == [];
    } else {
      ShortAppend(attrs[1..], a);
      assert (attrs + [a])[1..] == attrs[1..] + [a];
    }
  }

  lemma RecordKeepsShort(frames: seq<Frame>, a: Attr)
    requires frames != [] && FramesShort(frames) && ShortNames(a)
    ensures FramesShort(WithRecord(frames, a))
  {
    ShortAppend(frames[|frames| - 1].done, a);
  }

  /** Short names in all calls lead to short names in all records. */
  lemma {:induction false} CallsKeepShort(frames: seq<Frame>, calls: seq<Call>)
    requires frames != [] && FramesShort(frames) && After(frames, calls).Some?
    requires forall i :: 0 <= i < |calls| ==> CallShort(calls[i])
    ensures FramesShort(After(frames, calls).value)
    decreases |calls|
  {
    if calls != [] {
      assert CallShort(calls[0]);
      match calls[0]
      case AddCall(kind, name, value) =>
        RecordKeepsShort(frames, Leaf(kind, name, value));
        CallsKeepShort(WithRecord(frames, Leaf(kind, name, value)), calls[1..]);
      case StartCall(name) => CallsKeepShort(frames + [Frame(name, [])], calls[1..]);
      case EndCall =>
        var n := |frames| - 1;
        RecordKeepsShort(frames[..n], Table(frames[n].name, frames[n].done));
        CallsKeepShort(Closed(frames), calls[1..]);
      case CatenateCall(_, _, a) =>
        RecordKeepsShort(frames, a);
        CallsKeepShort(WithRecord(frames, a), calls[1..]);
    }
  }

  /**
    Any well-bracketed sequence of calls on an empty blob, with names of at most 249 bytes: the bytes
    are the encoding of the records that the calls build, and a walk over the blob gives these back.
    */
  method BuildWhole(b: Builder, calls: seq<Call>)
    requires b.Valid() && b.frames == [Frame([], [])] && b.tail + CallsSize(calls) <= b.head.Length
    requires After(b.frames, calls).Some? && |After(b.frames, calls).value| == 1
    requires forall i :: 0 <= i < |calls| ==> CallOk(calls[i]) && CallShort(calls[i])
    modifies b, b.head
    ensures b.Valid() && After([Frame([], [])], calls) == Some(b.frames) && |b.frames| == 1
    ensures ProperAll(b.frames[0].done) && b.head[..b.tail] == EncodeAll(b.frames[0].done)
    ensures Walk(b.head[..], 0, b.tail) == Some(b.frames[0].done)
  {
    CallsKeepShort(b.frames, calls);
    Perform(b, calls);
    ghost var attrs := b.frames[0].done;
    assert FrameOk(b.frames[0]);
    assert b.head[..][0..b.tail] == b.head[..b.tail];
    WalkRecovers(b.head[..], 0, b.tail, attrs);
  }

  /** Building records on an empty blob gives their encoding, and a walk over it gives them back. */
  lemma {:induction false} BuiltIsWalked(attrs: seq<Attr>)
    requires ProperAll(attrs) && AllShortNames(attrs)
    ensures After([Frame([], [])], CallsFor(attrs)) == Some([Frame([], attrs)])
    ensures Pending([Frame([], attrs)]) == EncodeAll(attrs)
    ensures Walk(EncodeAll(attrs), 0, SizeAll(attrs)) == Some(attrs)
  {
    var root: seq<Frame> := [Frame([], [])];
    CallsBuild(root, attrs);
    assert root[0].done + attrs == attrs;
    assert WithRecords(root, attrs) == [Frame([], attrs)];
    assert EncodeAll(attrs)[0..SizeAll(attrs)] == EncodeAll(attrs);
    WalkRecovers(EncodeAll(attrs), 0, SizeAll(attrs), attrs);
  }

  // ---------- blob_parse_to_attr ----------

  /** The region is a row of records, so the walk over it ends. */
  predicate Steps(buf: seq<Byte>, p: nat, end: nat)
    requires p <= end <= |buf|
    decreases end - p
  {
    p == end || (p + HEADER <= end && 0 < GetLen(buf, p) && p + GetLen(buf, p) <= end &&
      Steps(buf, p + GetLen(buf, p), end))
  }

  /** `strncmp(name, policy, strlen(policy)) == 0`: a name that merely begins like the policy's matches. */
  predicate Matches(name: seq<Byte>, policy: seq<Byte>) {
    policy <= name
  }

  /** The last record that matches; what was there before if there is none. */
  function LastMatch(buf: seq<Byte>, p: nat, end: nat, policy: seq<Byte>, found: int): int
    requires p <= end <= |buf| && Steps(buf, p, end)
    decreases end - p
  {
    if p == end then found
    else LastMatch(buf, p + GetLen(buf, p), end, policy, if Matches(GetName(buf, p), policy) then p else found)
  }

  function LastIndex(attrs: seq<Attr>, policy: seq<Byte>): (i: int)
    ensures -1 <= i < |attrs|
    ensures i >= 0 ==> Matches(attrs[i].name, policy)
    ensures forall j :: i < j < |attrs| ==> !Matches(attrs[j].name, policy)
  {
    if attrs == [] then -1
    else if Matches(attrs[|attrs| - 1].name, policy) then |attrs| - 1
    else LastIndex(attrs[..|attrs| - 1], policy)
  }

  lemma {:induction false} LastIndexSplit(attrs: seq<Attr>, policy: seq<Byte>)
    requires attrs != []
    ensures LastIndex(attrs, policy) ==
      if LastIndex(attrs[1..], policy) >= 0 then 1 + LastIndex(attrs[1..], policy)
      else if Matches(attrs[0].name, policy) then 0 else -1
  {
    if |attrs| > 1 && !Matches(attrs[|attrs| - 1].name, policy) {
      LastIndexSplit(attrs[..|attrs| - 1], policy);
      assert attrs[..|attrs| - 1][1..] == attrs[1..][..|attrs| - 2];
    }
  }

  /** Where the last matching record of those from `p` on starts, or what was found before. */
  function LastPlace(attrs: seq<Attr>, policy: seq<Byte>, p: nat, found: int): int {
    if LastIndex(attrs, policy) < 0 then found else p + SizeAll(attrs[..LastIndex(attrs, policy)])
  }

  lemma LastPlaceSplit(attrs: seq<Attr>, policy: seq<Byte>, p: nat, found: int)
    requires attrs != []
    ensures LastPlace(attrs, policy, p, found) ==
      LastPlace(attrs[1..], policy, p + Size(attrs[0]), if Matches(attrs[0].name, policy) then p else found)
  {
    var i := LastIndex(attrs, policy);
    LastIndexSplit(attrs, policy);
    if i > 0 {
      assert attrs[..i][1..] == attrs[1..][..i - 1];
    }
  }

  /** The lengths and names that the walk sees are those of the records. */
  ghost predicate Row(buf: seq<Byte>, p: nat, end: nat, attrs: seq<Attr>)
    requires p <= end <= |buf|
    decreases attrs
  {
    if attrs == [] then p == end
    else
      && p + HEADER <= end && GetLen(buf, p) == Size(attrs[0]) && GetName(buf, p) == attrs[0].name
      && p + GetLen(buf, p) <= end && Row(buf, p + GetLen(buf, p), end, attrs[1..])
  }

  lemma {:induction false} RecordsAreRow(buf: seq<Byte>, p: nat, end: nat, attrs: seq<Attr>)
    requires ProperAll(attrs) && Stands(buf, p, EncodeAll(attrs)) && end == p + SizeAll(attrs)
    ensures Row(buf, p, end, attrs)
    decreases attrs
  {
    if attrs != [] {
      StandsSplit(buf, p, Encode(attrs[0]), EncodeAll(attrs[1..]));
      RecordRead(buf, p, attrs[0]);
      RecordsAreRow(buf, p + Size(attrs[0]), end, attrs[1..]);
    }
  }

  lemma {:induction false} RowMatches(buf: seq<Byte>, p: nat, end: nat, attrs: seq<Attr>, policy: seq<Byte>, found: int)
    requires p <= end <= |buf| && Row(buf, p, end, attrs)
    ensures Steps(buf, p, end) && LastMatch(buf, p, end, policy, found) == LastPlace(attrs, policy, p, found)
    decreases attrs
  {
    if attrs != [] {
      LastPlaceSplit(attrs, policy, p, found);
      RowMatches(buf, p + Size(attrs[0]), end, attrs[1..], policy, if Matches(attrs[0].name, policy) then p else found);
    }
  }

  /** Among written records, the one found is the last whose name begins with the policy's. */
  lemma LastMatchIsLast(buf: seq<Byte>, p: nat, end: nat, attrs: seq<Attr>, policy: seq<Byte>, found: int)
    requires ProperAll(attrs) && Stands(buf, p, EncodeAll(attrs)) && end == p + SizeAll(attrs)
    ensures Steps(buf, p, end) && LastMatch(buf, p, end, policy, found) == LastPlace(attrs, policy, p, found)
  {
    RecordsAreRow(buf, p, end, attrs);
    RowMatches(buf, p, end, attrs, policy, found);
  }

  /** `blob_parse_to_attr`; entries of `tb` are positions of records. */
  method ParseToAttr(policy: seq<seq<Byte>>, tb: array<int>, data: seq<Byte>, len: nat)
    requires |policy| <= tb.Length && len <= |data| && Steps(data, 0, len)
    modifies tb
    ensures forall i :: 0 <= i < |policy| ==> tb[i] == LastMatch(data, 0, len, policy[i], old(tb[i]))
    ensures forall i :: |policy| <= i < tb.Length ==> tb[i] == old(tb[i])
  {
    var pos := 0;
    while pos < len
      invariant 0 <= pos <= len && Steps(data, pos, len)
      invariant forall i :: 0 <= i < |policy| ==>
        LastMatch(data, pos, len, policy[i], tb[i]) == LastMatch(data, 0, len, policy[i], old(tb[i]))
      invariant forall i :: |policy| <= i < tb.Length ==> tb[i] == old(tb[i])
    {
      ghost var before := tb[..];
      for i := 0 to |policy|
        invariant forall k :: 0 <= k < tb.Length ==>
          tb[k] == if k < i && Matches(GetName(data, pos), policy[k]) then pos else before[k]
      {
        if Matches(GetName(data, pos), policy[i]) {
          tb[i] := pos;
        }
      }
      pos := pos + GetLen(data, pos);
    }
  }
}
