/** Nested type-length-value records as blob.c writes and reads them. */
module Blob {
  import opened Common

  /** A record with a value, or a table of records. Names are C strings. */
  datatype Attr = Leaf(kind: Byte, name: seq<Byte>, value: seq<Byte>) | Table(name: seq<Byte>, children: seq<Attr>)

  /** BLOB_TYPE_TABLE. */
  const TABLE: Byte := 2
  /** `type`, `len` and `name_len` of `blob_attr_t`, packed. */
  const HEADER := 5

  // ---------- encoding ----------

  function Be16(n: nat): (b: seq<Byte>)
    requires n < 0x1_0000
    ensures |b| == 2
  {
    [n / 256, n % 256]
  }

  function Header(kind: Byte, name: seq<Byte>, len: nat): (h: seq<Byte>)
    requires len < 0x1_0000 && |name| + 1 < 0x1_0000
    ensures |h| == HEADER + |name| + 1
  {
    [kind] + Be16(len) + Be16(|name| + 1) + name + [0]
  }

  function Size(a: Attr): (n: nat)
    ensures n >= HEADER + 1
    decreases a, 0
  {
    HEADER + |a.name| + 1 + match a case Leaf(_, _, value) => |value| case Table(_, children) => SizeAll(children)
  }

  function SizeAll(attrs: seq<Attr>): nat
    decreases attrs
  {
    if attrs == [] then 0 else Size(attrs[0]) + SizeAll(attrs[1..])
  }

  /** What records are written for. */
  ghost predicate Proper(a: Attr)
    decreases a, 0
  {
    && Size(a) < 0x1_0000 && 0 !in a.name
    && (a.Leaf? ==> a.kind != TABLE)
    && (a.Table? ==> ProperAll(a.children))
  }

  ghost predicate ProperAll(attrs: seq<Attr>)
    decreases attrs
  {
    attrs == [] || (Proper(attrs[0]) && ProperAll(attrs[1..]))
  }

  function Encode(a: Attr): (s: seq<Byte>)
    requires Proper(a)
    ensures |s| == Size(a)
    decreases a, 0
  {
    match a
    case Leaf(kind, name, value) => Header(kind, name, Size(a)) + value
    case Table(name, children) => Header(TABLE, name, Size(a)) + EncodeAll(children)
  }

  function EncodeAll(attrs: seq<Attr>): (s: seq<Byte>)
    requires ProperAll(attrs)
    ensures |s| == SizeAll(attrs)
    decreases attrs
  {
    if attrs == [] then [] else Encode(attrs[0]) + EncodeAll(attrs[1..])
  }

  lemma {:induction false} EncodeAppend(attrs: seq<Attr>, a: Attr)
    requires ProperAll(attrs) && Proper(a)
    ensures ProperAll(attrs + [a]) && SizeAll(attrs + [a]) == SizeAll(attrs) + Size(a)
    ensures EncodeAll(attrs + [a]) == EncodeAll(attrs) + Encode(a)
  {
    if attrs == [] {
      assert [] + [a] == [a] && EncodeAll([a]) == Encode(a) + [];
    } else {
      EncodeAppend(attrs[1..], a);
      assert (attrs + [a])[1..] == attrs[1..] + [a];
      assert Encode(attrs[0]) + (EncodeAll(attrs[1..]) + Encode(a)) ==
        Encode(attrs[0]) + EncodeAll(attrs[1..]) + Encode(a);
    }
  }

  // ---------- the accessors ----------

  function GetBe16(buf: seq<Byte>, p: nat): nat
    requires p + 2 <= |buf|
  {
    (buf[p] as int) * 256 + buf[p + 1]
  }

  /** `blob_get_len`. */
  function GetLen(buf: seq<Byte>, p: nat): nat
    requires p + HEADER <= |buf|
  {
    GetBe16(buf, p + 1)
  }

  function GetNameLen(buf: seq<Byte>, p: nat): nat
    requires p + HEADER <= |buf|
  {
    GetBe16(buf, p + 3)
  }

  /** `blob_get_name`, as far as the C string reaches. */
  function CString(buf: seq<Byte>, p: nat): (s: seq<Byte>)
    requires p <= |buf|
    ensures p + |s| <= |buf|
    decreases |buf| - p
  {
    if p == |buf| || buf[p] == 0 then [] else [buf[p]] + CString(buf, p + 1)
  }

  function GetName(buf: seq<Byte>, p: nat): seq<Byte>
    requires p + HEADER <= |buf|
  {
    CString(buf, p + HEADER)
  }

  /** `blob_get_data`. */
  function GetData(buf: seq<Byte>, p: nat): nat
    requires p + HEADER <= |buf|
  {
    p + HEADER + GetNameLen(buf, p)
  }

  /** `blob_get_data_len`; the distance to the data is cast to eight bits. */
  function GetDataLen(buf: seq<Byte>, p: nat): int
    requires p + HEADER <= |buf|
  {
    GetLen(buf, p) - (HEADER + GetNameLen(buf, p)) % 256
  }

  // ---------- reading back ----------

  /** The bytes of `s` stand at `p`. */
  ghost predicate Stands(buf: seq<Byte>, p: nat, s: seq<Byte>) {
    p + |s| <= |buf| && buf[p..p + |s|] == s
  }

  lemma StandsSplit(buf: seq<Byte>, p: nat, a: seq<Byte>, b: seq<Byte>)
    requires Stands(buf, p, a + b)
    ensures Stands(buf, p, a) && Stands(buf, p + |a|, b)
  {
    assert buf[p..p + |a|] == buf[p..p + |a + b|][..|a|] == a;
    assert buf[p + |a|..p + |a| + |b|] == buf[p..p + |a + b|][|a|..] == b;
  }

  lemma {:induction false} CStringRead(buf: seq<Byte>, p: nat, s: seq<Byte>)
    requires Stands(buf, p, s) && 0 !in s && p + |s| < |buf| && buf[p + |s|] == 0
    ensures CString(buf, p) == s
    decreases |s|
  {
    if s != [] {
      assert s == [s[0]] + s[1..];
      StandsSplit(buf, p, [s[0]], s[1..]);
      assert buf[p] == buf[p..p + 1][0];
      CStringRead(buf, p + 1, s[1..]);
    }
  }

  lemma HeaderRead(buf: seq<Byte>, p: nat, kind: Byte, name: seq<Byte>, len: nat)
    requires len < 0x1_0000 && |name| + 1 < 0x1_0000 && 0 !in name
    requires Stands(buf, p, Header(kind, name, len))
    ensures p + HEADER <= |buf| && buf[p] == kind && GetLen(buf, p) == len && GetNameLen(buf, p) == |name| + 1
    ensures GetName(buf, p) == name
  {
    var h := Header(kind, name, len);
    var s := buf[p..p + |h|];
    assert forall i {:trigger h[i]} :: 0 <= i < |h| ==> buf[p + i] == s[i] == h[i];
    assert h[0] == kind && h[1] == len / 256 && h[2] == len % 256;
    assert h[3] == (|name| + 1) / 256 && h[4] == (|name| + 1) % 256;
    assert h[HEADER + |name|] == 0;
    assert buf[p + HEADER..p + HEADER + |name|] == s[HEADER..HEADER + |name|] == name;
    CStringRead(buf, p + HEADER, name);
  }

  /** What follows the header: the value, or the records of a table. */
  function Body(a: Attr): (s: seq<Byte>)
    requires Proper(a)
  {
    match a case Leaf(_, _, value) => value case Table(_, children) => EncodeAll(children)
  }

  function KindOf(a: Attr): Byte {
    if a.Table? then TABLE else a.kind
  }

  lemma EncodedParts(buf: seq<Byte>, p: nat, a: Attr)
    requires Proper(a) && Stands(buf, p, Encode(a))
    ensures Size(a) == HEADER + |a.name| + 1 + |Body(a)|
    ensures Stands(buf, p, Header(KindOf(a), a.name, Size(a)))
    ensures Stands(buf, p + HEADER + |a.name| + 1, Body(a)) && p + Size(a) <= |buf|
  {
    var header, body := Header(KindOf(a), a.name, Size(a)), Body(a);
    assert Encode(a) == header + body && |header| == HEADER + |a.name| + 1;
    StandsSplit(buf, p, header, body);
  }

  /** Every accessor reports what was written; the next record is right behind. */
  lemma RecordRead(buf: seq<Byte>, p: nat, a: Attr)
    requires Proper(a) && Stands(buf, p, Encode(a))
    ensures p + HEADER <= |buf| && buf[p] == KindOf(a) && GetName(buf, p) == a.name && GetLen(buf, p) == Size(a)
    ensures GetData(buf, p) + |Body(a)| == p + Size(a) <= |buf| && Stands(buf, GetData(buf, p), Body(a))
    ensures GetDataLen(buf, p) == |Body(a)| <==> |a.name| <= 249
  {
    EncodedParts(buf, p, a);
    AccessorsRead(buf, p, KindOf(a), a.name, Body(a), Size(a));
  }

  lemma AccessorsRead(buf: seq<Byte>, p: nat, kind: Byte, name: seq<Byte>, body: seq<Byte>, size: nat)
    requires size == HEADER + |name| + 1 + |body| < 0x1_0000 && 0 !in name
    requires Stands(buf, p, Header(kind, name, size)) && Stands(buf, p + HEADER + |name| + 1, body)
    ensures p + HEADER <= |buf| && buf[p] == kind && GetName(buf, p) == name && GetLen(buf, p) == size
    ensures GetData(buf, p) + |body| == p + size && Stands(buf, GetData(buf, p), body)
    ensures GetDataLen(buf, p) == |body| <==> |name| <= 249
  {
    HeaderRead(buf, p, kind, name, size);
  }

  /** Byte by byte: kind, length of the record, length of the name and its terminator, both in network order, name. */
  lemma RecordLayout(a: Attr)
    requires Proper(a)
    ensures var s, n := Encode(a), |a.name|;
      && |s| >= 6 + n && s[0] == KindOf(a)
      && 256 * (s[1] as int) + s[2] == |s| && 256 * (s[3] as int) + s[4] == n + 1
      && s[5..5 + n] == a.name && s[5 + n] == 0
      && (a.Leaf? ==> s[6 + n..] == a.value)
  {
    var s, header := Encode(a), Header(KindOf(a), a.name, Size(a));
    assert s == header + Body(a);
    assert header[..HEADER] == [KindOf(a)] + Be16(Size(a)) + Be16(|a.name| + 1);
    assert s[5..5 + |a.name|] == a.name;
  }

  /** With a longer name the length of the data comes out wrong. */
  lemma LongNameMisread(name: seq<Byte>)
    requires |name| == 250 && 0 !in name
    ensures var a := Leaf(8, name, [7]);
      Proper(a) && GetDataLen(Encode(a), 0) == 257
  {
    var a := Leaf(8, name, [7]);
    assert Encode(a)[0..|Encode(a)|] == Encode(a);
    RecordRead(Encode(a), 0, a);
    assert GetNameLen(Encode(a), 0) == 251 by {
      StandsSplit(Encode(a), 0, Header(8, name, Size(a)), [7]);
      HeaderRead(Encode(a), 0, 8, name, Size(a));
    }
  }

  // ---------- walking ----------

  /**
    `blob_for_each_attr` from `p` on: the records it visits, each with what its accessors report,
    tables walked in turn. None when a length of zero would keep it in place or a record leaves the region.
    */
  function Walk(buf: seq<Byte>, p: nat, end: nat): (r: Option<seq<Attr>>)
    requires p <= end <= |buf|
    decreases end - p
  {
    if p == end then Some([])
    else if p + HEADER > end || GetLen(buf, p) == 0 || p + GetLen(buf, p) > end then None
    else
      var first := ReadRecord(buf, p, end);
      var rest := Walk(buf, p + GetLen(buf, p), end);
      if first.None? || rest.None? then None else Some([first.value] + rest.value)
  }

  function ReadRecord(buf: seq<Byte>, p: nat, end: nat): (r: Option<Attr>)
    requires p + HEADER <= end <= |buf|
    decreases end - p, 0
  {
    var data, n := GetData(buf, p), GetDataLen(buf, p);
    if n < 0 || data + n > end || data <= p then None
    else if buf[p] == TABLE then
      var children := Walk(buf, data, data + n);
      if children.None? then None else Some(Table(GetName(buf, p), children.value))
    else Some(Leaf(buf[p], GetName(buf, p), buf[data..data + n]))
  }

  ghost predicate ShortNames(a: Attr)
    decreases a, 0
  {
    |a.name| <= 249 && (a.Table? ==> AllShortNames(a.children))
  }

  ghost predicate AllShortNames(attrs: seq<Attr>)
    decreases attrs
  {
    attrs == [] || (ShortNames(attrs[0]) && AllShortNames(attrs[1..]))
  }

  /** Walking what was written recovers the whole tree: the records follow one another without a gap. */
  lemma {:induction false} WalkRecovers(buf: seq<Byte>, p: nat, end: nat, attrs: seq<Attr>)
    requires ProperAll(attrs) && AllShortNames(attrs) && Stands(buf, p, EncodeAll(attrs)) && end == p + SizeAll(attrs)
    ensures Walk(buf, p, end) == Some(attrs)
    decreases attrs
  {
    if attrs != [] {
      var a := attrs[0];
      var q := p + Size(a);
      StandsSplit(buf, p, Encode(a), EncodeAll(attrs[1..]));
      assert p + HEADER <= end && p + GetLen(buf, p) == q by {
        RecordRead(buf, p, a);
      }
      assert ReadRecord(buf, p, end) == Some(a) by {
        RecordRecovered(buf, p, end, a);
      }
      assert Walk(buf, q, end) == Some(attrs[1..]) by {
        WalkRecovers(buf, q, end, attrs[1..]);
      }
      WalkStep(buf, p, q, end, a, attrs[1..]);
      assert [a] + attrs[1..] == attrs;
    }
  }

  lemma WalkStep(buf: seq<Byte>, p: nat, q: nat, end: nat, a: Attr, rest: seq<Attr>)
    requires p < q <= end <= |buf| && p + HEADER <= end && p + GetLen(buf, p) == q
    requires ReadRecord(buf, p, end) == Some(a) && Walk(buf, q, end) == Some(rest)
    ensures Walk(buf, p, end) == Some([a] + rest)
  {
  }

  lemma {:induction false} RecordRecovered(buf: seq<Byte>, p: nat, end: nat, a: Attr)
    requires Proper(a) && ShortNames(a) && Stands(buf, p, Encode(a)) && p + Size(a) <= end <= |buf|
    ensures ReadRecord(buf, p, end) == Some(a)
    decreases a, 0
  {
    RecordRead(buf, p, a);
    if a.Table? {
      WalkRecovers(buf, GetData(buf, p), GetData(buf, p) + |Body(a)|, a.children);
    }
  }
}
