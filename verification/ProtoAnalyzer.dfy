/** Formats of protocol_analyzer.c: lists of fields. */
module ProtoAnalyzer {
  import opened Bits
  import opened Common
  import opened ProtoFields

  /** `proto_info_list_t`; `vlen` is `vlenth_flag` and `vindex` names the field with the length. */
  datatype Info = Info(name: string, vindex: string, vlen: bool, vlenBak: bool,
                       bytePos: nat, bytePosBak: nat, bitPos: nat, bitPosBak: nat,
                       len: nat, lenUnit: nat, data: nat, buf: seq<Byte>)

  /** `pa_find_key`. */
  function Find(infos: seq<Info>, name: string): (r: Option<nat>)
    ensures r.Some? ==> r.value < |infos| && infos[r.value].name == name
  {
    if infos == [] then None
    else if infos[0].name == name then Some(0)
    else
      var r := Find(infos[1..], name);
      if r.None? then None else Some(r.value + 1)
  }

  /** The first field of the name. */
  lemma {:induction false} FindsFirst(infos: seq<Info>, name: string)
    ensures var r := Find(infos, name);
      forall i :: 0 <= i < (if r.Some? then r.value else |infos|) ==> infos[i].name != name
  {
    if infos != [] && infos[0].name != name {
      FindsFirst(infos[1..], name);
      assert forall i :: 1 <= i < |infos| ==> infos[i] == infos[1..][i - 1];
    }
  }

  // ---------- positions and lengths ----------

  /** Positions are kept in eight bits. */
  function ShiftOne(info: Info, shift: nat): Info {
    info.(bytePos := (info.bytePos + shift) % 256)
  }

  function Shifted(infos: seq<Info>, from: nat, shift: nat): (r: seq<Info>)
    ensures |r| == |infos|
    ensures forall i :: 0 <= i < |infos| ==> r[i] == if i < from then infos[i] else ShiftOne(infos[i], shift)
  {
    if infos == [] then []
    else
      var n := |infos| - 1;
      Shifted(infos[..n], from, shift) + [if n < from then infos[n] else ShiftOne(infos[n], shift)]
  }

  /** The bytes that a field of variable length inserts; the product is kept in 32 bits. */
  function Inserted(len: nat, unit: nat): nat {
    len * unit % 0x1_0000_0000 / 8
  }

  /** `pa_recompute_byte_pos`: the length is looked up and all later fields move. */
  function Recomputed(infos: seq<Info>, cur: nat): (r: seq<Info>)
    requires cur < |infos|
    ensures |r| == |infos|
  {
    var found := Find(infos, infos[cur].vindex);
    if found.None? then infos
    else
      var n := infos[found.value].data;
      Shifted(infos[cur := infos[cur].(len := n % 0x1_0000)], cur + 1, Inserted(n, infos[cur].lenUnit))
  }

  /** What happens when field `k` is reached. */
  function Settled(infos: seq<Info>, k: nat): (r: seq<Info>)
    requires k < |infos|
    ensures |r| == |infos|
  {
    if infos[k].vlen then
      var r := Recomputed(infos, k);
      r[k := r[k].(vlen := false)]
    else infos
  }

  /** The fields when all from `k` on have been reached. */
  function Layout(infos: seq<Info>, k: nat): (r: seq<Info>)
    requires k <= |infos|
    ensures |r| == |infos|
    decreases |infos| - k
  {
    if k == |infos| then infos else Layout(Settled(infos, k), k + 1)
  }

  /** Reaching field `k` changes its length and flag, and the positions of the later fields. */
  lemma SettledChanges(infos: seq<Info>, k: nat, i: nat)
    requires k < |infos| && i < |infos|
    ensures var was, now := infos[i], Settled(infos, k)[i];
      && (i < k ==> now == was)
      && (i == k ==> now == was.(len := now.len, vlen := false))
      && (i > k ==> now == was.(bytePos := now.bytePos))
  {
  }

  /** The length that field `k` looks up, if it has to and can. */
  function LookedUp(infos: seq<Info>, k: nat): Option<nat>
    requires k < |infos|
  {
    var found := Find(infos, infos[k].vindex);
    if infos[k].vlen && found.Some? then Some(infos[found.value].data) else None
  }

  /** One field after `k` has been reached. */
  function SettledField(info: Info, n: Option<nat>, unit: nat, k: nat, i: nat): Info {
    if i < k then info
    else if i == k then info.(vlen := false, len := if n.Some? then n.value % 0x1_0000 else info.len)
    else if n.Some? then ShiftOne(info, Inserted(n.value, unit)) else info
  }

  lemma SettledAt(infos: seq<Info>, k: nat, i: nat)
    requires k < |infos| && i < |infos|
    ensures Settled(infos, k)[i] == SettledField(infos[i], LookedUp(infos, k), infos[k].lenUnit, k, i)
  {
  }

  /** Fields that have been passed stay as they are. */
  lemma {:induction false} LayoutKeeps(infos: seq<Info>, k: nat, i: nat)
    requires i < k <= |infos|
    ensures Layout(infos, k)[i] == infos[i]
    decreases |infos| - k
  {
    if k < |infos| {
      SettledChanges(infos, k, i);
      LayoutKeeps(Settled(infos, k), k + 1, i);
    }
  }

  /** Nothing but positions, lengths and flags ever changes. */
  lemma {:induction false} LayoutChanges(infos: seq<Info>, k: nat, i: nat)
    requires k <= |infos| && i < |infos|
    ensures var was, now := infos[i], Layout(infos, k)[i];
      now == was.(len := now.len, vlen := now.vlen, bytePos := now.bytePos)
    decreases |infos| - k
  {
    if k < |infos| {
      SettledChanges(infos, k, i);
      LayoutChanges(Settled(infos, k), k + 1, i);
    }
  }

  lemma {:induction false} SameFind(s: seq<Info>, r: seq<Info>, name: string)
    requires |s| == |r| && forall i :: 0 <= i < |s| ==> s[i].name == r[i].name
    ensures Find(s, name) == Find(r, name)
  {
    if s != [] {
      SameFind(s[1..], r[1..], name);
    }
  }

  // ---------- where the fields come to stand ----------

  /** The whole bytes in so many units; the number of bits is kept in 32 bits. */
  predicate WholeBytes(bytes: nat, n: nat, unit: nat) {
    8 * bytes <= n * unit % 0x1_0000_0000 < 8 * (bytes + 1)
  }

  /** How far a field moves those behind it: a variable one by its looked-up length, and no other. */
  predicate IsMove(n: Option<nat>, unit: nat, move: nat) {
    if n.Some? then WholeBytes(move, n.value, unit) else move == 0
  }

  ghost predicate Moving(infos: seq<Info>, k: nat, moves: seq<nat>)
    requires k <= |infos| == |moves|
    decreases |infos| - k
  {
    k < |infos| ==> IsMove(LookedUp(infos, k), infos[k].lenUnit, moves[k]) && Moving(infos, k + 1, moves)
  }

  function SumOf(moves: seq<nat>, k: nat, i: nat): nat
    requires i <= |moves|
    decreases i - k
  {
    if k >= i then 0 else moves[k] + SumOf(moves, k + 1, i)
  }

  /** What is looked up does not depend on the fields that have been reached before. */
  lemma LookedUpStays(infos: seq<Info>, k: nat, j: nat)
    requires k < j < |infos|
    ensures LookedUp(Settled(infos, k), j) == LookedUp(infos, j) && Settled(infos, k)[j].lenUnit == infos[j].lenUnit
  {
    var now := Settled(infos, k);
    forall i | 0 <= i < |infos| ensures now[i].name == infos[i].name && now[i].data == infos[i].data {
      SettledChanges(infos, k, i);
    }
    SettledChanges(infos, k, j);
    SameFind(infos, now, infos[j].vindex);
  }

  lemma {:induction false} MovingAlike(a: seq<Info>, b: seq<Info>, k: nat, moves: seq<nat>)
    requires k <= |a| == |b| == |moves| && Moving(a, k, moves)
    requires forall j :: k <= j < |a| ==> LookedUp(a, j) == LookedUp(b, j) && a[j].lenUnit == b[j].lenUnit
    ensures Moving(b, k, moves)
    decreases |a| - k
  {
    if k < |a| {
      MovingAlike(a, b, k + 1, moves);
    }
  }

  lemma MovingStays(infos: seq<Info>, k: nat, moves: seq<nat>)
    requires k < |infos| == |moves| && Moving(infos, k, moves)
    ensures Moving(Settled(infos, k), k + 1, moves)
  {
    forall j | k < j < |infos|
      ensures LookedUp(infos, j) == LookedUp(Settled(infos, k), j)
      ensures infos[j].lenUnit == Settled(infos, k)[j].lenUnit
    {
      LookedUpStays(infos, k, j);
    }
    MovingAlike(infos, Settled(infos, k), k + 1, moves);
  }

  lemma WholeBytesUnique(bytes: nat, bits: nat)
    requires 8 * bytes <= bits < 8 * (bytes + 1)
    ensures bits / 8 == bytes
  {
  }

  /** Eight bits of a position that has been moved. */
  predicate MovedTo(was: nat, far: nat, now: nat) {
    now == (was + far) % 256
  }

  lemma MovedTwice(was: nat, far: nat, mid: nat, more: nat, all: nat, now: nat)
    requires MovedTo(was, far, mid) && MovedTo(mid, more, now) && all == far + more
    ensures MovedTo(was, all, now)
  {
  }

  lemma MovedApart(was: nat, before: nat, n: nat, all: nat, a: nat, b: nat)
    requires MovedTo(was, before, a) && all == before + n && MovedTo(was, all, b)
    ensures a + n < 256 ==> b == a + n
  {
  }

  lemma MovedBy(infos: seq<Info>, k: nat, i: nat, moves: seq<nat>)
    requires k < i < |infos| == |moves| && Moving(infos, k, moves) && infos[i].bytePos < 256
    ensures MovedTo(infos[i].bytePos, moves[k], Settled(infos, k)[i].bytePos)
  {
    SettledAt(infos, k, i);
    OneMoved(infos[i], LookedUp(infos, k), infos[k].lenUnit, k, i, moves[k]);
  }

  lemma OneMoved(info: Info, n: Option<nat>, unit: nat, k: nat, i: nat, move: nat)
    requires k < i && IsMove(n, unit, move) && info.bytePos < 256
    ensures MovedTo(info.bytePos, move, SettledField(info, n, unit, k, i).bytePos)
  {
    if n.Some? {
      WholeBytesUnique(move, n.value * unit % 0x1_0000_0000);
    }
  }

  /** The field itself stays where it is, and those behind it are moved. */
  lemma OneReached(infos: seq<Info>, k: nat, i: nat, moves: seq<nat>) returns (now: seq<Info>)
    requires k < i < |infos| == |moves| && Moving(infos, k, moves) && infos[i].bytePos < 256
    ensures |now| == |infos| && Layout(infos, k) == Layout(now, k + 1) && Moving(now, k + 1, moves)
    ensures MovedTo(infos[i].bytePos, moves[k], now[i].bytePos) && now[i].bytePos < 256
  {
    now := Settled(infos, k);
    MovedBy(infos, k, i, moves);
    MovingStays(infos, k, moves);
  }

  lemma LastReached(infos: seq<Info>, k: nat)
    requires k < |infos| && infos[k].bytePos < 256
    ensures MovedTo(infos[k].bytePos, 0, Layout(infos, k)[k].bytePos)
  {
    SettledChanges(infos, k, k);
    LayoutKeeps(Settled(infos, k), k + 1, k);
  }

  /** Behind any field that has not been reached, the moves of the fields in front add up, modulo 256. */
  lemma {:induction false} FieldsMove(infos: seq<Info>, k: nat, i: nat, moves: seq<nat>)
    requires k <= i < |infos| == |moves| && Moving(infos, k, moves) && infos[i].bytePos < 256
    ensures MovedTo(infos[i].bytePos, SumOf(moves, k, i), Layout(infos, k)[i].bytePos)
    decreases |infos| - k
  {
    if k == i {
      LastReached(infos, k);
    } else {
      var now := OneReached(infos, k, i, moves);
      var next, pos := k + 1, Layout(infos, k)[i].bytePos;
      var rest := SumOf(moves, next, i);
      assert MovedTo(now[i].bytePos, rest, pos) by {
        FieldsMove(now, next, i, moves);
      }
      MovedTwice(infos[i].bytePos, moves[k], now[i].bytePos, rest, SumOf(moves, k, i), pos);
    }
  }

  lemma {:induction false} SumOfZeros(moves: seq<nat>, k: nat, i: nat)
    requires i <= |moves| && forall j :: k <= j < i ==> moves[j] == 0
    ensures SumOf(moves, k, i) == 0
    decreases i - k
  {
    if k < i {
      SumOfZeros(moves, k + 1, i);
    }
  }

  lemma {:induction false} SumOfSplit(moves: seq<nat>, k: nat, m: nat, i: nat)
    requires k <= m <= i <= |moves|
    ensures SumOf(moves, k, i) == SumOf(moves, k, m) + SumOf(moves, m, i)
    decreases m - k
  {
    if k < m {
      SumOfSplit(moves, k + 1, m, i);
    }
  }

  function MoveOf(n: Option<nat>, unit: nat): (move: nat)
    ensures IsMove(n, unit, move)
  {
    if n.Some? then n.value * unit % 0x1_0000_0000 / 8 else 0
  }

  /** The moves of a format. */
  function Moves(infos: seq<Info>, k: nat): (moves: seq<nat>)
    requires k <= |infos|
    ensures |moves| == k
  {
    if k == 0 then [] else Moves(infos, k - 1) + [MoveOf(LookedUp(infos, k - 1), infos[k - 1].lenUnit)]
  }

  lemma {:induction false} MovesAt(infos: seq<Info>, k: nat, j: nat)
    requires j < k <= |infos|
    ensures Moves(infos, k)[j] == MoveOf(LookedUp(infos, j), infos[j].lenUnit)
  {
    if j < k - 1 {
      MovesAt(infos, k - 1, j);
    }
  }

  lemma {:induction false} MovesAreMoving(infos: seq<Info>, k: nat)
    requires k <= |infos|
    ensures Moving(infos, k, Moves(infos, |infos|))
    decreases |infos| - k
  {
    if k < |infos| {
      MovesAt(infos, |infos|, k);
      MovesAreMoving(infos, k + 1);
    }
  }

  /**
    A field that is configured at the place of a variable field of bytes comes to stand right behind it, if
    no field between the two is variable and eight bits are enough for its position.
    */
  lemma StandsBehind(infos: seq<Info>, k: nat, i: nat, n: nat)
    requires k < i < |infos| && infos[i].bytePos == infos[k].bytePos < 256
    requires LookedUp(infos, k) == Some(n) && n < 0x1_0000 && infos[k].lenUnit == 8
    requires forall j :: k < j < i ==> !infos[j].vlen
    ensures var r := Layout(infos, 0);
      && r[k].len == n && (r[k].bytePos + n < 256 ==> r[i].bytePos == r[k].bytePos + r[k].len)
  {
    var moves := Moves(infos, |infos|);
    var before, all := SumOf(moves, 0, k), SumOf(moves, 0, i);
    MovesAreMoving(infos, 0);
    MovesToEnd(infos, k, i, n, moves);
    FieldsMove(infos, 0, k, moves);
    FieldsMove(infos, 0, i, moves);
    MovedApart(infos[k].bytePos, before, n, all, Layout(infos, 0)[k].bytePos, Layout(infos, 0)[i].bytePos);
    assert Layout(infos, 0)[k].len == n by {
      ShortLength(infos, k, n);
    }
  }

  lemma ShortLength(infos: seq<Info>, k: nat, n: nat)
    requires k < |infos| && LookedUp(infos, k) == Some(n) && n < 0x1_0000
    ensures Layout(infos, 0)[k].len == n
  {
    LengthSettled(infos, 0, k);
    InSixteenBits(n, Layout(infos, 0)[k].len);
  }

  lemma InSixteenBits(n: nat, len: nat)
    requires n < 0x1_0000 && len == n % 0x1_0000
    ensures len == n
  {
  }

  lemma MovesToEnd(infos: seq<Info>, k: nat, i: nat, n: nat, moves: seq<nat>)
    requires k < i < |infos| && LookedUp(infos, k) == Some(n) && n < 0x1_0000 && infos[k].lenUnit == 8
    requires moves == Moves(infos, |infos|) && forall j :: k < j < i ==> !infos[j].vlen
    ensures SumOf(moves, 0, i) == SumOf(moves, 0, k) + n
  {
    MovesAt(infos, |infos|, k);
    WholeBytesUnique(moves[k], 8 * n);
    forall j | k + 1 <= j < i ensures moves[j] == 0 {
      MovesAt(infos, |infos|, j);
    }
    SumOfSplit(moves, 0, k, i);
    SumOfZeros(moves, k + 1, i);
  }

  /** The length of a variable field is the one that it looks up, in 16 bits. */
  lemma {:induction false} LengthSettled(infos: seq<Info>, k: nat, i: nat)
    requires k <= i < |infos|
    ensures Layout(infos, k)[i].len ==
      if LookedUp(infos, i).Some? then LookedUp(infos, i).value % 0x1_0000 else infos[i].len
    decreases |infos| - k
  {
    SettledAt(infos, k, i);
    if k == i {
      LayoutKeeps(Settled(infos, k), k + 1, i);
    } else {
      LookedUpStays(infos, k, i);
      LengthSettled(Settled(infos, k), k + 1, i);
    }
  }

  // ---------- regions ----------

  predicate IsNumber(info: Info) {
    info.lenUnit == 1 || (info.lenUnit == 8 && info.len <= 4)
  }

  /** The number of message bits of a field. */
  function Width(info: Info): nat {
    if info.lenUnit == 8 then 8 * info.len else if info.lenUnit == 1 then info.len else 0
  }

  function Start(info: Info): nat
    requires info.bitPos < 8
  {
    if info.lenUnit == 8 then 8 * info.bytePos else BitStart(info.bytePos, info.bitPos)
  }

  /** Bit fields have up to 32 bits, and longer byte fields start at bit position 0. */
  predicate FieldOk(info: Info, size: nat) {
    && info.bitPos < 8 && Start(info) + Width(info) <= 8 * size
    && (info.lenUnit == 1 ==> info.len <= 32)
    && (info.lenUnit == 8 && info.len > 4 ==> info.bitPos == 0)
  }

  /** A number that its field has room for. */
  predicate Fits(info: Info) {
    IsNumber(info) && info.data < Pow2(Width(info))
  }

  predicate Disjoint(a: Info, b: Info)
    requires a.bitPos < 8 && b.bitPos < 8
  {
    Start(a) + Width(a) <= Start(b) || Start(b) + Width(b) <= Start(a)
  }

  /** The fields are within the message and do not overlap. */
  ghost predicate WellLaid(infos: seq<Info>, size: nat) {
    && (forall i :: 0 <= i < |infos| ==> FieldOk(infos[i], size))
    && (forall i, j :: 0 <= i < j < |infos| ==> Disjoint(infos[i], infos[j]))
  }

  // ---------- what stands in a message ----------

  /** The field stands in the message. */
  ghost predicate Written(dp: seq<Byte>, info: Info)
    requires FieldOk(info, |dp|)
  {
    if info.lenUnit == 1 then Holds(dp, Start(info), info.len, info.data)
    else if info.lenUnit == 8 && info.len <= 4 then Holds(dp, Start(info), 8 * info.len, info.data)
    else if info.lenUnit == 8 then info.len <= |info.buf| &&
      dp[info.bytePos..info.bytePos + info.len] == info.buf[..info.len]
    else true
  }

  /** Writing elsewhere leaves it there. */
  lemma WrittenStays(was: seq<Byte>, now: seq<Byte>, a: Info, b: Info)
    requires FieldOk(a, |was|) && FieldOk(b, |was|) && (Disjoint(a, b) || Disjoint(b, a))
    requires Written(was, a) && Outside(was, now, Start(b), Width(b))
    ensures Written(now, a)
  {
    if a.lenUnit == 8 && a.len > 4 {
      forall j | a.bytePos <= j < a.bytePos + a.len ensures now[j] == was[j] {
        SameByte(was, now, j);
      }
      assert now[a.bytePos..a.bytePos + a.len] == was[a.bytePos..a.bytePos + a.len];
    }
  }

  lemma BlankStays(was: seq<Byte>, now: seq<Byte>, a: Info, b: Info)
    requires FieldOk(a, |was|) && FieldOk(b, |was|) && (Disjoint(a, b) || Disjoint(b, a))
    requires Blank(was, Start(a), Width(a)) && Outside(was, now, Start(b), Width(b))
    ensures Blank(now, Start(a), Width(a))
  {
  }

  /** What a receiver has to find in a field: of a number, as many of the low bits as the field has. */
  ghost predicate Recovered(sent: Info, got: Info) {
    && (IsNumber(sent) ==> got.data == Low(sent.data, Width(sent)))
    && (Fits(sent) ==> got.data == sent.data)
    && (sent.lenUnit == 8 && sent.len > 4 ==>
          sent.len <= |sent.buf| && sent.len <= |got.buf| && got.buf[..sent.len] == sent.buf[..sent.len])
  }

  /** All fields stand in the message. */
  ghost predicate Encoded(dp: seq<Byte>, infos: seq<Info>)
    requires WellLaid(infos, |dp|)
  {
    forall i :: 0 <= i < |infos| ==> Written(dp, infos[i])
  }

  /** The fields before `k` stand in the message, and there is still room for the others. */
  ghost predicate HalfEncoded(dp: seq<Byte>, infos: seq<Info>, k: nat)
    requires WellLaid(infos, |dp|) && k <= |infos|
  {
    && (forall i :: 0 <= i < k ==> Written(dp, infos[i]))
    && (forall i :: k <= i < |infos| ==> Blank(dp, Start(infos[i]), Width(infos[i])))
  }

  lemma OneMoreEncoded(was: seq<Byte>, now: seq<Byte>, infos: seq<Info>, k: nat)
    requires |was| == |now| && WellLaid(infos, |was|) && k < |infos| && HalfEncoded(was, infos, k)
    requires Outside(was, now, Start(infos[k]), Width(infos[k])) && Written(now, infos[k])
    ensures HalfEncoded(now, infos, k + 1)
  {
    forall i | 0 <= i < k ensures Written(now, infos[i]) {
      WrittenStays(was, now, infos[i], infos[k]);
    }
    forall i | k < i < |infos| ensures Blank(now, Start(infos[i]), Width(infos[i])) {
      BlankStays(was, now, infos[i], infos[k]);
    }
  }

  // ---------- sender and receiver ----------

  /** Every field of variable length finds its length in an earlier field that has room for it. */
  ghost predicate LengthsFirst(infos: seq<Info>)
  {
    forall k :: 0 <= k < |infos| && infos[k].vlen ==>
      var found := Find(infos, infos[k].vindex);
      found.Some? && found.value < k && Fits(Layout(infos, 0)[found.value])
  }

  /** Two fields of the same format. */
  predicate SameField(a: Info, b: Info) {
    && a.name == b.name && a.vindex == b.vindex && a.vlen == b.vlen && a.bytePos == b.bytePos
    && a.bitPos == b.bitPos && a.len == b.len && a.lenUnit == b.lenUnit
  }

  /** The receiver's fields are laid out like the sender's, and those before `k` have been recovered. */
  ghost predicate Following(s: seq<Info>, r: seq<Info>, k: nat) {
    && |s| == |r| && k <= |s|
    && (forall i :: 0 <= i < |s| ==> SameField(s[i], r[i]))
    && (forall i :: 0 <= i < k ==> Recovered(s[i], r[i]))
  }

  /** On reaching a field, the receiver comes to the same length and positions as the sender. */
  lemma FollowingReaches(s: seq<Info>, r: seq<Info>, k: nat)
    requires Following(s, r, k) && k < |s|
    requires s[k].vlen ==> var found := Find(s, s[k].vindex); found.Some? && found.value < k && Fits(s[found.value])
    ensures Following(Settled(s, k), Settled(r, k), k)
  {
    SameFind(s, r, s[k].vindex);
    if s[k].vlen {
      assert Recovered(s[Find(s, s[k].vindex).value], r[Find(s, s[k].vindex).value]);
    }
    assert LookedUp(s, k) == LookedUp(r, k);
    var s', r' := Settled(s, k), Settled(r, k);
    forall i | 0 <= i < |s| ensures SameField(s'[i], r'[i]) && (i < k ==> Recovered(s'[i], r'[i])) {
      SettledAt(s, k, i);
      SettledAt(r, k, i);
      SameFieldStays(s[i], r[i], LookedUp(s, k), s[k].lenUnit, k, i);
      assert i < k ==> Recovered(s[i], r[i]);
    }
  }

  lemma SameFieldStays(a: Info, b: Info, n: Option<nat>, unit: nat, k: nat, i: nat)
    requires SameField(a, b)
    ensures SameField(SettledField(a, n, unit, k, i), SettledField(b, n, unit, k, i))
  {
  }

  // ---------- reset ----------

  /** `pa_reset_vlen_flag` on one field. */
  function ResetOne(info: Info): Info {
    info.(vlen := info.vlen || info.vlenBak, bytePos := info.bytePosBak, bitPos := info.bitPosBak)
  }

  function Reset(infos: seq<Info>): (r: seq<Info>)
    ensures |r| == |infos| && forall i :: 0 <= i < |infos| ==> r[i] == ResetOne(infos[i])
  {
    if infos == [] then [] else Reset(infos[..|infos| - 1]) + [ResetOne(infos[|infos| - 1])]
  }

  /** As read from the configuration: nothing has been moved yet. */
  predicate Pristine(infos: seq<Info>) {
    forall i :: 0 <= i < |infos| ==>
      infos[i].vlen == infos[i].vlenBak && infos[i].bytePos == infos[i].bytePosBak &&
        infos[i].bitPos == infos[i].bitPosBak
  }

  predicate SameValues(a: seq<Info>, b: seq<Info>)
    requires |a| == |b|
  {
    forall i :: 0 <= i < |a| ==> a[i].data == b[i].data && a[i].buf == b[i].buf
  }

  /** The same fields from `k` on, but for lengths that are going to be looked up. */
  ghost predicate SameButLengths(a: seq<Info>, b: seq<Info>, k: nat) {
    && |a| == |b| && k <= |a|
    && (forall i :: 0 <= i < k ==> a[i] == b[i])
    && (forall i :: k <= i < |a| ==> a[i] == b[i].(len := a[i].len) && (!a[i].vlen ==> a[i] == b[i]))
    && (forall i :: k <= i < |a| && a[i].vlen ==> Find(a, a[i].vindex).Some?)
  }

  lemma SameLookedUp(a: seq<Info>, b: seq<Info>, k: nat)
    requires SameButLengths(a, b, k) && k < |a|
    ensures LookedUp(a, k) == LookedUp(b, k) && a[k].lenUnit == b[k].lenUnit && a[k].vlen == b[k].vlen
    ensures a[k].vlen ==> LookedUp(a, k).Some?
  {
    forall i | 0 <= i < |a| ensures a[i].name == b[i].name && a[i].data == b[i].data {
      assert i < k ==> a[i] == b[i];
    }
    SameFind(a, b, a[k].vindex);
  }

  lemma SameButLengthsAt(a: seq<Info>, b: seq<Info>, k: nat, i: nat)
    requires SameButLengths(a, b, k) && k < |a| && i < |a|
    ensures var a', b' := Settled(a, k)[i], Settled(b, k)[i];
      && (i <= k ==> a' == b') && a' == b'.(len := a'.len) && (!a'.vlen ==> a' == b')
      && a'.name == a[i].name && (i > k ==> a'.vlen == a[i].vlen && a'.vindex == a[i].vindex)
  {
    SameLookedUp(a, b, k);
    SettledAt(a, k, i);
    SettledAt(b, k, i);
    assert i < k ==> a[i] == b[i];
    SettledAlike(a[i], b[i], LookedUp(a, k), a[k].lenUnit, k, i);
  }

  /** One field, reached in two lists that differ in its length only if it is going to be looked up. */
  lemma SettledAlike(a: Info, b: Info, n: Option<nat>, unit: nat, k: nat, i: nat)
    requires (i < k ==> a == b) && a == b.(len := a.len) && (!a.vlen ==> a == b) && (i == k && a.vlen ==> n.Some?)
    ensures var a', b' := SettledField(a, n, unit, k, i), SettledField(b, n, unit, k, i);
      && (i <= k ==> a' == b') && a' == b'.(len := a'.len) && (!a'.vlen ==> a' == b')
  {
  }

  lemma SameButLengthsReaches(a: seq<Info>, b: seq<Info>, k: nat)
    requires SameButLengths(a, b, k) && k < |a|
    ensures SameButLengths(Settled(a, k), Settled(b, k), k + 1)
  {
    var a', b' := Settled(a, k), Settled(b, k);
    forall i | 0 <= i < |a|
      ensures (i <= k ==> a'[i] == b'[i]) && a'[i] == b'[i].(len := a'[i].len) && (!a'[i].vlen ==> a'[i] == b'[i])
      ensures a'[i].name == a[i].name
    {
      SameButLengthsAt(a, b, k, i);
    }
    forall i | k < i < |a| && a'[i].vlen ensures Find(a', a'[i].vindex).Some? {
      SameButLengthsAt(a, b, k, i);
      SameFind(a, a', a[i].vindex);
    }
  }

  lemma {:induction false} LayoutLooksLengthsUp(a: seq<Info>, b: seq<Info>, k: nat)
    requires SameButLengths(a, b, k)
    ensures Layout(a, k) == Layout(b, k)
    decreases |a| - k
  {
    if k < |a| {
      SameButLengthsReaches(a, b, k);
      LayoutLooksLengthsUp(Settled(a, k), Settled(b, k), k + 1);
    }
  }

  /**
    Shifts do not accumulate: after a message has been laid out, resetting and setting new values
    leads to the same layout as those values would have on the fields as they were configured.
    */
  lemma ResetForgetsShifts(format: seq<Info>, fresh_: seq<Info>, again: seq<Info>)
    requires Pristine(format) && |fresh_| == |format| == |again|
    requires forall i :: 0 <= i < |format| && format[i].vlen ==> Find(format, format[i].vindex).Some?
    requires forall i :: 0 <= i < |format| ==> fresh_[i] == format[i].(data := fresh_[i].data, buf := fresh_[i].buf)
    requires forall i :: 0 <= i < |format| ==>
      again[i] == Reset(Layout(format, 0))[i].(data := again[i].data, buf := again[i].buf)
    requires SameValues(fresh_, again)
    ensures Layout(again, 0) == Layout(fresh_, 0)
  {
    forall i | 0 <= i < |format|
      ensures again[i] == fresh_[i].(len := again[i].len) && (!again[i].vlen ==> again[i] == fresh_[i])
      ensures again[i].name == format[i].name && again[i].vlen == format[i].vlen && again[i].vindex == format[i].vindex
    {
      ResetOneForgets(format, i);
    }
    forall i | 0 <= i < |format| && again[i].vlen ensures Find(again, again[i].vindex).Some? {
      SameFind(format, again, format[i].vindex);
    }
    LayoutLooksLengthsUp(again, fresh_, 0);
  }

  lemma ResetOneForgets(format: seq<Info>, i: nat)
    requires Pristine(format) && i < |format|
    ensures var back := Reset(Layout(format, 0))[i];
      back == format[i].(len := back.len) && (!format[i].vlen ==> back == format[i])
  {
    LayoutChanges(format, 0, i);
    LayoutUnflags(format, 0, i);
    if !format[i].vlen {
      FixedLengthsStay(format, 0, i);
    }
  }

  lemma {:induction false} LayoutUnflags(infos: seq<Info>, k: nat, i: nat)
    requires k <= i < |infos|
    ensures !Layout(infos, k)[i].vlen
    decreases |infos| - k
  {
    SettledChanges(infos, k, i);
    if i == k {
      LayoutKeeps(Settled(infos, k), k + 1, i);
    } else {
      LayoutUnflags(Settled(infos, k), k + 1, i);
    }
  }

  lemma {:induction false} FixedLengthsStay(infos: seq<Info>, k: nat, i: nat)
    requires k <= |infos| && i < |infos| && !infos[i].vlen
    ensures Layout(infos, k)[i].len == infos[i].len
    decreases |infos| - k
  {
    if k < |infos| {
      SettledChanges(infos, k, i);
      assert Settled(infos, k)[i].len == infos[i].len && !Settled(infos, k)[i].vlen;
      FixedLengthsStay(Settled(infos, k), k + 1, i);
    }
  }

  // ---------- the analyzer ----------

  class Analyzer {
    /** The list behind `pa_list_head_p`. */
    var infos: seq<Info>
    /** `protocol_data`. */
    const protocolData: array<Byte>

    constructor (format: seq<Info>)
      ensures infos == format && fresh(protocolData) && protocolData.Length == 100
      ensures forall i :: 0 <= i < 100 ==> protocolData[i] == 0
    {
      infos := format;
      protocolData := new Byte[100](_ => 0);
    }

    /** `pa_recompute_byte_pos`; -1 when the field with the length is not found. */
    method RecomputeBytePos(cur: nat) returns (r: int)
      requires cur < |infos|
      modifies this`infos
      ensures infos == Recomputed(old(infos), cur)
      ensures r == if Find(old(infos), old(infos)[cur].vindex).Some? then 0 else -1
    {
      var found := Find(infos, infos[cur].vindex);
      if found.None? {
        return -1;
      }
      var n := infos[found.value].data;
      infos := infos[cur := infos[cur].(len := n % 0x1_0000)];
      var bitLen := n * infos[cur].lenUnit % 0x1_0000_0000;
      ghost var start := infos;
      for pos := cur + 1 to |infos|
        invariant |infos| == |start|
        invariant forall i :: 0 <= i < |start| ==>
          infos[i] == if cur < i < pos then ShiftOne(start[i], bitLen / 8) else start[i]
      {
        infos := infos[pos := infos[pos].(bytePos := (infos[pos].bytePos + bitLen / 8) % 256)];
      }
      assert infos == Shifted(start, cur + 1, bitLen / 8);
      r := 0;
    }

    /** What generating and parsing both do on reaching a field. */
    method Reach(k: nat)
      requires k < |infos|
      modifies this`infos
      ensures infos == Settled(old(infos), k)
    {
      if infos[k].vlen {
        var r := RecomputeBytePos(k);
        infos := infos[k := infos[k].(vlen := false)];
      }
    }

    /** The branches that write one field. */
    method WriteField(info: Info)
      requires FieldOk(info, protocolData.Length) && (info.lenUnit == 8 && info.len > 4 ==> info.len <= |info.buf|)
      requires Blank(protocolData[..], Start(info), Width(info))
      modifies protocolData
      ensures Outside(old(protocolData[..]), protocolData[..], Start(info), Width(info))
      ensures Written(protocolData[..], info)
    {
      if info.lenUnit == 8 {
        if info.len <= 4 {
          SetProtocolByteData(info.data, info.bytePos, info.len, protocolData);
        } else {
          SetProtocolBuf(info.buf, info.len, info.bytePos, protocolData);
        }
      } else if info.lenUnit == 1 {
        SetProtocolBitData(info.data, info.bytePos, info.bitPos, info.len, protocolData);
        MergedOutside(old(protocolData[..]), protocolData[..], Start(info), info.len, info.data);
        MergedHolds(old(protocolData[..]), protocolData[..], Start(info), info.len, info.data);
      }
    }

    /** The branches that read one field. */
    method ReadField(k: nat, ghost sent: Info)
      requires k < |infos| && FieldOk(sent, protocolData.Length) && Written(protocolData[..], sent)
      requires SameField(sent, infos[k])
      modifies this`infos
      ensures |infos| == old(|infos|) && forall i :: 0 <= i < |infos| && i != k ==> infos[i] == old(infos[i])
      ensures infos[k] == old(infos[k]).(data := infos[k].data, buf := infos[k].buf)
      ensures Recovered(sent, infos[k])
    {
      var info := infos[k];
      if info.lenUnit == 8 {
        if info.len <= 4 {
          var data := GetProtocolByteData(info.bytePos, info.len, protocolData);
          FieldRoundTrip(protocolData[..], Start(info), 8 * info.len, sent.data, data);
          infos := infos[k := info.(data := data)];
        } else {
          infos := infos[k := info.(buf := GetProtocolBuf(info.buf,
            protocolData[info.bytePos..info.bytePos + info.len]))];
        }
      } else if info.lenUnit == 1 {
        var data := GetProtocolBitData(info.bytePos, info.bitPos, info.len, protocolData);
        FieldRoundTrip(protocolData[..], Start(info), info.len, sent.data, data);
        infos := infos[k := info.(data := data)];
      }
    }

    /** `pa_generate_protocol_data`, on a zeroed message. */
    method Generate()
      requires WellLaid(Layout(infos, 0), protocolData.Length)
      requires forall i :: 0 <= i < |infos| ==>
        var info := Layout(infos, 0)[i]; info.lenUnit == 8 && info.len > 4 ==> info.len <= |info.buf|
      requires forall i :: 0 <= i < protocolData.Length ==> protocolData[i] == 0
      modifies this`infos, protocolData
      ensures infos == Layout(old(infos), 0)
      ensures Encoded(protocolData[..], infos)
    {
      ghost var laid := Layout(infos, 0);
      ZeroIsBlank(protocolData[..], laid);
      for k := 0 to |infos|
        invariant |infos| == |laid| && Layout(infos, k) == laid
        invariant HalfEncoded(protocolData[..], laid, k)
      {
        Reach(k);
        LayoutKeeps(infos, k + 1, k);
        ghost var was := protocolData[..];
        WriteField(infos[k]);
        OneMoreEncoded(was, protocolData[..], laid, k);
      }
    }

    /**
      `pa_parse_protocol_data` on a message that was generated from a format like this one: every value
      of the sender is recovered as far as its field holds it, and the fields end up where the sender's are.
      */
    method Parse(ghost sender: seq<Info>)
      requires Following(sender, infos, 0) && LengthsFirst(sender)
      requires WellLaid(Layout(sender, 0), protocolData.Length) && Encoded(protocolData[..], Layout(sender, 0))
      modifies this`infos
      ensures Following(Layout(sender, 0), infos, |infos|)
    {
      ghost var s, laid := sender, Layout(sender, 0);
      for k := 0 to |infos|
        invariant |infos| == |s| == |laid| && Layout(s, k) == laid
        invariant Following(s, infos, k)
        invariant forall i :: k <= i < |s| ==> s[i] == sender[i].(bytePos := s[i].bytePos)
      {
        LengthKnown(sender, s, k);
        FollowingReaches(s, infos, k);
        Reach(k);
        ghost var was := s;
        s := Settled(s, k);
        forall i | k < i < |s| ensures s[i] == sender[i].(bytePos := s[i].bytePos) {
          SettledChanges(was, k, i);
        }
        LayoutKeeps(s, k + 1, k);
        ReadField(k, s[k]);
      }
    }

    /** `pa_reset_vlen_flag`. */
    method ResetVlenFlag()
      modifies this`infos
      ensures infos == Reset(old(infos))
    {
      ghost var start := infos;
      for k := 0 to |infos|
        invariant |infos| == |start|
        invariant forall i :: 0 <= i < |start| ==> infos[i] == if i < k then ResetOne(start[i]) else start[i]
      {
        var info := infos[k];
        if info.vlenBak {
          info := info.(vlen := true);
        }
        infos := infos[k := info.(bytePos := info.bytePosBak, bitPos := info.bitPosBak)];
      }
      assert infos == Reset(start);
    }
  }

  /**
    What one side generates the other side parses: all values arrive, in fields of the same places
    and lengths. A number that its field has no room for arrives as its low bits.
    */
  method Transfer(sender: Analyzer, receiver: Analyzer)
    requires sender != receiver && sender.protocolData != receiver.protocolData
    requires sender.protocolData.Length == receiver.protocolData.Length
    requires WellLaid(Layout(sender.infos, 0), sender.protocolData.Length)
    requires forall i :: 0 <= i < |sender.infos| ==>
      var info := Layout(sender.infos, 0)[i]; info.lenUnit == 8 && info.len > 4 ==> info.len <= |info.buf|
    requires forall i :: 0 <= i < sender.protocolData.Length ==> sender.protocolData[i] == 0
    requires LengthsFirst(sender.infos) && Following(sender.infos, receiver.infos, 0)
    modifies sender`infos, receiver`infos, sender.protocolData, receiver.protocolData
    ensures sender.infos == Layout(old(sender.infos), 0) && |receiver.infos| == |sender.infos|
    ensures forall i :: 0 <= i < |sender.infos| ==>
      SameField(sender.infos[i], receiver.infos[i]) && Recovered(sender.infos[i], receiver.infos[i])
  {
    ghost var format := sender.infos;
    sender.Generate();
    ghost var message := sender.protocolData[..];
    assert Encoded(message, Layout(format, 0));
    for i := 0 to sender.protocolData.Length
      invariant sender.protocolData[..] == message && receiver.protocolData[..i] == message[..i]
      modifies receiver.protocolData
    {
      receiver.protocolData[i] := sender.protocolData[i];
    }
    assert receiver.protocolData[..] == message;
    receiver.Parse(format);
  }

  lemma ZeroIsBlank(dp: seq<Byte>, infos: seq<Info>)
    requires WellLaid(infos, |dp|) && forall i :: 0 <= i < |dp| ==> dp[i] == 0
    ensures HalfEncoded(dp, infos, 0)
  {
    forall k | 0 <= k < 8 * |dp| ensures !MessageBit(dp, k) {
      BitOfZero(7 - k % 8);
    }
  }

  /** Once the fields before it have been reached, the length of a field is known for good. */
  lemma LengthKnown(sender: seq<Info>, s: seq<Info>, k: nat)
    requires LengthsFirst(sender) && |s| == |sender| && k < |s| && Layout(s, k) == Layout(sender, 0)
    requires s[k] == sender[k].(bytePos := s[k].bytePos)
    ensures s[k].vlen ==> var found := Find(s, s[k].vindex); found.Some? && found.value < k && Fits(s[found.value])
  {
    if s[k].vlen {
      forall i | 0 <= i < |s| ensures s[i].name == sender[i].name {
        LayoutChanges(s, k, i);
        LayoutChanges(sender, 0, i);
      }
      SameFind(s, sender, s[k].vindex);
      LayoutKeeps(s, k, Find(sender, s[k].vindex).value);
    }
  }
}
