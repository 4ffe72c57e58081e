/**
  Single fields of protocol_analyzer.c: bit fields, most significant bit first, that may cross byte
  boundaries, and big-endian byte fields.
  */
module ProtoFields {
  import opened Bits
  import opened Common

  /** Bit `k` of a message: bytes in order, the most significant bit of each byte first. */
  predicate MessageBit(buf: seq<Byte>, k: nat)
    requires k < 8 * |buf|
  {
    Bit(buf[k / 8], 7 - k % 8)
  }

  /** The bits from `start` on are the `len` low bits of `data`, most significant first. */
  predicate Holds(buf: seq<Byte>, start: nat, len: nat, data: nat) {
    start + len <= 8 * |buf| && forall k :: start <= k < start + len ==>
      MessageBit(buf, k) == Bit(data, start + len - 1 - k)
  }

  predicate Blank(buf: seq<Byte>, start: nat, len: nat) {
    start + len <= 8 * |buf| && forall k :: start <= k < start + len ==> !MessageBit(buf, k)
  }

  /** Where a bit field starts: bit position 7 is the first bit of its byte. */
  function BitStart(bytePos: nat, bitPos: nat): nat
    requires bitPos < 8
  {
    8 * bytePos + 7 - bitPos
  }

  // ---------- one byte of a bit field ----------

  /** `get_bit_data`; the result is truncated to eight bits. */
  function GetBitData(data: nat, bitPos: nat, len: nat): (r: Byte)
  {
    LowFits(Low(Shr(data, bitPos), len), 8);
    assert Pow2(8) == 2 * Pow2(7) == 4 * Pow2(6) == 8 * Pow2(5) == 16 * Pow2(4) == 256;
    Low(Low(Shr(data, bitPos), len), 8)
  }

  lemma GetBitDataBits(data: nat, bitPos: nat, len: nat, k: nat)
    requires len <= 8
    ensures Bit(GetBitData(data, bitPos, len), k) == (k < len && Bit(data, bitPos + k))
  {
    BitOfLow(Low(Shr(data, bitPos), len), 8, k);
    BitOfLow(Shr(data, bitPos), len, k);
    BitOfShr(data, bitPos, k);
  }

  /** What `set_bit_data` makes of a byte. */
  function SetBitData(was: Byte, data: Byte, bitPos: nat, len: nat): (r: Byte)
  {
    LowFits(Or(was, Shl(Low(data, len), bitPos)), 8);
    assert Pow2(8) == 2 * Pow2(7) == 4 * Pow2(6) == 8 * Pow2(5) == 16 * Pow2(4) == 256;
    Low(Or(was, Shl(Low(data, len), bitPos)), 8)
  }

  lemma SetBitDataBits(was: Byte, data: Byte, bitPos: nat, len: nat, k: nat)
    requires k < 8
    ensures Bit(SetBitData(was, data, bitPos, len), k) ==
      (Bit(was, k) || (bitPos <= k < bitPos + len && Bit(data, k - bitPos)))
  {
    BitOfLow(Or(was, Shl(Low(data, len), bitPos)), 8, k);
    BitOfOr(was, Shl(Low(data, len), bitPos), k);
    BitOfShl(Low(data, len), bitPos, k);
    if k >= bitPos {
      BitOfLow(data, len, k - bitPos);
    }
  }

  /** The part of a field that goes into one byte, and where it stands there. */
  lemma PartBits(was: Byte, data: nat, left: nat, pos: nat, n: nat, k: nat)
    requires pos < 8 && k < 8 && n <= left && n <= pos + 1
    ensures Bit(SetBitData(was, GetBitData(data, left - n, n), pos + 1 - n, n), k) ==
      (Bit(was, k) || (pos + 1 - n <= k <= pos && Bit(data, left - 1 - (pos - k))))
  {
    SetBitDataBits(was, GetBitData(data, left - n, n), pos + 1 - n, n, k);
    if pos + 1 - n <= k {
      GetBitDataBits(data, left - n, n, k - (pos + 1 - n));
    }
  }

  // ---------- bit fields ----------

  /** The message with the first `done` bits of the field or-ed into it. */
  ghost predicate Merged(was: seq<Byte>, now: seq<Byte>, start: nat, len: nat, data: nat, done: nat) {
    && |now| == |was| && done <= len && start + len <= 8 * |was|
    && forall k :: 0 <= k < 8 * |was| ==>
         MessageBit(now, k) == (MessageBit(was, k) || (start <= k < start + done && Bit(data, start + len - 1 - k)))
  }

  lemma MergedPart(was: seq<Byte>, now: seq<Byte>, start: nat, len: nat, data: nat, done: nat,
                   at: nat, pos: nat, n: nat, next: seq<Byte>)
    requires Merged(was, now, start, len, data, done) && pos < 8 && 0 < n <= pos + 1 && n <= len - done
    requires start + done == 8 * at + 7 - pos && at < |now|
    requires next == now[at := SetBitData(now[at], GetBitData(data, len - done - n, n), pos + 1 - n, n)]
    ensures Merged(was, next, start, len, data, done + n)
  {
    forall k | 0 <= k < 8 * |was|
      ensures MessageBit(next, k) == (MessageBit(was, k) || (start <= k < start + done + n &&
        Bit(data, start + len - 1 - k)))
    {
      assert MessageBit(now, k) ==
        (MessageBit(was, k) || (start <= k < start + done && Bit(data, start + len - 1 - k)));
      if k / 8 == at {
        PartBits(now[at], data, len - done, pos, n, 7 - k % 8);
      } else {
        assert next[k / 8] == now[k / 8];
      }
    }
  }

  /** `pa_set_protocol_bit_data`: or-s the field into the message. */
  method SetProtocolBitData(data: nat, bytePos: nat, bitPos: nat, len: nat, dp: array<Byte>)
    requires bitPos < 8 && BitStart(bytePos, bitPos) + len <= 8 * dp.Length
    modifies dp
    ensures Merged(old(dp[..]), dp[..], BitStart(bytePos, bitPos), len, data, len)
  {
    ghost var start := BitStart(bytePos, bitPos);
    var tLen, tPos: int := len, bitPos;
    var i := 0;
    while tLen > 0
      invariant 0 <= tLen <= len && 0 <= tPos < 8 && 0 <= i
      invariant tLen > 0 ==> start + (len - tLen) == 8 * (bytePos + i) + 7 - tPos
      invariant Merged(old(dp[..]), dp[..], start, len, data, len - tLen)
    {
      var tLenGet := if tLen > tPos % 8 + 1 then tPos % 8 + 1 else tLen;
      var tDataGet := GetBitData(data, tLen - tLenGet, tLenGet);
      ghost var now := dp[..];
      assert tPos % 8 == tPos;
      dp[bytePos + i] := SetBitData(dp[bytePos + i], tDataGet, tPos % 8 + 1 - tLenGet, tLenGet);
      MergedPart(old(dp[..]), now, start, len, data, len - tLen, bytePos + i, tPos, tLenGet, dp[..]);
      tLen := tLen - tLenGet;
      tPos := tPos - tLenGet;
      if tPos < 0 {
        tPos := 7;
      }
      i := i + 1;
    }
  }

  /** On a blank part of the message the field is what has been written. */
  lemma MergedHolds(was: seq<Byte>, now: seq<Byte>, start: nat, len: nat, data: nat)
    requires Merged(was, now, start, len, data, len) && Blank(was, start, len)
    ensures Holds(now, start, len, data)
  {
  }

  /** The bits of a field that have been collected so far stand at their place. */
  ghost predicate Collected(buf: seq<Byte>, start: nat, len: nat, done: nat, data: nat) {
    && done <= len && start + len <= 8 * |buf|
    && forall j: nat :: Bit(data, j) == (len - done <= j < len && MessageBit(buf, start + len - 1 - j))
  }

  lemma CollectedPart(buf: seq<Byte>, start: nat, len: nat, done: nat, data: nat, at: nat, pos: nat, n: nat, next: nat)
    requires Collected(buf, start, len, done, data) && pos < 8 && 0 < n <= pos + 1 && n <= len - done
    requires start + done == 8 * at + 7 - pos && at < |buf|
    requires next == Or(data, Shl(GetBitData(buf[at], pos + 1 - n, n), len - done - n))
    ensures Collected(buf, start, len, done + n, next)
  {
    forall j: nat ensures Bit(next, j) == (len - (done + n) <= j < len && MessageBit(buf, start + len - 1 - j)) {
      BitOfOr(data, Shl(GetBitData(buf[at], pos + 1 - n, n), len - done - n), j);
      BitOfShl(GetBitData(buf[at], pos + 1 - n, n), len - done - n, j);
      if j >= len - done - n {
        GetBitDataBits(buf[at], pos + 1 - n, n, j - (len - done - n));
      }
    }
  }

  /** A position that wraps stands for the first bit of the next byte. */
  lemma WrappedPosition(pos: nat, n: nat)
    requires pos < 256 && 0 < n <= pos % 8 + 1
    ensures (pos - n) % 256 % 8 == if n == pos % 8 + 1 then 7 else pos % 8 - n
  {
  }

  /** `pa_get_protocol_bit_data`; its position wraps modulo 256 where the writer's is set to 7. */
  method GetProtocolBitData(bytePos: nat, bitPos: nat, len: nat, dp: array<Byte>) returns (data: nat)
    requires bitPos < 8 && BitStart(bytePos, bitPos) + len <= 8 * dp.Length
    ensures Collected(dp[..], BitStart(bytePos, bitPos), len, len, data)
  {
    ghost var start := BitStart(bytePos, bitPos);
    var totalLen, bitPosGet: int := len, bitPos;
    data := 0;
    var i := 0;
    forall j: nat ensures !Bit(0, j) {
      BitOfZero(j);
    }
    while totalLen > 0
      invariant 0 <= totalLen <= len && 0 <= bitPosGet < 256 && 0 <= i
      invariant totalLen > 0 ==> start + (len - totalLen) == 8 * (bytePos + i) + 7 - bitPosGet % 8
      invariant Collected(dp[..], start, len, len - totalLen, data)
    {
      var lenGet := if totalLen > bitPosGet % 8 + 1 then bitPosGet % 8 + 1 else totalLen;
      var tDataGet := GetBitData(dp[bytePos + i], bitPosGet % 8 + 1 - lenGet, lenGet);
      ghost var was := data;
      data := Or(data, Shl(tDataGet, totalLen - lenGet));
      CollectedPart(dp[..], start, len, len - totalLen, was, bytePos + i, bitPosGet % 8, lenGet, data);
      WrappedPosition(bitPosGet, lenGet);
      bitPosGet := (bitPosGet - lenGet) % 256;
      totalLen := totalLen - lenGet;
      i := i + 1;
    }
  }

  /** What is collected from a field is what was written there, as far as it fits. */
  lemma FieldRoundTrip(buf: seq<Byte>, start: nat, len: nat, data: nat, got: nat)
    requires Holds(buf, start, len, data) && Collected(buf, start, len, len, got)
    ensures got == Low(data, len)
    ensures data < Pow2(len) ==> got == data
  {
    forall j: nat ensures Bit(got, j) == Bit(Low(data, len), j) {
      BitOfLow(data, len, j);
    }
    SameBits(got, Low(data, len));
    if data < Pow2(len) {
      forall j: nat ensures Bit(data, j) == Bit(Low(data, len), j) {
        BitOfLow(data, len, j);
        if j >= len {
          NoBitsAbove(data, len, j);
        }
      }
      SameBits(data, Low(data, len));
    }
  }

  /** The writer sets its position to 7 where the reader's wraps: modulo eight they are always the same. */
  lemma PositionsAgree(pos: nat, n: nat)
    requires pos < 128 && n <= pos % 8 + 1
    ensures var written := if pos - n < 0 then 7 else pos - n;
      written % 8 == (pos - n) % 256 % 8 && written < 128
  {
  }

  // ---------- byte fields ----------

  /** Nothing but the bits of the field has changed. */
  ghost predicate Outside(was: seq<Byte>, now: seq<Byte>, start: nat, len: nat) {
    && |now| == |was|
    && forall k :: 0 <= k < 8 * |was| && !(start <= k < start + len) ==> MessageBit(now, k) == MessageBit(was, k)
  }

  lemma MergedOutside(was: seq<Byte>, now: seq<Byte>, start: nat, len: nat, data: nat)
    requires Merged(was, now, start, len, data, len)
    ensures Outside(was, now, start, len)
  {
  }

  /** Byte `i` of a big-endian field of `len` bytes. */
  function FieldByte(data: nat, len: nat, i: nat): (b: Byte)
    requires i < len
  {
    LowFits(Shr(data, 8 * (len - i - 1)), 8);
    assert Pow2(8) == 2 * Pow2(7) == 4 * Pow2(6) == 8 * Pow2(5) == 16 * Pow2(4) == 256;
    Low(Shr(data, 8 * (len - i - 1)), 8)
  }

  /** `pa_set_protocol_byte_data`. */
  method SetProtocolByteData(data: nat, bytePos: nat, len: nat, dp: array<Byte>)
    requires bytePos + len <= dp.Length
    modifies dp
    ensures Holds(dp[..], 8 * bytePos, 8 * len, data) && Outside(old(dp[..]), dp[..], 8 * bytePos, 8 * len)
  {
    for i := 0 to len
      invariant forall j :: 0 <= j < i ==> dp[bytePos + j] == FieldByte(data, len, j)
      invariant forall j :: 0 <= j < bytePos || bytePos + i <= j < dp.Length ==> dp[j] == old(dp[j])
    {
      dp[bytePos + i] := FieldByte(data, len, i);
    }
    BytesHold(old(dp[..]), dp[..], bytePos, len, data);
  }

  lemma BytesHold(was: seq<Byte>, now: seq<Byte>, bytePos: nat, len: nat, data: nat)
    requires |now| == |was| && bytePos + len <= |now|
    requires forall j {:trigger FieldByte(data, len, j)} :: 0 <= j < len ==> now[bytePos + j] == FieldByte(data, len, j)
    requires forall j :: 0 <= j < bytePos || bytePos + len <= j < |now| ==> now[j] == was[j]
    ensures Holds(now, 8 * bytePos, 8 * len, data) && Outside(was, now, 8 * bytePos, 8 * len)
  {
    forall k | 8 * bytePos <= k < 8 * bytePos + 8 * len
      ensures MessageBit(now, k) == Bit(data, 8 * bytePos + 8 * len - 1 - k)
    {
      var j := k / 8 - bytePos;
      assert now[bytePos + j] == FieldByte(data, len, j);
      BitOfLow(Shr(data, 8 * (len - j - 1)), 8, 7 - k % 8);
      BitOfShr(data, 8 * (len - j - 1), 7 - k % 8);
    }
  }

  /** `pa_get_protocol_byte_data`. */
  method GetProtocolByteData(bytePos: nat, len: nat, dp: array<Byte>) returns (data: nat)
    requires bytePos + len <= dp.Length
    ensures Collected(dp[..], 8 * bytePos, 8 * len, 8 * len, data)
  {
    data := 0;
    forall j: nat ensures !Bit(0, j) {
      BitOfZero(j);
    }
    for i := 0 to len
      invariant Collected(dp[..], 8 * bytePos, 8 * len, 8 * i, data)
    {
      CollectedByte(dp[..], bytePos, len, i, data);
      data := Or(data, Shl(dp[bytePos + i], (len - i - 1) * 8));
    }
  }

  lemma CollectedByte(buf: seq<Byte>, bytePos: nat, len: nat, i: nat, data: nat)
    requires i < len && bytePos + len <= |buf| && Collected(buf, 8 * bytePos, 8 * len, 8 * i, data)
    ensures Collected(buf, 8 * bytePos, 8 * len, 8 * (i + 1), Or(data, Shl(buf[bytePos + i], (len - i - 1) * 8)))
  {
    var s := (len - i - 1) * 8;
    var next := Or(data, Shl(buf[bytePos + i], s));
    forall j: nat ensures Bit(next, j) == (s <= j < 8 * len && MessageBit(buf, 8 * bytePos + 8 * len - 1 - j)) {
      BitOfOr(data, Shl(buf[bytePos + i], s), j);
      BitOfShl(buf[bytePos + i], s, j);
      if j >= s + 8 {
        assert Pow2(8) == 2 * Pow2(7) == 4 * Pow2(6) == 8 * Pow2(5) == 16 * Pow2(4) == 256;
        NoBitsAbove(buf[bytePos + i], 8, j - s);
      } else if j >= s {
        var k := 8 * bytePos + 8 * len - 1 - j;
        assert k / 8 == bytePos + i && 7 - k % 8 == j - s;
      }
    }
  }

  // ---------- buffers ----------

  /** A byte none of whose bits has changed has not changed. */
  lemma SameByte(was: seq<Byte>, now: seq<Byte>, b: nat)
    requires b < |was| == |now| && forall k :: 8 * b <= k < 8 * b + 8 ==> MessageBit(now, k) == MessageBit(was, k)
    ensures now[b] == was[b]
  {
    assert Pow2(8) == 2 * Pow2(7) == 4 * Pow2(6) == 8 * Pow2(5) == 16 * Pow2(4) == 256;
    forall j: nat ensures Bit(now[b], j) == Bit(was[b], j) {
      if j < 8 {
        assert MessageBit(now, 8 * b + 7 - j) == MessageBit(was, 8 * b + 7 - j);
      } else {
        NoBitsAbove(now[b], 8, j);
        NoBitsAbove(was[b], 8, j);
      }
    }
    SameBits(now[b], was[b]);
  }

  /** `pa_set_protocol_buf` at bit position 0: memcpy. */
  method SetProtocolBuf(data: seq<Byte>, len: nat, bytePos: nat, dp: array<Byte>)
    requires len <= |data| && bytePos + len <= dp.Length
    modifies dp
    ensures dp[bytePos..bytePos + len] == data[..len] && Outside(old(dp[..]), dp[..], 8 * bytePos, 8 * len)
  {
    for i := 0 to len
      invariant forall j :: 0 <= j < i ==> dp[bytePos + j] == data[j]
      invariant forall j :: 0 <= j < bytePos || bytePos + i <= j < dp.Length ==> dp[j] == old(dp[j])
    {
      dp[bytePos + i] := data[i];
    }
  }

  /** `pa_get_protocol_buf`: a buffer that is long enough keeps its length and what lies behind. */
  function GetProtocolBuf(buf: seq<Byte>, bytes: seq<Byte>): seq<Byte> {
    if |buf| == 0 || |bytes| > |buf| then bytes else bytes + buf[|bytes|..]
  }
}
