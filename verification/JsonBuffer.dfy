/**
  The buffered printers of cjson.c: one growing buffer, an offset that lags behind the text being
  written, and `update`, which finds the end of that text again.
  */
module JsonBuffer {
  import opened Bits
  import opened Buffers
  import opened CText
  import opened Numerals
  import opened JsonString
  import opened JsonStringCode
  import opened JsonValue
  import opened JsonPrint

  // ---------- pow2gt ----------

  /** One line of `pow2gt`: `x |= x >> w`. */
  function Smeared(x: nat, w: nat): nat {
    Or(x, Shr(x, w))
  }

  /** `pow2gt` for an `int` of 32 bits that is positive. */
  function Pow2Gt(x: nat): nat
    requires x > 0
  {
    Smeared(Smeared(Smeared(Smeared(Smeared(x - 1, 1), 2), 4), 8), 16) + 1
  }

  /** The least of `power`, `2 * power`, `4 * power`, ... that is not below `n`. */
  function PowerOver(n: nat, power: nat): (size: nat)
    requires power > 0
    ensures size >= n && (size == power || size / 2 < n)
    decreases n - power
  {
    if n <= power then power else PowerOver(n, 2 * power)
  }

  /** Bit `t` is the highest one that is set, and the `w` bits from there down are all set. */
  ghost predicate SetFrom(x: nat, t: nat, w: nat) {
    x < Pow2(t + 1) && forall j: nat {:trigger Bit(x, j)} :: t < j + w && j <= t ==> Bit(x, j)
  }

  lemma {:induction false} ShrNotAbove(n: nat, s: nat)
    ensures Shr(n, s) <= n
  {
    if s > 0 {
      ShrNotAbove(n / 2, s - 1);
    }
  }

  /** Each line doubles the number of bits that are set. */
  lemma SmearDoubles(x: nat, t: nat, w: nat)
    requires SetFrom(x, t, w)
    ensures SetFrom(Smeared(x, w), t, 2 * w)
  {
    ShrNotAbove(x, w);
    OrFits(x, Shr(x, w), t + 1);
    forall j: nat | t < j + 2 * w && j <= t ensures Bit(Smeared(x, w), j) {
      BitOfOr(x, Shr(x, w), j);
      BitOfShr(x, w, j);
      assert t < j + w ==> Bit(x, j);
      assert j + w <= t ==> Bit(x, w + j);
    }
  }

  lemma {:induction false} HighestBit(x: nat) returns (t: nat)
    requires x > 0
    ensures Pow2(t) <= x < Pow2(t + 1) && Bit(x, t)
  {
    if x == 1 {
      t := 0;
      assert Pow2(1) == 2;
    } else {
      var above := HighestBit(x / 2);
      t := above + 1;
      assert Pow2(t) == 2 * Pow2(above) && Pow2(t + 1) == 2 * Pow2(above + 1);
    }
  }

  lemma {:induction false} AllOnes(x: nat, n: nat)
    requires x < Pow2(n) && forall j: nat {:trigger Bit(x, j)} :: j < n ==> Bit(x, j)
    ensures x + 1 == Pow2(n)
  {
    if n > 0 {
      forall j: nat | j < n - 1 ensures Bit(x / 2, j) {
        assert Bit(x, j + 1);
      }
      assert Bit(x, 0);
      AllOnes(x / 2, n - 1);
    }
  }

  lemma {:induction false} PowersGrow(j: nat, k: nat)
    requires j <= k
    ensures Pow2(j) <= Pow2(k)
    decreases k
  {
    if j < k {
      PowersGrow(j, k - 1);
    }
  }

  lemma {:induction false} PowerOverIs(n: nat, k: nat, m: nat)
    requires k <= m && n <= Pow2(m) && (m == 0 || Pow2(m - 1) < n)
    ensures PowerOver(n, Pow2(k)) == Pow2(m)
    decreases m - k
  {
    if k < m {
      PowersGrow(k, m - 1);
      PowerOverIs(n, k + 1, m);
    }
  }

  lemma SmearedToOnes(x: nat, t: nat)
    requires SetFrom(x, t, 1) && t < 32
    ensures Smeared(Smeared(Smeared(Smeared(Smeared(x, 1), 2), 4), 8), 16) + 1 == Pow2(t + 1)
  {
    SmearDoubles(x, t, 1);
    var a := Smeared(x, 1);
    SmearDoubles(a, t, 2);
    var b := Smeared(a, 2);
    SmearDoubles(b, t, 4);
    var c := Smeared(b, 4);
    SmearDoubles(c, t, 8);
    var d := Smeared(c, 8);
    SmearDoubles(d, t, 16);
    AllOnes(Smeared(d, 16), t + 1);
  }

  lemma NothingToSmear(w: nat)
    ensures Smeared(0, w) == 0
  {
    ShrNotAbove(0, w);
  }

  /** The bit trick gives the least power of two that is not below its argument, if that is an `int`. */
  lemma Pow2GtIsLeast(n: nat) returns (m: nat)
    requires 0 < n <= Pow2(30)
    ensures m <= 30 && Pow2Gt(n) == PowerOver(n, 1) == Pow2(m)
  {
    if n == 1 {
      m := 0;
      Pow2GtOfOne();
    } else {
      m := Pow2GtAboveOne(n);
    }
  }

  lemma Pow2GtOfOne()
    ensures Pow2Gt(1) == 1
  {
    NothingToSmear(1);
    NothingToSmear(2);
    NothingToSmear(4);
    NothingToSmear(8);
    NothingToSmear(16);
  }

  lemma Pow2GtAboveOne(n: nat) returns (m: nat)
    requires 1 < n <= Pow2(30)
    ensures m <= 30 && Pow2Gt(n) == PowerOver(n, 1) == Pow2(m)
  {
    var t := HighestBit(n - 1);
    assert t < 30 by {
      if t >= 30 {
        PowersGrow(30, t);
      }
    }
    m := t + 1;
    assert Pow2Gt(n) == Pow2(m) by {
      SmearedToOnes(n - 1, t);
    }
    assert PowerOver(n, Pow2(0)) == Pow2(m) by {
      PowerOverIs(n, 0, m);
    }
  }

  // ---------- texts are free of terminators, and numbers are short ----------

  lemma {:induction false} PrintNulFree(v: Json, depth: nat, fmt: bool)
    requires Printable(v)
    ensures NulFree(Print(v, depth, fmt))
    decreases v, 1
  {
    match v
    case Number(m, _) => DigitsAreDigits(if m < 0 then -m else m);
    case String(x) => EscapeNulFree(x);
    case Array(items) => ItemsNulFree(items, depth, fmt);
    case Object(ms) => MembersNulFree(ms, depth, fmt);
    case _ =>
  }

  lemma {:induction false} ItemsNulFree(items: seq<Json>, depth: nat, fmt: bool)
    requires Printable(Array(items))
    ensures items != [] ==> NulFree(PrintItems(items, depth + 1, fmt))
    ensures NulFree(Print(Array(items), depth, fmt))
    decreases items, 0
  {
    if items != [] {
      var s := Print(items[0], depth + 1, fmt);
      PrintNulFree(items[0], depth + 1, fmt);
      if |items| > 1 {
        ItemsNulFree(items[1..], depth, fmt);
        NulFreeCat(Comma(fmt), PrintItems(items[1..], depth + 1, fmt));
        NulFreeCat(s, Comma(fmt) + PrintItems(items[1..], depth + 1, fmt));
      }
      NulFreeCat(PrintItems(items, depth + 1, fmt), "]");
      NulFreeCat("[", PrintItems(items, depth + 1, fmt) + "]");
    }
  }

  lemma CloseNulFree(depth: nat, fmt: bool)
    ensures NulFree(Indent(depth, fmt)) && NulFree(Close(depth, fmt)) && NulFree(Newline(fmt))
  {
    TabsAreTabs(depth);
    NulFreeCat(Indent(depth, fmt), "}");
  }

  lemma MemberNulFree(key: string, value: string, depth: nat, fmt: bool)
    requires NulFree(key) && NulFree(value)
    ensures NulFree(PrintMember(key, value, depth, fmt))
  {
    EscapeNulFree(key);
    CloseNulFree(depth, fmt);
    NulFreeCat(Colon(fmt), value);
    NulFreeCat(Quote(key), Colon(fmt) + value);
    NulFreeCat(Indent(depth, fmt), Quote(key) + (Colon(fmt) + value));
  }

  lemma {:induction false} MembersNulFree(ms: seq<Member>, depth: nat, fmt: bool)
    requires Printable(Object(ms))
    ensures ms != [] ==> NulFree(PrintMembers(ms, depth + 1, fmt))
    ensures NulFree(Print(Object(ms), depth, fmt))
    decreases ms, 0
  {
    CloseNulFree(depth, fmt);
    if ms == [] {
      NulFreeCat(Newline(fmt), Close(depth, fmt));
      NulFreeCat("{", Newline(fmt) + Close(depth, fmt));
    } else {
      var one := PrintMember(ms[0].key, Print(ms[0].value, depth + 1, fmt), depth + 1, fmt);
      PrintNulFree(ms[0].value, depth + 1, fmt);
      MemberNulFree(ms[0].key, Print(ms[0].value, depth + 1, fmt), depth + 1, fmt);
      if |ms| == 1 {
        NulFreeCat(one, Newline(fmt));
      } else {
        MembersNulFree(ms[1..], depth, fmt);
        var rest := PrintMembers(ms[1..], depth + 1, fmt);
        NulFreeCat(Newline(fmt), rest);
        NulFreeCat(",", Newline(fmt) + rest);
        NulFreeCat(one, "," + (Newline(fmt) + rest));
      }
      var all := PrintMembers(ms, depth + 1, fmt);
      NulFreeCat(all, Close(depth, fmt));
      NulFreeCat(Newline(fmt), all + Close(depth, fmt));
      NulFreeCat("{", Newline(fmt) + (all + Close(depth, fmt)));
    }
  }

  /** The 21 bytes reserved for an integer are enough. */
  lemma IntTextFits(m: int)
    requires INT_MIN <= m <= INT_MAX
    ensures |IntText(m)| <= 11
  {
    assert Pow10(10) == 10 * Pow10(9) == 100 * Pow10(8) == 1000 * Pow10(7) == 10000 * Pow10(6) == 100000 * Pow10(5);
    assert Pow10(5) == 10 * Pow10(4) == 100 * Pow10(3) == 1000 * Pow10(2) == 10000 * Pow10(1);
    DigitsShort(if m < 0 then -m else m, 10);
  }

  // ---------- the print buffer ----------

  class PrintBuffer {
    var buffer: array<char>
    var offset: nat

    /** `done` is what has been printed so far; the offset is at its end. */
    ghost predicate Holds(done: string)
      reads this, buffer
    {
      && offset == |done| && Starts(done)
    }

    /** The buffer starts with `s`. */
    ghost predicate Starts(s: string)
      reads this, buffer
    {
      |s| <= buffer.Length && forall i :: 0 <= i < |s| ==> buffer[i] == s[i]
    }

    /** A printer returned: `s` is there behind `done`, terminated, and the offset is somewhere within. */
    ghost predicate Printed(done: string, s: string)
      reads this, buffer
    {
      && Starts(done + s)
      && |done| <= offset <= |done + s| < buffer.Length && buffer[|done + s|] == NUL
    }

    constructor (prebuffer: nat)
      requires prebuffer > 0
      ensures fresh(buffer) && Holds("")
    {
      buffer := new char[prebuffer];
      offset := 0;
    }

    /** `ensure`: at least `needed` bytes behind the offset, in the same or a copied buffer. */
    method Ensure(needed: nat)
      requires offset <= buffer.Length
      modifies this`buffer
      ensures offset + needed <= buffer.Length
      ensures buffer == old(buffer) || fresh(buffer)
      ensures buffer.Length == if offset + needed <= old(buffer.Length) then old(buffer.Length)
        else PowerOver(offset + needed, 1)
      ensures forall i :: 0 <= i < old(buffer.Length) ==> buffer[i] == old(buffer[i])
    {
      var total := needed + offset;
      if total <= buffer.Length {
        return;
      }
      var newbuffer := new char[PowerOver(total, 1)];
      for i := 0 to buffer.Length
        invariant buffer == old(buffer)
        invariant forall k :: 0 <= k < i ==> newbuffer[k] == buffer[k]
      {
        newbuffer[i] := buffer[i];
      }
      buffer := newbuffer;
    }

    /** `update`: the end of the text that the offset lies in. */
    method Update(ghost done: string, ghost s: string) returns (end: nat)
      requires Printed(done, s) && NulFree(s)
      ensures end == |done + s|
    {
      end := offset;
      ghost var text := done + s;
      assert forall i :: |done| <= i < |text| ==> buffer[i] != NUL by {
        forall i | |done| <= i < |text| ensures buffer[i] != NUL {
          assert text[i] == s[i - |done|];
        }
      }
      while buffer[end] != NUL
        invariant offset <= end <= |text|
        decreases |text| - end
      {
        end := end + 1;
      }
    }

    /** Reserves room, writes `s` at the offset and leaves `spare` bytes behind it. */
    method Write(s: string, spare: nat, ghost done: string)
      requires Holds(done)
      modifies this`buffer, buffer
      ensures offset == |done| && Starts(done + s) && |done + s| + spare <= buffer.Length
      ensures buffer == old(buffer) || fresh(buffer)
    {
      Ensure(|s| + spare);
      var _ := Store(buffer, offset, s);
    }

    /** A separator: written, terminated if there is room reserved for that, and passed over. */
    method Pass(s: string, terminate: bool, ghost done: string)
      requires Holds(done)
      modifies this, buffer
      ensures Holds(done + s)
      ensures buffer == old(buffer) || fresh(buffer)
    {
      Write(s, if terminate then 1 else 0, done);
      if terminate {
        buffer[offset + |s|] := NUL;
      }
      offset := offset + |s|;
    }

    /** A last piece: written and terminated, with the offset left in front of it. */
    method Finish(s: string, ghost done: string, ghost before: string)
      requires Holds(done + before)
      modifies this`buffer, buffer
      ensures Printed(done, before + s)
      ensures buffer == old(buffer) || fresh(buffer)
    {
      Write(s, 1, done + before);
      buffer[offset + |s|] := NUL;
      Regroup(done, before, s);
    }

    /** `print_string_ptr` into the buffer. */
    method PrintQuoted(str: string, ghost done: string)
      requires Holds(done) && NulFree(str)
      modifies this`buffer, buffer
      ensures Printed(done, Quote(str))
      ensures buffer == old(buffer) || fresh(buffer)
    {
      var flag := NeedsEscaping(str);
      if !flag {
        PlainEscape(str);
        Ensure(|str| + 3);
        WritePlain(buffer, offset, str);
      } else {
        var len := EscapedLength(str);
        Ensure(len + 3);
        WriteEscaped(buffer, offset, str);
      }
    }

    /** A whole value that needs no nested printing. */
    method FinishAlone(s: string, ghost done: string)
      requires Holds(done)
      modifies this`buffer, buffer
      ensures Printed(done, s)
      ensures buffer == old(buffer) || fresh(buffer)
    {
      assert done + "" == done && "" + s == s;
      Finish(s, done, "");
    }

    /** `print_number`, for integers. */
    method PrintInt(m: int, ghost done: string)
      requires Holds(done) && INT_MIN <= m <= INT_MAX
      modifies this`buffer, buffer
      ensures Printed(done, IntText(m))
      ensures buffer == old(buffer) || fresh(buffer)
    {
      Ensure(if m == 0 then 2 else 21);
      IntTextFits(m);
      var _ := Store(buffer, offset, IntText(m));
      buffer[offset + |IntText(m)|] := NUL;
    }

    /** `print_value` into the buffer. */
    method PrintValue(item: Json, depth: nat, fmt: bool, ghost done: string)
      requires Holds(done) && Printable(item)
      modifies this, buffer
      ensures Printed(done, Print(item, depth, fmt))
      ensures buffer == old(buffer) || fresh(buffer)
      decreases item, 1
    {
      match item
      case Null => FinishAlone("null", done);
      case False => FinishAlone("false", done);
      case True => FinishAlone("true", done);
      case Number(m, _) => PrintInt(m, done);
      case String(x) => PrintQuoted(x, done);
      case Array(items) => PrintArray(items, depth, fmt, done);
      case Object(ms) => PrintObject(ms, depth, fmt, done);
    }

    /** `print_array` into the buffer. */
    method PrintArray(items: seq<Json>, depth: nat, fmt: bool, ghost done: string)
      requires Holds(done) && Printable(Array(items))
      modifies this, buffer
      ensures Printed(done, Print(Array(items), depth, fmt))
      ensures buffer == old(buffer) || fresh(buffer)
      decreases items, 2
    {
      if items == [] {
        FinishAlone("[]", done);
        return;
      }
      Pass("[", false, done);
      ghost var all, sofar := "[" + PrintItems(items, depth + 1, fmt), "[";
      assert items[0..] == items;
      for i := 0 to |items|
        invariant Holds(done + sofar) && sofar + ItemsLeft(items, i, depth + 1, fmt) == all
        invariant buffer == old(buffer) || fresh(buffer)
      {
        ghost var s := Print(items[i], depth + 1, fmt);
        ItemsAdvance(items, i, s, depth + 1, fmt, sofar, all);
        PrintChild(items[i], depth + 1, fmt, done + sofar);
        if i < |items| - 1 {
          Pass(Comma(fmt), true, done + sofar + s);
        }
        Regroup(done, sofar, s);
        Regroup(done, sofar + s, ItemEnd(i == |items| - 1, fmt));
        assert done + (sofar + s) + "" == done + (sofar + s);
        sofar := sofar + s + ItemEnd(i == |items| - 1, fmt);
      }
      assert sofar + "" == sofar;
      Finish("]", done, sofar);
      Regroup("[", PrintItems(items, depth + 1, fmt), "]");
    }

    /** A nested value and the `update` behind it. */
    method PrintChild(item: Json, depth: nat, fmt: bool, ghost done: string)
      requires Holds(done) && Printable(item)
      modifies this, buffer
      ensures Holds(done + Print(item, depth, fmt))
      ensures buffer == old(buffer) || fresh(buffer)
      decreases item, 2
    {
      PrintValue(item, depth, fmt, done);
      PrintNulFree(item, depth, fmt);
      offset := Update(done, Print(item, depth, fmt));
    }

    /** The tab loops. */
    method PassTabs(n: nat, ghost done: string)
      requires Holds(done)
      modifies this, buffer
      ensures Holds(done + Tabs(n))
      ensures buffer == old(buffer) || fresh(buffer)
    {
      Ensure(n);
      var _ := ComposeTabs(buffer, offset, n, done);
      TabsAreTabs(n);
      offset := offset + n;
    }

    /** One member: tabs, the key and its `update`, the colon, the value and its `update`. */
    method PrintPair(m: Member, depth: nat, fmt: bool, ghost done: string)
      requires Holds(done) && NulFree(m.key) && Printable(m.value)
      modifies this, buffer
      ensures Holds(done + PrintMember(m.key, Print(m.value, depth, fmt), depth, fmt))
      ensures buffer == old(buffer) || fresh(buffer)
      decreases m, 3
    {
      ghost var tabs, key, value := Indent(depth, fmt), Quote(m.key), Print(m.value, depth, fmt);
      if fmt {
        PassTabs(depth, done);
      } else {
        assert done + tabs == done;
      }
      PrintQuoted(m.key, done + tabs);
      EscapeNulFree(m.key);
      offset := Update(done + tabs, key);
      Pass(Colon(fmt), false, done + tabs + key);
      PrintChild(m.value, depth, fmt, done + tabs + key + Colon(fmt));
      Regroup(done + tabs + key, Colon(fmt), value);
      Regroup(done + tabs, key, Colon(fmt) + value);
      Regroup(done, tabs, key + (Colon(fmt) + value));
    }

    /** `print_object` into the buffer. */
    method PrintObject(ms: seq<Member>, depth: nat, fmt: bool, ghost done: string)
      requires Holds(done) && Printable(Object(ms))
      modifies this, buffer
      ensures Printed(done, Print(Object(ms), depth, fmt))
      ensures buffer == old(buffer) || fresh(buffer)
      decreases ms, 2
    {
      var head := "{" + Newline(fmt);
      if ms == [] {
        Ensure(if fmt then depth + 4 else 3);
        Pass(head, false, done);
        PrintClose(depth, fmt, done, head);
        Regroup("{", Newline(fmt), Close(depth, fmt));
        return;
      }
      Pass(head, true, done);
      ghost var all, sofar := head + PrintMembers(ms, depth + 1, fmt), head;
      assert ms[0..] == ms;
      for i := 0 to |ms|
        invariant Holds(done + sofar) && sofar + MembersLeft(ms, i, depth + 1, fmt) == all
        invariant buffer == old(buffer) || fresh(buffer)
      {
        ghost var value := Print(ms[i].value, depth + 1, fmt);
        ghost var one, end := PrintMember(ms[i].key, value, depth + 1, fmt), MemberEnd(i == |ms| - 1, fmt);
        MembersAdvance(ms, i, value, depth + 1, fmt, sofar, sofar + (one + end), all);
        PrintPair(ms[i], depth + 1, fmt, done + sofar);
        Pass(MemberEnd(i == |ms| - 1, fmt), true, done + sofar + one);
        Regroup(done + sofar, one, end);
        Regroup(done, sofar, one + end);
        sofar := sofar + (one + end);
      }
      assert sofar + "" == sofar;
      PrintClose(depth, fmt, done, all);
      Regroup(head, PrintMembers(ms, depth + 1, fmt), Close(depth, fmt));
      Regroup("{", Newline(fmt), PrintMembers(ms, depth + 1, fmt) + Close(depth, fmt));
    }

    /** The tabs and the brace at the end of an object. */
    method PrintClose(depth: nat, fmt: bool, ghost done: string, ghost before: string)
      requires Holds(done + before)
      modifies this, buffer
      ensures Printed(done, before + Close(depth, fmt))
      ensures buffer == old(buffer) || fresh(buffer)
    {
      Ensure(if fmt then depth + 2 else 2);
      if fmt {
        PassTabs(depth, done + before);
      }
      assert done + before + Indent(depth, fmt) == done + (before + Indent(depth, fmt));
      assert Holds(done + (before + Indent(depth, fmt)));
      Finish("}", done, before + Indent(depth, fmt));
      Regroup(before, Indent(depth, fmt), "}");
      Regroup(done, before, Indent(depth, fmt) + "}");
    }
  }

  /** `cjson_print_bufferd`: whatever positive size the buffer starts with, the text is the unbuffered one. */
  method PrintBuffered(item: Json, prebuffer: nat, fmt: bool) returns (s: string)
    requires Printable(item) && prebuffer > 0
    ensures s == Print(item, 0, fmt)
  {
    var p := new PrintBuffer(prebuffer);
    p.PrintValue(item, 0, fmt, "");
    PrintNulFree(item, 0, fmt);
    ghost var text := Print(item, 0, fmt);
    assert "" + text == text;
    TextFromStored(p.buffer[..], 0, text);
    s := TextFrom(p.buffer[..], 0);
  }
}
