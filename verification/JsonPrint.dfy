/** The unbuffered printers of cjson.c: nested texts first, then the space for them, then the whole. */
module JsonPrint {
  import opened Buffers
  import opened CText
  import opened JsonString
  import opened JsonStringCode
  import opened JsonValue

  /** The tab loops. */
  method ComposeTabs(out: array<char>, p: nat, n: nat, ghost done: string) returns (q: nat)
    requires Composed(out, p, done) && p + n <= out.Length
    modifies out
    ensures Composed(out, q, done + Tabs(n))
  {
    q := p;
    ghost var s := done;
    for i := 0 to n
      invariant q == p + i && Composed(out, q, s) && s + Tabs(n - i) == done + Tabs(n)
    {
      assert s + Tabs(n - i) == s + "\t" + Tabs(n - i - 1);
      out[q] := '\t';
      q, s := q + 1, s + "\t";
    }
    assert s + "" == s;
  }

  /** The space `print_array` reserves for its entries: each with a comma, a blank and one byte to spare. */
  function ItemRoom(items: seq<Json>, depth: nat, fmt: bool): nat
    requires forall i :: 0 <= i < |items| ==> Printable(items[i])
  {
    if items == [] then 0
    else |Print(items[0], depth, fmt)| + 2 + (if fmt then 1 else 0) + ItemRoom(items[1..], depth, fmt)
  }

  lemma {:induction false} ItemsFit(items: seq<Json>, depth: nat, fmt: bool)
    requires items != [] && forall i :: 0 <= i < |items| ==> Printable(items[i])
    ensures |PrintItems(items, depth, fmt)| <= ItemRoom(items, depth, fmt)
    decreases items
  {
    if |items| > 1 {
      ItemsFit(items[1..], depth, fmt);
    }
  }

  /** The space `print_object` reserves for its members. */
  function MemberRoom(ms: seq<Member>, depth: nat, fmt: bool): nat
    requires forall i :: 0 <= i < |ms| ==> NulFree(ms[i].key) && Printable(ms[i].value)
  {
    if ms == [] then 0
    else |Print(ms[0].value, depth, fmt)| + |Quote(ms[0].key)| + 2 + (if fmt then 2 + depth else 0)
         + MemberRoom(ms[1..], depth, fmt)
  }

  lemma {:induction false} MembersFit(ms: seq<Member>, depth: nat, fmt: bool)
    requires ms != [] && forall i :: 0 <= i < |ms| ==> NulFree(ms[i].key) && Printable(ms[i].value)
    ensures |PrintMembers(ms, depth, fmt)| <= MemberRoom(ms, depth, fmt)
    decreases ms
  {
    TabsAreTabs(depth);
    if |ms| > 1 {
      MembersFit(ms[1..], depth, fmt);
    }
  }

  /** `print_value` with no print buffer. */
  method PrintText(item: Json, depth: nat, fmt: bool) returns (s: string)
    requires Printable(item)
    ensures s == Print(item, depth, fmt)
    decreases item, 1
  {
    match item
    case Null => s := "null";
    case False => s := "false";
    case True => s := "true";
    case Number(m, _) => s := IntText(m);
    case String(x) =>
      var out := PrintString(x);
      s := TextFrom(out[..], 0);
    case Array(items) =>
      s := PrintArrayText(items, depth, fmt);
    case Object(ms) =>
      s := PrintObjectText(ms, depth, fmt);
  }

  /** `print_array`: collects the entries, allocates `5 + ...` bytes and composes within them. */
  method PrintArrayText(items: seq<Json>, depth: nat, fmt: bool) returns (s: string)
    requires Printable(Array(items))
    ensures s == Print(Array(items), depth, fmt)
    decreases items, 2
  {
    if items == [] {
      return "[]";
    }
    var entries: seq<string>, len := [], 5;
    for i := 0 to |items|
      invariant |entries| == i && forall k :: 0 <= k < i ==> entries[k] == Print(items[k], depth + 1, fmt)
      invariant len + ItemRoom(items[i..], depth + 1, fmt) == 5 + ItemRoom(items, depth + 1, fmt)
    {
      assert items[i..][0] == items[i] && items[i..][1..] == items[i + 1..];
      var ret := PrintText(items[i], depth + 1, fmt);
      entries := entries + [ret];
      len := len + |ret| + 2 + (if fmt then 1 else 0);
    }
    ItemsFit(items, depth + 1, fmt);
    var out := new char[len];
    var p := ComposeArray(out, items, entries, depth + 1, fmt);
    s := out[..p];
  }

  function ItemEnd(last: bool, fmt: bool): string {
    if last then "" else Comma(fmt)
  }

  function ItemsLeft(items: seq<Json>, i: nat, depth: nat, fmt: bool): string
    requires Printable(Array(items)) && i <= |items|
  {
    if i < |items| then PrintItems(items[i..], depth, fmt) else ""
  }

  /** What the composition of entry `i` leaves to compose. */
  lemma ItemsAdvance(items: seq<Json>, i: nat, entry: string, depth: nat, fmt: bool, done: string, all: string)
    requires Printable(Array(items)) && i < |items| && entry == Print(items[i], depth, fmt)
    requires done + ItemsLeft(items, i, depth, fmt) == all
    ensures var next := done + entry + ItemEnd(i == |items| - 1, fmt);
      next + ItemsLeft(items, i + 1, depth, fmt) == all && |next| <= |all|
  {
    var end, rest := ItemEnd(i == |items| - 1, fmt), ItemsLeft(items, i + 1, depth, fmt);
    assert ItemsLeft(items, i, depth, fmt) == entry + (end + rest) by {
      assert items[i..][0] == items[i] && items[i..][1..] == items[i + 1..];
      assert i == |items| - 1 ==> entry + ("" + "") == entry;
    }
    Regroup(entry, end, rest);
    Regroup(done, entry + end, rest);
    Regroup(done, entry, end);
  }

  method ComposeArray(out: array<char>, items: seq<Json>, entries: seq<string>, ghost depth: nat, fmt: bool)
      returns (p: nat)
    requires items != [] && Printable(Array(items))
    requires |entries| == |items| && forall k :: 0 <= k < |items| ==> entries[k] == Print(items[k], depth, fmt)
    requires |PrintItems(items, depth, fmt)| + 3 <= out.Length
    modifies out
    ensures p < out.Length && out[..p] == "[" + (PrintItems(items, depth, fmt) + "]") && out[p] == NUL
  {
    ghost var all := "[" + PrintItems(items, depth, fmt);
    ghost var done := "[";
    out[0] := '[';
    p := 1;
    assert items[0..] == items;
    for i := 0 to |items|
      invariant Composed(out, p, done)
      invariant done + ItemsLeft(items, i, depth, fmt) == all
    {
      ItemsAdvance(items, i, entries[i], depth, fmt, done, all);
      ghost var next := done + entries[i] + ItemEnd(i == |items| - 1, fmt);
      assert p + |entries[i]| <= |next| <= |all|;
      p := Compose(out, p, entries[i], done);
      p := Compose(out, p, ItemEnd(i == |items| - 1, fmt), done + entries[i]);
      done := next;
    }
    assert done + "" == done;
    p := Compose(out, p, "]", done);
    out[p] := NUL;
    Regroup("[", PrintItems(items, depth, fmt), "]");
  }

  /** `print_object`: names and entries, then the composition with its tabs and line breaks. */
  method PrintObjectText(ms: seq<Member>, depth: nat, fmt: bool) returns (s: string)
    requires Printable(Object(ms))
    ensures s == Print(Object(ms), depth, fmt)
    decreases ms, 2
  {
    if ms == [] {
      s := PrintEmptyObject(depth, fmt);
      return;
    }
    var names, entries, len := CollectMembers(ms, depth, fmt);
    ObjectFits(ms, depth, fmt);
    var out := new char[len];
    var p := ComposeObject(out, ms, names, entries, depth, fmt);
    s := out[..p];
  }

  lemma ObjectFits(ms: seq<Member>, depth: nat, fmt: bool)
    requires ms != [] && Printable(Object(ms))
    ensures |Print(Object(ms), depth, fmt)| < 7 + (if fmt then depth + 1 else 0) + MemberRoom(ms, depth + 1, fmt)
  {
    MembersFit(ms, depth + 1, fmt);
    TabsAreTabs(depth);
  }

  /** The first loop of `print_object`, which renders every key and value and adds up the space. */
  method CollectMembers(ms: seq<Member>, depth: nat, fmt: bool)
    returns (names: seq<string>, entries: seq<string>, len: nat)
    requires Printable(Object(ms))
    ensures |names| == |entries| == |ms|
    ensures forall k :: 0 <= k < |ms| ==>
      names[k] == Quote(ms[k].key) && entries[k] == Print(ms[k].value, depth + 1, fmt)
    ensures len == 7 + (if fmt then depth + 1 else 0) + MemberRoom(ms, depth + 1, fmt)
    decreases ms, 1
  {
    names, entries, len := [], [], if fmt then 7 + (depth + 1) else 7;
    ghost var total := len + MemberRoom(ms, depth + 1, fmt);
    assert ms[0..] == ms;
    for i := 0 to |ms|
      invariant Rendered(ms, i, names, entries, depth + 1, fmt)
      invariant len + MemberRoom(ms[i..], depth + 1, fmt) == total
    {
      var str, ret, room := RenderNext(ms, i, depth + 1, fmt);
      RenderedMore(ms, i, names, entries, depth + 1, fmt, str, ret);
      names, entries := names + [str], entries + [ret];
      len := len + room;
    }
  }

  /** One member, and the space it adds. */
  method RenderNext(ms: seq<Member>, i: nat, depth: nat, fmt: bool) returns (str: string, ret: string, room: nat)
    requires Printable(Object(ms)) && i < |ms|
    ensures str == Quote(ms[i].key) && ret == Print(ms[i].value, depth, fmt)
    ensures MemberRoom(ms[i..], depth, fmt) == room + MemberRoom(ms[i + 1..], depth, fmt)
    decreases ms, 0
  {
    MemberRoomStep(ms, i, depth, fmt);
    str, ret := RenderMember(ms[i], depth, fmt);
    room := |ret| + |str| + 2 + (if fmt then 2 + depth else 0);
  }

  /** The first `n` members have been rendered. */
  ghost predicate Rendered(ms: seq<Member>, n: nat, names: seq<string>, entries: seq<string>, depth: nat, fmt: bool)
    requires Printable(Object(ms))
  {
    && n <= |ms| && |names| == |entries| == n
    && forall k :: 0 <= k < n ==> names[k] == Quote(ms[k].key) && entries[k] == Print(ms[k].value, depth, fmt)
  }

  lemma RenderedMore(ms: seq<Member>, n: nat, names: seq<string>, entries: seq<string>, depth: nat, fmt: bool,
                     str: string, ret: string)
    requires Printable(Object(ms)) && n < |ms| && Rendered(ms, n, names, entries, depth, fmt)
    requires str == Quote(ms[n].key) && ret == Print(ms[n].value, depth, fmt)
    ensures Rendered(ms, n + 1, names + [str], entries + [ret], depth, fmt)
  {
  }

  method RenderMember(m: Member, depth: nat, fmt: bool) returns (str: string, ret: string)
    requires NulFree(m.key) && Printable(m.value)
    ensures str == Quote(m.key) && ret == Print(m.value, depth, fmt)
    decreases m, 1
  {
    var out := PrintString(m.key);
    str := TextFrom(out[..], 0);
    ret := PrintText(m.value, depth, fmt);
  }

  lemma MemberRoomStep(ms: seq<Member>, i: nat, depth: nat, fmt: bool)
    requires Printable(Object(ms)) && i < |ms|
    ensures MemberRoom(ms[i..], depth, fmt) == |Print(ms[i].value, depth, fmt)| + |Quote(ms[i].key)| + 2
      + (if fmt then 2 + depth else 0) + MemberRoom(ms[i + 1..], depth, fmt)
  {
    assert ms[i..][0] == ms[i] && ms[i..][1..] == ms[i + 1..];
  }

  /** The case of no members: `depth + 4` bytes when formatted, 3 otherwise. */
  method PrintEmptyObject(depth: nat, fmt: bool) returns (s: string)
    ensures s == Print(Object([]), depth, fmt)
  {
    var out := new char[if fmt then depth + 4 else 3];
    TabsAreTabs(depth);
    var p := Compose(out, 0, "{", "");
    if fmt {
      p := Compose(out, p, "\n", "{");
      p := ComposeTabs(out, p, depth, "{" + "\n");
    }
    ghost var done := "{" + Newline(fmt) + Indent(depth, fmt);
    assert Composed(out, p, done);
    p := Compose(out, p, "}", done);
    out[p] := NUL;
    s := out[..p];
    assert s == done + "}" == "{" + (Newline(fmt) + Close(depth, fmt));
  }

  /** One member in the composition; the loop ends each with a comma, except the last, and a line break. */
  method ComposeMember(out: array<char>, p: nat, name: string, entry: string, depth: nat, fmt: bool, last: bool,
                       ghost done: string)
    returns (q: nat)
    requires Composed(out, p, done)
    requires p + |Indent(depth, fmt)| + |name| + |Colon(fmt)| + |entry| + |MemberEnd(last, fmt)| <= out.Length
    modifies out
    ensures Composed(out, q, done + (Indent(depth, fmt) + (name + (Colon(fmt) + entry)) + MemberEnd(last, fmt)))
  {
    q := p;
    ghost var s := done + Indent(depth, fmt);
    TabsAreTabs(depth);
    if fmt {
      q := ComposeTabs(out, q, depth, done);
    } else {
      assert s == done;
    }
    assert Composed(out, q, s);
    q := Compose(out, q, name, s);
    q := Compose(out, q, Colon(fmt), s + name);
    q := Compose(out, q, entry, s + name + Colon(fmt));
    q := Compose(out, q, MemberEnd(last, fmt), s + name + Colon(fmt) + entry);
    Regroup(s + name, Colon(fmt), entry);
    Regroup(s, name, Colon(fmt) + entry);
    Regroup(done, Indent(depth, fmt), name + (Colon(fmt) + entry));
    Regroup(done, Indent(depth, fmt) + (name + (Colon(fmt) + entry)), MemberEnd(last, fmt));
  }

  function MemberEnd(last: bool, fmt: bool): string {
    if last then Newline(fmt) else "," + Newline(fmt)
  }

  function MembersLeft(ms: seq<Member>, i: nat, depth: nat, fmt: bool): string
    requires Printable(Object(ms)) && i <= |ms|
  {
    if i < |ms| then PrintMembers(ms[i..], depth, fmt) else ""
  }

  /** What the composition of member `i` leaves to compose. */
  lemma MembersFrom(ms: seq<Member>, i: nat, entry: string, depth: nat, fmt: bool)
    requires Printable(Object(ms)) && i < |ms| && entry == Print(ms[i].value, depth, fmt)
    ensures MembersLeft(ms, i, depth, fmt) ==
      PrintMember(ms[i].key, entry, depth, fmt) + MemberEnd(i == |ms| - 1, fmt) + MembersLeft(ms, i + 1, depth, fmt)
  {
    assert ms[i..][0] == ms[i] && ms[i..][1..] == ms[i + 1..];
    var one := PrintMember(ms[i].key, entry, depth, fmt);
    if i < |ms| - 1 {
      var rest := PrintMembers(ms[i + 1..], depth, fmt);
      Regroup(",", Newline(fmt), rest);
      Regroup(one, "," + Newline(fmt), rest);
    } else {
      assert one + Newline(fmt) == one + Newline(fmt) + "";
    }
  }

  /** The loop over the members, behind the opening brace. */
  method ComposeMembers(out: array<char>, at: nat, ms: seq<Member>, names: seq<string>, entries: seq<string>,
                        depth: nat, fmt: bool, ghost head: string) returns (p: nat)
    requires ms != [] && Printable(Object(ms)) && |names| == |entries| == |ms|
    requires forall k :: 0 <= k < |ms| ==> names[k] == Quote(ms[k].key) && entries[k] == Print(ms[k].value, depth, fmt)
    requires Composed(out, at, head) && at + |PrintMembers(ms, depth, fmt)| <= out.Length
    modifies out
    ensures Composed(out, p, head + PrintMembers(ms, depth, fmt))
  {
    ghost var all := head + PrintMembers(ms, depth, fmt);
    ghost var done := head;
    p := at;
    assert ms[0..] == ms;
    for i := 0 to |ms|
      invariant Composed(out, p, done)
      invariant done + MembersLeft(ms, i, depth, fmt) == all
    {
      ghost var next := done + (PrintMember(ms[i].key, entries[i], depth, fmt) + MemberEnd(i == |ms| - 1, fmt));
      MembersAdvance(ms, i, entries[i], depth, fmt, done, next, all);
      p := ComposeMember(out, p, names[i], entries[i], depth, fmt, i == |ms| - 1, done);
      done := next;
    }
    assert done + "" == done;
  }

  lemma MembersAdvance(ms: seq<Member>, i: nat, entry: string, depth: nat, fmt: bool, done: string, next: string,
                       all: string)
    requires Printable(Object(ms)) && i < |ms| && entry == Print(ms[i].value, depth, fmt)
    requires done + MembersLeft(ms, i, depth, fmt) == all
    requires next == done + (PrintMember(ms[i].key, entry, depth, fmt) + MemberEnd(i == |ms| - 1, fmt))
    ensures next + MembersLeft(ms, i + 1, depth, fmt) == all && |next| <= |all|
  {
    MembersFrom(ms, i, entry, depth, fmt);
    var one := PrintMember(ms[i].key, entry, depth, fmt) + MemberEnd(i == |ms| - 1, fmt);
    Regroup(done, one, MembersLeft(ms, i + 1, depth, fmt));
  }

  method ComposeObject(out: array<char>, ms: seq<Member>, names: seq<string>, entries: seq<string>, depth: nat,
                       fmt: bool)
    returns (p: nat)
    requires ms != [] && Printable(Object(ms)) && |names| == |entries| == |ms|
    requires forall k :: 0 <= k < |ms| ==>
      names[k] == Quote(ms[k].key) && entries[k] == Print(ms[k].value, depth + 1, fmt)
    requires |Print(Object(ms), depth, fmt)| < out.Length
    modifies out
    ensures p < out.Length && out[..p] == Print(Object(ms), depth, fmt) && out[p] == NUL
  {
    ghost var head, all := "{" + Newline(fmt), PrintMembers(ms, depth + 1, fmt);
    ObjectText(ms, depth, fmt, head, all);
    p := Compose(out, 0, "{", "");
    p := Compose(out, p, Newline(fmt), "{");
    p := ComposeMembers(out, p, ms, names, entries, depth + 1, fmt, head);
    p := ComposeClose(out, p, depth, fmt, head + all);
  }

  lemma ObjectText(ms: seq<Member>, depth: nat, fmt: bool, head: string, all: string)
    requires ms != [] && Printable(Object(ms)) && head == "{" + Newline(fmt) && all == PrintMembers(ms, depth + 1, fmt)
    ensures Print(Object(ms), depth, fmt) == head + all + Close(depth, fmt)
  {
    Regroup(head, all, Close(depth, fmt));
    Regroup("{", Newline(fmt), all + Close(depth, fmt));
  }

  /** The closing brace behind its tabs, and the terminator. */
  method ComposeClose(out: array<char>, at: nat, depth: nat, fmt: bool, ghost done: string) returns (p: nat)
    requires Composed(out, at, done) && at + |Close(depth, fmt)| < out.Length
    modifies out
    ensures p < out.Length && out[..p] == done + Close(depth, fmt) && out[p] == NUL
  {
    TabsAreTabs(depth);
    p := at;
    if fmt {
      p := ComposeTabs(out, p, depth, done);
    }
    assert Composed(out, p, done + Indent(depth, fmt)) by {
      assert !fmt ==> done + Indent(depth, fmt) == done;
    }
    p := Compose(out, p, "}", done + Indent(depth, fmt));
    out[p] := NUL;
    assert done + Indent(depth, fmt) + "}" == done + Close(depth, fmt);
  }
}
