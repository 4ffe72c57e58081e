/** How the formatted print is laid out: character by character from the unformatted one. */
module JsonLayout {
  import opened CText
  import opened JsonString
  import opened JsonValue
  import opened Numerals

  // ---------- laying a text out ----------

  /** In code, just behind an opening brace, in a literal, or behind a backslash in one. */
  datatype Mode = Plain | Fresh | Literal | Escaped

  /** The brackets and braces that are open, and where one is. */
  datatype Place = Place(open: string, mode: Mode)

  datatype Laid = Laid(text: string, at: Place)

  function Closed(open: string): string {
    if open == "" then "" else open[..|open| - 1]
  }

  function Depth(open: string): nat {
    |Closed(open)|
  }

  /** A character between the literals. */
  function LayPlain(open: string, c: char): Laid {
    match c
    case '"' => Laid("\"", Place(open, Literal))
    case '{' => Laid("{\n", Place(open + "{", Fresh))
    case '[' => Laid("[", Place(open + "[", Plain))
    case '}' => Laid("\n" + Tabs(Depth(open)) + "}", Place(Closed(open), Plain))
    case ']' => Laid("]", Place(Closed(open), Plain))
    case ':' => Laid(":\t", Place(open, Plain))
    case ',' => Laid(if open != "" && open[|open| - 1] == '{' then ",\n" + Tabs(|open|) else ", ", Place(open, Plain))
    case _ => Laid([c], Place(open, Plain))
  }

  function LayOne(at: Place, c: char): Laid {
    match at.mode
    case Plain => LayPlain(at.open, c)
    case Fresh =>
      if c == '}' then Laid(Tabs(Depth(at.open)) + "}", Place(Closed(at.open), Plain))
      else
        var r := LayPlain(at.open, c);
        r.(text := Tabs(|at.open|) + r.text)
    case Literal =>
      Laid([c], Place(at.open, if c == '"' then Plain else if c == '\\' then Escaped else Literal))
    case Escaped => Laid([c], Place(at.open, Literal))
  }

  function Lay(s: string, at: Place): Laid {
    if s == "" then Laid("", at)
    else
      var first := LayOne(at, s[0]);
      var rest := Lay(s[1..], first.at);
      Laid(first.text + rest.text, rest.at)
  }

  lemma {:induction false} LayCat(a: string, b: string, at: Place)
    ensures var x := Lay(a, at);
      var y := Lay(b, x.at);
      Lay(a + b, at) == Laid(x.text + y.text, y.at)
  {
    if a == "" {
      assert a + b == b;
    } else {
      assert (a + b)[1..] == a[1..] + b;
      LayCat(a[1..], b, LayOne(at, a[0]).at);
    }
  }

  /** Two texts behind one another, if it is known how each is laid out. */
  lemma LayTwo(a: string, b: string, at: Place, x: Laid, y: Laid)
    requires Lay(a, at) == x && Lay(b, x.at) == y
    ensures Lay(a + b, at) == Laid(x.text + y.text, y.at)
  {
    LayCat(a, b, at);
  }

  lemma LayChar(c: char, at: Place)
    ensures Lay([c], at) == LayOne(at, c)
  {
    assert [c][1..] == "";
    assert LayOne(at, c).text + "" == LayOne(at, c).text;
  }

  // ---------- literals, words and numbers ----------

  /** Characters that are copied between the literals. */
  predicate Copied(s: string) {
    forall i :: 0 <= i < |s| ==> s[i] !in "\"{}[]:,"
  }

  lemma {:induction false} CopiedStays(s: string, open: string)
    requires Copied(s)
    ensures Lay(s, Place(open, Plain)) == Laid(s, Place(open, Plain))
  {
    if s != "" {
      CopiedStays(s[1..], open);
      assert s == [s[0]] + s[1..];
    }
  }

  /** Characters that are copied within a literal and do not end it. */
  predicate Inner(s: string) {
    forall i :: 0 <= i < |s| ==> s[i] != '"' && s[i] != '\\'
  }

  lemma {:induction false} InnerStays(s: string, open: string)
    requires Inner(s)
    ensures Lay(s, Place(open, Literal)) == Laid(s, Place(open, Literal))
  {
    if s != "" {
      InnerStays(s[1..], open);
      assert s == [s[0]] + s[1..];
    }
  }

  lemma EscapeStays(c: char, open: string)
    ensures Lay(EscapeChar(c), Place(open, Literal)) == Laid(EscapeChar(c), Place(open, Literal))
  {
    var e, at := EscapeChar(c), Place(open, Literal);
    if !NeedsEscape(c) {
      LayChar(c, at);
    } else {
      var tail := e[2..];
      assert Inner(tail);
      InnerStays(tail, open);
      LayChar(e[0], at);
      LayChar(e[1], Place(open, Escaped));
      LayTwo([e[1]], tail, Place(open, Escaped), Laid([e[1]], at), Laid(tail, at));
      LayTwo([e[0]], [e[1]] + tail, at, Laid([e[0]], Place(open, Escaped)), Laid([e[1]] + tail, at));
      assert e == [e[0]] + ([e[1]] + tail);
    }
  }

  lemma {:induction false} EscapesStay(x: string, open: string)
    ensures Lay(Escape(x), Place(open, Literal)) == Laid(Escape(x), Place(open, Literal))
  {
    if x != "" {
      var at := Place(open, Literal);
      EscapeStays(x[0], open);
      EscapesStay(x[1..], open);
      LayTwo(EscapeChar(x[0]), Escape(x[1..]), at, Laid(EscapeChar(x[0]), at), Laid(Escape(x[1..]), at));
    }
  }

  lemma QuoteStays(x: string, open: string)
    ensures Lay(Quote(x), Place(open, Plain)) == Laid(Quote(x), Place(open, Plain))
  {
    var at, within := Place(open, Plain), Place(open, Literal);
    EscapesStay(x, open);
    LayChar('"', at);
    LayChar('"', within);
    LayTwo("\"", Escape(x), at, Laid("\"", within), Laid(Escape(x), within));
    LayTwo("\"" + Escape(x), "\"", at, Laid("\"" + Escape(x), within), Laid("\"", at));
  }

  lemma IntIsCopied(n: int)
    ensures Copied(IntText(n))
  {
    DigitsAreDigits(if n < 0 then -n else n);
  }

  // ---------- values ----------

  /** A value is laid out as its formatted print, and leaves one where one was. */
  ghost predicate LaysOut(s: string, open: string, out: string) {
    Lay(s, Place(open, Plain)) == Laid(out, Place(open, Plain))
  }

  lemma {:induction false} ValueLaysOut(v: Json, open: string, depth: nat)
    requires Printable(v) && depth == |open|
    ensures LaysOut(Print(v, depth, false), open, Print(v, depth, true))
    decreases v, 2
  {
    match v
    case Null => CopiedStays("null", open);
    case False => CopiedStays("false", open);
    case True => CopiedStays("true", open);
    case Number(m, _) =>
      IntIsCopied(m);
      CopiedStays(IntText(m), open);
    case String(s) => QuoteStays(s, open);
    case Array(items) => ArrayLaysOut(items, open, depth);
    case Object(ms) => ObjectLaysOut(ms, open, depth);
  }

  lemma {:induction false} ArrayLaysOut(items: seq<Json>, open: string, depth: nat)
    requires Printable(Array(items)) && depth == |open|
    ensures LaysOut(Print(Array(items), depth, false), open, Print(Array(items), depth, true))
    decreases items, 2
  {
    var at, within := Place(open, Plain), Place(open + "[", Plain);
    LayChar('[', at);
    LayChar(']', within);
    assert Closed(open + "[") == open;
    if items == [] {
      LayTwo("[", "]", at, Laid("[", within), Laid("]", at));
    } else {
      var s, out := PrintItems(items, depth + 1, false), PrintItems(items, depth + 1, true);
      ItemsLayOut(items, open + "[", depth + 1);
      LayTwo(s, "]", within, Laid(out, within), Laid("]", at));
      LayTwo("[", s + "]", at, Laid("[", within), Laid(out + "]", at));
    }
  }

  lemma {:induction false} ItemsLayOut(items: seq<Json>, open: string, depth: nat)
    requires items != [] && (forall i :: 0 <= i < |items| ==> Printable(items[i]))
    requires depth == |open| && open != "" && open[|open| - 1] == '['
    ensures LaysOut(PrintItems(items, depth, false), open, PrintItems(items, depth, true))
    decreases items, 1
  {
    ValueLaysOut(items[0], open, depth);
    if |items| > 1 {
      var at := Place(open, Plain);
      var s, out := Print(items[0], depth, false), Print(items[0], depth, true);
      var more, rest := PrintItems(items[1..], depth, false), PrintItems(items[1..], depth, true);
      ItemsLayOut(items[1..], open, depth);
      LayChar(',', at);
      LayTwo(",", more, at, Laid(", ", at), Laid(rest, at));
      LayTwo(s, "," + more, at, Laid(out, at), Laid(", " + rest, at));
    }
  }

  lemma {:induction false} ObjectLaysOut(ms: seq<Member>, open: string, depth: nat)
    requires Printable(Object(ms)) && depth == |open|
    ensures LaysOut(Print(Object(ms), depth, false), open, Print(Object(ms), depth, true))
    decreases ms, 2
  {
    var at, fresh_ := Place(open, Plain), Place(open + "{", Fresh);
    LayChar('{', at);
    assert Closed(open + "{") == open;
    if ms == [] {
      LayChar('}', fresh_);
      LayTwo("{", "}", at, Laid("{\n", fresh_), Laid(Tabs(depth) + "}", at));
      assert "{" + ("" + ("" + "}")) == "{" + "}";
      assert "{\n" + (Tabs(depth) + "}") == "{" + ("\n" + (Tabs(depth) + "}"));
    } else {
      var out := MembersLayOut(ms, open + "{", depth + 1);
      ObjectCloses(ms, open, depth, out);
    }
  }

  /** What follows the tabs in front of the first member, up to the line break behind the last. */
  ghost predicate MembersLay(ms: seq<Member>, open: string, depth: nat, out: string)
    requires ms != [] && forall i :: 0 <= i < |ms| ==> NulFree(ms[i].key) && Printable(ms[i].value)
  {
    && LaysOut(PrintMembers(ms, depth, false), open, out)
    && PrintMembers(ms, depth, true) == Tabs(depth) + (out + "\n")
  }

  lemma {:induction false} MemberLaysOut(m: Member, open: string, depth: nat)
    requires NulFree(m.key) && Printable(m.value) && depth == |open|
    ensures LaysOut(PrintMember(m.key, Print(m.value, depth, false), depth, false), open,
                    Quote(m.key) + (":\t" + Print(m.value, depth, true)))
    decreases m, 3
  {
    var at := Place(open, Plain);
    var s, out := Print(m.value, depth, false), Print(m.value, depth, true);
    ValueLaysOut(m.value, open, depth);
    QuoteStays(m.key, open);
    LayChar(':', at);
    LayTwo(":", s, at, Laid(":\t", at), Laid(out, at));
    LayTwo(Quote(m.key), ":" + s, at, Laid(Quote(m.key), at), Laid(":\t" + out, at));
    assert "" + (Quote(m.key) + (":" + s)) == Quote(m.key) + (":" + s);
  }

  lemma {:induction false} MembersLayOut(ms: seq<Member>, open: string, depth: nat) returns (out: string)
    requires ms != [] && (forall i :: 0 <= i < |ms| ==> NulFree(ms[i].key) && Printable(ms[i].value))
    requires depth == |open| && open != "" && open[|open| - 1] == '{'
    ensures MembersLay(ms, open, depth, out)
    decreases ms, 1
  {
    var m := ms[0];
    var s := PrintMember(m.key, Print(m.value, depth, false), depth, false);
    var one := Quote(m.key) + (":\t" + Print(m.value, depth, true));
    MemberLaysOut(m, open, depth);
    if |ms| == 1 {
      out := one;
      assert s + "" == s;
      Regroup(Tabs(depth), one, "\n");
    } else {
      var rest := MembersLayOut(ms[1..], open, depth);
      out := one + (",\n" + Tabs(depth) + rest);
      MoreMembers(ms, open, depth, s, one, rest);
    }
  }

  /** A member, a comma, and the others on lines of their own. */
  lemma MoreMembers(ms: seq<Member>, open: string, depth: nat, s: string, one: string, rest: string)
    requires |ms| > 1 && (forall i :: 0 <= i < |ms| ==> NulFree(ms[i].key) && Printable(ms[i].value))
    requires depth == |open| && open != "" && open[|open| - 1] == '{' && MembersLay(ms[1..], open, depth, rest)
    requires s == PrintMember(ms[0].key, Print(ms[0].value, depth, false), depth, false) && LaysOut(s, open, one)
    requires one == Quote(ms[0].key) + (":\t" + Print(ms[0].value, depth, true))
    ensures MembersLay(ms, open, depth, one + (",\n" + Tabs(depth) + rest))
  {
    var at := Place(open, Plain);
    var more := PrintMembers(ms[1..], depth, false);
    LayChar(',', at);
    LayTwo(",", more, at, Laid(",\n" + Tabs(depth), at), Laid(rest, at));
    LayTwo(s, "," + more, at, Laid(one, at), Laid(",\n" + Tabs(depth) + rest, at));
    assert "" + more == more;
    LinesJoin(Tabs(depth), one, rest);
  }

  lemma LinesJoin(tabs: string, one: string, rest: string)
    ensures tabs + one + ("," + ("\n" + (tabs + (rest + "\n")))) == tabs + (one + (",\n" + tabs + rest) + "\n")
  {
  }

  /** Just behind the opening brace the tabs are still to come. */
  lemma FreshLaysOut(s: string, open: string, out: string)
    requires s != "" && s[0] == '"' && LaysOut(s, open, out)
    ensures Lay(s, Place(open, Fresh)) == Laid(Tabs(|open|) + out, Place(open, Plain))
  {
    var rest := Lay(s[1..], Place(open, Literal));
    Regroup(Tabs(|open|), "\"", rest.text);
  }

  lemma MembersBegin(ms: seq<Member>, depth: nat)
    requires ms != [] && forall i :: 0 <= i < |ms| ==> NulFree(ms[i].key) && Printable(ms[i].value)
    ensures PrintMembers(ms, depth, false) != "" && PrintMembers(ms, depth, false)[0] == '"'
  {
    assert Quote(ms[0].key)[0] == '"';
  }

  lemma ObjectCloses(ms: seq<Member>, open: string, depth: nat, out: string)
    requires ms != [] && Printable(Object(ms)) && depth == |open| && MembersLay(ms, open + "{", depth + 1, out)
    ensures LaysOut(Print(Object(ms), depth, false), open, Print(Object(ms), depth, true))
  {
    var at, fresh_, within := Place(open, Plain), Place(open + "{", Fresh), Place(open + "{", Plain);
    var s, tabs, close := PrintMembers(ms, depth + 1, false), Tabs(depth + 1), "\n" + Tabs(depth) + "}";
    assert Closed(open + "{") == open;
    MembersBegin(ms, depth + 1);
    FreshLaysOut(s, open + "{", out);
    LayChar('{', at);
    LayChar('}', within);
    LayTwo(s, "}", fresh_, Laid(tabs + out, within), Laid(close, at));
    LayTwo("{", s + "}", at, Laid("{\n", fresh_), Laid(tabs + out + close, at));
    assert "" + (s + ("" + "}")) == s + "}";
    BraceJoins(tabs, out, Tabs(depth));
  }

  lemma BraceJoins(inner: string, out: string, outer: string)
    ensures "{\n" + (inner + out + ("\n" + outer + "}")) == "{" + ("\n" + (inner + (out + "\n") + (outer + "}")))
  {
  }

  /** The formatted print is the unformatted one, laid out. */
  lemma FormattedIsLaidOut(v: Json)
    requires Printable(v)
    ensures Lay(Print(v, 0, false), Place("", Plain)) == Laid(Print(v, 0, true), Place("", Plain))
  {
    ValueLaysOut(v, "", 0);
  }
}
