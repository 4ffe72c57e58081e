/**
  JSON trees, the text that cjson.c prints for them, and the grammar that its parser accepts. `Print`
  is the text of a tree at some depth, formatted or not; `ParseValue` and the functions around it read a
  text from a position on, as far as the value reaches, the way the recursive functions of the parser do.
  */
module JsonValue {
  import opened Common
  import opened CText
  import opened Numerals
  import opened JsonString

  /** A number is `mantissa * 10^exponent`, the value the parser hands to `pow`. */
  datatype Json =
    | Null
    | False
    | True
    | Number(mantissa: int, exponent: int)
    | String(text: string)
    | Array(items: seq<Json>)
    | Object(members: seq<Member>)

  datatype Member = Member(key: string, value: Json)

  const INT_MIN: int := -0x8000_0000
  const INT_MAX: int := 0x7FFF_FFFF

  /** Trees whose numbers are C ints and whose strings can be C strings. */
  predicate Printable(v: Json) {
    match v
    case Number(m, e) => e == 0 && INT_MIN <= m <= INT_MAX
    case String(s) => NulFree(s)
    case Array(items) => forall i :: 0 <= i < |items| ==> Printable(items[i])
    case Object(ms) => forall i :: 0 <= i < |ms| ==> NulFree(ms[i].key) && Printable(ms[i].value)
    case _ => true
  }

  // ---------- printing ----------

  /** What `%d` prints. */
  function IntText(n: int): string {
    if n < 0 then "-" + Digits(-n) else Digits(n)
  }

  function Tabs(n: nat): string {
    if n == 0 then "" else "\t" + Tabs(n - 1)
  }

  lemma {:induction false} TabsAreTabs(n: nat)
    ensures |Tabs(n)| == n && forall i :: 0 <= i < n ==> Tabs(n)[i] == '\t'
  {
    if n > 0 {
      TabsAreTabs(n - 1);
    }
  }

  /** The text of a value, as `print_value` renders it at a nesting depth. */
  function Print(v: Json, depth: nat, fmt: bool): string
    requires Printable(v)
    decreases v, 1
  {
    match v
    case Null => "null"
    case False => "false"
    case True => "true"
    case Number(m, _) => IntText(m)
    case String(s) => Quote(s)
    case Array(items) =>
      if items == [] then "[]" else "[" + (PrintItems(items, depth + 1, fmt) + "]")
    case Object(ms) =>
      if ms == [] then "{" + (Newline(fmt) + Close(depth, fmt))
      else "{" + (Newline(fmt) + (PrintMembers(ms, depth + 1, fmt) + Close(depth, fmt)))
  }

  function Newline(fmt: bool): string {
    if fmt then "\n" else ""
  }

  function Indent(depth: nat, fmt: bool): string {
    if fmt then Tabs(depth) else ""
  }

  function Close(depth: nat, fmt: bool): string {
    Indent(depth, fmt) + "}"
  }

  function Comma(fmt: bool): string {
    if fmt then ", " else ","
  }

  function Colon(fmt: bool): string {
    if fmt then ":\t" else ":"
  }

  function PrintItems(items: seq<Json>, depth: nat, fmt: bool): string
    requires items != [] && forall i :: 0 <= i < |items| ==> Printable(items[i])
    decreases items, 0
  {
    if |items| == 1 then Print(items[0], depth, fmt)
    else Print(items[0], depth, fmt) + (Comma(fmt) + PrintItems(items[1..], depth, fmt))
  }

  function PrintMembers(ms: seq<Member>, depth: nat, fmt: bool): string
    requires ms != [] && forall i :: 0 <= i < |ms| ==> NulFree(ms[i].key) && Printable(ms[i].value)
    decreases ms, 0
  {
    PrintMember(ms[0].key, Print(ms[0].value, depth, fmt), depth, fmt)
    + if |ms| == 1 then Newline(fmt)
      else "," + (Newline(fmt) + PrintMembers(ms[1..], depth, fmt))
  }

  function PrintMember(key: string, value: string, depth: nat, fmt: bool): string {
    Indent(depth, fmt) + (Quote(key) + (Colon(fmt) + value))
  }

  // ---------- parsing ----------

  /** `skip`: past white space and every other character up to a blank. */
  function Skip(text: string, p: nat): (q: nat)
    requires p <= |text|
    ensures p <= q <= |text|
    decreases |text| - p
  {
    if NUL < At(text, p) <= ' ' then Skip(text, p + 1) else p
  }

  /** The digits before the point: at most one leading zero, then digits not starting with zero. */
  function ParseWhole(text: string, p: nat): (r: Numeral)
    requires p <= |text|
    ensures p <= r.end <= |text|
  {
    var q := if At(text, p) == '0' then p + 1 else p;
    if '1' <= At(text, q) <= '9' then ParseDigits(text, q, 0) else Numeral(0, q)
  }

  function ParseFraction(text: string, whole: Numeral): (r: Numeral)
    requires whole.end <= |text|
    ensures whole.end <= r.end <= |text|
    ensures r == whole || r.end > whole.end
  {
    if At(text, whole.end) == '.' && IsDigit(At(text, whole.end + 1))
    then ParseDigits(text, whole.end + 1, whole.value) else whole
  }

  datatype Exponent = Exponent(value: int, end: nat)

  function ParseExponent(text: string, p: nat): (r: Exponent)
    requires p <= |text|
    ensures p <= r.end <= |text|
  {
    if At(text, p) != 'e' && At(text, p) != 'E' then Exponent(0, p)
    else
      var q := if At(text, p + 1) == '+' || At(text, p + 1) == '-' then p + 2 else p + 1;
      var d := ParseDigits(text, q, 0);
      Exponent(if At(text, p + 1) == '-' then -(d.value as int) else d.value, d.end)
  }

  /** `parse_number`: it never fails; text that is no number reads as 0. */
  function ParseNumber(text: string, p: nat): (r: Parsed<Json>)
    requires p <= |text|
    ensures r.Ok? && p <= r.end <= |text|
  {
    var neg := At(text, p) == '-';
    var whole := ParseWhole(text, if neg then p + 1 else p);
    var all := ParseFraction(text, whole);
    var scale := if all == whole then 0 else all.end - whole.end - 1;
    var exp := ParseExponent(text, all.end);
    Ok(Number(if neg then -(all.value as int) else all.value, exp.value - scale), exp.end)
  }

  /** `strncmp` against a four-letter word. */
  predicate Word4(text: string, p: nat, a: char, b: char, c: char, d: char) {
    At(text, p) == a && At(text, p + 1) == b && At(text, p + 2) == c && At(text, p + 3) == d
  }

  function ParseValue(text: string, p: nat): (r: Parsed<Json>)
    requires p <= |text|
    ensures r.Ok? ==> p < r.end <= |text|
    decreases |text| - p, 0
  {
    if Word4(text, p, 'n', 'u', 'l', 'l') then Ok(Null, p + 4)
    else if Word4(text, p, 'f', 'a', 'l', 's') && At(text, p + 4) == 'e' then Ok(False, p + 5)
    else if Word4(text, p, 't', 'r', 'u', 'e') then Ok(True, p + 4)
    else if At(text, p) == '"' then
      match ParseString(text, p)
      case Err(ep) => Err(ep)
      case Ok(s, end) => Ok(String(s), end)
    else if At(text, p) == '-' || IsDigit(At(text, p)) then ParseNumber(text, p)
    else if At(text, p) == '[' then ParseArray(text, p)
    else if At(text, p) == '{' then ParseObject(text, p)
    else Err(Some(p))
  }

  function ParseArray(text: string, p: nat): (r: Parsed<Json>)
    requires p < |text|
    ensures r.Ok? ==> p < r.end <= |text|
    decreases |text| - p - 1, 3
  {
    var q := Skip(text, p + 1);
    if text[p] != '[' then Err(Some(p))
    else if At(text, q) == ']' then Ok(Array([]), q + 1)
    else
      match ParseItems(text, q)
      case Err(ep) => Err(ep)
      case Ok(items, end) => if At(text, end) == ']' then Ok(Array(items), end + 1) else Err(Some(end))
  }

  /** Comma-separated values and the blanks around them. */
  function ParseItems(text: string, p: nat): (r: Parsed<seq<Json>>)
    requires p <= |text|
    ensures r.Ok? ==> p < r.end <= |text|
    decreases |text| - p, 1
  {
    match ParseValue(text, Skip(text, p))
    case Err(ep) => Err(ep)
    case Ok(v, end) =>
      var q := Skip(text, end);
      if At(text, q) != ',' then Ok([v], q)
      else
        match ParseItems(text, q + 1)
        case Err(ep) => Err(ep)
        case Ok(vs, end2) => Ok([v] + vs, end2)
  }

  function ParseObject(text: string, p: nat): (r: Parsed<Json>)
    requires p < |text|
    ensures r.Ok? ==> p < r.end <= |text|
    decreases |text| - p - 1, 3
  {
    var q := Skip(text, p + 1);
    if text[p] != '{' then Err(Some(p))
    else if At(text, q) == '}' then Ok(Object([]), q + 1)
    else
      match ParseMembers(text, q)
      case Err(ep) => Err(ep)
      case Ok(ms, end) => if At(text, end) == '}' then Ok(Object(ms), end + 1) else Err(Some(end))
  }

  /** One `"key": value` pair. */
  function ParseMember(text: string, p: nat): (r: Parsed<Member>)
    requires p <= |text|
    ensures r.Ok? ==> p < r.end <= |text|
    decreases |text| - p, 1
  {
    match ParseString(text, Skip(text, p))
    case Err(ep) => Err(ep)
    case Ok(key, end) =>
      var q := Skip(text, end);
      if At(text, q) != ':' then Err(Some(q))
      else
        match ParseValue(text, Skip(text, q + 1))
        case Err(ep) => Err(ep)
        case Ok(v, end2) => Ok(Member(key, v), end2)
  }

  function ParseMembers(text: string, p: nat): (r: Parsed<seq<Member>>)
    requires p <= |text|
    ensures r.Ok? ==> p < r.end <= |text|
    decreases |text| - p, 2
  {
    match ParseMember(text, p)
    case Err(ep) => Err(ep)
    case Ok(m, end) =>
      var q := Skip(text, end);
      if At(text, q) != ',' then Ok([m], q)
      else
        match ParseMembers(text, q + 1)
        case Err(ep) => Err(ep)
        case Ok(ms, end2) => Ok([m] + ms, end2)
  }

  /** What is left to parse, joined behind the elements already in the list. */
  function After<T>(done: seq<T>, r: Parsed<seq<T>>): Parsed<seq<T>> {
    if r.Err? then r else Ok(done + r.value, r.end)
  }

  lemma AfterStep<T>(done: seq<T>, v: T, r: Parsed<seq<T>>)
    ensures After(done, After([v], r)) == After(done + [v], r)
  {
    if r.Ok? {
      assert done + ([v] + r.value) == done + [v] + r.value;
    }
  }

  lemma AfterNothing<T>(r: Parsed<seq<T>>)
    ensures After([], r) == r
  {
    if r.Ok? {
      assert [] + r.value == r.value;
    }
  }

  lemma ItemStep(text: string, p: nat, v: Json, end: nat, q: nat)
    requires p <= |text| && ParseValue(text, Skip(text, p)) == Ok(v, end) && q == Skip(text, end)
    ensures At(text, q) != ',' ==> ParseItems(text, p) == Ok([v], q)
    ensures At(text, q) == ',' ==> ParseItems(text, p) == After([v], ParseItems(text, q + 1))
  {
  }

  lemma MemberStep(text: string, p: nat, m: Member, end: nat, q: nat)
    requires p <= |text| && ParseMember(text, p) == Ok(m, end) && q == Skip(text, end)
    ensures At(text, q) != ',' ==> ParseMembers(text, p) == Ok([m], q)
    ensures At(text, q) == ',' ==> ParseMembers(text, p) == After([m], ParseMembers(text, q + 1))
  {
  }

  /** `cjson_parse_with_opts` on a text. */
  function Parse(text: string, requireNullTerminated: bool): Parsed<Json> {
    match ParseValue(text, Skip(text, 0))
    case Err(ep) => Err(ep)
    case Ok(v, end) =>
      if !requireNullTerminated then Ok(v, end)
      else if At(text, Skip(text, end)) != NUL then Err(Some(Skip(text, end)))
      else Ok(v, Skip(text, end))
  }
}
