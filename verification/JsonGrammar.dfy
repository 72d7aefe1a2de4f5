/** `JSON.parse` on raw text, as the grammar of RFC 8259 over UTF-16 code units. The result keeps number
    tokens and repeated members, which the value JavaScript builds from it no longer shows. */
module JsonGrammar {
  import opened Unicode
  import opened Canonical

  datatype Json =
    | JNull
    | JBool(b: bool)
    | JNum(token: Text)
    | JStr(s: Text)
    | JArr(items: seq<Json>)
    | JObj(members: seq<JMember>)

  datatype JMember = JMember(key: Text, value: Json)

  /** A parsed prefix and what follows it. */
  datatype Parsed<+T> = NoParse | Parsed(value: T, rest: Text) {
    predicate IsFailure() { NoParse? }
    function PropagateFailure<U>(): Parsed<U> requires NoParse? { NoParse }
    function Extract(): (T, Text) requires Parsed? { (value, rest) }
  }

  predicate IsSpace(u: int) {
    u == 0x20 || u == 0x09 || u == 0x0A || u == 0x0D
  }

  function SkipSpace(s: Text): (r: Text)
    ensures |r| <= |s|
    ensures r == [] || !IsSpace(r[0])
  {
    if s != [] && IsSpace(s[0]) then SkipSpace(s[1..]) else s
  }

  // ---------------------------------------------------------------- strings

  function HexValue(u: int): int {
    if IsDigit(u) then u - 0x30
    else if 0x61 <= u <= 0x66 then u - 0x57
    else if 0x41 <= u <= 0x46 then u - 0x37
    else -1
  }

  /** The unit named by four hexadecimal digits, or -1. */
  function HexUnit(s: Text): (r: int)
    ensures -1 <= r < 0x1_0000
  {
    if |s| < 4 then -1
    else
      var a, b, c, d := HexValue(s[0]), HexValue(s[1]), HexValue(s[2]), HexValue(s[3]);
      if a < 0 || b < 0 || c < 0 || d < 0 then -1 else ((a * 16 + b) * 16 + c) * 16 + d
  }

  /** The unit a one-letter escape stands for, or -1. */
  function SimpleEscape(u: int): (r: int)
    ensures -1 <= r < 0x1_0000
  {
    if u == QUOTE || u == BACKSLASH || u == 0x2F then u
    else if u == 0x62 then 0x08
    else if u == 0x66 then 0x0C
    else if u == 0x6E then 0x0A
    else if u == 0x72 then 0x0D
    else if u == 0x74 then 0x09
    else -1
  }

  /** One possibly escaped character of a string body. */
  function ParseUnit(s: Text): (r: Parsed<Unit>)
    ensures r.Parsed? ==> |r.rest| < |s|
  {
    if s == [] || s[0] == QUOTE || s[0] < 0x20 then NoParse
    else if s[0] != BACKSLASH then Parsed(s[0], s[1..])
    else if |s| < 2 then NoParse
    else if s[1] == 0x75 then
      if HexUnit(s[2..]) < 0 then NoParse else Parsed(HexUnit(s[2..]), s[6..])
    else if SimpleEscape(s[1]) < 0 then NoParse
    else Parsed(SimpleEscape(s[1]), s[2..])
  }

  /** A string body up to and including its closing quote. */
  function ParseChars(s: Text): (r: Parsed<Text>)
    ensures r.Parsed? ==> |r.rest| < |s|
    decreases |s|
  {
    if s != [] && s[0] == QUOTE then Parsed([], s[1..])
    else
      var (u, rest) :- ParseUnit(s);
      var (us, end) :- ParseChars(rest);
      Parsed([u] + us, end)
  }

  // ---------------------------------------------------------------- numbers

  function DigitRun(s: Text): (n: nat)
    ensures n <= |s|
    ensures forall i :: 0 <= i < n ==> IsDigit(s[i])
    ensures n < |s| ==> !IsDigit(s[n])
  {
    if s != [] && IsDigit(s[0]) then 1 + DigitRun(s[1..]) else 0
  }

  /** Length of `(?:\.[0-9]+)?` */
  function FractionRun(s: Text): (n: nat)
    ensures n <= |s|
  {
    if |s| > 0 && s[0] == 0x2E && DigitRun(s[1..]) > 0 then 1 + DigitRun(s[1..]) else 0
  }

  /** Length of `(?:[eE][+-]?[0-9]+)?` */
  function ExponentRun(s: Text): (n: nat)
    ensures n <= |s|
  {
    if |s| == 0 || (s[0] != 0x65 && s[0] != 0x45) then 0
    else
      var sign := if |s| > 1 && (s[1] == 0x2B || s[1] == MINUS) then 1 else 0;
      var digits := DigitRun(s[1 + sign..]);
      if digits > 0 then 1 + sign + digits else 0
  }

  /** Length of `(?:0|[1-9][0-9]*)`, 0 when there is none. */
  function IntegerRun(s: Text): (n: nat)
    ensures n <= |s|
  {
    if |s| > 0 && s[0] == 0x30 then 1 else DigitRun(s)
  }

  /** Length of the JSON number token that `s` starts with, 0 when there is none. */
  function NumberRun(s: Text): (n: nat)
    ensures n <= |s|
  {
    var sign := if |s| > 0 && s[0] == MINUS then 1 else 0;
    var digits := IntegerRun(s[sign..]);
    if digits == 0 then 0
    else
      var whole := sign + digits;
      var fraction := FractionRun(s[whole..]);
      whole + fraction + ExponentRun(s[whole + fraction..])
  }

  // ---------------------------------------------------------------- values

  /** A value at the start of `s`, white space before it already skipped. */
  function ParseValue(s: Text): (r: Parsed<Json>)
    ensures r.Parsed? ==> |r.rest| < |s|
    decreases |s|, 0
  {
    if NULL_TEXT <= s then Parsed(JNull, s[4..])
    else if TRUE_TEXT <= s then Parsed(JBool(true), s[4..])
    else if FALSE_TEXT <= s then Parsed(JBool(false), s[5..])
    else if s == [] then NoParse
    else if s[0] == QUOTE then
      var (text, rest) :- ParseChars(s[1..]);
      Parsed(JStr(text), rest)
    else if s[0] == OPEN_BRACKET then
      var inner := SkipSpace(s[1..]);
      if inner != [] && inner[0] == CLOSE_BRACKET then Parsed(JArr([]), inner[1..])
      else
        var (items, rest) :- ParseItems(inner);
        Parsed(JArr(items), rest)
    else if s[0] == OPEN_BRACE then
      var inner := SkipSpace(s[1..]);
      if inner != [] && inner[0] == CLOSE_BRACE then Parsed(JObj([]), inner[1..])
      else
        var (members, rest) :- ParseMembers(inner);
        Parsed(JObj(members), rest)
    else if NumberRun(s) > 0 then Parsed(JNum(s[..NumberRun(s)]), s[NumberRun(s)..])
    else NoParse
  }

  /** One or more values separated by commas, up to and including the closing bracket. */
  function ParseItems(s: Text): (r: Parsed<seq<Json>>)
    ensures r.Parsed? ==> |r.rest| < |s|
    decreases |s|, 1
  {
    var (first, after) :- ParseValue(s);
    var next := SkipSpace(after);
    if next == [] then NoParse
    else if next[0] == CLOSE_BRACKET then Parsed([first], next[1..])
    else if next[0] != COMMA then NoParse
    else
      var (others, rest) :- ParseItems(SkipSpace(next[1..]));
      Parsed([first] + others, rest)
  }

  /** A member name, its colon, and the start of its value. */
  function ParseName(s: Text): (r: Parsed<Text>)
    ensures r.Parsed? ==> |r.rest| < |s|
  {
    if s == [] || s[0] != QUOTE then NoParse
    else
      var (key, after) :- ParseChars(s[1..]);
      var colon := SkipSpace(after);
      if colon == [] || colon[0] != COLON then NoParse else Parsed(key, SkipSpace(colon[1..]))
  }

  /** One or more members separated by commas, up to and including the closing brace. */
  function ParseMembers(s: Text): (r: Parsed<seq<JMember>>)
    ensures r.Parsed? ==> |r.rest| < |s|
    decreases |s|, 1
  {
    var (key, start) :- ParseName(s);
    var (value, after) :- ParseValue(start);
    var next := SkipSpace(after);
    if next == [] then NoParse
    else if next[0] == CLOSE_BRACE then Parsed([JMember(key, value)], next[1..])
    else if next[0] != COMMA then NoParse
    else
      var (others, rest) :- ParseMembers(SkipSpace(next[1..]));
      Parsed([JMember(key, value)] + others, rest)
  }

  /** A whole text: one value with white space around it. */
  function Parse(raw: Text): Parsed<Json> {
    var (value, rest) :- ParseValue(SkipSpace(raw));
    if SkipSpace(rest) == [] then Parsed(value, []) else NoParse
  }
}
