/** The printer and the decoder undo each other. */
module CanonicalRoundTrip {
  import opened Unicode
  import opened Ordering
  import opened Canonical
  import opened JsonGrammar
  import opened CanonicalScan

  // ---------------------------------------------------------------- strings

  lemma ParseEscapedUnit(u: Unit, r: Text)
    ensures ParseUnit(EscapeUnit(u) + r) == Parsed(u, r)
  {
    var e := EscapeUnit(u);
    var s := e + r;
    assert s[|e|..] == r;
    if u < 0x20 && |e| == 6 {
      var a, b := HexDigit(u / 16), HexDigit(u % 16);
      assert s[2..][0] == 0x30 && s[2..][1] == 0x30 && s[2..][2] == a && s[2..][3] == b;
      assert HexValue(a) == u / 16 && HexValue(b) == u % 16;
      assert HexUnit(s[2..]) == u / 16 * 16 + u % 16 == u;
    }
  }

  lemma {:induction false} ParseEscaped(t: Text, r: Text)
    ensures ParseChars(Escape(t) + [QUOTE] + r) == Parsed(t, r)
    decreases |t|
  {
    var s := Escape(t) + [QUOTE] + r;
    if t == [] {
      assert s == [QUOTE] + r;
      assert s[1..] == r;
    } else {
      var tail := Escape(t[1..]) + [QUOTE] + r;
      assert s == EscapeUnit(t[0]) + tail;
      ParseEscapedUnit(t[0], tail);
      ParseEscaped(t[1..], r);
      assert s[0] != QUOTE;
      assert t == [t[0]] + t[1..];
    }
  }

  // ---------------------------------------------------------------- numbers

  lemma {:induction false} PrintNatDigits(n: nat)
    ensures PrintNat(n) != [] && AllDigits(PrintNat(n)) && NatOf(PrintNat(n)) == n
    ensures n > 0 ==> PrintNat(n)[0] != 0x30
  {
    var t := PrintNat(n);
    if n >= 10 {
      PrintNatDigits(n / 10);
      assert t[..|t| - 1] == PrintNat(n / 10);
    } else {
      assert t[..0] == [];
      assert NatOf([]) == 0;
    }
  }

  lemma {:induction false} DigitRunConcat(a: Text, r: Text)
    requires AllDigits(a) && (r == [] || !IsDigit(r[0]))
    ensures DigitRun(a + r) == |a|
  {
    if a == [] {
      assert a + r == r;
    } else {
      DigitRunConcat(a[1..], r);
      assert (a + r)[1..] == a[1..] + r;
    }
  }

  /** What may follow a number token without extending it. */
  predicate EndsNumber(r: Text) {
    r == [] || !(IsDigit(r[0]) || r[0] == 0x2E || r[0] == 0x65 || r[0] == 0x45)
  }

  lemma PrintIntegerParts(n: int)
    ensures var t, digits := PrintInteger(n), PrintNat(if n < 0 then -n else n);
      && digits != [] && t == (if n < 0 then [MINUS] else []) + digits
      && IsIntegerToken(t) && IntegerOf(t) == n
  {
    var t := PrintInteger(n);
    var digits := PrintNat(if n < 0 then -n else n);
    PrintNatDigits(if n < 0 then -n else n);
    if n < 0 {
      assert t[1..] == digits;
    } else {
      assert IsDigit(digits[0]);
    }
  }

  lemma PrintIntegerToken(n: int, r: Text)
    requires EndsNumber(r)
    ensures PrintInteger(n) != [] && IsIntegerToken(PrintInteger(n)) && IntegerOf(PrintInteger(n)) == n
    ensures NumberRun(PrintInteger(n) + r) == |PrintInteger(n)|
  {
    PrintIntegerParts(n);
    var digits := PrintNat(if n < 0 then -n else n);
    PrintNatDigits(if n < 0 then -n else n);
    DigitRunConcat(digits, r);
    var s, sign := PrintInteger(n) + r, if n < 0 then 1 else 0;
    assert s[sign..] == digits + r;
    assert IsDigit(digits[0]);
    assert IntegerRun(s[sign..]) == |digits|;
    assert s[|PrintInteger(n)|..] == r && FractionRun(r) == 0 && ExponentRun(r) == 0;
    assert s[|PrintInteger(n)| + 0..] == r;
  }

  // ---------------------------------------------------------------- canonical trees

  /** Values that are their own canonical form and that the encoder takes. */
  ghost predicate IsCanonical(nfc: Text -> Text, v: Value) {
    match v
    case Num(num) => num.Integer? && IsSafe(num.n)
    case Str(s) => StringAccepted(nfc, s) && nfc(s) == s
    case Arr(items) => CanonicalItems(nfc, items)
    case Obj(members) => Increasing(KeyOf, members) && CanonicalMembers(nfc, members)
    case Unsupported => false
    case _ => true
  }

  ghost predicate CanonicalItems(nfc: Text -> Text, items: seq<Value>) {
    items == [] || (IsCanonical(nfc, items[0]) && CanonicalItems(nfc, items[1..]))
  }

  ghost predicate CanonicalMembers(nfc: Text -> Text, members: seq<Member>) {
    members == [] ||
    (KeyAccepted(members[0].key) && IsCanonical(nfc, members[0].value) && CanonicalMembers(nfc, members[1..]))
  }

  /** A JavaScript object has each own key once. */
  ghost predicate WellKeyed(v: Value) {
    match v
    case Arr(items) => forall i :: 0 <= i < |items| ==> WellKeyed(items[i])
    case Obj(members) =>
      && DistinctKeys(KeyOf, members)
      && forall i :: 0 <= i < |members| ==> WellKeyed(members[i].value)
    case _ => true
  }

  lemma {:induction false} CanonicalMembersAll(nfc: Text -> Text, members: seq<Member>)
    ensures CanonicalMembers(nfc, members)
            <==> forall m :: m in members ==> KeyAccepted(m.key) && IsCanonical(nfc, m.value)
  {
    if members != [] {
      CanonicalMembersAll(nfc, members[1..]);
      assert members == [members[0]] + members[1..];
    }
  }

  lemma {:induction false} CanonKeys(nfc: Text -> Text, members: seq<Member>)
    ensures |CanonMembers(nfc, members)| == |members|
    ensures forall i :: 0 <= i < |members| ==>
      CanonMembers(nfc, members)[i] == Member(members[i].key, Canon(nfc, members[i].value))
  {
    if members != [] {
      CanonKeys(nfc, members[1..]);
    }
  }

  /** Canonicalising an accepted value reaches the canonical trees. */
  lemma {:induction false} CanonIsCanonical(nfc: Text -> Text, v: Value)
    requires IsNormalization(nfc) && WellKeyed(v) && Accepted(nfc, v)
    ensures IsCanonical(nfc, Canon(nfc, v))
    decreases v, 1
  {
    match v
    case Arr(items) =>
      CanonItemsCanonical(nfc, items);
    case Obj(members) =>
      CanonMembersCanonical(nfc, members);
      var c := CanonMembers(nfc, members);
      CanonKeys(nfc, members);
      assert DistinctKeys(KeyOf, c) by {
        forall i, j | 0 <= i < j < |c|
          ensures KeyOf(c[i]) != KeyOf(c[j])
        {
          assert KeyOf(members[i]) != KeyOf(members[j]);
        }
      }
      DistinctSorted(KeyOf, c);
      CanonicalMembersAll(nfc, c);
      forall m | m in Sorted(c)
        ensures KeyAccepted(m.key) && IsCanonical(nfc, m.value)
      {
        SortMember(KeyOf, c, m);
      }
      CanonicalMembersAll(nfc, Sorted(c));
    case _ =>
  }

  lemma {:induction false} CanonItemsCanonical(nfc: Text -> Text, items: seq<Value>)
    requires IsNormalization(nfc)
    requires forall i :: 0 <= i < |items| ==> WellKeyed(items[i]) && Accepted(nfc, items[i])
    ensures CanonicalItems(nfc, CanonItems(nfc, items))
    decreases items, 0
  {
    if items != [] {
      CanonIsCanonical(nfc, items[0]);
      CanonItemsCanonical(nfc, items[1..]);
      assert CanonItems(nfc, items)[1..] == CanonItems(nfc, items[1..]);
    }
  }

  lemma {:induction false} CanonMembersCanonical(nfc: Text -> Text, members: seq<Member>)
    requires IsNormalization(nfc)
    requires forall i :: 0 <= i < |members| ==>
      KeyAccepted(members[i].key) && WellKeyed(members[i].value) && Accepted(nfc, members[i].value)
    ensures CanonicalMembers(nfc, CanonMembers(nfc, members))
    decreases members, 0
  {
    if members != [] {
      CanonIsCanonical(nfc, members[0].value);
      CanonMembersCanonical(nfc, members[1..]);
      assert CanonMembers(nfc, members)[1..] == CanonMembers(nfc, members[1..]);
    }
  }

  /** Canonical values are fixed: canonicalising again changes nothing. */
  lemma {:induction false} CanonFixed(nfc: Text -> Text, v: Value)
    requires IsCanonical(nfc, v)
    ensures Canon(nfc, v) == v
    decreases v, 1
  {
    match v
    case Arr(items) => CanonItemsFixed(nfc, items);
    case Obj(members) =>
      CanonMembersFixed(nfc, members);
      IncreasingIsNonDecreasing(KeyOf, members);
      SortIdentity(KeyOf, members);
    case _ =>
  }

  lemma {:induction false} CanonItemsFixed(nfc: Text -> Text, items: seq<Value>)
    requires CanonicalItems(nfc, items)
    ensures CanonItems(nfc, items) == items
    decreases items, 0
  {
    if items != [] {
      CanonFixed(nfc, items[0]);
      CanonItemsFixed(nfc, items[1..]);
    }
  }

  lemma {:induction false} CanonMembersFixed(nfc: Text -> Text, members: seq<Member>)
    requires CanonicalMembers(nfc, members)
    ensures CanonMembers(nfc, members) == members
    decreases members, 0
  {
    if members != [] {
      CanonFixed(nfc, members[0].value);
      CanonMembersFixed(nfc, members[1..]);
    }
  }

  lemma CanonIdempotent(nfc: Text -> Text, v: Value)
    requires IsNormalization(nfc) && WellKeyed(v) && Accepted(nfc, v)
    ensures Canon(nfc, Canon(nfc, v)) == Canon(nfc, v)
  {
    CanonIsCanonical(nfc, v);
    CanonFixed(nfc, Canon(nfc, v));
  }

  // ---------------------------------------------------------------- the text of a canonical tree parses

  function JsonOf(v: Value): Json {
    match v
    case Null => JNull
    case Bool(b) => JBool(b)
    case Num(num) => JNum(if num.Integer? then PrintInteger(num.n) else [0x30])
    case Str(s) => JStr(s)
    case Arr(items) => JArr(JsonItems(items))
    case Obj(members) => JObj(JsonMembers(members))
    case Unsupported => JNull
  }

  function JsonItems(items: seq<Value>): seq<Json> {
    if items == [] then [] else [JsonOf(items[0])] + JsonItems(items[1..])
  }

  function JsonMembers(members: seq<Member>): seq<JMember> {
    if members == [] then [] else [JMember(members[0].key, JsonOf(members[0].value))] + JsonMembers(members[1..])
  }

  /** A printed value starts with neither white space nor a closing bracket or brace. */
  lemma PrintStarts(nfc: Text -> Text, v: Value)
    requires IsCanonical(nfc, v)
    ensures var t := Print(v); t != [] && !IsSpace(t[0]) && t[0] != CLOSE_BRACKET && t[0] != CLOSE_BRACE
  {
    if v.Num? {
      PrintNatDigits(if v.num.n < 0 then -v.num.n else v.num.n);
    }
  }

  lemma LiteralValue(v: Value, r: Text)
    requires v.Null? || v.Bool?
    ensures ParseValue(Print(v) + r) == Parsed(JsonOf(v), r)
  {
    var t := Print(v);
    var s := t + r;
    assert t <= s && s[0] == t[0] && s[|t|..] == r;
  }

  lemma NumberTokenValue(s: Text, k: nat)
    requires s != [] && (s[0] == MINUS || IsDigit(s[0])) && NumberRun(s) == k > 0
    ensures ParseValue(s) == Parsed(JNum(s[..k]), s[k..])
  {
    assert !(NULL_TEXT <= s) && !(TRUE_TEXT <= s) && !(FALSE_TEXT <= s);
  }

  lemma NumberValue(n: int, r: Text)
    requires EndsNumber(r)
    ensures ParseValue(PrintInteger(n) + r) == Parsed(JNum(PrintInteger(n)), r)
  {
    var t := PrintInteger(n);
    var s := t + r;
    PrintIntegerToken(n, r);
    assert t[0] == MINUS || IsDigit(t[0]);
    assert s[0] == t[0] && s[..|t|] == t && s[|t|..] == r;
    NumberTokenValue(s, |t|);
  }

  lemma StringValue(x: Text, r: Text)
    ensures ParseValue(PrintString(x) + r) == Parsed(JStr(x), r)
  {
    StringParts(x, r);
    ParseEscaped(x, r);
    QuotedValue(PrintString(x) + r, x, r);
  }

  lemma StringParts(x: Text, r: Text)
    ensures var s := PrintString(x) + r; s[0] == QUOTE && s[1..] == Escape(x) + [QUOTE] + r
  {
  }

  lemma QuotedValue(s: Text, x: Text, r: Text)
    requires s != [] && s[0] == QUOTE && ParseChars(s[1..]) == Parsed(x, r)
    ensures ParseValue(s) == Parsed(JStr(x), r)
  {
  }

  lemma OpenedArrayParses(s: Text, inner: Text, items: seq<Json>, r: Text)
    requires s == [OPEN_BRACKET] + inner && SkipSpace(inner) == inner && inner != [] && inner[0] != CLOSE_BRACKET
    requires ParseItems(inner) == Parsed(items, r)
    ensures ParseValue(s) == Parsed(JArr(items), r)
  {
    assert s[1..] == inner;
  }

  lemma OpenedObjectParses(s: Text, inner: Text, members: seq<JMember>, r: Text)
    requires s == [OPEN_BRACE] + inner && SkipSpace(inner) == inner && inner != [] && inner[0] != CLOSE_BRACE
    requires ParseMembers(inner) == Parsed(members, r)
    ensures ParseValue(s) == Parsed(JObj(members), r)
  {
    assert s[1..] == inner;
  }

  lemma ArrayValue(inner: Text, items: seq<Json>, r: Text)
    requires inner != [] && !IsSpace(inner[0]) && inner[0] != CLOSE_BRACKET
    requires ParseItems(inner) == Parsed(items, r)
    ensures ParseValue([OPEN_BRACKET] + inner) == Parsed(JArr(items), r)
  {
    assert SkipSpace(inner) == inner;
    OpenedArrayParses([OPEN_BRACKET] + inner, inner, items, r);
  }

  lemma ObjectValue(inner: Text, members: seq<JMember>, r: Text)
    requires inner != [] && !IsSpace(inner[0]) && inner[0] != CLOSE_BRACE
    requires ParseMembers(inner) == Parsed(members, r)
    ensures ParseValue([OPEN_BRACE] + inner) == Parsed(JObj(members), r)
  {
    assert SkipSpace(inner) == inner;
    OpenedObjectParses([OPEN_BRACE] + inner, inner, members, r);
  }

  lemma EmptyContainers(r: Text)
    ensures ParseValue([OPEN_BRACKET, CLOSE_BRACKET] + r) == Parsed(JArr([]), r)
    ensures ParseValue([OPEN_BRACE, CLOSE_BRACE] + r) == Parsed(JObj([]), r)
  {
    var s := [OPEN_BRACKET, CLOSE_BRACKET] + r;
    assert s[0] == OPEN_BRACKET && s[1..] == [CLOSE_BRACKET] + r && SkipSpace(s[1..])[1..] == r;
    var o := [OPEN_BRACE, CLOSE_BRACE] + r;
    assert o[0] == OPEN_BRACE && o[1..] == [CLOSE_BRACE] + r && SkipSpace(o[1..])[1..] == r;
  }

  /** The printed text of a canonical tree parses to that tree, whatever text follows it. */
  lemma {:induction false} ParsePrint(nfc: Text -> Text, v: Value, r: Text)
    requires IsCanonical(nfc, v) && (v.Num? ==> EndsNumber(r))
    ensures ParseValue(Print(v) + r) == Parsed(JsonOf(v), r)
    decreases v, 1
  {
    match v
    case Null => LiteralValue(v, r);
    case Bool(b) => LiteralValue(v, r);
    case Num(num) => NumberValue(num.n, r);
    case Str(x) => StringValue(x, r);
    case Arr(items) => ParsePrintArray(nfc, items, r);
    case Obj(members) => ParsePrintObject(nfc, members, r);
  }

  lemma {:induction false} ParsePrintArray(nfc: Text -> Text, items: seq<Value>, r: Text)
    requires CanonicalItems(nfc, items)
    ensures ParseValue(Print(Arr(items)) + r) == Parsed(JArr(JsonItems(items)), r)
    decreases items, 2
  {
    if items == [] {
      assert Print(Arr(items)) == [OPEN_BRACKET, CLOSE_BRACKET];
      EmptyContainers(r);
    } else {
      var inner := PrintItems(items) + [CLOSE_BRACKET] + r;
      assert Print(Arr(items)) + r == [OPEN_BRACKET] + inner;
      PrintStarts(nfc, items[0]);
      assert inner[0] == Print(items[0])[0];
      ParsePrintItems(nfc, items, r);
      ArrayValue(inner, JsonItems(items), r);
    }
  }

  lemma {:induction false} ParsePrintObject(nfc: Text -> Text, members: seq<Member>, r: Text)
    requires CanonicalMembers(nfc, members)
    ensures ParseValue(Print(Obj(members)) + r) == Parsed(JObj(JsonMembers(members)), r)
    decreases members, 2
  {
    if members == [] {
      assert Print(Obj(members)) == [OPEN_BRACE, CLOSE_BRACE];
      EmptyContainers(r);
    } else {
      var inner := PrintMembers(members) + [CLOSE_BRACE] + r;
      assert Print(Obj(members)) + r == [OPEN_BRACE] + inner;
      MembersStart(members);
      assert inner[0] == QUOTE;
      ParsePrintMembers(nfc, members, r);
      ObjectValue(inner, JsonMembers(members), r);
    }
  }

  lemma LastItem(s: Text, first: Json, r: Text)
    requires ParseValue(s) == Parsed(first, [CLOSE_BRACKET] + r)
    ensures ParseItems(s) == Parsed([first], r)
  {
    var tail := [CLOSE_BRACKET] + r;
    assert SkipSpace(tail) == tail && tail[1..] == r;
  }

  lemma NextItem(s: Text, first: Json, others: Text)
    requires ParseValue(s) == Parsed(first, [COMMA] + others) && others != [] && !IsSpace(others[0])
    requires ParseItems(others).Parsed?
    ensures ParseItems(s) == Parsed([first] + ParseItems(others).value, ParseItems(others).rest)
  {
    var tail := [COMMA] + others;
    assert SkipSpace(tail) == tail && tail[1..] == others && SkipSpace(others) == others;
  }

  lemma {:induction false} ParsePrintItems(nfc: Text -> Text, items: seq<Value>, r: Text)
    requires items != [] && CanonicalItems(nfc, items)
    ensures ParseItems(PrintItems(items) + [CLOSE_BRACKET] + r) == Parsed(JsonItems(items), r)
    decreases items, 0
  {
    var s := PrintItems(items) + [CLOSE_BRACKET] + r;
    if |items| == 1 {
      var tail := [CLOSE_BRACKET] + r;
      assert s == Print(items[0]) + tail;
      ParsePrint(nfc, items[0], tail);
      LastItem(s, JsonOf(items[0]), r);
      assert JsonItems(items) == [JsonOf(items[0])];
    } else {
      var others := PrintItems(items[1..]) + [CLOSE_BRACKET] + r;
      var tail := [COMMA] + others;
      assert s == Print(items[0]) + tail;
      ParsePrint(nfc, items[0], tail);
      PrintStarts(nfc, items[1..][0]);
      assert others[0] == Print(items[1..][0])[0];
      ParsePrintItems(nfc, items[1..], r);
      NextItem(s, JsonOf(items[0]), others);
    }
  }

  lemma LastMember(s: Text, key: Text, start: Text, value: Json, r: Text)
    requires ParseName(s) == Parsed(key, start) && ParseValue(start) == Parsed(value, [CLOSE_BRACE] + r)
    ensures ParseMembers(s) == Parsed([JMember(key, value)], r)
  {
    var tail := [CLOSE_BRACE] + r;
    assert SkipSpace(tail) == tail && tail[1..] == r;
  }

  lemma NextMember(s: Text, key: Text, start: Text, value: Json, others: Text)
    requires ParseName(s) == Parsed(key, start) && ParseValue(start) == Parsed(value, [COMMA] + others)
    requires others != [] && !IsSpace(others[0]) && ParseMembers(others).Parsed?
    ensures ParseMembers(s)
            == Parsed([JMember(key, value)] + ParseMembers(others).value, ParseMembers(others).rest)
  {
    var tail := [COMMA] + others;
    assert SkipSpace(tail) == tail && tail[1..] == others && SkipSpace(others) == others;
  }

  lemma MembersStart(members: seq<Member>)
    requires members != []
    ensures PrintMembers(members) != [] && PrintMembers(members)[0] == QUOTE
  {
    assert PrintMember(members[0])[0] == QUOTE;
  }

  lemma {:induction false} ParsePrintMembers(nfc: Text -> Text, members: seq<Member>, r: Text)
    requires members != [] && CanonicalMembers(nfc, members)
    ensures ParseMembers(PrintMembers(members) + [CLOSE_BRACE] + r) == Parsed(JsonMembers(members), r)
    decreases members, 0
  {
    var m := members[0];
    if |members| == 1 {
      var tail := [CLOSE_BRACE] + r;
      ParsePrint(nfc, m.value, tail);
      ParseLastMember(nfc, members, r);
    } else {
      var others := PrintMembers(members[1..]) + [CLOSE_BRACE] + r;
      var tail := [COMMA] + others;
      ParsePrint(nfc, m.value, tail);
      ParsePrintMembers(nfc, members[1..], r);
      ParseNextMember(nfc, members, r, others);
    }
  }

  lemma {:induction false} ParseLastMember(nfc: Text -> Text, members: seq<Member>, r: Text)
    requires |members| == 1 && CanonicalMembers(nfc, members)
    requires var tail := [CLOSE_BRACE] + r;
      ParseValue(Print(members[0].value) + tail) == Parsed(JsonOf(members[0].value), tail)
    ensures ParseMembers(PrintMembers(members) + [CLOSE_BRACE] + r) == Parsed(JsonMembers(members), r)
  {
    var m, tail := members[0], [CLOSE_BRACE] + r;
    PrintedLast(members, r);
    ParsePrintName(nfc, m, tail);
    LastMember(PrintMember(m) + tail, m.key, Print(m.value) + tail, JsonOf(m.value), r);
    JsonOfOne(members);
  }

  lemma {:induction false} JsonOfOne(members: seq<Member>)
    requires |members| == 1
    ensures JsonMembers(members) == [JMember(members[0].key, JsonOf(members[0].value))]
  {
    assert members[1..] == [];
    assert JsonMembers([]) == [];
  }

  lemma {:induction false} PrintedLast(members: seq<Member>, r: Text)
    requires |members| == 1
    ensures PrintMembers(members) + [CLOSE_BRACE] + r == PrintMember(members[0]) + ([CLOSE_BRACE] + r)
  {
    assert PrintMembers(members) == PrintMember(members[0]);
  }

  lemma {:induction false} PrintedNext(members: seq<Member>, r: Text)
    requires |members| > 1
    ensures PrintMembers(members) + [CLOSE_BRACE] + r
            == PrintMember(members[0]) + ([COMMA] + (PrintMembers(members[1..]) + [CLOSE_BRACE] + r))
  {
    Reassociated(PrintMember(members[0]), PrintMembers(members[1..]), r);
  }

  lemma Reassociated(first: Text, others: Text, r: Text)
    ensures (first + [COMMA] + others) + [CLOSE_BRACE] + r == first + ([COMMA] + (others + [CLOSE_BRACE] + r))
  {
  }

  lemma {:induction false} ParseNextMember(nfc: Text -> Text, members: seq<Member>, r: Text, others: Text)
    requires |members| > 1 && CanonicalMembers(nfc, members)
    requires others == PrintMembers(members[1..]) + [CLOSE_BRACE] + r
    requires ParseMembers(others) == Parsed(JsonMembers(members[1..]), r)
    requires var tail := [COMMA] + others;
      ParseValue(Print(members[0].value) + tail) == Parsed(JsonOf(members[0].value), tail)
    ensures ParseMembers(PrintMembers(members) + [CLOSE_BRACE] + r) == Parsed(JsonMembers(members), r)
  {
    var m, tail := members[0], [COMMA] + others;
    PrintedNext(members, r);
    ParsePrintName(nfc, m, tail);
    MembersStart(members[1..]);
    assert others[0] == QUOTE;
    NextMember(PrintMember(m) + tail, m.key, Print(m.value) + tail, JsonOf(m.value), others);
  }

  lemma {:induction false} ParsePrintName(nfc: Text -> Text, m: Member, tail: Text)
    requires IsCanonical(nfc, m.value)
    ensures ParseName(PrintMember(m) + tail) == Parsed(m.key, Print(m.value) + tail)
  {
    var value := Print(m.value) + tail;
    MemberParts(m, tail);
    ParseEscaped(m.key, [COLON] + value);
    PrintStarts(nfc, m.value);
    assert value[0] == Print(m.value)[0];
    NameParses(PrintMember(m) + tail, m.key, value);
  }

  lemma {:induction false} MemberParts(m: Member, tail: Text)
    ensures var s := PrintMember(m) + tail;
      s != [] && s[0] == QUOTE && s[1..] == Escape(m.key) + [QUOTE] + ([COLON] + (Print(m.value) + tail))
  {
    Regrouped(Escape(m.key), Print(m.value), tail);
  }

  lemma Regrouped(key: Text, value: Text, tail: Text)
    ensures var s := [QUOTE] + key + [QUOTE] + [COLON] + value + tail;
      s[0] == QUOTE && s[1..] == key + [QUOTE] + ([COLON] + (value + tail))
  {
  }

  lemma NameParses(s: Text, key: Text, value: Text)
    requires s != [] && s[0] == QUOTE && ParseChars(s[1..]) == Parsed(key, [COLON] + value)
    requires value != [] && !IsSpace(value[0])
    ensures ParseName(s) == Parsed(key, value)
  {
    var colon := [COLON] + value;
    assert colon[1..] == value && SkipSpace(colon) == colon && SkipSpace(value) == value;
  }

  // ---------------------------------------------------------------- and decodes to that tree

  lemma JsonNumberDecodes(nfc: Text -> Text, n: int)
    requires IsCanonical(nfc, Num(Integer(n)))
    ensures InProfile(nfc, JsonOf(Num(Integer(n)))) && ToValue(nfc, JsonOf(Num(Integer(n)))) == Num(Integer(n))
  {
    PrintIntegerParts(n);
    IntegerTokenPlain(PrintInteger(n));
    NegativeNotZero(n);
  }

  /** An integer token has no fraction and no exponent. */
  lemma IntegerTokenPlain(t: Text)
    requires IsIntegerToken(t)
    ensures forall i :: 0 <= i < |t| ==> t[i] != 0x2E && t[i] != 0x65 && t[i] != 0x45
  {
    if t[0] == MINUS {
      forall i | 1 <= i < |t|
        ensures IsDigit(t[i])
      {
        assert t[i] == t[1..][i - 1];
      }
    }
  }

  lemma NegativeNotZero(n: int)
    ensures PrintInteger(n) != [] && (PrintInteger(n)[0] == MINUS ==> n != 0)
  {
    PrintIntegerParts(n);
    PrintNatDigits(if n < 0 then -n else n);
  }

  lemma {:induction false} JsonOfDecodes(nfc: Text -> Text, v: Value)
    requires IsNormalization(nfc) && IsCanonical(nfc, v)
    ensures InProfile(nfc, JsonOf(v)) && ToValue(nfc, JsonOf(v)) == v
    decreases v, 1
  {
    match v
    case Num(num) =>
      JsonNumberDecodes(nfc, num.n);
    case Arr(items) =>
      JsonItemsDecode(nfc, items);
    case Obj(members) =>
      IncreasingIsNonDecreasing(KeyOf, members);
      JsonMembersDecode(nfc, members, {});
    case _ =>
  }

  lemma {:induction false} JsonItemsDecode(nfc: Text -> Text, items: seq<Value>)
    requires IsNormalization(nfc) && CanonicalItems(nfc, items)
    ensures ItemsInProfile(nfc, JsonItems(items)) && ToItems(nfc, JsonItems(items)) == items
    decreases items, 0
  {
    if items != [] {
      JsonOfDecodes(nfc, items[0]);
      JsonItemsDecode(nfc, items[1..]);
      assert JsonItems(items)[1..] == JsonItems(items[1..]);
      assert items == [items[0]] + items[1..];
    }
  }

  lemma {:induction false} JsonMembersDecode(nfc: Text -> Text, members: seq<Member>, seen: set<Text>)
    requires IsNormalization(nfc) && CanonicalMembers(nfc, members) && DistinctKeys(KeyOf, members)
    requires forall i :: 0 <= i < |members| ==> members[i].key !in seen
    ensures MembersInProfile(nfc, JsonMembers(members), seen)
    ensures ToMembers(nfc, JsonMembers(members), seen) == members
    decreases members, 0
  {
    if members != [] {
      var t := members[1..];
      JsonOfDecodes(nfc, members[0].value);
      AsciiScalar(members[0].key);
      assert forall i :: 0 <= i < |t| ==> t[i] == members[i + 1];
      forall i | 0 <= i < |t|
        ensures t[i].key !in seen + {members[0].key}
      {
        assert KeyOf(members[0]) != KeyOf(members[i + 1]);
      }
      JsonMembersDecode(nfc, t, seen + {members[0].key});
      assert JsonMembers(members)[1..] == JsonMembers(t);
      assert members == [members[0]] + t;
    }
  }

  /** The canonical text of every accepted value decodes to that value in canonical form. */
  lemma DecodeEncode(nfc: Text -> Text, v: Value)
    requires IsNormalization(nfc) && WellKeyed(v) && EncodeValue(nfc, v).Ok?
    ensures DecodeCanonicalJson(nfc, EncodeValue(nfc, v).value) == Decoded(Canon(nfc, v))
  {
    EncodePrintsCanon(nfc, v);
    CanonIsCanonical(nfc, v);
    var c := Canon(nfc, v);
    var t := Print(c);
    ParsePrint(nfc, c, []);
    PrintStarts(nfc, c);
    assert t + [] == t && SkipSpace(t) == t;
    JsonOfDecodes(nfc, c);
  }

  // ---------------------------------------------------------------- every decoded value encodes

  lemma {:induction false} ProfileAccepted(nfc: Text -> Text, j: Json)
    requires InProfile(nfc, j)
    ensures Accepted(nfc, ToValue(nfc, j)) && WellKeyed(ToValue(nfc, j))
    decreases j, 1
  {
    match j
    case JArr(items) =>
      ProfileItemsAccepted(nfc, items);
    case JObj(members) =>
      ProfileMembersAccepted(nfc, members, {});
    case _ =>
  }

  lemma {:induction false} ProfileItemsAccepted(nfc: Text -> Text, items: seq<Json>)
    requires ItemsInProfile(nfc, items)
    ensures forall i :: 0 <= i < |ToItems(nfc, items)| ==>
      Accepted(nfc, ToItems(nfc, items)[i]) && WellKeyed(ToItems(nfc, items)[i])
    decreases items, 0
  {
    if items != [] {
      ProfileAccepted(nfc, items[0]);
      ProfileItemsAccepted(nfc, items[1..]);
    }
  }

  lemma {:induction false} ProfileMembersAccepted(nfc: Text -> Text, members: seq<JMember>, seen: set<Text>)
    requires MembersInProfile(nfc, members, seen)
    ensures var ms := ToMembers(nfc, members, seen);
      && DistinctKeys(KeyOf, ms)
      && forall i :: 0 <= i < |ms| ==>
           ms[i].key !in seen && KeyAccepted(ms[i].key) && Accepted(nfc, ms[i].value) && WellKeyed(ms[i].value)
    decreases members, 0
  {
    if members != [] {
      ProfileAccepted(nfc, members[0].value);
      ProfileMembersAccepted(nfc, members[1..], seen + {members[0].key});
      var rest := ToMembers(nfc, members[1..], seen + {members[0].key});
      var ms := ToMembers(nfc, members, seen);
      assert ms == [Member(members[0].key, ToValue(nfc, members[0].value))] + rest;
      forall i, j | 0 <= i < j < |ms|
        ensures KeyOf(ms[i]) != KeyOf(ms[j])
      {
        assert ms[j] == rest[j - 1];
        if i > 0 {
          assert ms[i] == rest[i - 1];
          assert KeyOf(rest[i - 1]) != KeyOf(rest[j - 1]);
        }
      }
    }
  }

  /** Whatever the decoder accepts, the encoder never refuses, and encoding it again decodes to the same
      value in canonical form. */
  lemma DecodedEncodes(nfc: Text -> Text, raw: Text)
    requires IsNormalization(nfc) && DecodeCanonicalJson(nfc, raw).Decoded?
    ensures var v := DecodeCanonicalJson(nfc, raw).value;
      && WellKeyed(v)
      && EncodeValue(nfc, v).Ok?
      && DecodeCanonicalJson(nfc, EncodeValue(nfc, v).value) == Decoded(Canon(nfc, v))
  {
    var j := Parse(raw).value;
    ProfileAccepted(nfc, j);
    EncodePrintsCanon(nfc, ToValue(nfc, j));
    DecodeEncode(nfc, ToValue(nfc, j));
  }
}
