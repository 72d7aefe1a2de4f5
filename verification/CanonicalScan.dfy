/** The raw-text scan and the canonical decoder of apps/dashboard/src/contracts/bootstrap.ts.

    The scan walks the text once with a stack of member sets and never builds a tree. `ScanExact` shows
    that on every text `JSON.parse` takes, it decides exactly the canonical profile of the parsed tree. */
module CanonicalScan {
  import opened Unicode
  import opened Canonical
  import opened JsonGrammar

  // ---------------------------------------------------------------- profile predicates

  predicate AllDigits(t: Text) {
    forall i :: 0 <= i < |t| ==> IsDigit(t[i])
  }

  /** `BigInt` of a digit sequence. */
  function NatOf(t: Text): nat
    requires AllDigits(t)
  {
    if t == [] then 0
    else
      assert IsDigit(t[|t| - 1]);
      NatOf(t[..|t| - 1]) * 10 + (t[|t| - 1] as int - 0x30)
  }

  predicate IsIntegerToken(t: Text) {
    if t != [] && t[0] == MINUS then |t| > 1 && AllDigits(t[1..]) else t != [] && AllDigits(t)
  }

  function IntegerOf(t: Text): int
    requires IsIntegerToken(t)
  {
    if t[0] == MINUS then 0 - NatOf(t[1..]) as int else NatOf(t)
  }

  /** No `.`, `e` or `E` in the token, and a value inside the safe range. A number token without those
      letters is an optional sign and digits. */
  predicate NumberInProfile(token: Text) {
    && (forall i :: 0 <= i < |token| ==> token[i] != 0x2E && token[i] != 0x65 && token[i] != 0x45)
    && IsIntegerToken(token)
    && IsSafe(IntegerOf(token))
  }

  predicate KeyInProfile(nfc: Text -> Text, key: Text) {
    KeyAccepted(key) && StringAccepted(nfc, key)
  }

  /** The canonical profile of a parsed tree. */
  predicate InProfile(nfc: Text -> Text, j: Json) {
    match j
    case JNum(token) => NumberInProfile(token)
    case JStr(s) => StringAccepted(nfc, s)
    case JArr(items) => ItemsInProfile(nfc, items)
    case JObj(members) => MembersInProfile(nfc, members, {})
    case _ => true
  }

  predicate ItemsInProfile(nfc: Text -> Text, items: seq<Json>) {
    items == [] || (InProfile(nfc, items[0]) && ItemsInProfile(nfc, items[1..]))
  }

  /** Names acceptable, none repeated or already in `seen`, and values in the profile. */
  predicate MembersInProfile(nfc: Text -> Text, members: seq<JMember>, seen: set<Text>) {
    members == [] ||
    (&& KeyInProfile(nfc, members[0].key)
     && members[0].key !in seen
     && InProfile(nfc, members[0].value)
     && MembersInProfile(nfc, members[1..], seen + {members[0].key}))
  }

  // ---------------------------------------------------------------- the scan as a function

  /** White space as the `\s` class of JavaScript regular expressions has it. */
  predicate IsScriptSpace(u: int) {
    || 0x09 <= u <= 0x0D || u == 0x20 || u == 0xA0 || u == 0x1680 || 0x2000 <= u <= 0x200A
    || u == 0x2028 || u == 0x2029 || u == 0x202F || u == 0x205F || u == 0x3000 || u == 0xFEFF
  }

  /** `/^\s*:/` */
  predicate ColonFollows(s: Text) {
    s != [] && (s[0] == COLON || (IsScriptSpace(s[0]) && ColonFollows(s[1..])))
  }

  /** `Stuck` is the scan of a text whose string token never ends or does not decode. */
  datatype Verdict = Passes | Refuses | Stuck

  function Pop(stack: seq<set<Text>>): seq<set<Text>> {
    if stack == [] then [] else stack[..|stack| - 1]
  }

  function Record(stack: seq<set<Text>>, key: Text): seq<set<Text>>
    requires stack != []
  {
    stack[|stack| - 1 := stack[|stack| - 1] + {key}]
  }

  /** The scan from some index on, where `s` is the text from there and `stack` the open member sets. */
  function ScanFrom(nfc: Text -> Text, s: Text, stack: seq<set<Text>>): Verdict
    decreases |s|
  {
    if s == [] then Passes
    else if s[0] == QUOTE then
      match ParseChars(s[1..])
      case NoParse => Stuck
      case Parsed(decoded, rest) =>
        if !StringAccepted(nfc, decoded) then Refuses
        else if !ColonFollows(rest) then ScanFrom(nfc, rest, stack)
        else if stack == [] || !KeyInProfile(nfc, decoded) || decoded in stack[|stack| - 1] then Refuses
        else ScanFrom(nfc, rest, Record(stack, decoded))
    else if s[0] == OPEN_BRACE then ScanFrom(nfc, s[1..], stack + [{}])
    else if s[0] == CLOSE_BRACE then ScanFrom(nfc, s[1..], Pop(stack))
    else if s[0] == MINUS || IsDigit(s[0]) then
      if NumberRun(s) == 0 || !NumberInProfile(s[..NumberRun(s)]) then Refuses
      else ScanFrom(nfc, s[NumberRun(s)..], stack)
    else ScanFrom(nfc, s[1..], stack)
  }

  // ---------------------------------------------------------------- the scan decides the profile

  predicate IsPlain(u: int) {
    u != QUOTE && u != OPEN_BRACE && u != CLOSE_BRACE && u != MINUS && !IsDigit(u)
  }

  lemma {:induction false} ScanSkips(nfc: Text -> Text, s: Text, n: nat, stack: seq<set<Text>>)
    requires n <= |s| && forall i :: 0 <= i < n ==> IsPlain(s[i])
    ensures ScanFrom(nfc, s, stack) == ScanFrom(nfc, s[n..], stack)
  {
    if n > 0 {
      ScanSkips(nfc, s[1..], n - 1, stack);
      assert s[1..][n - 1..] == s[n..];
    } else {
      assert s[0..] == s;
    }
  }

  lemma {:induction false} ScanSkipsSpace(nfc: Text -> Text, s: Text, stack: seq<set<Text>>)
    ensures ScanFrom(nfc, s, stack) == ScanFrom(nfc, SkipSpace(s), stack)
    decreases |s|
  {
    if s != [] && IsSpace(s[0]) {
      ScanSkipsSpace(nfc, s[1..], stack);
    }
  }

  lemma {:induction false} ColonAfterSpace(s: Text)
    ensures ColonFollows(s) <==> ColonFollows(SkipSpace(s))
    decreases |s|
  {
    if s != [] && IsSpace(s[0]) {
      ColonAfterSpace(s[1..]);
    }
  }

  /** What may follow a JSON value never looks like the colon of a member name. */
  lemma NoColonAfterValue(s: Text)
    requires var n := SkipSpace(s);
      n == [] || n[0] == COMMA || n[0] == CLOSE_BRACKET || n[0] == CLOSE_BRACE
    ensures !ColonFollows(s)
  {
    ColonAfterSpace(s);
  }

  /** Scanning the tree that starts at `s` and then going on, or refusing it. */
  ghost predicate ScansTree(nfc: Text -> Text, s: Text, stack: seq<set<Text>>, j: Json, rest: Text) {
    ScanFrom(nfc, s, stack) == if InProfile(nfc, j) then ScanFrom(nfc, rest, stack) else Refuses
  }

  lemma ScanWord(nfc: Text -> Text, s: Text, stack: seq<set<Text>>)
    requires NULL_TEXT <= s || TRUE_TEXT <= s || FALSE_TEXT <= s
    ensures ParseValue(s).Parsed? && ScansTree(nfc, s, stack, ParseValue(s).value, ParseValue(s).rest)
  {
    if FALSE_TEXT <= s {
      ScanSkips(nfc, s, 5, stack);
    } else {
      ScanSkips(nfc, s, 4, stack);
    }
  }

  lemma ScanString(nfc: Text -> Text, s: Text, stack: seq<set<Text>>)
    requires s != [] && s[0] == QUOTE && ParseValue(s).Parsed? && !ColonFollows(ParseValue(s).rest)
    ensures ScansTree(nfc, s, stack, ParseValue(s).value, ParseValue(s).rest)
  {
  }

  lemma ScanNumber(nfc: Text -> Text, s: Text, stack: seq<set<Text>>)
    requires s != [] && (s[0] == MINUS || IsDigit(s[0])) && ParseValue(s).Parsed?
    ensures ScansTree(nfc, s, stack, ParseValue(s).value, ParseValue(s).rest)
  {
  }

  lemma {:induction false} ScanArray(nfc: Text -> Text, s: Text, stack: seq<set<Text>>)
    requires s != [] && s[0] == OPEN_BRACKET && ParseValue(s).Parsed?
    ensures ScansTree(nfc, s, stack, ParseValue(s).value, ParseValue(s).rest)
    decreases |s|, 0
  {
    ScanSkips(nfc, s, 1, stack);
    ScanSkipsSpace(nfc, s[1..], stack);
    var inner := SkipSpace(s[1..]);
    if inner[0] == CLOSE_BRACKET {
      ScanSkips(nfc, inner, 1, stack);
    } else {
      ScanItems(nfc, inner, stack);
    }
  }

  lemma {:induction false} ScanObject(nfc: Text -> Text, s: Text, stack: seq<set<Text>>)
    requires s != [] && s[0] == OPEN_BRACE && ParseValue(s).Parsed?
    ensures ScansTree(nfc, s, stack, ParseValue(s).value, ParseValue(s).rest)
    decreases |s|, 0
  {
    ScanSkipsSpace(nfc, s[1..], stack + [{}]);
    var inner := SkipSpace(s[1..]);
    if inner[0] == CLOSE_BRACE {
      assert Pop(stack + [{}]) == stack;
    } else {
      ScanMembers(nfc, inner, stack, {});
    }
  }

  lemma ValueStarts(s: Text)
    requires ParseValue(s).Parsed? && !(NULL_TEXT <= s) && !(TRUE_TEXT <= s) && !(FALSE_TEXT <= s)
    ensures s != []
    ensures s[0] == QUOTE || s[0] == OPEN_BRACKET || s[0] == OPEN_BRACE || s[0] == MINUS || IsDigit(s[0])
  {
  }

  lemma {:induction false} ScanValue(nfc: Text -> Text, s: Text, stack: seq<set<Text>>)
    requires ParseValue(s).Parsed? && !ColonFollows(ParseValue(s).rest)
    ensures ScansTree(nfc, s, stack, ParseValue(s).value, ParseValue(s).rest)
    decreases |s|, 1
  {
    if NULL_TEXT <= s || TRUE_TEXT <= s || FALSE_TEXT <= s {
      ScanWord(nfc, s, stack);
    } else {
      ValueStarts(s);
      if s[0] == QUOTE {
        ScanString(nfc, s, stack);
      } else if s[0] == OPEN_BRACKET {
        ScanArray(nfc, s, stack);
      } else if s[0] == OPEN_BRACE {
        ScanObject(nfc, s, stack);
      } else {
        ScanNumber(nfc, s, stack);
      }
    }
  }

  lemma {:induction false} ScanItems(nfc: Text -> Text, s: Text, stack: seq<set<Text>>)
    requires ParseItems(s).Parsed?
    ensures var p := ParseItems(s);
      ScanFrom(nfc, s, stack) == if ItemsInProfile(nfc, p.value) then ScanFrom(nfc, p.rest, stack) else Refuses
    decreases |s|, 2
  {
    var after := ParseValue(s).rest;
    var next := SkipSpace(after);
    NoColonAfterValue(after);
    ScanValue(nfc, s, stack);
    ScanSkipsSpace(nfc, after, stack);
    ScanSkips(nfc, next, 1, stack);
    if next[0] == COMMA {
      ScanSkipsSpace(nfc, next[1..], stack);
      ScanItems(nfc, SkipSpace(next[1..]), stack);
      var others := ParseItems(SkipSpace(next[1..])).value;
      assert ([ParseValue(s).value] + others)[1..] == others;
    }
  }

  lemma {:induction false} ScanMembers(nfc: Text -> Text, s: Text, stack: seq<set<Text>>, seen: set<Text>)
    requires ParseMembers(s).Parsed?
    ensures var p := ParseMembers(s);
      ScanFrom(nfc, s, stack + [seen])
      == if MembersInProfile(nfc, p.value, seen) then ScanFrom(nfc, p.rest, stack) else Refuses
    decreases |s|, 3
  {
    var key, start := ParseName(s).value, ParseName(s).rest;
    var value, next := ParseValue(start).value, SkipSpace(ParseValue(start).rest);
    var grown := seen + {key};
    ScanMember(nfc, s, stack, seen);
    if next[0] == CLOSE_BRACE {
      MembersOne(nfc, JMember(key, value), [], seen);
      assert Pop(stack + [grown]) == stack;
    } else {
      ScanSkips(nfc, next, 1, stack + [grown]);
      ScanSkipsSpace(nfc, next[1..], stack + [grown]);
      ScanMembers(nfc, SkipSpace(next[1..]), stack, grown);
      MembersOne(nfc, JMember(key, value), ParseMembers(SkipSpace(next[1..])).value, seen);
    }
  }

  lemma MembersOne(nfc: Text -> Text, m: JMember, others: seq<JMember>, seen: set<Text>)
    ensures MembersInProfile(nfc, [m] + others, seen)
            <==> && KeyInProfile(nfc, m.key) && m.key !in seen && InProfile(nfc, m.value)
                 && MembersInProfile(nfc, others, seen + {m.key})
  {
    assert ([m] + others)[1..] == others;
  }

  /** One member, up to the comma or brace after it. */
  lemma {:induction false} ScanMember(nfc: Text -> Text, s: Text, stack: seq<set<Text>>, seen: set<Text>)
    requires ParseMembers(s).Parsed?
    ensures var key, start := ParseName(s).value, ParseName(s).rest;
      var value, next := ParseValue(start).value, SkipSpace(ParseValue(start).rest);
      ScanFrom(nfc, s, stack + [seen])
      == if KeyInProfile(nfc, key) && key !in seen && InProfile(nfc, value)
         then ScanFrom(nfc, next, stack + [seen + {key}]) else Refuses
    decreases |s|, 2
  {
    var key, start := ParseName(s).value, ParseName(s).rest;
    var after := ParseValue(start).rest;
    ScanName(nfc, s, stack, seen);
    NoColonAfterValue(after);
    ScanValue(nfc, start, stack + [seen + {key}]);
    ScanSkipsSpace(nfc, after, stack + [seen + {key}]);
  }

  /** A member name is checked against the innermost open object, then recorded in it. */
  lemma ScanName(nfc: Text -> Text, s: Text, stack: seq<set<Text>>, seen: set<Text>)
    requires ParseName(s).Parsed?
    ensures var p := ParseName(s);
      ScanFrom(nfc, s, stack + [seen])
      == if KeyInProfile(nfc, p.value) && p.value !in seen
         then ScanFrom(nfc, p.rest, stack + [seen + {p.value}]) else Refuses
  {
    var key := ParseName(s).value;
    var after := ParseChars(s[1..]).rest;
    var colon := SkipSpace(after);
    ColonAfterSpace(after);
    assert (stack + [seen])[|stack + [seen]| - 1] == seen;
    assert Record(stack + [seen], key) == stack + [seen + {key}];
    ScanSkipsSpace(nfc, after, stack + [seen + {key}]);
    ScanSkips(nfc, colon, 1, stack + [seen + {key}]);
    ScanSkipsSpace(nfc, colon[1..], stack + [seen + {key}]);
  }

  /** For every text that parses, the scan terminates and refuses exactly the trees outside the profile. */
  lemma ScanExact(nfc: Text -> Text, raw: Text)
    requires Parse(raw).Parsed?
    ensures ScanFrom(nfc, raw, []) == if InProfile(nfc, Parse(raw).value) then Passes else Refuses
  {
    var s := SkipSpace(raw);
    var rest := ParseValue(s).rest;
    ScanSkipsSpace(nfc, raw, []);
    NoColonAfterValue(rest);
    ScanValue(nfc, s, []);
    ScanSkipsSpace(nfc, rest, []);
  }

  // ---------------------------------------------------------------- the loops

  lemma {:induction false} PlainCharsSameEnd(s: Text, n: nat)
    requires n <= |s| && forall i :: 0 <= i < n ==> s[i] >= 0x20 && s[i] != QUOTE && s[i] != BACKSLASH
    ensures ParseChars(s).Parsed? <==> ParseChars(s[n..]).Parsed?
    ensures ParseChars(s).Parsed? ==> ParseChars(s).rest == ParseChars(s[n..]).rest
  {
    if n > 0 {
      PlainCharsSameEnd(s[1..], n - 1);
      assert s[1..][n - 1..] == s[n..];
    } else {
      assert s[0..] == s;
    }
  }

  lemma HexDigitsPlain(s: Text)
    requires HexUnit(s) >= 0
    ensures |s| >= 4 && forall i :: 0 <= i < 4 ==> s[i] >= 0x20 && s[i] != QUOTE && s[i] != BACKSLASH
  {
    assert HexValue(s[0]) >= 0 && HexValue(s[1]) >= 0 && HexValue(s[2]) >= 0 && HexValue(s[3]) >= 0;
  }

  /** One turn of the token loop keeps the end of the string body where it is. */
  lemma TokenStep(s: Text)
    requires ParseChars(s).Parsed? && s[0] != QUOTE
    ensures var n := if s[0] == BACKSLASH then 2 else 1;
      n <= |s| && ParseChars(s[n..]).Parsed? && ParseChars(s[n..]).rest == ParseChars(s).rest
  {
    var p := ParseUnit(s);
    assert p.Parsed? && ParseChars(p.rest).Parsed? && ParseChars(p.rest).rest == ParseChars(s).rest;
    if s[0] == BACKSLASH && s[1] == 0x75 {
      HexDigitsPlain(s[2..]);
      PlainCharsSameEnd(s[2..], 4);
      assert s[2..][4..] == s[6..] == p.rest;
    }
  }

  lemma {:induction false} CharsRest(s: Text)
    requires ParseChars(s).Parsed?
    ensures var rest := ParseChars(s).rest; |rest| < |s| && rest == s[|s| - |rest|..]
    decreases |s|
  {
    if s[0] != QUOTE {
      var r := ParseUnit(s).rest;
      CharsRest(r);
      var rest := ParseChars(s).rest;
      assert r == s[|s| - |r|..];
      assert rest == r[|r| - |rest|..] == s[|s| - |rest|..];
    }
  }

  lemma HexUnitLocal(s: Text, t: Text)
    requires |s| >= 4 && |t| >= 4 && forall i :: 0 <= i < 4 ==> s[i] == t[i]
    ensures HexUnit(s) == HexUnit(t)
  {
  }

  lemma UnitLocal(s: Text, k: nat)
    requires ParseUnit(s).Parsed? && |s| - |ParseUnit(s).rest| <= k <= |s|
    ensures var n := |s| - |ParseUnit(s).rest|;
      0 <= n && ParseUnit(s).rest == s[n..] && ParseUnit(s[..k]) == Parsed(ParseUnit(s).value, s[..k][n..])
  {
    var t := s[..k];
    assert t[0] == s[0];
    if s[0] == BACKSLASH {
      assert t[1] == s[1];
      if s[1] == 0x75 {
        HexDigitsPlain(s[2..]);
        HexUnitLocal(s[2..], t[2..]);
      }
    }
  }

  /** The token alone decodes as it does inside the text. */
  lemma {:induction false} TokenDecodes(s: Text)
    requires ParseChars(s).Parsed?
    ensures var p := ParseChars(s);
      |p.rest| < |s| && ParseChars(s[..|s| - |p.rest|]) == Parsed(p.value, [])
    decreases |s|
  {
    CharsRest(s);
    var p := ParseChars(s);
    var k := |s| - |p.rest|;
    var t := s[..k];
    if s[0] == QUOTE {
      assert t == [QUOTE];
    } else {
      var r := ParseUnit(s).rest;
      var n := |s| - |r|;
      CharsRest(r);
      TokenDecodes(r);
      UnitLocal(s, k);
      assert t[n..] == r[..|r| - |p.rest|];
      assert t[0] == s[0];
    }
  }

  /** The token that starts at the quote at `start`. The source loops forever on a body that never ends. */
  method JsonStringToken(raw: Text, start: nat) returns (token: Text)
    requires start < |raw| && raw[start] == QUOTE
    requires ParseChars(raw[start + 1..]).Parsed?
    ensures |token| <= |raw| - start && token == raw[start..start + |token|]
    ensures raw[start + |token|..] == ParseChars(raw[start + 1..]).rest
    ensures Parse(token) == Parsed(JStr(ParseChars(raw[start + 1..]).value), [])
  {
    ghost var body := raw[start + 1..];
    ghost var tail := ParseChars(body).rest;
    var end := start + 1;
    while raw[end] != QUOTE
      invariant start < end < |raw|
      invariant ParseChars(raw[end..]).Parsed? && ParseChars(raw[end..]).rest == tail
      decreases |raw| - end
    {
      TokenStep(raw[end..]);
      ghost var here := end;
      if raw[end] == BACKSLASH {
        end := end + 1;
      }
      end := end + 1;
      assert raw[here..][end - here..] == raw[end..];
    }
    token := raw[start..end + 1];
    TokenEnds(raw, start, end);
  }

  lemma TokenEnds(raw: Text, start: nat, end: nat)
    requires start < end < |raw| && raw[start] == QUOTE && raw[end] == QUOTE
    requires ParseChars(raw[start + 1..]).Parsed? && ParseChars(raw[end..]).Parsed?
    requires ParseChars(raw[end..]).rest == ParseChars(raw[start + 1..]).rest
    ensures raw[end + 1..] == ParseChars(raw[start + 1..]).rest
    ensures Parse(raw[start..end + 1]) == Parsed(JStr(ParseChars(raw[start + 1..]).value), [])
  {
    QuoteEnds(raw[end..]);
    TokenSlices(raw, start, end);
    TokenDecodes(raw[start + 1..]);
    QuotedParses(raw[start..end + 1]);
  }

  lemma QuoteEnds(s: Text)
    requires s != [] && s[0] == QUOTE
    ensures ParseChars(s) == Parsed([], s[1..])
  {
  }

  lemma TokenSlices(raw: Text, start: nat, end: nat)
    requires start < end < |raw|
    ensures raw[end..][1..] == raw[end + 1..]
    ensures raw[start..end + 1][1..] == raw[start + 1..][..|raw[start + 1..]| - |raw[end + 1..]|]
  {
  }

  lemma QuotedParses(token: Text)
    requires token != [] && token[0] == QUOTE && ParseChars(token[1..]).Parsed? && ParseChars(token[1..]).rest == []
    ensures Parse(token) == Parsed(JStr(ParseChars(token[1..]).value), [])
  {
    assert SkipSpace(token) == token;
  }

  /** What a decoded string does to the member sets; `NoParse` to refuse. */
  function StringTurn(
    nfc: Text -> Text, decoded: Text, colonFollows: bool, stack: seq<set<Text>>): Parsed<seq<set<Text>>> {
    if !StringAccepted(nfc, decoded) then NoParse
    else if !colonFollows then Parsed(stack, [])
    else if stack == [] || !KeyInProfile(nfc, decoded) || decoded in stack[|stack| - 1] then NoParse
    else Parsed(Record(stack, decoded), [])
  }

  method CheckString(nfc: Text -> Text, decoded: Text, colonFollows: bool, stack: seq<set<Text>>)
    returns (refused: bool, sets: seq<set<Text>>)
    ensures refused <==> StringTurn(nfc, decoded, colonFollows, stack) == NoParse
    ensures !refused ==> StringTurn(nfc, decoded, colonFollows, stack) == Parsed(sets, [])
  {
    sets := stack;
    if !StringAccepted(nfc, decoded) {
      return true, sets;
    }
    if colonFollows {
      if stack == [] || !KeyInProfile(nfc, decoded) || decoded in stack[|stack| - 1] {
        return true, sets;
      }
      sets := Record(stack, decoded);
    }
    return false, sets;
  }

  lemma ScanAtQuote(nfc: Text -> Text, raw: Text, index: nat, stack: seq<set<Text>>)
    requires index < |raw| && raw[index] == QUOTE && ScanFrom(nfc, raw[index..], stack) != Stuck
    ensures ParseChars(raw[index + 1..]).Parsed?
    ensures var p := ParseChars(raw[index + 1..]);
      var turn := StringTurn(nfc, p.value, ColonFollows(p.rest), stack);
      ScanFrom(nfc, raw[index..], stack) == if turn == NoParse then Refuses else ScanFrom(nfc, p.rest, turn.value)
  {
    assert raw[index..][1..] == raw[index + 1..];
  }

  /** A turn of the scan from `index` refuses, or goes on from `next` to the same verdict. */
  ghost predicate TurnScans(
    nfc: Text -> Text, raw: Text, index: nat, stack: seq<set<Text>>, refused: bool, next: nat, sets: seq<set<Text>>)
    requires index < |raw|
  {
    if refused then ScanFrom(nfc, raw[index..], stack) == Refuses
    else index < next <= |raw| && ScanFrom(nfc, raw[next..], sets) == ScanFrom(nfc, raw[index..], stack)
  }

  lemma NumberScans(nfc: Text -> Text, s: Text, stack: seq<set<Text>>)
    requires s != [] && (s[0] == MINUS || IsDigit(s[0]))
    ensures var run := NumberRun(s);
      ScanFrom(nfc, s, stack)
      == if run == 0 || !NumberInProfile(s[..run]) then Refuses else ScanFrom(nfc, s[run..], stack)
  {
  }

  lemma DropTwice(raw: Text, index: nat, run: nat)
    requires index + run <= |raw|
    ensures raw[index..][run..] == raw[index + run..]
  {
  }

  predicate NumberRefused(s: Text) {
    NumberRun(s) == 0 || !NumberInProfile(s[..NumberRun(s)])
  }

  lemma ScanAfterToken(nfc: Text -> Text, raw: Text, index: nat, stack: seq<set<Text>>, next: nat)
    requires index < |raw| && raw[index] == QUOTE && ScanFrom(nfc, raw[index..], stack) != Stuck
    requires index < next <= |raw| && ParseChars(raw[index + 1..]).Parsed?
    requires raw[next..] == ParseChars(raw[index + 1..]).rest
    ensures var turn := StringTurn(nfc, ParseChars(raw[index + 1..]).value, ColonFollows(raw[next..]), stack);
      TurnScans(nfc, raw, index, stack, turn == NoParse, next, if turn == NoParse then stack else turn.value)
  {
    ScanAtQuote(nfc, raw, index, stack);
  }

  function StackAfter(u: Unit, stack: seq<set<Text>>): seq<set<Text>> {
    if u == OPEN_BRACE then stack + [{}] else if u == CLOSE_BRACE then Pop(stack) else stack
  }

  lemma ScanAtOther(nfc: Text -> Text, raw: Text, index: nat, stack: seq<set<Text>>)
    requires index < |raw| && raw[index] != QUOTE && raw[index] != MINUS && !IsDigit(raw[index])
    ensures ScanFrom(nfc, raw[index..], stack) == ScanFrom(nfc, raw[index + 1..], StackAfter(raw[index], stack))
  {
    assert raw[index..][1..] == raw[index + 1..];
  }

  method ScanStringToken(nfc: Text -> Text, raw: Text, index: nat, stack: seq<set<Text>>)
    returns (refused: bool, next: nat, sets: seq<set<Text>>)
    requires index < |raw| && raw[index] == QUOTE && ScanFrom(nfc, raw[index..], stack) != Stuck
    ensures TurnScans(nfc, raw, index, stack, refused, next, sets)
  {
    ScanAtQuote(nfc, raw, index, stack);
    var token := JsonStringToken(raw, index);
    next := index + |token|;
    ScanAfterToken(nfc, raw, index, stack, next);
    refused, sets := CheckString(nfc, Parse(token).value.s, ColonFollows(raw[next..]), stack);
  }

  lemma ScanAtNumber(nfc: Text -> Text, raw: Text, index: nat, stack: seq<set<Text>>)
    requires index < |raw| && (raw[index] == MINUS || IsDigit(raw[index]))
    ensures var run := NumberRun(raw[index..]);
      TurnScans(nfc, raw, index, stack, NumberRefused(raw[index..]), index + run, stack)
  {
    NumberScans(nfc, raw[index..], stack);
    DropTwice(raw, index, NumberRun(raw[index..]));
  }

  method ScanNumberToken(nfc: Text -> Text, raw: Text, index: nat, stack: seq<set<Text>>)
    returns (refused: bool, next: nat)
    requires index < |raw| && (raw[index] == MINUS || IsDigit(raw[index]))
    ensures TurnScans(nfc, raw, index, stack, refused, next, stack)
  {
    ScanAtNumber(nfc, raw, index, stack);
    return NumberRefused(raw[index..]), index + NumberRun(raw[index..]);
  }

  method ScanOther(nfc: Text -> Text, raw: Text, index: nat, stack: seq<set<Text>>) returns (sets: seq<set<Text>>)
    requires index < |raw| && raw[index] != QUOTE && raw[index] != MINUS && !IsDigit(raw[index])
    ensures TurnScans(nfc, raw, index, stack, false, index + 1, sets)
  {
    ScanAtOther(nfc, raw, index, stack);
    return StackAfter(raw[index], stack);
  }

  /** One turn of the scan: a string, a number, or a single character. */
  method ScanTurn(nfc: Text -> Text, raw: Text, index: nat, stack: seq<set<Text>>)
    returns (refused: bool, next: nat, sets: seq<set<Text>>)
    requires index < |raw| && ScanFrom(nfc, raw[index..], stack) != Stuck
    ensures TurnScans(nfc, raw, index, stack, refused, next, sets)
  {
    if raw[index] == QUOTE {
      refused, next, sets := ScanStringToken(nfc, raw, index, stack);
    } else if raw[index] == MINUS || IsDigit(raw[index]) {
      sets := stack;
      refused, next := ScanNumberToken(nfc, raw, index, stack);
    } else {
      refused, next := false, index + 1;
      sets := ScanOther(nfc, raw, index, stack);
    }
  }

  /** The index loop over the text, with its stack of member sets. */
  method ScanLoop(nfc: Text -> Text, raw: Text) returns (refused: bool)
    requires ScanFrom(nfc, raw, []) != Stuck
    ensures refused <==> ScanFrom(nfc, raw, []) == Refuses
  {
    ghost var verdict := ScanFrom(nfc, raw, []);
    var objectMemberSets: seq<set<Text>> := [];
    var index := 0;
    assert raw[0..] == raw;
    while index < |raw|
      invariant 0 <= index <= |raw|
      invariant ScanFrom(nfc, raw[index..], objectMemberSets) == verdict
    {
      refused, index, objectMemberSets := ScanTurn(nfc, raw, index, objectMemberSets);
      if refused {
        return;
      }
    }
    return false;
  }

  /** True when the text is to be refused. Only ever called on texts that parse. */
  method ScanCanonicalJson(nfc: Text -> Text, raw: Text) returns (refused: bool)
    requires Parse(raw).Parsed?
    ensures refused <==> !InProfile(nfc, Parse(raw).value)
  {
    ScanExact(nfc, raw);
    refused := ScanLoop(nfc, raw);
  }

  // ---------------------------------------------------------------- the decoder

  /** The JavaScript value of a tree in the profile: no member repeats, so none is overwritten. */
  function ToValue(nfc: Text -> Text, j: Json): Value
    requires InProfile(nfc, j)
  {
    match j
    case JNull => Null
    case JBool(b) => Bool(b)
    case JNum(token) => Num(if token[0] == MINUS && IntegerOf(token) == 0 then MinusZero else Integer(IntegerOf(token)))
    case JStr(s) => Str(s)
    case JArr(items) => Arr(ToItems(nfc, items))
    case JObj(members) => Obj(ToMembers(nfc, members, {}))
  }

  function ToItems(nfc: Text -> Text, items: seq<Json>): seq<Value>
    requires ItemsInProfile(nfc, items)
  {
    if items == [] then [] else [ToValue(nfc, items[0])] + ToItems(nfc, items[1..])
  }

  function ToMembers(nfc: Text -> Text, members: seq<JMember>, ghost seen: set<Text>): seq<Member>
    requires MembersInProfile(nfc, members, seen)
  {
    if members == [] then []
    else
      [Member(members[0].key, ToValue(nfc, members[0].value))]
      + ToMembers(nfc, members[1..], seen + {members[0].key})
  }

  datatype Decoded = Decoded(value: Value) | MalformedJson | ProfileRefused

  function DecodeCanonicalJson(nfc: Text -> Text, raw: Text): Decoded {
    match Parse(raw)
    case NoParse => MalformedJson
    case Parsed(j, _) => if InProfile(nfc, j) then Decoded(ToValue(nfc, j)) else ProfileRefused
  }
}
