/** The canonical JSON printer of apps/dashboard/src/domain/canonical.ts over value trees.

    `nfc` stands for `String.prototype.normalize("NFC")`; what is needed of it is `IsNormalization`. */
module Canonical {
  import opened Unicode
  import opened Ordering

  const MAX_KEY_UNITS := 64
  const MAX_STRING_BYTES := 4096
  const MAX_SAFE_INTEGER := 9007199254740991

  /** A JavaScript number, split by how `encodeNumber` treats it. */
  datatype Number = Integer(n: int) | MinusZero | Fraction(r: real) | NotFinite

  /** What `encodeValue` can be handed once property access is over. `Unsupported` stands for undefined,
      functions, symbols, big integers and objects that are neither arrays nor plain. */
  datatype Value =
    | Null
    | Bool(b: bool)
    | Num(num: Number)
    | Str(s: Text)
    | Arr(items: seq<Value>)
    | Obj(members: seq<Member>)
    | Unsupported

  datatype Member = Member(key: Text, value: Value)

  datatype Refusal =
    | ArrayForm | Cycle | IntegerRange | KeyForm | KeyLength | LoneSurrogate | PropertyForm | StringLength
    | UnsupportedType

  datatype Encoded<+T> = Ok(value: T) | Refused(refusal: Refusal) {
    predicate IsFailure() { Refused? }
    function PropagateFailure<U>(): Encoded<U> requires Refused? { Refused(refusal) }
    function Extract(): T requires Ok? { value }
  }

  // ---------------------------------------------------------------- characters

  const QUOTE: Unit := 0x22
  const BACKSLASH: Unit := 0x5C
  const COMMA: Unit := 0x2C
  const COLON: Unit := 0x3A
  const MINUS: Unit := 0x2D
  const OPEN_BRACKET: Unit := 0x5B
  const CLOSE_BRACKET: Unit := 0x5D
  const OPEN_BRACE: Unit := 0x7B
  const CLOSE_BRACE: Unit := 0x7D
  const NULL_TEXT: Text := [0x6E, 0x75, 0x6C, 0x6C]
  const TRUE_TEXT: Text := [0x74, 0x72, 0x75, 0x65]
  const FALSE_TEXT: Text := [0x66, 0x61, 0x6C, 0x73, 0x65]

  predicate IsDigit(u: int) {
    0x30 <= u <= 0x39
  }

  predicate IsLower(u: int) {
    0x61 <= u <= 0x7A
  }

  predicate IsAlphanumeric(u: int) {
    IsDigit(u) || IsLower(u) || 0x41 <= u <= 0x5A
  }

  // ---------------------------------------------------------------- strings

  /** Normalisation keeps scalar strings scalar, is idempotent on them, and leaves ASCII alone. */
  ghost predicate IsNormalization(nfc: Text -> Text) {
    && (forall t :: Scalar(t) ==> Scalar(nfc(t)) && nfc(nfc(t)) == nfc(t))
    && (forall t :: IsAscii(t) ==> nfc(t) == t)
  }

  function HexDigit(d: int): Unit
    requires 0 <= d < 16
  {
    if d < 10 then 0x30 + d else 0x57 + d
  }

  function EscapeUnit(u: Unit): Text {
    if u == QUOTE then [BACKSLASH, QUOTE]
    else if u == BACKSLASH then [BACKSLASH, BACKSLASH]
    else if u == 0x08 then [BACKSLASH, 0x62]
    else if u == 0x0C then [BACKSLASH, 0x66]
    else if u == 0x0A then [BACKSLASH, 0x6E]
    else if u == 0x0D then [BACKSLASH, 0x72]
    else if u == 0x09 then [BACKSLASH, 0x74]
    else if u < 0x20 then [BACKSLASH, 0x75, 0x30, 0x30, HexDigit(u / 16), HexDigit(u % 16)]
    else [u]
  }

  /** Escaping acts on code points; one outside the basic plane is copied, so it acts on units alike. */
  function Escape(t: Text): Text {
    if t == [] then [] else EscapeUnit(t[0]) + Escape(t[1..])
  }

  function PrintString(t: Text): Text {
    [QUOTE] + Escape(t) + [QUOTE]
  }

  predicate StringAccepted(nfc: Text -> Text, t: Text) {
    Scalar(t) && |Utf8(nfc(t))| <= MAX_STRING_BYTES
  }

  function EncodeString(nfc: Text -> Text, t: Text): Encoded<Text> {
    if !Scalar(t) then Refused(LoneSurrogate)
    else if |Utf8(nfc(t))| > MAX_STRING_BYTES then Refused(StringLength)
    else Ok(PrintString(nfc(t)))
  }

  // ---------------------------------------------------------------- numbers

  function PrintNat(n: nat): Text {
    if n < 10 then [0x30 + n] else PrintNat(n / 10) + [0x30 + n % 10]
  }

  function PrintInteger(n: int): Text {
    if n < 0 then [MINUS] + PrintNat(-n) else PrintNat(n)
  }

  predicate IsSafe(n: int) {
    -MAX_SAFE_INTEGER <= n <= MAX_SAFE_INTEGER
  }

  function EncodeNumber(num: Number): Encoded<Text> {
    match num
    case NotFinite => Refused(UnsupportedType)
    case Fraction(_) => Refused(UnsupportedType)
    case MinusZero => Ok([0x30])
    case Integer(n) => if IsSafe(n) then Ok(PrintInteger(n)) else Refused(IntegerRange)
  }

  // ---------------------------------------------------------------- objects

  predicate KeyFormed(key: Text) {
    key != [] && IsLower(key[0]) && forall i :: 0 <= i < |key| ==> IsAlphanumeric(key[i])
  }

  predicate KeyAccepted(key: Text) {
    |key| <= MAX_KEY_UNITS && KeyFormed(key)
  }

  function FirstKeyRefusal(members: seq<Member>): Encoded<()> {
    if members == [] then Ok(())
    else if |members[0].key| > MAX_KEY_UNITS then Refused(KeyLength)
    else if !KeyFormed(members[0].key) then Refused(KeyForm)
    else FirstKeyRefusal(members[1..])
  }

  function KeyOf(m: Member): Key {
    m.key
  }

  function Sorted(members: seq<Member>): seq<Member> {
    Sort(KeyOf, members)
  }

  // ---------------------------------------------------------------- the encoder

  /** Node count, the termination measure: sorting the members of an object keeps it. */
  ghost function Size(v: Value): nat {
    match v
    case Arr(items) => 1 + SizeItems(items)
    case Obj(members) => 1 + SizeMembers(members)
    case _ => 1
  }

  ghost function SizeItems(items: seq<Value>): nat {
    if items == [] then 0 else 1 + Size(items[0]) + SizeItems(items[1..])
  }

  ghost function SizeMembers(members: seq<Member>): nat {
    if members == [] then 0 else 1 + Size(members[0].value) + SizeMembers(members[1..])
  }

  lemma {:induction false} SizeInsert(m: Member, s: seq<Member>)
    ensures SizeMembers(Insert(KeyOf, m, s)) == 1 + Size(m.value) + SizeMembers(s)
  {
    if s != [] && Less(KeyOf(s[0]), KeyOf(m)) {
      SizeInsert(m, s[1..]);
      assert ([s[0]] + Insert(KeyOf, m, s[1..]))[1..] == Insert(KeyOf, m, s[1..]);
    } else {
      assert ([m] + s)[1..] == s;
    }
  }

  lemma {:induction false} SizeSorted(s: seq<Member>)
    ensures SizeMembers(Sorted(s)) == SizeMembers(s)
  {
    if s != [] {
      SizeSorted(s[1..]);
      SizeInsert(s[0], Sorted(s[1..]));
    }
  }

  function EncodeValue(nfc: Text -> Text, v: Value): Encoded<Text>
    decreases Size(v)
  {
    match v
    case Null => Ok(NULL_TEXT)
    case Bool(b) => Ok(if b then TRUE_TEXT else FALSE_TEXT)
    case Num(num) => EncodeNumber(num)
    case Str(s) => EncodeString(nfc, s)
    case Arr(items) =>
      var joined :- EncodeItems(nfc, items);
      Ok([OPEN_BRACKET] + joined + [CLOSE_BRACKET])
    case Obj(members) =>
      var _ :- FirstKeyRefusal(members);
      SizeSorted(members);
      var joined :- EncodeMembers(nfc, Sorted(members));
      Ok([OPEN_BRACE] + joined + [CLOSE_BRACE])
    case Unsupported => Refused(UnsupportedType)
  }

  function EncodeItems(nfc: Text -> Text, items: seq<Value>): Encoded<Text>
    decreases SizeItems(items)
  {
    if items == [] then Ok([])
    else
      var first :- EncodeValue(nfc, items[0]);
      if |items| == 1 then Ok(first)
      else
        var rest :- EncodeItems(nfc, items[1..]);
        Ok(first + [COMMA] + rest)
  }

  function EncodeMembers(nfc: Text -> Text, members: seq<Member>): Encoded<Text>
    decreases SizeMembers(members)
  {
    if members == [] then Ok([])
    else
      var key :- EncodeString(nfc, members[0].key);
      var value :- EncodeValue(nfc, members[0].value);
      var first := key + [COLON] + value;
      if |members| == 1 then Ok(first)
      else
        var rest :- EncodeMembers(nfc, members[1..]);
        Ok(first + [COMMA] + rest)
  }

  function CanonicalBytes(nfc: Text -> Text, v: Value): Encoded<seq<Byte>> {
    var text :- EncodeValue(nfc, v);
    Ok(Utf8(text))
  }

  // ---------------------------------------------------------------- canonical form

  function CanonicalNumber(num: Number): Number {
    if num == MinusZero then Integer(0) else num
  }

  /** The value a canonical text denotes: strings in NFC, no negative zero, members sorted by key. */
  function Canon(nfc: Text -> Text, v: Value): Value {
    match v
    case Num(num) => Num(CanonicalNumber(num))
    case Str(s) => Str(nfc(s))
    case Arr(items) => Arr(CanonItems(nfc, items))
    case Obj(members) => Obj(Sorted(CanonMembers(nfc, members)))
    case _ => v
  }

  function CanonItems(nfc: Text -> Text, items: seq<Value>): seq<Value> {
    if items == [] then [] else [Canon(nfc, items[0])] + CanonItems(nfc, items[1..])
  }

  function CanonMembers(nfc: Text -> Text, members: seq<Member>): seq<Member> {
    if members == [] then []
    else [Member(members[0].key, Canon(nfc, members[0].value))] + CanonMembers(nfc, members[1..])
  }

  /** The canonical profile: what the encoder takes. */
  predicate Accepted(nfc: Text -> Text, v: Value) {
    match v
    case Num(num) => num == MinusZero || (num.Integer? && IsSafe(num.n))
    case Str(s) => StringAccepted(nfc, s)
    case Arr(items) => forall i :: 0 <= i < |items| ==> Accepted(nfc, items[i])
    case Obj(members) =>
      forall i :: 0 <= i < |members| ==> KeyAccepted(members[i].key) && Accepted(nfc, members[i].value)
    case Unsupported => false
    case _ => true
  }

  function Print(v: Value): Text {
    match v
    case Null => NULL_TEXT
    case Bool(b) => if b then TRUE_TEXT else FALSE_TEXT
    case Num(num) => if num.Integer? then PrintInteger(num.n) else [0x30]
    case Str(s) => PrintString(s)
    case Arr(items) => [OPEN_BRACKET] + PrintItems(items) + [CLOSE_BRACKET]
    case Obj(members) => [OPEN_BRACE] + PrintMembers(members) + [CLOSE_BRACE]
    case Unsupported => []
  }

  function PrintItems(items: seq<Value>): Text {
    if items == [] then []
    else if |items| == 1 then Print(items[0])
    else Print(items[0]) + [COMMA] + PrintItems(items[1..])
  }

  function PrintMember(m: Member): Text {
    PrintString(m.key) + [COLON] + Print(m.value)
  }

  function PrintMembers(members: seq<Member>): Text {
    if members == [] then []
    else if |members| == 1 then PrintMember(members[0])
    else PrintMember(members[0]) + [COMMA] + PrintMembers(members[1..])
  }

  // ---------------------------------------------------------------- encoder = printer after Canon

  ghost predicate ItemsAccepted(nfc: Text -> Text, items: seq<Value>) {
    forall i :: 0 <= i < |items| ==> Accepted(nfc, items[i])
  }

  ghost predicate MembersAccepted(nfc: Text -> Text, members: seq<Member>) {
    forall i :: 0 <= i < |members| ==> KeyAccepted(members[i].key) && Accepted(nfc, members[i].value)
  }

  ghost predicate KeysAccepted(members: seq<Member>) {
    forall i :: 0 <= i < |members| ==> KeyAccepted(members[i].key)
  }

  lemma {:induction false} FirstKeyRefusalExact(members: seq<Member>)
    ensures FirstKeyRefusal(members).Ok? <==> KeysAccepted(members)
  {
    if members != [] {
      FirstKeyRefusalExact(members[1..]);
      assert forall i :: 0 < i < |members| ==> members[i] == members[1..][i - 1];
    }
  }

  lemma KeyEncodes(nfc: Text -> Text, key: Text)
    requires IsNormalization(nfc) && KeyAccepted(key)
    ensures EncodeString(nfc, key) == Ok(PrintString(key))
  {
    AsciiScalar(key);
  }

  lemma {:induction false} CanonInsert(nfc: Text -> Text, m: Member, s: seq<Member>)
    ensures CanonMembers(nfc, Insert(KeyOf, m, s))
            == Insert(KeyOf, Member(m.key, Canon(nfc, m.value)), CanonMembers(nfc, s))
  {
    if s != [] && Less(KeyOf(s[0]), KeyOf(m)) {
      CanonInsert(nfc, m, s[1..]);
      var t := Insert(KeyOf, m, s[1..]);
      assert ([s[0]] + t)[1..] == t;
    } else {
      assert ([m] + s)[1..] == s;
    }
  }

  lemma {:induction false} CanonSorted(nfc: Text -> Text, s: seq<Member>)
    ensures CanonMembers(nfc, Sorted(s)) == Sorted(CanonMembers(nfc, s))
  {
    if s != [] {
      CanonSorted(nfc, s[1..]);
      CanonInsert(nfc, s[0], Sorted(s[1..]));
      var c := CanonMembers(nfc, s);
      assert c[1..] == CanonMembers(nfc, s[1..]);
    }
  }

  lemma MembersAcceptedSorted(nfc: Text -> Text, s: seq<Member>)
    ensures MembersAccepted(nfc, Sorted(s)) <==> MembersAccepted(nfc, s)
    ensures KeysAccepted(Sorted(s)) <==> KeysAccepted(s)
  {
    var r := Sorted(s);
    forall i | 0 <= i < |r|
      ensures r[i] in s
    {
      SortMember(KeyOf, s, r[i]);
    }
    forall i | 0 <= i < |s|
      ensures s[i] in r
    {
      SortMember(KeyOf, s, s[i]);
    }
    if MembersAccepted(nfc, s) {
      assert forall m :: m in s ==> KeyAccepted(m.key) && Accepted(nfc, m.value);
    }
    if MembersAccepted(nfc, r) {
      assert forall m :: m in r ==> KeyAccepted(m.key) && Accepted(nfc, m.value);
    }
    if KeysAccepted(s) {
      assert forall m :: m in s ==> KeyAccepted(m.key);
    }
    if KeysAccepted(r) {
      assert forall m :: m in r ==> KeyAccepted(m.key);
    }
  }

  /** The encoder takes exactly the accepted values, and prints their canonical form. */
  lemma {:induction false} EncodePrintsCanon(nfc: Text -> Text, v: Value)
    requires IsNormalization(nfc)
    ensures EncodeValue(nfc, v).Ok? <==> Accepted(nfc, v)
    ensures Accepted(nfc, v) ==> EncodeValue(nfc, v) == Ok(Print(Canon(nfc, v)))
    decreases Size(v)
  {
    match v
    case Arr(items) =>
      EncodeItemsPrint(nfc, items);
    case Obj(members) =>
      FirstKeyRefusalExact(members);
      MembersAcceptedSorted(nfc, members);
      SizeSorted(members);
      assert Accepted(nfc, v) <==> MembersAccepted(nfc, members);
      if KeysAccepted(members) {
        EncodeMembersPrint(nfc, Sorted(members));
        CanonSorted(nfc, members);
      }
    case _ =>
  }

  lemma {:induction false} EncodeItemsPrint(nfc: Text -> Text, items: seq<Value>)
    requires IsNormalization(nfc)
    ensures EncodeItems(nfc, items).Ok? <==> ItemsAccepted(nfc, items)
    ensures ItemsAccepted(nfc, items) ==> EncodeItems(nfc, items) == Ok(PrintItems(CanonItems(nfc, items)))
    decreases SizeItems(items)
  {
    if items != [] {
      EncodePrintsCanon(nfc, items[0]);
      EncodeItemsPrint(nfc, items[1..]);
      assert forall i :: 0 < i < |items| ==> items[i] == items[1..][i - 1];
      var c := CanonItems(nfc, items);
      assert c[1..] == CanonItems(nfc, items[1..]);
      if |items| > 1 {
        assert |CanonItems(nfc, items[1..])| >= 1;
      }
    }
  }

  lemma {:induction false} EncodeMembersPrint(nfc: Text -> Text, members: seq<Member>)
    requires IsNormalization(nfc) && KeysAccepted(members)
    ensures EncodeMembers(nfc, members).Ok? <==> MembersAccepted(nfc, members)
    ensures MembersAccepted(nfc, members)
            ==> EncodeMembers(nfc, members) == Ok(PrintMembers(CanonMembers(nfc, members)))
    decreases SizeMembers(members)
  {
    if members != [] {
      KeyEncodes(nfc, members[0].key);
      EncodePrintsCanon(nfc, members[0].value);
      EncodeMembersPrint(nfc, members[1..]);
      assert forall i :: 0 < i < |members| ==> members[i] == members[1..][i - 1];
      var c := CanonMembers(nfc, members);
      assert c[1..] == CanonMembers(nfc, members[1..]);
      if |members| > 1 {
        assert |CanonMembers(nfc, members[1..])| >= 1;
      }
    }
  }
}
