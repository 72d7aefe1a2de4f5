/** Domain-separated digests over canonical documents. `sha` stands for SHA-256. */
module CanonicalDigest {
  import opened Unicode
  import opened Ordering
  import opened Canonical
  import opened CanonicalRoundTrip
  import opened CanonicalInjective

  datatype DigestContext = Evidence | IdempotencyBody | OrderedDashboardEvent | ProposalDigest | ReplayState

  datatype DigestRefusal = NotAnObject | Version

  datatype Digested<+T> = Digest(value: T) | DigestRefused(reason: DigestRefusal) | CanonicalRefused(refusal: Refusal)

  const NEWLINE: Unit := 0x0A
  const DIGEST_KEY: Text := Ascii("digest")
  const VERSION_KEY: Text := Ascii("canonicalizationVersion")

  /** The code units of an ASCII literal. */
  function Ascii(s: string): (t: Text)
    requires forall i :: 0 <= i < |s| ==> s[i] < 128 as char
    ensures |t| == |s| && IsAscii(t)
    ensures forall i :: 0 <= i < |s| ==> t[i] == s[i] as int
  {
    seq(|s|, i requires 0 <= i < |s| => s[i] as int)
  }

  function ContextText(context: DigestContext): Text {
    match context
    case Evidence => Ascii("evidence")
    case IdempotencyBody => Ascii("idempotency-body")
    case OrderedDashboardEvent => Ascii("ordered-dashboard-event")
    case ProposalDigest => Ascii("proposal-digest")
    case ReplayState => Ascii("replay-state")
  }

  // ---------------------------------------------------------------- the covered document

  /** The members a digest covers: all but `digest` itself. */
  function CoveredMembers(members: seq<Member>): seq<Member> {
    if members == [] then []
    else if members[|members| - 1].key == DIGEST_KEY then CoveredMembers(members[..|members| - 1])
    else CoveredMembers(members[..|members| - 1]) + [members[|members| - 1]]
  }

  /** The value of `canonicalizationVersion`, `Unsupported` when it is absent. */
  function VersionOf(members: seq<Member>): Value {
    if members == [] then Unsupported
    else if members[|members| - 1].key == VERSION_KEY then members[|members| - 1].value
    else VersionOf(members[..|members| - 1])
  }

  function CoveredDocument(v: Value): Digested<Value> {
    if !v.Obj? then DigestRefused(NotAnObject)
    else if VersionOf(v.members) != Num(Integer(1)) then DigestRefused(Version)
    else Digest(Obj(CoveredMembers(v.members)))
  }

  method DigestCoveredDocument(v: Value) returns (r: Digested<Value>)
    ensures r == CoveredDocument(v)
  {
    if !v.Obj? {
      return DigestRefused(NotAnObject);
    }
    var covered: seq<Member> := [];
    var version := Unsupported;
    for k := 0 to |v.members|
      invariant covered == CoveredMembers(v.members[..k])
      invariant version == VersionOf(v.members[..k])
    {
      var member := v.members[k];
      assert v.members[..k + 1][..k] == v.members[..k];
      if member.key == VERSION_KEY {
        version := member.value;
      }
      if member.key != DIGEST_KEY {
        covered := covered + [member];
      }
    }
    assert v.members[..|v.members|] == v.members;
    if version != Num(Integer(1)) {
      return DigestRefused(Version);
    }
    return Digest(Obj(covered));
  }

  lemma {:induction false} CoveredMembersKept(members: seq<Member>)
    requires DistinctKeys(KeyOf, members)
    ensures DistinctKeys(KeyOf, CoveredMembers(members))
    ensures forall m :: m in CoveredMembers(members) <==> m in members && m.key != DIGEST_KEY
  {
    if members != [] {
      var front := members[..|members| - 1];
      var last := members[|members| - 1];
      CoveredMembersKept(front);
      assert members == front + [last];
      var c := CoveredMembers(front);
      forall i | 0 <= i < |c|
        ensures KeyOf(c[i]) != KeyOf(last)
      {
        assert c[i] in front;
      }
    }
  }

  lemma CoveredWellKeyed(v: Value)
    requires WellKeyed(v) && CoveredDocument(v).Digest?
    ensures WellKeyed(CoveredDocument(v).value)
  {
    CoveredMembersKept(v.members);
    var c := CoveredMembers(v.members);
    forall i | 0 <= i < |c|
      ensures WellKeyed(c[i].value)
    {
      assert c[i] in v.members;
    }
  }

  // ---------------------------------------------------------------- digest material

  function MaterialPrefix(context: DigestContext): Text {
    Ascii("aerial-rescue/canonical/v1") + [NEWLINE] + ContextText(context) + [NEWLINE]
  }

  function DigestMaterial(nfc: Text -> Text, context: DigestContext, v: Value): Digested<seq<Byte>> {
    match CoveredDocument(v)
    case DigestRefused(reason) => DigestRefused(reason)
    case CanonicalRefused(refusal) => CanonicalRefused(refusal)
    case Digest(document) =>
      match CanonicalBytes(nfc, document)
      case Refused(refusal) => CanonicalRefused(refusal)
      case Ok(bytes) => Digest(Utf8(MaterialPrefix(context)) + bytes)
  }

  lemma {:induction false} AsciiUtf8(t: Text)
    requires IsAscii(t)
    ensures Utf8(t) == t
  {
    if t != [] {
      AsciiUtf8(t[1..]);
      assert t == [t[0]] + t[1..];
    }
  }

  /** A terminator that occurs in neither text makes the split unambiguous. */
  lemma {:induction false} TerminatedSplit(a: seq<int>, b: seq<int>, r: seq<int>, q: seq<int>, stop: int)
    requires stop !in a && stop !in b
    requires a + [stop] + r == b + [stop] + q
    ensures a == b && r == q
  {
    var s := a + [stop] + r;
    assert s[|a|] == stop && s[|b|] == stop;
    assert forall i :: 0 <= i < |a| ==> s[i] == a[i] && a[i] in a;
    assert forall i :: 0 <= i < |b| ==> s[i] == b[i] && b[i] in b;
    assert a == s[..|a|] && b == s[..|b|];
    assert r == s[|a| + 1..] && q == s[|b| + 1..];
  }

  lemma ContextsSeparate(context: DigestContext, other: DigestContext)
    ensures NEWLINE !in ContextText(context)
    ensures ContextText(context) == ContextText(other) ==> context == other
  {
  }

  lemma PrefixSplit(context: DigestContext, other: DigestContext, x: seq<int>, y: seq<int>)
    requires MaterialPrefix(context) + x == MaterialPrefix(other) + y
    ensures context == other && x == y
  {
    var head := Ascii("aerial-rescue/canonical/v1") + [NEWLINE];
    var a, b := ContextText(context), ContextText(other);
    ContextsSeparate(context, other);
    ContextsSeparate(other, context);
    HeadDropped(head, a, x, NEWLINE);
    HeadDropped(head, b, y, NEWLINE);
    TerminatedSplit(a, b, x, y, NEWLINE);
  }

  lemma HeadDropped(head: seq<int>, a: seq<int>, x: seq<int>, stop: int)
    ensures (head + a + [stop] + x)[|head|..] == a + [stop] + x
  {
  }

  lemma MaterialParts(nfc: Text -> Text, context: DigestContext, v: Value)
    requires WellKeyed(v) && DigestMaterial(nfc, context, v).Digest?
    ensures CoveredDocument(v).Digest? && WellKeyed(CoveredDocument(v).value)
    ensures CanonicalBytes(nfc, CoveredDocument(v).value).Ok?
    ensures DigestMaterial(nfc, context, v).value
            == MaterialPrefix(context) + CanonicalBytes(nfc, CoveredDocument(v).value).value
  {
    MaterialCovers(nfc, context, v);
    CoveredWellKeyed(v);
    PrefixIsAscii(context);
    AsciiUtf8(MaterialPrefix(context));
  }

  lemma MaterialCovers(nfc: Text -> Text, context: DigestContext, v: Value)
    requires DigestMaterial(nfc, context, v).Digest?
    ensures CoveredDocument(v).Digest? && CanonicalBytes(nfc, CoveredDocument(v).value).Ok?
    ensures DigestMaterial(nfc, context, v).value
            == Utf8(MaterialPrefix(context)) + CanonicalBytes(nfc, CoveredDocument(v).value).value
  {
  }

  lemma PrefixIsAscii(context: DigestContext)
    ensures IsAscii(MaterialPrefix(context))
  {
    assert IsAscii(ContextText(context));
  }

  /** Digest material determines the context and, up to sameness of values, the covered document. */
  lemma DigestMaterialInjective(
    nfc: Text -> Text, context: DigestContext, v: Value, other: DigestContext, w: Value)
    requires IsNormalization(nfc) && WellKeyed(v) && WellKeyed(w)
    requires DigestMaterial(nfc, context, v).Digest? && DigestMaterial(nfc, other, w).Digest?
    ensures DigestMaterial(nfc, context, v) == DigestMaterial(nfc, other, w)
            <==> context == other && Same(nfc, CoveredDocument(v).value, CoveredDocument(w).value)
  {
    MaterialParts(nfc, context, v);
    MaterialParts(nfc, other, w);
    var c, d := CoveredDocument(v).value, CoveredDocument(w).value;
    var x, y := CanonicalBytes(nfc, c).value, CanonicalBytes(nfc, d).value;
    assert x == y <==> Same(nfc, c, d) by {
      CanonicalBytesInjective(nfc, c, d);
    }
    if MaterialPrefix(context) + x == MaterialPrefix(other) + y {
      PrefixSplit(context, other, x, y);
    }
  }

  // ---------------------------------------------------------------- digests

  function Hexadecimal(bytes: seq<Byte>): Text {
    if bytes == [] then [] else [HexDigit(bytes[0] / 16), HexDigit(bytes[0] % 16)] + Hexadecimal(bytes[1..])
  }

  lemma {:induction false} HexadecimalInjective(a: seq<Byte>, b: seq<Byte>)
    requires Hexadecimal(a) == Hexadecimal(b)
    ensures a == b
  {
    if a != [] && b != [] {
      var x, y := Hexadecimal(a), Hexadecimal(b);
      assert x[0] == y[0] && x[1] == y[1];
      assert a[0] == b[0];
      assert x[2..] == Hexadecimal(a[1..]) && y[2..] == Hexadecimal(b[1..]);
      HexadecimalInjective(a[1..], b[1..]);
      assert a == [a[0]] + a[1..] && b == [b[0]] + b[1..];
    }
  }

  function DigestDocument(nfc: Text -> Text, sha: seq<Byte> -> seq<Byte>, context: DigestContext, v: Value)
    : Digested<Text>
  {
    match DigestMaterial(nfc, context, v)
    case DigestRefused(reason) => DigestRefused(reason)
    case CanonicalRefused(refusal) => CanonicalRefused(refusal)
    case Digest(material) => Digest(Hexadecimal(sha(material)))
  }

  /** Where the hash does not collide, a digest identifies its context and covered document. */
  lemma DigestIdentifies(
    nfc: Text -> Text, sha: seq<Byte> -> seq<Byte>, context: DigestContext, v: Value, other: DigestContext, w: Value)
    requires IsNormalization(nfc) && WellKeyed(v) && WellKeyed(w)
    requires DigestMaterial(nfc, context, v).Digest? && DigestMaterial(nfc, other, w).Digest?
    requires var x, y := DigestMaterial(nfc, context, v).value, DigestMaterial(nfc, other, w).value;
      sha(x) == sha(y) ==> x == y
    ensures DigestDocument(nfc, sha, context, v) == DigestDocument(nfc, sha, other, w)
            <==> context == other && Same(nfc, CoveredDocument(v).value, CoveredDocument(w).value)
  {
    DigestMaterialInjective(nfc, context, v, other, w);
    var x, y := DigestMaterial(nfc, context, v).value, DigestMaterial(nfc, other, w).value;
    if Hexadecimal(sha(x)) == Hexadecimal(sha(y)) {
      HexadecimalInjective(sha(x), sha(y));
    }
  }

  /** 64 lower-case hexadecimal digits. */
  predicate IsDigestText(t: Text) {
    |t| == 64 && forall i :: 0 <= i < 64 ==> IsDigit(t[i]) || 0x61 <= t[i] <= 0x66
  }

  lemma {:induction false} HexadecimalForm(bytes: seq<Byte>)
    ensures |Hexadecimal(bytes)| == 2 * |bytes|
    ensures forall i :: 0 <= i < 2 * |bytes| ==>
      IsDigit(Hexadecimal(bytes)[i]) || 0x61 <= Hexadecimal(bytes)[i] <= 0x66
  {
    if bytes != [] {
      HexadecimalForm(bytes[1..]);
    }
  }

  datatype DigestMatch = Compared(matches: bool) | DigestForm

  /** Bitwise exclusive or. */
  function Xor(x: nat, y: nat): nat {
    if x == 0 && y == 0 then 0 else (if x % 2 == y % 2 then 0 else 1) + 2 * Xor(x / 2, y / 2)
  }

  /** Bitwise or. */
  function Or(x: nat, y: nat): nat {
    if x == 0 && y == 0 then 0 else (if x % 2 == 0 && y % 2 == 0 then 0 else 1) + 2 * Or(x / 2, y / 2)
  }

  lemma {:induction false} XorZero(x: nat, y: nat)
    ensures Xor(x, y) == 0 <==> x == y
  {
    if x != 0 || y != 0 {
      XorZero(x / 2, y / 2);
    }
  }

  lemma {:induction false} OrZero(x: nat, y: nat)
    ensures Or(x, y) == 0 <==> x == 0 && y == 0
  {
    if x != 0 || y != 0 {
      OrZero(x / 2, y / 2);
    }
  }

  lemma OneMoreEqual(a: Text, b: Text, k: nat)
    requires k < |a| && k < |b|
    ensures a[..k + 1] == b[..k + 1] <==> a[..k] == b[..k] && a[k] == b[k]
  {
    assert a[..k + 1] == a[..k] + [a[k]];
    assert b[..k + 1] == b[..k] + [b[k]];
  }

  /** Branch-free comparison over all 64 positions. */
  method DigestMatches(expected: Text, actual: Text) returns (r: DigestMatch)
    ensures r == if IsDigestText(expected) && IsDigestText(actual) then Compared(expected == actual) else DigestForm
  {
    if !IsDigestText(expected) || !IsDigestText(actual) {
      return DigestForm;
    }
    var same := SameDigits(expected, actual);
    return Compared(same);
  }

  /** The accumulating loop. */
  method SameDigits(expected: Text, actual: Text) returns (same: bool)
    requires |expected| == 64 && |actual| == 64
    ensures same == (expected == actual)
  {
    var difference: nat := 0;
    for index := 0 to 64
      invariant difference == 0 <==> expected[..index] == actual[..index]
    {
      XorZero(expected[index], actual[index]);
      OrZero(difference, Xor(expected[index], actual[index]));
      OneMoreEqual(expected, actual, index);
      difference := Or(difference, Xor(expected[index], actual[index]));
    }
    assert expected[..64] == expected && actual[..64] == actual;
    return difference == 0;
  }
}
