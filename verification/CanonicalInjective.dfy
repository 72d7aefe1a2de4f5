/** Equal canonical bytes mean the same value, and equal digest material the same covered document. */
module CanonicalInjective {
  import opened Unicode
  import opened Ordering
  import opened Canonical
  import opened CanonicalRoundTrip

  // ---------------------------------------------------------------- the same value

  /** The same value up to the order of members, the normal form of strings and the sign of zero. */
  ghost predicate Same(nfc: Text -> Text, v: Value, w: Value) {
    match v
    case Num(num) => w.Num? && CanonicalNumber(num) == CanonicalNumber(w.num)
    case Str(s) => w.Str? && nfc(s) == nfc(w.s)
    case Arr(items) =>
      && w.Arr? && |items| == |w.items|
      && forall i :: 0 <= i < |items| ==> Same(nfc, items[i], w.items[i])
    case Obj(members) =>
      && w.Obj?
      && SameKeys(members, w.members)
      && forall i, j :: 0 <= i < |members| && 0 <= j < |w.members| && members[i].key == w.members[j].key
           ==> Same(nfc, members[i].value, w.members[j].value)
    case _ => v == w
  }

  ghost predicate HasKey(s: seq<Member>, key: Text) {
    exists i :: 0 <= i < |s| && s[i].key == key
  }

  ghost predicate SameKeys(s: seq<Member>, t: seq<Member>) {
    forall key :: HasKey(s, key) <==> HasKey(t, key)
  }

  lemma {:induction false} CanonItemsAt(nfc: Text -> Text, items: seq<Value>)
    ensures |CanonItems(nfc, items)| == |items|
    ensures forall i :: 0 <= i < |items| ==> CanonItems(nfc, items)[i] == Canon(nfc, items[i])
  {
    if items != [] {
      CanonItemsAt(nfc, items[1..]);
    }
  }

  lemma CanonDistinct(nfc: Text -> Text, s: seq<Member>)
    requires DistinctKeys(KeyOf, s)
    ensures DistinctKeys(KeyOf, CanonMembers(nfc, s))
  {
    CanonKeys(nfc, s);
    var c := CanonMembers(nfc, s);
    forall i, j | 0 <= i < j < |c|
      ensures KeyOf(c[i]) != KeyOf(c[j])
    {
      assert KeyOf(s[i]) != KeyOf(s[j]);
    }
  }

  ghost predicate PairUp(nfc: Text -> Text, s: seq<Member>, t: seq<Member>) {
    && SameKeys(s, t)
    && forall i, j :: 0 <= i < |s| && 0 <= j < |t| && s[i].key == t[j].key
         ==> Canon(nfc, s[i].value) == Canon(nfc, t[j].value)
  }

  lemma SortedCanonPairs(nfc: Text -> Text, s: seq<Member>, t: seq<Member>)
    requires DistinctKeys(KeyOf, t)
    requires Sorted(CanonMembers(nfc, s)) == Sorted(CanonMembers(nfc, t))
    ensures PairUp(nfc, s, t)
  {
    forall key
      ensures HasKey(s, key) <==> HasKey(t, key)
    {
      if HasKey(s, key) {
        var i :| 0 <= i < |s| && s[i].key == key;
        var j := CounterpartIn(nfc, s, t, i);
      }
      if HasKey(t, key) {
        var j :| 0 <= j < |t| && t[j].key == key;
        var i := CounterpartIn(nfc, t, s, j);
      }
    }
    forall i, j | 0 <= i < |s| && 0 <= j < |t| && s[i].key == t[j].key
      ensures Canon(nfc, s[i].value) == Canon(nfc, t[j].value)
    {
      var k := CounterpartIn(nfc, s, t, i);
      assert KeyOf(t[k]) == KeyOf(t[j]);
    }
  }

  lemma PairedMember(nfc: Text -> Text, s: seq<Member>, t: seq<Member>, m: Member)
    requires PairUp(nfc, s, t) && m in CanonMembers(nfc, s)
    ensures m in CanonMembers(nfc, t)
  {
    CanonKeys(nfc, s);
    CanonKeys(nfc, t);
    var c, d := CanonMembers(nfc, s), CanonMembers(nfc, t);
    var i :| 0 <= i < |c| && c[i] == m;
    assert HasKey(s, s[i].key);
    var j :| 0 <= j < |t| && t[j].key == s[i].key;
    assert d[j] == m;
  }

  lemma PairsSortedCanon(nfc: Text -> Text, s: seq<Member>, t: seq<Member>)
    requires DistinctKeys(KeyOf, s) && DistinctKeys(KeyOf, t) && PairUp(nfc, s, t)
    ensures Sorted(CanonMembers(nfc, s)) == Sorted(CanonMembers(nfc, t))
  {
    var c, d := CanonMembers(nfc, s), CanonMembers(nfc, t);
    CanonDistinct(nfc, s);
    CanonDistinct(nfc, t);
    forall m
      ensures m in Sorted(c) <==> m in Sorted(d)
    {
      SortMember(KeyOf, c, m);
      SortMember(KeyOf, d, m);
      if m in c {
        PairedMember(nfc, s, t, m);
      }
      if m in d {
        PairedMember(nfc, t, s, m);
      }
    }
    DistinctSorted(KeyOf, c);
    DistinctSorted(KeyOf, d);
    IncreasingUnique(KeyOf, Sorted(c), Sorted(d));
  }

  lemma CounterpartIn(nfc: Text -> Text, s: seq<Member>, t: seq<Member>, i: nat) returns (j: nat)
    requires i < |s| && Sorted(CanonMembers(nfc, s)) == Sorted(CanonMembers(nfc, t))
    ensures j < |t| && t[j].key == s[i].key && Canon(nfc, t[j].value) == Canon(nfc, s[i].value)
  {
    var c, d := CanonMembers(nfc, s), CanonMembers(nfc, t);
    CanonKeys(nfc, s);
    CanonKeys(nfc, t);
    SortMember(KeyOf, c, c[i]);
    SortMember(KeyOf, d, c[i]);
    j :| 0 <= j < |d| && d[j] == c[i];
  }

  /** Canonical forms agree exactly for values that are the same. */
  lemma {:induction false} SameCanon(nfc: Text -> Text, v: Value, w: Value)
    requires WellKeyed(v) && WellKeyed(w)
    ensures Canon(nfc, v) == Canon(nfc, w) <==> Same(nfc, v, w)
    decreases v
  {
    if v.Arr? && w.Arr? {
      CanonItemsAt(nfc, v.items);
      CanonItemsAt(nfc, w.items);
      forall i | 0 <= i < |v.items| && i < |w.items|
        ensures Canon(nfc, v.items[i]) == Canon(nfc, w.items[i]) <==> Same(nfc, v.items[i], w.items[i])
      {
        SameCanon(nfc, v.items[i], w.items[i]);
      }
      var a, b := CanonItems(nfc, v.items), CanonItems(nfc, w.items);
      assert a == b <==> |a| == |b| && forall i :: 0 <= i < |a| ==> a[i] == b[i];
    } else if v.Obj? && w.Obj? {
      var s, t := v.members, w.members;
      forall i, j | 0 <= i < |s| && 0 <= j < |t|
        ensures Canon(nfc, s[i].value) == Canon(nfc, t[j].value) <==> Same(nfc, s[i].value, t[j].value)
      {
        SameCanon(nfc, s[i].value, t[j].value);
      }
      if Sorted(CanonMembers(nfc, s)) == Sorted(CanonMembers(nfc, t)) {
        SortedCanonPairs(nfc, s, t);
      }
      if Same(nfc, v, w) {
        PairsSortedCanon(nfc, s, t);
      }
    }
  }

  /** Accepted values have equal canonical text exactly when they are the same value. */
  lemma EncodeInjective(nfc: Text -> Text, v: Value, w: Value)
    requires IsNormalization(nfc) && WellKeyed(v) && WellKeyed(w)
    requires EncodeValue(nfc, v).Ok? && EncodeValue(nfc, w).Ok?
    ensures EncodeValue(nfc, v) == EncodeValue(nfc, w) <==> Same(nfc, v, w)
  {
    EncodePrintsCanon(nfc, v);
    EncodePrintsCanon(nfc, w);
    SameCanon(nfc, v, w);
    DecodeEncode(nfc, v);
    DecodeEncode(nfc, w);
  }

  // ---------------------------------------------------------------- bytes

  lemma {:induction false} EscapeScalar(t: Text)
    requires Scalar(t)
    ensures Scalar(Escape(t))
    decreases |t|
  {
    if t != [] {
      if IsHigh(t[0]) {
        EscapeScalar(t[2..]);
        EscapePair(t);
        PairScalar(t[0], t[1], Escape(t[2..]));
      } else {
        EscapeScalar(t[1..]);
        EscapeUnitScalar(t[0]);
        ScalarConcat(EscapeUnit(t[0]), Escape(t[1..]));
      }
    }
  }

  lemma EscapeCopies(t: Text)
    requires t != [] && t[0] >= 0xD800
    ensures Escape(t) == [t[0]] + Escape(t[1..])
  {
  }

  lemma EscapePair(t: Text)
    requires |t| > 1 && IsHigh(t[0]) && IsLow(t[1])
    ensures Escape(t) == [t[0], t[1]] + Escape(t[2..])
  {
    var rest, e := t[1..], Escape(t[2..]);
    assert rest[1..] == t[2..] && rest[0] == t[1];
    EscapeCopies(t);
    EscapeCopies(rest);
    assert [t[0]] + ([t[1]] + e) == [t[0], t[1]] + e;
  }

  lemma PairScalar(high: Unit, low: Unit, t: Text)
    requires IsHigh(high) && IsLow(low) && Scalar(t)
    ensures Scalar([high, low] + t)
  {
    assert ([high, low] + t)[2..] == t;
  }

  lemma EscapeUnitScalar(u: Unit)
    requires !IsHigh(u) && !IsLow(u)
    ensures Scalar(EscapeUnit(u))
  {
    var e := EscapeUnit(u);
    if |e| > 1 {
      AsciiScalar(e);
    } else {
      assert e[1..] == [];
    }
  }

  lemma PrintStringScalar(t: Text)
    requires Scalar(t)
    ensures Scalar(PrintString(t))
  {
    EscapeScalar(t);
    AsciiScalar([QUOTE]);
    ScalarConcat([QUOTE], Escape(t));
    ScalarConcat([QUOTE] + Escape(t), [QUOTE]);
  }

  /** A canonical text holds no unpaired surrogate, so encoding it to UTF-8 replaces nothing. */
  lemma {:induction false} PrintScalar(nfc: Text -> Text, v: Value)
    requires IsCanonical(nfc, v)
    ensures Scalar(Print(v))
    decreases v, 1
  {
    match v
    case Null => AsciiScalar(NULL_TEXT);
    case Bool(b) => AsciiScalar(TRUE_TEXT); AsciiScalar(FALSE_TEXT);
    case Num(num) => PrintIntegerScalar(num.n);
    case Str(s) => PrintStringScalar(s);
    case Arr(items) =>
      PrintItemsScalar(nfc, items);
      Enclosed(OPEN_BRACKET, PrintItems(items), CLOSE_BRACKET);
    case Obj(members) =>
      PrintMembersScalar(nfc, members);
      Enclosed(OPEN_BRACE, PrintMembers(members), CLOSE_BRACE);
  }

  lemma PrintIntegerScalar(n: int)
    ensures Scalar(PrintInteger(n))
  {
    PrintIntegerParts(n);
    var t := PrintInteger(n);
    assert t[0] == MINUS ==> forall i :: 1 <= i < |t| ==> t[i] == t[1..][i - 1];
    AsciiScalar(t);
  }

  lemma Enclosed(open: Unit, t: Text, close: Unit)
    requires open < 0x80 && close < 0x80 && Scalar(t)
    ensures Scalar([open] + t + [close])
  {
    AsciiScalar([open]);
    AsciiScalar([close]);
    ScalarConcat([open], t);
    ScalarConcat([open] + t, [close]);
  }

  lemma Separated(a: Text, separator: Unit, b: Text)
    requires Scalar(a) && separator < 0x80 && Scalar(b)
    ensures Scalar(a + [separator] + b)
  {
    AsciiScalar([separator]);
    ScalarConcat(a, [separator]);
    ScalarConcat(a + [separator], b);
  }

  lemma {:induction false} PrintItemsScalar(nfc: Text -> Text, items: seq<Value>)
    requires CanonicalItems(nfc, items)
    ensures Scalar(PrintItems(items))
    decreases items, 0
  {
    if items != [] {
      PrintScalar(nfc, items[0]);
      PrintItemsScalar(nfc, items[1..]);
      Separated(Print(items[0]), COMMA, PrintItems(items[1..]));
    }
  }

  lemma {:induction false} PrintMembersScalar(nfc: Text -> Text, members: seq<Member>)
    requires CanonicalMembers(nfc, members)
    ensures Scalar(PrintMembers(members))
    decreases members, 0
  {
    if members != [] {
      AsciiScalar(members[0].key);
      PrintStringScalar(members[0].key);
      PrintScalar(nfc, members[0].value);
      Separated(PrintString(members[0].key), COLON, Print(members[0].value));
      PrintMembersScalar(nfc, members[1..]);
      Separated(PrintMember(members[0]), COMMA, PrintMembers(members[1..]));
    }
  }

  /** Two accepted values have equal canonical bytes exactly when they are the same value. */
  lemma CanonicalBytesInjective(nfc: Text -> Text, v: Value, w: Value)
    requires IsNormalization(nfc) && WellKeyed(v) && WellKeyed(w)
    requires CanonicalBytes(nfc, v).Ok? && CanonicalBytes(nfc, w).Ok?
    ensures CanonicalBytes(nfc, v) == CanonicalBytes(nfc, w) <==> Same(nfc, v, w)
  {
    EncodePrintsCanon(nfc, v);
    EncodePrintsCanon(nfc, w);
    CanonIsCanonical(nfc, v);
    CanonIsCanonical(nfc, w);
    PrintScalar(nfc, Canon(nfc, v));
    PrintScalar(nfc, Canon(nfc, w));
    if CanonicalBytes(nfc, v) == CanonicalBytes(nfc, w) {
      Utf8Injective(EncodeValue(nfc, v).value, EncodeValue(nfc, w).value);
    }
    EncodeInjective(nfc, v, w);
  }
}
