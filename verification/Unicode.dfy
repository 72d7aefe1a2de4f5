/** JavaScript strings as sequences of UTF-16 code units, and the UTF-8 bytes `TextEncoder` gives them. */
module Unicode {

  type Unit = n: int | 0 <= n < 0x1_0000
  type Text = seq<Unit>
  type Byte = n: int | 0 <= n < 0x100

  predicate IsHigh(u: int) {
    0xD800 <= u < 0xDC00
  }

  predicate IsLow(u: int) {
    0xDC00 <= u < 0xE000
  }

  predicate IsAscii(t: Text) {
    forall i :: 0 <= i < |t| ==> t[i] < 0x80
  }

  /** Every surrogate is one half of a pair, so the text denotes a sequence of Unicode scalar values. */
  predicate Scalar(t: Text)
    decreases |t|
  {
    t == [] ||
    (if IsHigh(t[0]) then |t| > 1 && IsLow(t[1]) && Scalar(t[2..]) else !IsLow(t[0]) && Scalar(t[1..]))
  }

  /** The number of code units in the first character of `t`. */
  function Width(t: Text): (n: nat)
    requires t != []
    ensures 1 <= n <= |t|
  {
    if IsHigh(t[0]) && |t| > 1 && IsLow(t[1]) then 2 else 1
  }

  /** The code point of the first character; an unpaired surrogate becomes U+FFFD. */
  function FirstPoint(t: Text): (cp: int)
    requires t != []
    ensures 0 <= cp < 0x11_0000 && !(0xD800 <= cp < 0xE000)
  {
    if Width(t) == 2 then 0x1_0000 + (t[0] as int - 0xD800) * 0x400 + (t[1] as int - 0xDC00)
    else if 0xD800 <= t[0] < 0xE000 then 0xFFFD
    else t[0]
  }

  function EncodePoint(cp: int): seq<Byte>
    requires 0 <= cp < 0x11_0000
  {
    var q := cp / 0x40;
    var p := q / 0x40;
    if cp < 0x80 then [cp]
    else if cp < 0x800 then [0xC0 + q, 0x80 + cp % 0x40]
    else if cp < 0x1_0000 then [0xE0 + p, 0x80 + q % 0x40, 0x80 + cp % 0x40]
    else [0xF0 + p / 0x40, 0x80 + p % 0x40, 0x80 + q % 0x40, 0x80 + cp % 0x40]
  }

  function Utf8(t: Text): seq<Byte>
    decreases |t|
  {
    if t == [] then [] else EncodePoint(FirstPoint(t)) + Utf8(t[Width(t)..])
  }

  /** UTF-8 is a prefix code: the first character and the remaining bytes are recoverable. */
  lemma EncodePointPrefix(x: int, y: int, r: seq<Byte>, q: seq<Byte>)
    requires 0 <= x < 0x11_0000 && 0 <= y < 0x11_0000
    requires EncodePoint(x) + r == EncodePoint(y) + q
    ensures x == y && r == q
  {
    var a, b := EncodePoint(x), EncodePoint(y);
    var s := a + r;
    assert s[0] == a[0] == b[0];
    assert |a| == |b|;
    assert forall i :: 0 <= i < |a| ==> a[i] == s[i] == b[i];
    assert a == b;
    assert r == s[|a|..] == q;
    PointOfBytes(x);
    PointOfBytes(y);
  }

  function PointOf(b: seq<int>): int {
    if |b| == 1 then b[0]
    else if |b| == 2 then (b[0] - 0xC0) * 0x40 + (b[1] - 0x80)
    else if |b| == 3 then ((b[0] - 0xE0) * 0x40 + (b[1] - 0x80)) * 0x40 + (b[2] - 0x80)
    else if |b| == 4 then
      (((b[0] - 0xF0) * 0x40 + (b[1] - 0x80)) * 0x40 + (b[2] - 0x80)) * 0x40 + (b[3] - 0x80)
    else -1
  }

  lemma PointOfBytes(x: int)
    requires 0 <= x < 0x11_0000
    ensures PointOf(EncodePoint(x)) == x
  {
    var q := x / 0x40;
    var p := q / 0x40;
    assert x == q * 0x40 + x % 0x40;
    assert q == p * 0x40 + q % 0x40;
    assert p == p / 0x40 * 0x40 + p % 0x40;
  }

  lemma FirstCharacter(a: Text, b: Text)
    requires a != [] && b != [] && Scalar(a) && Scalar(b) && FirstPoint(a) == FirstPoint(b)
    ensures Width(a) == Width(b) && a[..Width(a)] == b[..Width(b)]
  {
  }

  lemma SplitAt(a: Text, b: Text, n: nat)
    requires n <= |a| && n <= |b| && a[..n] == b[..n] && a[n..] == b[n..]
    ensures a == b
  {
    assert a == a[..n] + a[n..];
    assert b == b[..n] + b[n..];
  }

  /** On scalar strings the UTF-8 encoding loses nothing. */
  lemma {:induction false} Utf8Injective(a: Text, b: Text)
    requires Scalar(a) && Scalar(b)
    requires Utf8(a) == Utf8(b)
    ensures a == b
    decreases |a|
  {
    if a != [] && b != [] {
      EncodePointPrefix(FirstPoint(a), FirstPoint(b), Utf8(a[Width(a)..]), Utf8(b[Width(b)..]));
      FirstCharacter(a, b);
      Utf8Injective(a[Width(a)..], b[Width(b)..]);
      SplitAt(a, b, Width(a));
    }
  }

  lemma {:induction false} ScalarConcat(a: Text, b: Text)
    requires Scalar(a) && Scalar(b)
    ensures Scalar(a + b)
    decreases |a|
  {
    if a == [] {
      assert a + b == b;
    } else if IsHigh(a[0]) {
      ScalarConcat(a[2..], b);
      assert (a + b)[2..] == a[2..] + b;
    } else {
      ScalarConcat(a[1..], b);
      assert (a + b)[1..] == a[1..] + b;
    }
  }

  lemma {:induction false} AsciiScalar(t: Text)
    requires IsAscii(t)
    ensures Scalar(t)
    ensures |Utf8(t)| == |t|
  {
    if t != [] {
      AsciiScalar(t[1..]);
    }
  }
}
