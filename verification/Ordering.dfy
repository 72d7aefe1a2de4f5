/** Lexicographic keys and the stable sort that the dashboard relies on: object members are sorted by
    UTF-16 code units, fleet members and sectors by UTF-8 bytes, timelines by audit ordinal. All three
    orders are instances of one lexicographic order over integer sequences. */
module Ordering {

  type Key = seq<int>

  /** The key of a literal: its code points. */
  function Points(text: string): Key {
    seq(|text|, i requires 0 <= i < |text| => text[i] as int)
  }

  predicate Less(a: Key, b: Key)
    decreases |a|
  {
    b != [] && (a == [] || a[0] < b[0] || (a[0] == b[0] && Less(a[1..], b[1..])))
  }

  lemma {:induction false} LessIrreflexive(a: Key)
    ensures !Less(a, a)
    decreases |a|
  {
    if a != [] {
      LessIrreflexive(a[1..]);
    }
  }

  lemma {:induction false} LessTransitive(a: Key, b: Key, c: Key)
    requires Less(a, b) && Less(b, c)
    ensures Less(a, c)
    decreases |a|
  {
    if a != [] && a[0] == b[0] == c[0] {
      LessTransitive(a[1..], b[1..], c[1..]);
    }
  }

  lemma {:induction false} LessTotal(a: Key, b: Key)
    ensures a == b || Less(a, b) || Less(b, a)
    decreases |a|
  {
    if a != [] && b != [] && a[0] == b[0] {
      LessTotal(a[1..], b[1..]);
      if a[1..] == b[1..] {
        assert a == [a[0]] + a[1..] == b;
      }
    }
  }

  lemma LessAsymmetric(a: Key, b: Key)
    requires Less(a, b)
    ensures !Less(b, a) && a != b
  {
    LessIrreflexive(a);
    if Less(b, a) {
      LessTransitive(a, b, a);
    }
  }

  /** Strictly increasing keys, hence also pairwise distinct ones. */
  predicate Increasing<T>(key: T -> Key, s: seq<T>) {
    forall i, j :: 0 <= i < j < |s| ==> Less(key(s[i]), key(s[j]))
  }

  ghost predicate NonDecreasing<T>(key: T -> Key, s: seq<T>) {
    forall i, j :: 0 <= i < j < |s| ==> !Less(key(s[j]), key(s[i]))
  }

  ghost predicate DistinctKeys<T>(key: T -> Key, s: seq<T>) {
    forall i, j :: 0 <= i < j < |s| ==> key(s[i]) != key(s[j])
  }

  /** Places `x` before the first element that is not smaller. */
  function Insert<T>(key: T -> Key, x: T, s: seq<T>): (r: seq<T>)
    ensures |r| == |s| + 1
    ensures multiset(r) == multiset{x} + multiset(s)
  {
    if s == [] then [x]
    else if !Less(key(s[0]), key(x)) then [x] + s
    else
      assert s == [s[0]] + s[1..];
      [s[0]] + Insert(key, x, s[1..])
  }

  /** A stable sort. */
  function Sort<T>(key: T -> Key, s: seq<T>): (r: seq<T>)
    ensures |r| == |s|
    ensures multiset(r) == multiset(s)
  {
    if s == [] then []
    else
      assert s == [s[0]] + s[1..];
      Insert(key, s[0], Sort(key, s[1..]))
  }

  lemma SortMember<T>(key: T -> Key, s: seq<T>, x: T)
    ensures x in Sort(key, s) <==> x in s
  {
    assert x in multiset(Sort(key, s)) <==> x in multiset(s);
  }

  lemma InsertMember<T>(key: T -> Key, x: T, s: seq<T>, y: T)
    ensures y in Insert(key, x, s) <==> y == x || y in s
  {
    assert y in multiset(Insert(key, x, s)) <==> y in multiset{x} + multiset(s);
  }

  lemma {:induction false} InsertNonDecreasing<T>(key: T -> Key, x: T, s: seq<T>)
    requires NonDecreasing(key, s)
    ensures NonDecreasing(key, Insert(key, x, s))
  {
    if s == [] {
    } else if !Less(key(s[0]), key(x)) {
      var r := [x] + s;
      forall i, j | 0 <= i < j < |r|
        ensures !Less(key(r[j]), key(r[i]))
      {
        if i == 0 && Less(key(s[j - 1]), key(x)) {
          LessTotal(key(x), key(s[0]));
          if key(x) != key(s[0]) {
            LessTransitive(key(s[j - 1]), key(x), key(s[0]));
          }
        }
      }
    } else {
      InsertNonDecreasing(key, x, s[1..]);
      var t := Insert(key, x, s[1..]);
      var r := [s[0]] + t;
      forall i, j | 0 <= i < j < |r|
        ensures !Less(key(r[j]), key(r[i]))
      {
        if i == 0 {
          assert r[j] == t[j - 1] && t[j - 1] in t;
          InsertMember(key, x, s[1..], r[j]);
          if r[j] == x {
            LessAsymmetric(key(s[0]), key(x));
          } else {
            assert t[j - 1] in s[1..];
            var k :| 0 <= k < |s[1..]| && s[1..][k] == t[j - 1];
            assert s[k + 1] == r[j];
          }
        }
      }
    }
  }

  lemma {:induction false} SortNonDecreasing<T>(key: T -> Key, s: seq<T>)
    ensures NonDecreasing(key, Sort(key, s))
  {
    if s != [] {
      SortNonDecreasing(key, s[1..]);
      InsertNonDecreasing(key, s[0], Sort(key, s[1..]));
    }
  }

  /** Sorting changes nothing that is already in order: the re-sort of a canonical sequence is the identity. */
  lemma {:induction false} SortIdentity<T>(key: T -> Key, s: seq<T>)
    requires NonDecreasing(key, s)
    ensures Sort(key, s) == s
  {
    if s != [] {
      assert NonDecreasing(key, s[1..]);
      SortIdentity(key, s[1..]);
      if |s| > 1 {
        assert !Less(key(s[1]), key(s[0]));
      }
      assert s == [s[0]] + s[1..];
    }
  }

  lemma IncreasingIsNonDecreasing<T>(key: T -> Key, s: seq<T>)
    requires Increasing(key, s)
    ensures NonDecreasing(key, s) && DistinctKeys(key, s)
  {
    forall i, j | 0 <= i < j < |s|
      ensures !Less(key(s[j]), key(s[i])) && key(s[i]) != key(s[j])
    {
      LessAsymmetric(key(s[i]), key(s[j]));
    }
  }

  lemma {:induction false} InsertIncreasing<T>(key: T -> Key, x: T, s: seq<T>)
    requires Increasing(key, s)
    requires forall i :: 0 <= i < |s| ==> key(s[i]) != key(x)
    ensures Increasing(key, Insert(key, x, s))
  {
    if s != [] {
      LessTotal(key(x), key(s[0]));
      if Less(key(x), key(s[0])) {
        LessAsymmetric(key(x), key(s[0]));
        forall j | 1 <= j < |s|
          ensures Less(key(x), key(s[j]))
        {
          LessTransitive(key(x), key(s[0]), key(s[j]));
        }
      } else {
        var t := s[1..];
        InsertIncreasing(key, x, t);
        var r := Insert(key, x, t);
        forall j | 0 <= j < |r|
          ensures Less(key(s[0]), key(r[j]))
        {
          InsertMember(key, x, t, r[j]);
          if r[j] in t {
            var k :| 0 <= k < |t| && t[k] == r[j];
            assert s[k + 1] == r[j];
          }
        }
      }
    }
  }

  /** Sorting elements whose keys differ gives strictly increasing keys. */
  lemma {:induction false} DistinctSorted<T>(key: T -> Key, s: seq<T>)
    requires DistinctKeys(key, s)
    ensures Increasing(key, Sort(key, s))
  {
    if s != [] {
      var t := s[1..];
      assert forall j :: 0 <= j < |t| ==> t[j] == s[j + 1];
      DistinctSorted(key, t);
      var r := Sort(key, t);
      forall i | 0 <= i < |r|
        ensures key(r[i]) != key(s[0])
      {
        SortMember(key, t, r[i]);
      }
      InsertIncreasing(key, s[0], r);
    }
  }

  /** Two strictly increasing sequences with the same elements are the same sequence. */
  lemma {:induction false} IncreasingUnique<T>(key: T -> Key, s: seq<T>, t: seq<T>)
    requires Increasing(key, s) && Increasing(key, t)
    requires forall x :: x in s <==> x in t
    ensures s == t
    decreases |s|
  {
    assert |t| > 0 ==> t[0] in t;
    if s == [] {
    } else {
      assert s[0] in t && t[0] in s;
      var i :| 0 <= i < |t| && t[i] == s[0];
      var j :| 0 <= j < |s| && s[j] == t[0];
      if i > 0 && j > 0 {
        LessAsymmetric(key(t[0]), key(t[i]));
      }
      assert s[0] == t[0];
      forall x
        ensures x in s[1..] <==> x in t[1..]
      {
        LessIrreflexive(key(s[0]));
        if x in s[1..] {
          var k :| 0 <= k < |s[1..]| && s[1..][k] == x;
          assert s[k + 1] == x && x in s && Less(key(s[0]), key(x));
          assert x in t && x != t[0];
        }
        if x in t[1..] {
          var k :| 0 <= k < |t[1..]| && t[1..][k] == x;
          assert t[k + 1] == x && x in t && Less(key(t[0]), key(x));
          assert x in s && x != s[0];
        }
      }
      IncreasingUnique(key, s[1..], t[1..]);
      assert s == [s[0]] + s[1..] && t == [t[0]] + t[1..];
    }
  }

  // ---------------------------------------------------------------- stability

  /** The first element with a given key. */
  ghost function FirstWith<T>(key: T -> Key, s: seq<T>, k: Key): (r: FirstFound<T>)
    ensures r.Found? ==> r.element in s && key(r.element) == k
    ensures r.Missing? ==> forall i :: 0 <= i < |s| ==> key(s[i]) != k
  {
    if s == [] then Missing else if key(s[0]) == k then Found(s[0]) else FirstWith(key, s[1..], k)
  }

  datatype FirstFound<+T> = Missing | Found(element: T)

  lemma {:induction false} FirstWithInsert<T>(key: T -> Key, x: T, s: seq<T>, k: Key)
    ensures FirstWith(key, Insert(key, x, s), k) == if key(x) == k then Found(x) else FirstWith(key, s, k)
  {
    if s != [] && Less(key(s[0]), key(x)) {
      FirstWithInsert(key, x, s[1..], k);
      LessAsymmetric(key(s[0]), key(x));
      var t := Insert(key, x, s[1..]);
      assert ([s[0]] + t)[1..] == t;
    } else {
      assert ([x] + s)[1..] == s;
    }
  }

  /** The sort is stable: among equal keys the earliest element stays first. */
  lemma {:induction false} FirstWithSort<T>(key: T -> Key, s: seq<T>, k: Key)
    ensures FirstWith(key, Sort(key, s), k) == FirstWith(key, s, k)
  {
    if s != [] {
      FirstWithSort(key, s[1..], k);
      FirstWithInsert(key, s[0], Sort(key, s[1..]), k);
    }
  }

  lemma {:induction false} FirstWithConcat<T>(key: T -> Key, s: seq<T>, t: seq<T>, k: Key)
    ensures FirstWith(key, s + t, k)
            == if FirstWith(key, s, k).Found? then FirstWith(key, s, k) else FirstWith(key, t, k)
  {
    if s == [] {
      assert s + t == t;
    } else {
      FirstWithConcat(key, s[1..], t, k);
      assert (s + t)[1..] == s[1..] + t;
    }
  }

  lemma {:induction false} FirstWithIncreasing<T>(key: T -> Key, s: seq<T>, x: T)
    requires Increasing(key, s)
    ensures x in s <==> FirstWith(key, s, key(x)) == Found(x)
  {
    if s != [] {
      FirstWithIncreasing(key, s[1..], x);
      assert s == [s[0]] + s[1..];
      if x in s[1..] {
        var i :| 0 <= i < |s[1..]| && s[1..][i] == x;
        assert Less(key(s[0]), key(s[i + 1]));
        LessAsymmetric(key(s[0]), key(x));
      }
    }
  }

  /** An increasing sequence is determined by what it holds under each key. */
  lemma FirstWithUnique<T>(key: T -> Key, s: seq<T>, t: seq<T>)
    requires Increasing(key, s) && Increasing(key, t)
    requires forall k :: FirstWith(key, s, k) == FirstWith(key, t, k)
    ensures s == t
  {
    forall x
      ensures x in s <==> x in t
    {
      FirstWithIncreasing(key, s, x);
      FirstWithIncreasing(key, t, x);
    }
    IncreasingUnique(key, s, t);
  }
}
