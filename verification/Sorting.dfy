/**
 Sorting records by a string key, as `sort_by` with `str::cmp` does: stable, in the lexicographic
 order of the characters (which is that of the UTF-8 bytes).
 */
module Sorting {

  predicate Less(a: string, b: string) {
    b != [] && (a == [] || a[0] < b[0] || (a[0] == b[0] && Less(a[1..], b[1..])))
  }

  lemma {:induction false} LessTotal(a: string, b: string)
    ensures Less(a, b) || a == b || Less(b, a)
  {
    if a != [] && b != [] && a[0] == b[0] {
      LessTotal(a[1..], b[1..]);
      assert a == [a[0]] + a[1..] && b == [b[0]] + b[1..];
    }
  }

  lemma {:induction false} LessTransitive(a: string, b: string, c: string)
    requires Less(a, b) && Less(b, c)
    ensures Less(a, c)
  {
    if a != [] && a[0] == b[0] == c[0] {
      LessTransitive(a[1..], b[1..], c[1..]);
    }
  }

  lemma {:induction false} LessIrreflexive(a: string)
    ensures !Less(a, a)
  {
    if a != [] {
      LessIrreflexive(a[1..]);
    }
  }

  lemma LessAsymmetric(a: string, b: string)
    ensures !(Less(a, b) && Less(b, a))
  {
    if Less(a, b) && Less(b, a) {
      LessTransitive(a, b, a);
      LessIrreflexive(a);
    }
  }

  /** Sorted, with no two keys alike. */
  ghost predicate StrictlySorted<T(!new)>(s: seq<T>, key: T -> string) {
    forall i: nat, j: nat | i < j < |s| :: Less(key(s[i]), key(s[j]))
  }

  /** Sorted, with equal keys allowed. */
  ghost predicate Ascending<T(!new)>(s: seq<T>, key: T -> string) {
    forall i: nat, j: nat | i < j < |s| :: !Less(key(s[j]), key(s[i]))
  }

  ghost predicate DistinctKeys<T(!new)>(s: seq<T>, key: T -> string) {
    forall i: nat, j: nat | i < j < |s| :: key(s[i]) != key(s[j])
  }

  /** `x` behind everything that is not after it. */
  function Place<T>(x: T, s: seq<T>, key: T -> string): (r: seq<T>)
    ensures multiset(r) == multiset(s) + multiset{x}
    decreases |s|
  {
    if s == [] || !Less(key(x), key(s[|s| - 1])) then s + [x]
    else
      assert s == s[..|s| - 1] + [s[|s| - 1]];
      Place(x, s[..|s| - 1], key) + [s[|s| - 1]]
  }

  function Sort<T>(s: seq<T>, key: T -> string): (r: seq<T>)
    ensures multiset(r) == multiset(s)
    decreases |s|
  {
    if s == [] then []
    else
      assert s == s[..|s| - 1] + [s[|s| - 1]];
      Place(s[|s| - 1], Sort(s[..|s| - 1], key), key)
  }

  lemma SameElements<T>(a: seq<T>, b: seq<T>)
    requires multiset(a) == multiset(b)
    ensures |a| == |b| && forall x :: x in a <==> x in b
  {
    assert |a| == |multiset(a)| && |b| == |multiset(b)|;
    forall x ensures x in a <==> x in b {
      assert x in a <==> x in multiset(a);
      assert x in b <==> x in multiset(b);
    }
  }

  lemma {:induction false} PlaceSorts<T(!new)>(x: T, s: seq<T>, key: T -> string)
    requires StrictlySorted(s, key) && forall y | y in s :: key(y) != key(x)
    ensures StrictlySorted(Place(x, s, key), key)
    decreases |s|
  {
    if s != [] {
      var init, z := s[..|s| - 1], s[|s| - 1];
      LessTotal(key(x), key(z));
      if Less(key(x), key(z)) {
        PlaceSorts(x, init, key);
        var r := Place(x, init, key);
        assert s == init + [z] && z in s;
        forall i: nat | i < |r| ensures Less(key(r[i]), key(z)) {
          assert r[i] in multiset(r);
          assert r[i] == x || r[i] in init;
        }
      } else {
        forall i: nat | i < |s| ensures Less(key(s[i]), key(x)) {
          assert z in s;
          if i < |s| - 1 {
            LessTransitive(key(s[i]), key(z), key(x));
          }
        }
      }
    }
  }

  lemma NotLessTransitive(a: string, b: string, c: string)
    requires !Less(b, a) && !Less(c, b)
    ensures !Less(c, a)
  {
    LessTotal(a, b);
    LessTotal(b, c);
    if Less(c, a) && Less(a, b) {
      LessTransitive(c, a, b);
    }
  }

  lemma {:induction false} PlaceAscends<T(!new)>(x: T, s: seq<T>, key: T -> string)
    requires Ascending(s, key)
    ensures Ascending(Place(x, s, key), key)
    decreases |s|
  {
    if s != [] {
      var init, z := s[..|s| - 1], s[|s| - 1];
      if Less(key(x), key(z)) {
        PlaceAscends(x, init, key);
        var r := Place(x, init, key);
        LessAsymmetric(key(x), key(z));
        forall i: nat | i < |r| ensures !Less(key(z), key(r[i])) {
          assert r[i] in multiset(r);
          assert r[i] == x || r[i] in init;
        }
      } else {
        forall i: nat | i < |s| ensures !Less(key(x), key(s[i])) {
          if i < |s| - 1 {
            NotLessTransitive(key(s[i]), key(z), key(x));
          }
        }
      }
    }
  }

  /** Sorting puts any records in ascending order. */
  lemma {:induction false} SortAscends<T(!new)>(s: seq<T>, key: T -> string)
    ensures Ascending(Sort(s, key), key)
    decreases |s|
  {
    if s != [] {
      SortAscends(s[..|s| - 1], key);
      PlaceAscends(s[|s| - 1], Sort(s[..|s| - 1], key), key);
    }
  }

  /** Sorting records with distinct keys puts them in strictly ascending order. */
  lemma {:induction false} SortSorts<T(!new)>(s: seq<T>, key: T -> string)
    requires DistinctKeys(s, key)
    ensures StrictlySorted(Sort(s, key), key)
    decreases |s|
  {
    if s != [] {
      var init, x := s[..|s| - 1], s[|s| - 1];
      SortSorts(init, key);
      var r := Sort(init, key);
      forall y | y in r ensures key(y) != key(x) {
        SameElements(r, init);
        var i: nat :| i < |init| && init[i] == y;
        assert s[i] == y;
      }
      PlaceSorts(x, r, key);
    }
  }

  /** A strictly sorted sequence is determined by its elements. */
  lemma {:induction false} SortedUnique<T(!new)>(a: seq<T>, b: seq<T>, key: T -> string)
    requires StrictlySorted(a, key) && StrictlySorted(b, key)
    requires forall x :: x in a <==> x in b
    ensures a == b
    decreases |a|
  {
    if b != [] {
      assert b[0] in b;
      assert b[0] in a;
    }
    if a != [] {
      assert a[0] in a;
      assert a[0] in b;
      SameHead(a, b, key);
      TailElements(a, key);
      TailElements(b, key);
      SortedUnique(a[1..], b[1..], key);
      assert a == [a[0]] + a[1..] && b == [b[0]] + b[1..];
    }
  }

  lemma SameHead<T(!new)>(a: seq<T>, b: seq<T>, key: T -> string)
    requires StrictlySorted(a, key) && StrictlySorted(b, key) && a != [] && b != []
    requires a[0] in b && b[0] in a
    ensures a[0] == b[0]
  {
    var i: nat :| i < |b| && b[i] == a[0];
    var j: nat :| j < |a| && a[j] == b[0];
    if 0 < i && 0 < j {
      LessAsymmetric(key(a[0]), key(b[0]));
    }
  }

  lemma TailElements<T(!new)>(a: seq<T>, key: T -> string)
    requires StrictlySorted(a, key) && a != []
    ensures StrictlySorted(a[1..], key)
    ensures forall x :: x in a[1..] <==> x in a && x != a[0]
  {
    forall x ensures x in a[1..] <==> x in a && x != a[0] {
      if x in a[1..] {
        var i: nat :| i < |a[1..]| && a[1..][i] == x;
        assert a[i + 1] == x;
        LessIrreflexive(key(x));
      }
    }
  }

  /** What is sorted does not depend on the order it came in. */
  lemma SortIgnoresOrder<T(!new)>(s: seq<T>, t: seq<T>, key: T -> string)
    requires DistinctKeys(s, key) && DistinctKeys(t, key)
    requires forall x :: x in s <==> x in t
    ensures Sort(s, key) == Sort(t, key)
  {
    SortSorts(s, key);
    SortSorts(t, key);
    SameElements(Sort(s, key), s);
    SameElements(Sort(t, key), t);
    SortedUnique(Sort(s, key), Sort(t, key), key);
  }
}
