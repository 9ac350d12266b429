/**
 Sorting as the source uses it. Every `sorted(...)` and `.sort(...)` call of the
 modelled code compares by a key that is a finite sequence of integers (code
 points, UTF-16 code units, or a negated priority in front of code points), so
 one lexicographic order serves them all.
 */
module Ordering {

  /** Strict lexicographic order. */
  predicate Less(a: seq<int>, b: seq<int>) {
    b != [] && (a == [] || a[0] < b[0] || (a[0] == b[0] && Less(a[1..], b[1..])))
  }

  lemma LessIrreflexive(a: seq<int>)
    ensures !Less(a, a)
  {
  }

  lemma LessTransitive(a: seq<int>, b: seq<int>, c: seq<int>)
    requires Less(a, b) && Less(b, c)
    ensures Less(a, c)
  {
  }

  lemma LessTotal(a: seq<int>, b: seq<int>)
    ensures a == b || Less(a, b) || Less(b, a)
  {
    if a != [] && b != [] && a[0] == b[0] {
      LessTotal(a[1..], b[1..]);
      assert a == [a[0]] + a[1..] && b == [b[0]] + b[1..];
    }
  }

  lemma LessAsymmetric(a: seq<int>, b: seq<int>)
    requires Less(a, b)
    ensures !Less(b, a)
  {
    if Less(b, a) {
      LessTransitive(a, b, a);
      LessIrreflexive(a);
    }
  }

  /** No two members of `s` share a key. */
  ghost predicate DistinctKeys<T(!new)>(s: set<T>, key: T -> seq<int>) {
    forall x, y :: x in s && y in s && key(x) == key(y) ==> x == y
  }

  predicate IsFirst<T(==)>(x: T, s: set<T>, key: T -> seq<int>) {
    x in s && forall y :: y in s ==> y == x || Less(key(x), key(y))
  }

  lemma FirstExists<T(!new)>(s: set<T>, key: T -> seq<int>)
    requires s != {} && DistinctKeys(s, key)
    ensures exists x :: IsFirst(x, s, key)
    decreases |s|
  {
    var x :| x in s;
    if s == {x} {
      assert IsFirst(x, s, key);
    } else {
      var rest := s - {x};
      assert s == rest + {x};
      FirstExists(rest, key);
      var m :| IsFirst(m, rest, key);
      LessTotal(key(x), key(m));
      if Less(key(m), key(x)) {
        assert IsFirst(m, s, key);
      } else {
        forall y | y in s && y != x ensures Less(key(x), key(y)) {
          if y != m { LessTransitive(key(x), key(m), key(y)); }
        }
        assert IsFirst(x, s, key);
      }
    }
  }

  lemma FirstUnique<T(!new)>(x: T, y: T, s: set<T>, key: T -> seq<int>)
    requires IsFirst(x, s, key) && IsFirst(y, s, key)
    ensures x == y
  {
    if x != y { LessAsymmetric(key(x), key(y)); }
  }

  ghost predicate StrictlySorted<T>(s: seq<T>, key: T -> seq<int>) {
    forall i, j :: 0 <= i < j < |s| ==> Less(key(s[i]), key(s[j]))
  }

  /** The members of `s` in key order: Python's `sorted` on the keys of a dictionary or set. */
  function SortedSet<T(!new, ==)>(s: set<T>, key: T -> seq<int>): (r: seq<T>)
    requires DistinctKeys(s, key)
    ensures |r| == |s|
    ensures forall x :: x in r <==> x in s
    ensures StrictlySorted(r, key)
    decreases |s|
  {
    if s == {} then []
    else
      FirstExists(s, key);
      assert forall x, y :: IsFirst(x, s, key) && IsFirst(y, s, key) ==> x == y by {
        forall x, y | IsFirst(x, s, key) && IsFirst(y, s, key) ensures x == y { FirstUnique(x, y, s, key); }
      }
      var x :| IsFirst(x, s, key);
      [x] + SortedSet(s - {x}, key)
  }

  /** A strictly sorted listing of a set is unique, so the order of insertion cannot show. */
  lemma {:induction false} SortedListingUnique<T(!new)>(a: seq<T>, b: seq<T>, key: T -> seq<int>)
    requires StrictlySorted(a, key) && StrictlySorted(b, key)
    requires forall x :: x in a <==> x in b
    ensures a == b
  {
    if a == [] {
      assert forall i :: 0 <= i < |b| ==> b[i] in a;
    } else {
      assert a[0] in b;
      assert b[0] in a;
      var i :| 0 <= i < |b| && b[i] == a[0];
      var j :| 0 <= j < |a| && a[j] == b[0];
      if i > 0 {
        if j > 0 { LessAsymmetric(key(a[0]), key(a[j])); }
        LessIrreflexive(key(a[0]));
        assert false;
      }
      forall x ensures x in a[1..] <==> x in b[1..] {
        LessIrreflexive(key(a[0]));
        if x in a[1..] { assert x in b; assert x != a[0]; }
        if x in b[1..] { assert x in a; assert x != b[0]; }
      }
      SortedListingUnique(a[1..], b[1..], key);
      assert a == [a[0]] + a[1..] && b == [b[0]] + b[1..];
    }
  }

  // ---- stable sorting of lists ----

  predicate LessEq(a: seq<int>, b: seq<int>) {
    !Less(b, a)
  }

  ghost predicate Sorted<T>(s: seq<T>, key: T -> seq<int>) {
    forall i, j :: 0 <= i < j < |s| ==> LessEq(key(s[i]), key(s[j]))
  }

  function Insert<T>(x: T, s: seq<T>, key: T -> seq<int>): (r: seq<T>)
    ensures multiset(r) == multiset([x]) + multiset(s)
  {
    if s == [] then [x]
    else if Less(key(s[0]), key(x)) then
      var r := [s[0]] + Insert(x, s[1..], key);
      assert s == [s[0]] + s[1..];
      r
    else [x] + s
  }

  lemma {:induction false} InsertSorted<T>(x: T, s: seq<T>, key: T -> seq<int>)
    requires Sorted(s, key)
    ensures Sorted(Insert(x, s, key), key)
  {
    if s != [] {
      if Less(key(s[0]), key(x)) {
        InsertSorted(x, s[1..], key);
        var t := Insert(x, s[1..], key);
        forall j | 0 <= j < |t| ensures LessEq(key(s[0]), key(t[j])) {
          assert t[j] in multiset(t);
          assert t[j] in multiset([x]) + multiset(s[1..]);
          if t[j] == x { LessAsymmetric(key(s[0]), key(x)); }
          else { assert t[j] in s[1..]; }
        }
      } else {
        forall j | 0 <= j < |s| ensures LessEq(key(x), key(s[j])) {
          if j > 0 && Less(key(s[j]), key(x)) {
            LessTotal(key(s[0]), key(x));
            if Less(key(x), key(s[0])) { LessTransitive(key(s[j]), key(x), key(s[0])); }
          }
        }
      }
    }
  }

  /** Python's stable `list.sort(key=...)`. */
  function SortBy<T>(s: seq<T>, key: T -> seq<int>): (r: seq<T>)
    ensures multiset(r) == multiset(s)
    ensures |r| == |s|
    ensures Sorted(r, key)
  {
    if s == [] then []
    else
      var r := Insert(s[0], SortBy(s[1..], key), key);
      InsertSorted(s[0], SortBy(s[1..], key), key);
      assert s == [s[0]] + s[1..];
      assert multiset(r) == multiset(s);
      assert |r| == |multiset(r)| && |s| == |multiset(s)|;
      r
  }

  ghost predicate DistinctElements<T>(s: seq<T>, key: T -> seq<int>) {
    forall i, j :: 0 <= i < j < |s| ==> key(s[i]) != key(s[j])
  }

  /** Sorting forgets the original order when no two elements share a key. */
  lemma {:induction false} SortedPermutationUnique<T(!new)>(a: seq<T>, b: seq<T>, key: T -> seq<int>)
    requires Sorted(a, key) && Sorted(b, key)
    requires multiset(a) == multiset(b)
    requires DistinctElements(a, key)
    requires DistinctElements(b, key)
    ensures a == b
  {
    forall i, j | 0 <= i < j < |a| ensures Less(key(a[i]), key(a[j])) { LessTotal(key(a[i]), key(a[j])); }
    forall i, j | 0 <= i < j < |b| ensures Less(key(b[i]), key(b[j])) { LessTotal(key(b[i]), key(b[j])); }
    forall x ensures x in a <==> x in b {
      assert x in a <==> x in multiset(a);
      assert x in b <==> x in multiset(b);
    }
    SortedListingUnique(a, b, key);
  }
}
