/** Filtering lists: membership, and independence of order up to permutation. */
module Lists {
  import opened Wrappers

  function Filter<T>(p: T -> bool, s: seq<T>): seq<T> {
    if s == [] then [] else (if p(s[0]) then [s[0]] else []) + Filter(p, s[1..])
  }

  lemma {:induction false} FilterMembers<T>(p: T -> bool, s: seq<T>)
    ensures forall x :: x in Filter(p, s) <==> x in s && p(x)
  {
    if s != [] {
      FilterMembers(p, s[1..]);
      assert forall x :: x in s <==> x == s[0] || x in s[1..];
    }
  }

  lemma {:induction false} FilterCounts<T>(p: T -> bool, s: seq<T>, x: T)
    ensures multiset(Filter(p, s))[x] == if p(x) then multiset(s)[x] else 0
  {
    if s != [] {
      FilterCounts(p, s[1..], x);
      assert s == [s[0]] + s[1..];
    }
  }

  /** Filtering permutations of one list yields permutations of one list. */
  lemma {:induction false} FilterPermutation<T(!new)>(p: T -> bool, a: seq<T>, b: seq<T>)
    requires multiset(a) == multiset(b)
    ensures multiset(Filter(p, a)) == multiset(Filter(p, b))
  {
    forall x ensures multiset(Filter(p, a))[x] == multiset(Filter(p, b))[x] {
      FilterCounts(p, a, x);
      FilterCounts(p, b, x);
    }
    assert multiset(Filter(p, a)) == multiset(Filter(p, b));
  }

  lemma FilterStep<T>(p: T -> bool, s: seq<T>, i: nat, before: seq<T>)
    requires i < |s|
    ensures before + Filter(p, s[i..]) == before + (if p(s[i]) then [s[i]] else []) + Filter(p, s[i + 1..])
  {
    assert s[i..][1..] == s[i + 1..];
  }

  lemma {:induction false} FilterOrigin<T>(p: T -> bool, s: seq<T>, j: nat) returns (k: nat)
    requires j < |Filter(p, s)|
    ensures k < |s| && Filter(p, s)[j] == s[k]
  {
    if !p(s[0]) {
      k := FilterOrigin(p, s[1..], j);
      k := k + 1;
    } else if j == 0 {
      k := 0;
    } else {
      k := FilterOrigin(p, s[1..], j - 1);
      k := k + 1;
    }
  }

  /** Distinctness by a key survives filtering. */
  lemma {:induction false} FilterDistinct<T, K>(p: T -> bool, s: seq<T>, key: T -> K)
    requires forall i, j :: 0 <= i < j < |s| ==> key(s[i]) != key(s[j])
    ensures forall i, j :: 0 <= i < j < |Filter(p, s)| ==> key(Filter(p, s)[i]) != key(Filter(p, s)[j])
  {
    if s != [] {
      FilterDistinct(p, s[1..], key);
      var rest := Filter(p, s[1..]);
      forall j | 0 <= j < |rest| ensures key(s[0]) != key(rest[j]) {
        var k := FilterOrigin(p, s[1..], j);
        assert rest[j] == s[k + 1];
      }
    }
  }

  /** A loop that collects the elements satisfying `p`. */
  method Collect<T>(p: T -> bool, s: seq<T>) returns (r: seq<T>)
    ensures r == Filter(p, s)
  {
    r := [];
    for i := 0 to |s|
      invariant r + Filter(p, s[i..]) == Filter(p, s)
    {
      FilterStep(p, s, i, r);
      if p(s[i]) {
        r := r + [s[i]];
      }
    }
  }

  function Unobjected<T, R>(why: T -> Option<R>): T -> bool {
    x => why(x).None?
  }

  lemma {:induction false} FilterAgrees<T>(p: T -> bool, q: T -> bool, s: seq<T>)
    requires forall x :: x in s ==> p(x) == q(x)
    ensures Filter(p, s) == Filter(q, s)
  {
    if s != [] { FilterAgrees(p, q, s[1..]); }
  }

  /** A loop that splits a list into the elements without an objection and the others with theirs. */
  method Partition<T, R>(why: T -> Option<R>, s: seq<T>) returns (kept: seq<T>, dropped: seq<(T, R)>)
    ensures kept == Filter(Unobjected(why), s)
    ensures |kept| + |dropped| == |s|
    ensures forall x :: x in dropped ==> x.0 in s && why(x.0) == Some(x.1)
  {
    kept, dropped := [], [];
    for i := 0 to |s|
      invariant kept + Filter(Unobjected(why), s[i..]) == Filter(Unobjected(why), s)
      invariant |kept| + |dropped| == i
      invariant forall x :: x in dropped ==> x.0 in s && why(x.0) == Some(x.1)
    {
      FilterStep(Unobjected(why), s, i, kept);
      var reason := why(s[i]);
      if reason.None? {
        kept := kept + [s[i]];
      } else {
        dropped := dropped + [(s[i], reason.value)];
      }
    }
  }
}
