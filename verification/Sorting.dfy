/** The kernel's `sort()`, as an insertion sort over values ordered by an integer key. */
module Sorting {

  ghost predicate Sorted<T>(s: seq<T>, key: T -> int) {
    forall i, j :: 0 <= i < j < |s| ==> key(s[i]) <= key(s[j])
  }

  method Insert<T>(t: seq<T>, x: T, key: T -> int) returns (r: seq<T>)
    requires Sorted(t, key)
    ensures Sorted(r, key) && multiset(r) == multiset(t) + multiset{x} && |r| == |t| + 1
  {
    var at := 0;
    while at < |t| && key(t[at]) <= key(x)
      invariant 0 <= at <= |t|
      invariant forall i :: 0 <= i < at ==> key(t[i]) <= key(x)
    {
      at := at + 1;
    }
    assert at < |t| ==> forall i :: at <= i < |t| ==> key(t[at]) <= key(t[i]);
    Inserted(t, at, x, key);
    assert t == t[..at] + t[at..];
    r := t[..at] + [x] + t[at..];
  }

  lemma Inserted<T>(t: seq<T>, at: nat, x: T, key: T -> int)
    requires at <= |t| && Sorted(t, key)
    requires forall i :: 0 <= i < at ==> key(t[i]) <= key(x)
    requires forall i :: at <= i < |t| ==> key(x) <= key(t[i])
    ensures Sorted(t[..at] + [x] + t[at..], key)
  {
    var r := t[..at] + [x] + t[at..];
    forall i, j | 0 <= i < j < |r| ensures key(r[i]) <= key(r[j]) {
      if j < at {
        assert r[i] == t[i] && r[j] == t[j];
      } else if i > at {
        assert r[i] == t[i - 1] && r[j] == t[j - 1];
      } else {
        assert i < at ==> r[i] == t[i];
        assert j > at ==> r[j] == t[j - 1];
      }
    }
  }

  method Sort<T>(s: seq<T>, key: T -> int) returns (t: seq<T>)
    ensures Sorted(t, key) && multiset(t) == multiset(s) && |t| == |s|
  {
    t := [];
    for n := 0 to |s|
      invariant |t| == n && Sorted(t, key) && multiset(t) == multiset(s[..n])
    {
      assert s[..n + 1] == s[..n] + [s[n]];
      t := Insert(t, s[n], key);
    }
    assert s[..|s|] == s;
  }

  /** Sorting neither adds nor loses a value. */
  lemma SameMembers<T>(s: seq<T>, t: seq<T>)
    requires multiset(s) == multiset(t)
    ensures forall x :: x in s <==> x in t
  {
    forall x ensures x in s <==> x in t {
      assert x in s <==> x in multiset(s);
      assert x in t <==> x in multiset(t);
    }
  }

  predicate Distinct<T(==)>(s: seq<T>) {
    forall i, j :: 0 <= i < j < |s| ==> s[i] != s[j]
  }

  /** Having no repeated value depends only on the values, not on their order. */
  lemma DistinctCounts<T>(s: seq<T>)
    ensures Distinct(s) <==> forall x :: multiset(s)[x] <= 1
  {
    if s != [] {
      var init, last := s[..|s| - 1], s[|s| - 1];
      DistinctCounts(init);
      assert s == init + [last];
      assert multiset(s) == multiset(init) + multiset{last};
      if Distinct(s) {
        assert last !in init;
        assert Distinct(init);
      }
      if forall x :: multiset(s)[x] <= 1 {
        forall x ensures multiset(init)[x] <= 1 { assert multiset(s)[x] >= multiset(init)[x]; }
        assert multiset(s)[last] == multiset(init)[last] + 1;
        assert last !in multiset(init);
      }
    }
  }
}
