/** Counting the entries of a table that are in use; zero marks an empty one. */
module Counting {

  function NonZero(ch: seq<nat>): nat {
    if ch == [] then 0 else NonZero(ch[..|ch| - 1]) + if ch[|ch| - 1] != 0 then 1 else 0
  }

  lemma {:induction false} NonZeroUpdate(ch: seq<nat>, i: nat, x: nat)
    requires i < |ch|
    ensures NonZero(ch[i := x]) + (if ch[i] != 0 then 1 else 0) == NonZero(ch) + if x != 0 then 1 else 0
  {
    if i < |ch| - 1 {
      NonZeroUpdate(ch[..|ch| - 1], i, x);
      assert ch[i := x][..|ch| - 1] == ch[..|ch| - 1][i := x];
    } else {
      assert ch[i := x][..|ch| - 1] == ch[..|ch| - 1];
    }
  }

  lemma {:induction false} NonZeroNone(ch: seq<nat>)
    ensures NonZero(ch) == 0 <==> forall i :: 0 <= i < |ch| ==> ch[i] == 0
  {
    if ch != [] {
      NonZeroNone(ch[..|ch| - 1]);
      assert ch == ch[..|ch| - 1] + [ch[|ch| - 1]];
    }
  }

  lemma {:induction false} NonZeroAll(ch: seq<nat>)
    ensures NonZero(ch) <= |ch| && (NonZero(ch) == |ch| <==> forall i :: 0 <= i < |ch| ==> ch[i] != 0)
  {
    if ch != [] {
      NonZeroAll(ch[..|ch| - 1]);
      assert ch == ch[..|ch| - 1] + [ch[|ch| - 1]];
    }
  }

  predicate Within(from: nat, end: nat, b: nat) { from <= b < end }

  ghost function Interval(from: nat, end: nat): set<nat> { set b: nat | b < end && Within(from, end, b) }

  lemma {:induction false} IntervalCount(from: nat, end: nat)
    requires from <= end
    ensures |Interval(from, end)| == end - from
    decreases end
  {
    if from < end {
      IntervalCount(from, end - 1);
      assert Interval(from, end) == Interval(from, end - 1) + {end - 1};
    } else {
      assert Interval(from, end) == {};
    }
  }
}
