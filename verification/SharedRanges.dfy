/** Sorted disjoint block ranges, each with a reference count: the compact form of a
    function from blocks to counts. */
module SharedRanges {
  const U32_MAX: nat := 0xFFFF_FFFF
  const U64_MAX: nat := 0xFFFF_FFFF_FFFF_FFFF

  datatype Span = Span(start: nat, end: nat, refs: nat)

  predicate Holds(s: Span, b: nat) { s.start <= b < s.end }

  /** The count that the ranges give block `b`; zero outside all of them. */
  function RefAt(rs: seq<Span>, b: nat): nat {
    if rs == [] then 0
    else if Holds(rs[|rs| - 1], b) then rs[|rs| - 1].refs
    else RefAt(rs[..|rs| - 1], b)
  }

  function End(rs: seq<Span>): nat { if rs == [] then 0 else rs[|rs| - 1].end }

  predicate Touch(a: Span, b: Span) { a.end == b.start && a.refs == b.refs }

  /** Sorted, disjoint, shared by at least two, and merged wherever possible. */
  ghost predicate Canonical(rs: seq<Span>) {
    && (forall i :: 0 <= i < |rs| ==> rs[i].start < rs[i].end && 2 <= rs[i].refs <= U32_MAX)
    && (forall i, j :: 0 <= i < j < |rs| ==> rs[i].end <= rs[j].start && !Touch(rs[i], rs[j]))
  }

  lemma {:induction false} RefInside(rs: seq<Span>, k: nat, b: nat)
    requires Canonical(rs) && k < |rs| && Holds(rs[k], b)
    ensures RefAt(rs, b) == rs[k].refs
  {
    if k < |rs| - 1 { RefInside(rs[..|rs| - 1], k, b); }
  }

  lemma {:induction false} RefSource(rs: seq<Span>, b: nat)
    ensures RefAt(rs, b) != 0 ==> exists k :: 0 <= k < |rs| && Holds(rs[k], b)
  {
    if rs != [] && !Holds(rs[|rs| - 1], b) {
      var init := rs[..|rs| - 1];
      RefSource(init, b);
      if RefAt(rs, b) != 0 {
        var k :| 0 <= k < |init| && Holds(init[k], b);
        assert Holds(rs[k], b);
      }
    }
  }

  lemma RefOutside(rs: seq<Span>, b: nat)
    requires forall k :: 0 <= k < |rs| ==> !Holds(rs[k], b)
    ensures RefAt(rs, b) == 0
  {
    RefSource(rs, b);
  }

  lemma PastEnd(rs: seq<Span>, b: nat)
    requires Canonical(rs) && b >= End(rs)
    ensures RefAt(rs, b) == 0
  {
    forall k | 0 <= k < |rs| ensures !Holds(rs[k], b) {
      assert k < |rs| - 1 ==> rs[k].end <= rs[|rs| - 1].start;
    }
    RefOutside(rs, b);
  }

  lemma CountsFit(rs: seq<Span>, b: nat)
    requires Canonical(rs)
    ensures RefAt(rs, b) == 0 || 2 <= RefAt(rs, b) <= U32_MAX
  {
    RefSource(rs, b);
    if k :| 0 <= k < |rs| && Holds(rs[k], b) { RefInside(rs, k, b); }
  }

  lemma CanonicalInit(rs: seq<Span>)
    requires Canonical(rs) && rs != []
    ensures Canonical(rs[..|rs| - 1]) && End(rs[..|rs| - 1]) <= rs[|rs| - 1].start
  {
  }

  ghost predicate SameCounts(a: seq<Span>, b: seq<Span>) { forall x: nat :: RefAt(a, x) == RefAt(b, x) }

  lemma EmptyAgrees(a: seq<Span>, b: seq<Span>)
    requires Canonical(a) && Canonical(b) && SameCounts(a, b)
    ensures a == [] <==> b == []
  {
    if a != [] { RefInside(a, |a| - 1, a[|a| - 1].start); }
    if b != [] { RefInside(b, |b| - 1, b[|b| - 1].start); }
  }

  lemma InitsAgree(a: seq<Span>, b: seq<Span>)
    requires Canonical(a) && Canonical(b) && SameCounts(a, b) && a != [] && b != [] && a[|a| - 1] == b[|b| - 1]
    ensures SameCounts(a[..|a| - 1], b[..|b| - 1])
  {
    var firstA, firstB := a[..|a| - 1], b[..|b| - 1];
    CanonicalInit(a);
    CanonicalInit(b);
    forall x: nat ensures RefAt(firstA, x) == RefAt(firstB, x) {
      if x >= a[|a| - 1].start {
        PastEnd(firstA, x);
        PastEnd(firstB, x);
      } else {
        assert RefAt(a, x) == RefAt(b, x);
      }
    }
  }

  /** Counts determine the ranges: no other canonical list describes them. */
  lemma {:induction false} CountsDetermineRanges(a: seq<Span>, b: seq<Span>)
    requires Canonical(a) && Canonical(b) && SameCounts(a, b)
    ensures a == b
  {
    EmptyAgrees(a, b);
    if a != [] {
      var la, lb := a[|a| - 1], b[|b| - 1];
      EndsAgree(a, b);
      StartsOrdered(a, b);
      StartsOrdered(b, a);
      CanonicalInit(a);
      CanonicalInit(b);
      InitsAgree(a, b);
      CountsDetermineRanges(a[..|a| - 1], b[..|b| - 1]);
      assert a == a[..|a| - 1] + [la] && b == b[..|b| - 1] + [lb];
    }
  }

  lemma EndsAgree(a: seq<Span>, b: seq<Span>)
    requires Canonical(a) && Canonical(b) && SameCounts(a, b)
    requires a != [] && b != []
    ensures End(a) == End(b) && a[|a| - 1].refs == b[|b| - 1].refs
  {
    RefInside(a, |a| - 1, End(a) - 1);
    RefInside(b, |b| - 1, End(b) - 1);
    if End(a) - 1 >= End(b) { PastEnd(b, End(a) - 1); }
    if End(b) - 1 >= End(a) { PastEnd(a, End(b) - 1); }
  }

  lemma StartsOrdered(a: seq<Span>, b: seq<Span>)
    requires Canonical(a) && Canonical(b) && SameCounts(a, b)
    requires a != [] && b != [] && End(a) == End(b) && a[|a| - 1].refs == b[|b| - 1].refs
    ensures b[|b| - 1].start <= a[|a| - 1].start
  {
    var la, lb := a[|a| - 1], b[|b| - 1];
    if la.start < lb.start {
      var x := lb.start - 1;
      RefInside(a, |a| - 1, x);
      RefSource(b, x);
      var k :| 0 <= k < |b| && Holds(b[k], x);
      RefInside(b, k, x);
      assert Touch(b[k], lb);
    }
  }

  /** Appends a range, merging it with the last one when they touch with equal counts. */
  method Append(rs: seq<Span>, start: nat, end: nat, refs: nat) returns (ok: bool, r: seq<Span>)
    requires Canonical(rs) && refs <= U32_MAX
    ensures ok <==> start < end && refs >= 2 && End(rs) <= start
    ensures !ok ==> r == rs
    ensures ok ==> Canonical(r) && End(r) == end
    ensures ok ==> forall b: nat :: RefAt(r, b) == if start <= b < end then refs else RefAt(rs, b)
  {
    if start >= end || refs < 2 { return false, rs; }
    if rs != [] {
      var last := rs[|rs| - 1];
      if start < last.end { return false, rs; }
      if start == last.end && last.refs == refs {
        r := rs[|rs| - 1 := last.(end := end)];
        Widened(rs, end);
        return true, r;
      }
    }
    ok, r := true, rs + [Span(start, end, refs)];
    Added(rs, Span(start, end, refs));
  }

  lemma Added(rs: seq<Span>, s: Span)
    requires Canonical(rs) && End(rs) <= s.start < s.end && 2 <= s.refs <= U32_MAX
    requires rs != [] ==> !Touch(rs[|rs| - 1], s)
    ensures Canonical(rs + [s]) && forall b: nat :: RefAt(rs + [s], b) == if Holds(s, b) then s.refs else RefAt(rs, b)
  {
    assert (rs + [s])[..|rs|] == rs;
    assert Canonical(rs + [s]) by { AddedInOrder(rs, s); }
  }

  lemma AddedInOrder(rs: seq<Span>, s: Span)
    requires Canonical(rs) && End(rs) <= s.start < s.end && 2 <= s.refs <= U32_MAX
    requires rs != [] ==> !Touch(rs[|rs| - 1], s)
    ensures Canonical(rs + [s])
  {
    hide RefAt;
    forall i | 0 <= i < |rs| ensures rs[i].end <= s.start && !Touch(rs[i], s) {
      if i < |rs| - 1 { assert rs[i].end <= rs[|rs| - 1].start < rs[|rs| - 1].end; }
    }
  }

  lemma Widened(rs: seq<Span>, end: nat)
    requires Canonical(rs) && rs != [] && End(rs) < end
    ensures var r := rs[|rs| - 1 := rs[|rs| - 1].(end := end)];
      Canonical(r) && forall b: nat :: RefAt(r, b) == if End(rs) <= b < end then rs[|rs| - 1].refs else RefAt(rs, b)
  {
    var r := rs[|rs| - 1 := rs[|rs| - 1].(end := end)];
    assert r[..|r| - 1] == rs[..|rs| - 1];
  }

  /** The ranges describe `f` for every block below `p`, and nothing from `p` on. */
  ghost predicate Upto(rs: seq<Span>, f: nat -> nat, p: nat) {
    Canonical(rs) && End(rs) <= p && forall b: nat :: b < p ==> RefAt(rs, b) == f(b)
  }

  ghost predicate Constant(f: nat -> nat, p: nat, q: nat, v: nat) {
    forall b: nat :: p <= b < q ==> f(b) == v
  }

  /** Adds one stretch of constant count, or skips it when nothing is shared there. */
  method Emit(rs: seq<Span>, ghost f: nat -> nat, p: nat, q: nat, refs: nat) returns (ok: bool, r: seq<Span>)
    requires Upto(rs, f, p) && p <= q && refs <= U32_MAX && refs != 1 && Constant(f, p, q, refs)
    ensures ok && Upto(r, f, q)
  {
    if p < q && refs > 0 {
      ok, r := Append(rs, p, q, refs);
    } else {
      Idle(rs, f, p, q);
      ok, r := true, rs;
    }
  }

  lemma Nothing(f: nat -> nat)
    ensures Upto([], f, 0)
  {
  }

  lemma Idle(rs: seq<Span>, f: nat -> nat, p: nat, q: nat)
    requires Upto(rs, f, p) && p <= q && Constant(f, p, q, 0)
    ensures Upto(rs, f, q)
  {
    forall b: nat | p <= b < q ensures RefAt(rs, b) == f(b) { PastEnd(rs, b); }
  }

  lemma Everywhere(rs: seq<Span>, f: nat -> nat, p: nat)
    requires Upto(rs, f, p) && forall b: nat :: b >= p ==> f(b) == 0
    ensures Canonical(rs) && forall b: nat :: RefAt(rs, b) == f(b)
  {
    forall b: nat ensures RefAt(rs, b) == f(b) { if b >= p { PastEnd(rs, b); } }
  }

  /** Binary search: does any range meet [start, end)? */
  method MaybeShared(rs: seq<Span>, start: nat, end: nat) returns (shared: bool)
    requires Canonical(rs)
    ensures start < end ==> (shared <==> exists b: nat :: start <= b < end && RefAt(rs, b) != 0)
    ensures shared <==> exists k :: 0 <= k < |rs| && start < rs[k].end && rs[k].start < end
  {
    var low, high := 0, |rs|;
    while low < high
      invariant 0 <= low <= high <= |rs|
      invariant forall k :: 0 <= k < low ==> rs[k].end <= start
      invariant forall k :: high <= k < |rs| ==> start < rs[k].end
    {
      var middle := low + (high - low) / 2;
      if rs[middle].end <= start { low := middle + 1; } else { high := middle; }
    }
    shared := low < |rs| && rs[low].start < end;
    if shared && start < end { RefInside(rs, low, if start < rs[low].start then rs[low].start else start); }
    if !shared {
      forall b: nat | start <= b < end ensures RefAt(rs, b) == 0 { RefOutside(rs, b); }
    }
  }
}
