/** Adding an owner to, and dropping an owner from, the shared ranges. */
module SharedOwners {
  import opened Sorting
  import opened SharedRanges
  import opened SharedEvents

  /** Sorted ranges that do not even touch. */
  ghost predicate Separated(os: seq<Span>) {
    && (forall i :: 0 <= i < |os| ==> os[i].start < os[i].end)
    && (forall i, j :: 0 <= i < j < |os| ==> os[i].end < os[j].start)
  }

  ghost predicate In(os: seq<Span>, b: nat) { exists i :: 0 <= i < |os| && Holds(os[i], b) }

  function Order(s: Span): int { s.start * (U64_MAX + 1) + s.end }

  /** The normal extents as ranges, in the order found. */
  method Normal(es: seq<Extent>) returns (ok: bool, os: seq<Span>)
    ensures ok <==> !AnyBad(es)
    ensures ok ==> forall i :: 0 <= i < |os| ==> os[i].start < os[i].end <= U64_MAX
    ensures ok ==> forall b: nat :: In(os, b) <==> Owned(es, b)
  {
    os := [];
    for i := 0 to |es|
      invariant !AnyBad(es[..i])
      invariant forall k :: 0 <= k < |os| ==> os[k].start < os[k].end <= U64_MAX
      invariant forall b: nat :: In(os, b) <==> Owned(es[..i], b)
    {
      var e := es[i];
      if Bad(e) { return false, os; }
      OwnedStep(es, i);
      if e.normal {
        InAppend(os, Span(e.physical, e.physical + e.blocks, 1));
        os := os + [Span(e.physical, e.physical + e.blocks, 1)];
      }
    }
    ok := true;
    assert es[..|es|] == es;
  }

  lemma OwnedStep(es: seq<Extent>, i: nat)
    requires i < |es|
    ensures forall b: nat :: Owned(es[..i + 1], b) <==> Owned(es[..i], b) || Covers(es[i], b)
  {
    forall b: nat ensures Owned(es[..i + 1], b) <==> Owned(es[..i], b) || Covers(es[i], b) {
      if Owned(es[..i], b) {
        var k :| 0 <= k < i && Covers(es[..i][k], b);
        assert Covers(es[..i + 1][k], b);
      }
      if Covers(es[i], b) { assert Covers(es[..i + 1][i], b); }
      if Owned(es[..i + 1], b) && !Covers(es[i], b) {
        var k :| 0 <= k < i + 1 && Covers(es[..i + 1][k], b);
        assert Covers(es[..i][k], b);
      }
    }
  }

  lemma InAppend(os: seq<Span>, s: Span)
    ensures forall b: nat :: In(os + [s], b) <==> In(os, b) || Holds(s, b)
  {
    forall b: nat ensures In(os + [s], b) <==> In(os, b) || Holds(s, b) {
      if In(os, b) {
        var k :| 0 <= k < |os| && Holds(os[k], b);
        assert Holds((os + [s])[k], b);
      }
      if Holds(s, b) { assert Holds((os + [s])[|os|], b); }
    }
  }

  lemma InSorted(a: seq<Span>, b: seq<Span>)
    requires multiset(a) == multiset(b)
    ensures forall x: nat :: In(a, x) <==> In(b, x)
  {
    SameMembers(a, b);
    forall x: nat ensures In(a, x) <==> In(b, x) {
      if In(a, x) {
        var i :| 0 <= i < |a| && Holds(a[i], x);
        assert a[i] in b;
      }
      if In(b, x) {
        var i :| 0 <= i < |b| && Holds(b[i], x);
        assert b[i] in a;
      }
    }
  }

  /** Joins ranges that overlap or touch. */
  method Join(sorted: seq<Span>) returns (os: seq<Span>)
    requires forall i :: 0 <= i < |sorted| ==> sorted[i].start < sorted[i].end <= U64_MAX
    requires Sorted(sorted, Order)
    ensures Separated(os) && (forall b: nat :: In(os, b) <==> In(sorted, b))
  {
    os := [];
    for i := 0 to |sorted|
      invariant Separated(os) && forall b: nat :: In(os, b) <==> In(sorted[..i], b)
      invariant os != [] ==> forall k :: i <= k < |sorted| ==> os[|os| - 1].start <= sorted[k].start
    {
      var s := sorted[i];
      assert sorted[..i + 1] == sorted[..i] + [s];
      InAppend(sorted[..i], s);
      forall k | i <= k < |sorted| ensures s.start <= sorted[k].start { assert k > i ==> Order(s) <= Order(sorted[k]); }
      if os != [] && s.start <= os[|os| - 1].end {
        if s.end > os[|os| - 1].end {
          InWidened(os, s);
          os := os[|os| - 1 := os[|os| - 1].(end := s.end)];
        } else {
          InWidened(os, s.(end := os[|os| - 1].end));
          assert os[|os| - 1 := os[|os| - 1].(end := os[|os| - 1].end)] == os;
        }
        continue;
      }
      InAppend(os, s);
      StillSeparated(os, s);
      os := os + [s];
    }
    assert sorted[..|sorted|] == sorted;
  }

  lemma StillSeparated(os: seq<Span>, s: Span)
    requires Separated(os) && s.start < s.end && (os != [] ==> os[|os| - 1].end < s.start)
    ensures Separated(os + [s])
  {
    forall i | 0 <= i < |os| ensures os[i].end < s.start {
      assert i < |os| - 1 ==> os[i].end < os[|os| - 1].start;
    }
  }

  lemma InWidened(os: seq<Span>, s: Span)
    requires Separated(os) && os != []
    requires os[|os| - 1].start <= s.start <= os[|os| - 1].end <= s.end
    ensures var w := os[|os| - 1 := os[|os| - 1].(end := s.end)];
      Separated(w) && forall b: nat :: In(w, b) <==> In(os, b) || Holds(s, b)
  {
    var w := os[|os| - 1 := os[|os| - 1].(end := s.end)];
    forall b: nat ensures In(w, b) <==> In(os, b) || Holds(s, b) {
      if In(os, b) {
        var k :| 0 <= k < |os| && Holds(os[k], b);
        assert Holds(w[k], b);
      }
      if Holds(s, b) { assert Holds(w[|os| - 1], b); }
      if In(w, b) {
        var k :| 0 <= k < |w| && Holds(w[k], b);
        assert k < |os| - 1 ==> Holds(os[k], b);
        assert k == |os| - 1 && b < os[k].end ==> Holds(os[k], b);
      }
    }
  }

  /** What one file owns, as separated ranges. */
  method OwnedRanges(es: seq<Extent>) returns (ok: bool, os: seq<Span>)
    ensures ok <==> !AnyBad(es)
    ensures ok ==> Separated(os) && (forall b: nat :: In(os, b) <==> Owned(es, b))
  {
    ok, os := Normal(es);
    if !ok { return; }
    var sorted := Sort(os, Order);
    SameMembers(os, sorted);
    InSorted(os, sorted);
    assert forall i :: 0 <= i < |sorted| ==> sorted[i] in os;
    os := Join(sorted);
  }

  /** The count after one more owner, and after one fewer. Only counts of two and more are
      kept, so a block with one owner counts as zero. */
  function Plus(n: nat, owned: bool): nat { if !owned then n else if n == 0 then 2 else n + 1 }
  function Minus(n: nat, owned: bool): nat { if !owned then n else if n > 2 then n - 1 else 0 }

  /** A place in a list of ranges: which range is next, and whether we are inside it. */
  datatype Cursor = Cursor(i: nat, active: bool)

  ghost predicate InOrder(rs: seq<Span>) {
    && (forall i :: 0 <= i < |rs| ==> rs[i].start < rs[i].end < U64_MAX)
    && (forall i, j :: 0 <= i < j < |rs| ==> rs[i].end <= rs[j].start)
  }

  ghost predicate At(rs: seq<Span>, c: Cursor, p: nat) {
    && c.i <= |rs| && (forall k :: 0 <= k < c.i ==> rs[k].end <= p)
    && (c.active ==> c.i < |rs| && rs[c.i].start <= p < rs[c.i].end)
    && (!c.active && c.i < |rs| ==> p <= rs[c.i].start)
  }

  /** As `At`, with a range that starts here already entered. */
  ghost predicate Settled(rs: seq<Span>, c: Cursor, p: nat) {
    At(rs, c, p) && (!c.active && c.i < |rs| ==> p < rs[c.i].start)
  }

  function Enter(rs: seq<Span>, c: Cursor, p: nat): Cursor {
    if !c.active && c.i < |rs| && rs[c.i].start == p then c.(active := true) else c
  }

  function Leave(rs: seq<Span>, c: Cursor, p: nat): Cursor {
    if c.active && c.i < |rs| && rs[c.i].end == p then Cursor(c.i + 1, false) else c
  }

  /** The next boundary of this list. */
  function Edge(rs: seq<Span>, c: Cursor): nat {
    if c.i >= |rs| then U64_MAX else if c.active then rs[c.i].end else rs[c.i].start
  }

  function Least(a: nat, b: nat): nat { if a < b then a else b }

  /** Up to the next boundary, the list says the same about every block. */
  lemma Level(rs: seq<Span>, c: Cursor, p: nat, q: nat)
    requires InOrder(rs) && Settled(rs, c, p) && q <= Edge(rs, c)
    ensures forall b: nat :: p <= b < q ==> (In(rs, b) <==> c.active)
    ensures c.active ==> forall b: nat :: p <= b < q ==> Holds(rs[c.i], b)
  {
    forall b: nat | p <= b < q ensures In(rs, b) <==> c.active {
      if In(rs, b) {
        var k :| 0 <= k < |rs| && Holds(rs[k], b);
        assert k > c.i ==> rs[c.i].end <= rs[k].start;
      }
      if c.active { assert Holds(rs[c.i], b); }
    }
  }

  lemma LevelCount(rs: seq<Span>, c: Cursor, p: nat, q: nat)
    requires Canonical(rs) && InOrder(rs) && Settled(rs, c, p) && q <= Edge(rs, c)
    ensures forall b: nat :: p <= b < q ==> RefAt(rs, b) == if c.active then rs[c.i].refs else 0
  {
    Level(rs, c, p, q);
    forall b: nat | p <= b < q ensures RefAt(rs, b) == if c.active then rs[c.i].refs else 0 {
      if c.active { RefInside(rs, c.i, b); } else { RefSource(rs, b); }
    }
  }

  lemma Left(rs: seq<Span>, c: Cursor, p: nat, q: nat)
    requires InOrder(rs) && Settled(rs, c, p) && p < q <= Edge(rs, c)
    ensures At(rs, Leave(rs, c, q), q)
  {
    forall k | 0 <= k < c.i + 1 && c.active && rs[c.i].end == q ensures rs[k].end <= q {
      assert k < c.i ==> rs[k].end <= rs[c.i].start;
    }
  }

  ghost predicate Adds(before: seq<Span>, after: seq<Span>, os: seq<Span>) {
    Canonical(after) && forall b: nat :: RefAt(after, b) == Plus(RefAt(before, b), In(os, b))
  }

  ghost predicate Drops(before: seq<Span>, after: seq<Span>, os: seq<Span>) {
    Canonical(after) && forall b: nat :: RefAt(after, b) == Minus(RefAt(before, b), In(os, b))
  }

  ghost predicate Busy(rs: seq<Span>, c: Cursor, p: nat) { c.active || (c.i < |rs| && rs[c.i].start == p) }

  predicate Remains(rs: seq<Span>, c: Cursor) { c.i < |rs| || c.active }

  /** Between two steps of the merge: both cursors stand at `p`, where something begins or
      goes on unless both lists are used up. */
  ghost predicate Between(rs: seq<Span>, c: Cursor, os: seq<Span>, d: Cursor, p: nat) {
    && At(rs, c, p) && At(os, d, p) && p < U64_MAX
    && (Remains(rs, c) || Remains(os, d) ==> Busy(rs, c, p) || Busy(os, d, p))
  }

  lemma Ahead(rs: seq<Span>, c: Cursor, os: seq<Span>, d: Cursor, p: nat)
    requires InOrder(rs) && InOrder(os) && Between(rs, c, os, d, p) && (Remains(rs, c) || Remains(os, d))
    ensures Settled(rs, Enter(rs, c, p), p) && Settled(os, Enter(os, d, p), p)
    ensures p < Least(Edge(rs, Enter(rs, c, p)), Edge(os, Enter(os, d, p))) < U64_MAX
  {
  }

  /** A list is active here, or both are used up. */
  predicate Resting(rs: seq<Span>, c: Cursor, os: seq<Span>, d: Cursor) {
    c.active || d.active || (!Remains(rs, c) && !Remains(os, d))
  }

  lemma Passed(rs: seq<Span>, c: Cursor, os: seq<Span>, d: Cursor, p: nat, q: nat)
    requires InOrder(rs) && InOrder(os) && Settled(rs, c, p) && Settled(os, d, p)
    requires p < q == Least(Edge(rs, c), Edge(os, d)) < U64_MAX
    ensures At(rs, Leave(rs, c, q), q) && At(os, Leave(os, d, q), q)
    ensures Resting(rs, Leave(rs, c, q), os, Leave(os, d, q)) ==>
      Between(rs, Leave(rs, c, q), os, Leave(os, d, q), q)
  {
    Left(rs, c, p, q);
    Left(os, d, p, q);
  }

  function CountHere(rs: seq<Span>, c: Cursor, owned: bool): nat {
    Plus(if c.active && c.i < |rs| then rs[c.i].refs else 0, owned)
  }

  lemma CountsHere(rs: seq<Span>, c: Cursor, os: seq<Span>, d: Cursor, p: nat, q: nat, f: nat -> nat)
    requires Canonical(rs) && InOrder(rs) && Settled(rs, c, p) && InOrder(os) && Settled(os, d, p)
    requires q <= Edge(rs, c) && q <= Edge(os, d) && forall b: nat :: f(b) == Plus(RefAt(rs, b), In(os, b))
    ensures Constant(f, p, q, CountHere(rs, c, d.active))
  {
    LevelCount(rs, c, p, q);
    Level(os, d, p, q);
  }

  lemma NothingBefore(rs: seq<Span>, os: seq<Span>, p: nat, f: nat -> nat)
    requires Canonical(rs) && InOrder(rs) && InOrder(os) && forall b: nat :: f(b) == Plus(RefAt(rs, b), In(os, b))
    requires p == Least(Edge(rs, Cursor(0, false)), Edge(os, Cursor(0, false))) && os != []
    ensures Between(rs, Cursor(0, false), os, Cursor(0, false), p) && Upto([], f, p)
  {
    if p > 0 {
      CountsHere(rs, Cursor(0, false), os, Cursor(0, false), 0, p, f);
    }
    Nothing(f);
    Idle([], f, 0, p);
  }

  lemma NothingAfter(rs: seq<Span>, c: Cursor, os: seq<Span>, d: Cursor, p: nat, f: nat -> nat)
    requires Canonical(rs) && forall b: nat :: f(b) == Plus(RefAt(rs, b), In(os, b))
    requires Between(rs, c, os, d, p) && !Remains(rs, c) && !Remains(os, d)
    ensures forall b: nat :: b >= p ==> f(b) == 0
  {
    forall b: nat | b >= p ensures f(b) == 0 { RefOutside(rs, b); }
  }

  /** The merge loop that adds an owner: it stops at every boundary of either list. It fails
      exactly when some count would no longer fit 32 bits. */
  method Merge(rs: seq<Span>, os: seq<Span>) returns (s: Outcome, r: seq<Span>)
    requires Canonical(rs) && InOrder(rs) && Separated(os) && InOrder(os) && os != []
    ensures s != Corrupt
    ensures s == Done ==> Adds(rs, r, os)
    ensures s == Overflow <==> exists b: nat :: In(os, b) && RefAt(rs, b) == U32_MAX
  {
    hide Canonical, RefAt, In, Separated, InOrder, At, Settled, Edge, Enter, Leave, Busy, Upto, Between;
    ghost var f := (b: nat) => Plus(RefAt(rs, b), In(os, b));
    var c, d := Cursor(0, false), Cursor(0, false);
    var p := Least(Edge(rs, c), Edge(os, d));
    r := [];
    NothingBefore(rs, os, p, f);
    while Remains(rs, c) || Remains(os, d)
      invariant Between(rs, c, os, d, p) && Upto(r, f, p)
      decreases U64_MAX - p
    {
      Ahead(rs, c, os, d, p);
      c, d := Enter(rs, c, p), Enter(os, d, p);
      if c.active && c.i < |rs| {
        SpanFits(rs, c.i);
        if rs[c.i].start >= rs[c.i].end || rs[c.i].refs < 2 || (c.i > 0 && rs[c.i].start < rs[c.i - 1].end) {
          return Corrupt, r;
        }
      }
      var next := Least(Edge(rs, c), Edge(os, d));
      if next == U64_MAX { break; }
      if next < p { return Corrupt, r; }
      CountsHere(rs, c, os, d, p, next, f);
      if c.active && d.active && c.i < |rs| && rs[c.i].refs == U32_MAX {
        Level(os, d, p, next);
        LevelCount(rs, c, p, next);
        assert In(os, p) && RefAt(rs, p) == U32_MAX;
        return Overflow, r;
      }
      var ok;
      ok, r := Emit(r, f, p, next, CountHere(rs, c, d.active));
      if !ok { return Corrupt, r; }
      Passed(rs, c, os, d, p, next);
      p := next;
      c, d := Leave(rs, c, p), Leave(os, d, p);
      if !c.active && !d.active {
        var start := Least(Edge(rs, c), Edge(os, d));
        Skip(rs, c, os, d, p, start, f);
        if start != U64_MAX {
          Idle(r, f, p, start);
          p := start;
        }
      }
    }
    NothingAfter(rs, c, os, d, p, f);
    Everywhere(r, f, p);
    AddsFit(rs, r, os);
    s := Done;
  }

  lemma AddsFit(before: seq<Span>, after: seq<Span>, os: seq<Span>)
    requires Adds(before, after, os)
    ensures forall b: nat :: In(os, b) ==> RefAt(before, b) != U32_MAX
  {
    forall b: nat | In(os, b) ensures RefAt(before, b) != U32_MAX { CountsFit(after, b); }
  }

  lemma SpanFits(rs: seq<Span>, i: nat)
    requires Canonical(rs) && i < |rs|
    ensures rs[i].start < rs[i].end && 2 <= rs[i].refs <= U32_MAX && (i > 0 ==> rs[i - 1].end <= rs[i].start)
  {
  }

  /** Between ranges nothing is counted. */
  lemma Skip(rs: seq<Span>, c: Cursor, os: seq<Span>, d: Cursor, p: nat, q: nat, f: nat -> nat)
    requires Canonical(rs) && InOrder(rs) && At(rs, c, p) && InOrder(os) && At(os, d, p) && !c.active && !d.active
    requires q == Least(Edge(rs, c), Edge(os, d)) && forall b: nat :: f(b) == Plus(RefAt(rs, b), In(os, b))
    ensures q != U64_MAX ==> p <= q && Constant(f, p, q, 0) && Between(rs, c, os, d, q)
    ensures q == U64_MAX ==> !Remains(rs, c) && !Remains(os, d)
  {
    if p < q { CountsHere(rs, c, os, d, p, q, f); }
  }

  /** What dropping an owner makes of one shared range. `k` is the first owned range that
      may still matter. */
  method SubtractFrom(r0: seq<Span>, shared: Span, os: seq<Span>, first: nat, ghost f: nat -> nat)
    returns (ok: bool, r: seq<Span>, k: nat)
    requires Upto(r0, f, shared.start) && shared.start < shared.end && 2 <= shared.refs <= U32_MAX
    requires Separated(os) && first <= |os| && (forall j :: 0 <= j < first ==> os[j].end <= shared.start)
    requires forall b: nat :: Holds(shared, b) ==> f(b) == Minus(shared.refs, In(os, b))
    ensures ok && Upto(r, f, shared.end)
    ensures k <= |os| && forall j :: 0 <= j < k ==> os[j].end <= shared.end
  {
    hide Upto, In, Canonical, RefAt;
    ok, r, k := true, r0, first;
    var cursor := shared.start;
    while k < |os| && os[k].end <= cursor
      invariant first <= k <= |os| && forall j :: 0 <= j < k ==> os[j].end <= cursor
    {
      k := k + 1;
    }
    while k < |os| && os[k].start < shared.end
      invariant k <= |os| && shared.start <= cursor <= shared.end && Upto(r, f, cursor)
      invariant forall j :: 0 <= j < k ==> os[j].end <= cursor
      decreases |os| - k
    {
      if os[k].end <= cursor { k := k + 1; continue; }
      if os[k].start > cursor {
        var gap := Least(os[k].start, shared.end);
        OutsideOwned(os, k, cursor, gap);
        ok, r := Emit(r, f, cursor, gap, shared.refs);
        if !ok { return; }
        cursor := gap;
        if cursor >= shared.end { break; }
      }
      var overlap := Least(os[k].end, shared.end);
      if overlap > cursor {
        InsideOwned(os, k, cursor, overlap);
        ok, r := Emit(r, f, cursor, overlap, Minus(shared.refs, true));
        if !ok { return; }
        cursor := overlap;
      }
      if os[k].end <= cursor { k := k + 1; } else { break; }
    }
    if cursor < shared.end {
      OutsideOwned(os, k, cursor, shared.end);
      ok, r := Emit(r, f, cursor, shared.end, shared.refs);
    }
  }

  lemma OutsideOwned(os: seq<Span>, k: nat, p: nat, q: nat)
    requires Separated(os) && k <= |os| && (forall j :: 0 <= j < k ==> os[j].end <= p)
    requires k < |os| ==> q <= os[k].start
    ensures forall b: nat :: p <= b < q ==> !In(os, b)
  {
    forall b: nat | p <= b < q ensures !In(os, b) {
      if j :| 0 <= j < |os| && Holds(os[j], b) { assert j > k ==> os[k].end < os[j].start; }
    }
  }

  lemma InsideOwned(os: seq<Span>, k: nat, p: nat, q: nat)
    requires k < |os| && os[k].start <= p && q <= os[k].end
    ensures forall b: nat :: p <= b < q ==> In(os, b)
  {
    forall b: nat | p <= b < q ensures In(os, b) { assert Holds(os[k], b); }
  }

  /** The loop that drops an owner, one shared range after the other. */
  method Subtract(rs: seq<Span>, os: seq<Span>) returns (s: Outcome, r: seq<Span>)
    requires Canonical(rs) && Separated(os)
    ensures s == Done && Drops(rs, r, os)
  {
    hide Upto, In, RefAt;
    ghost var f := (b: nat) => Minus(RefAt(rs, b), In(os, b));
    r := [];
    Nothing(f);
    var first: nat := 0;
    for i := 0 to |rs|
      invariant first <= |os| && Upto(r, f, End(rs[..i]))
      invariant forall j :: 0 <= j < first ==> os[j].end <= End(rs[..i])
    {
      var shared := rs[i];
      if shared.start >= shared.end || shared.refs < 2 { return Corrupt, r; }
      Apart(rs, i);
      Idle(r, f, End(rs[..i]), shared.start);
      forall b: nat | Holds(shared, b) ensures RefAt(rs, b) == shared.refs { RefInside(rs, i, b); }
      var ok;
      ok, r, first := SubtractFrom(r, shared, os, first, f);
      if !ok { return Corrupt, r; }
      assert rs[..i + 1][i] == shared;
    }
    assert rs[..|rs|] == rs;
    forall b: nat | b >= End(rs) ensures f(b) == 0 { PastEnd(rs, b); }
    Everywhere(r, f, End(rs));
    s := Done;
  }

  /** Between one range and the next, no count. */
  lemma Apart(rs: seq<Span>, i: nat)
    requires Canonical(rs) && i < |rs|
    ensures End(rs[..i]) <= rs[i].start && forall b: nat :: End(rs[..i]) <= b < rs[i].start ==> RefAt(rs, b) == 0
  {
    forall b: nat | End(rs[..i]) <= b < rs[i].start ensures RefAt(rs, b) == 0 {
      forall k | 0 <= k < |rs| ensures !Holds(rs[k], b) {
        assert k > i ==> rs[i].end <= rs[k].start;
        assert k < i - 1 ==> rs[k].end <= rs[i - 1].start;
      }
      RefOutside(rs, b);
    }
  }

  /** Dropping an owner that was just added restores the very same ranges. */
  lemma DropUndoesAdd(before: seq<Span>, added: seq<Span>, dropped: seq<Span>, os: seq<Span>)
    requires Canonical(before) && Adds(before, added, os) && Drops(added, dropped, os)
    ensures dropped == before
  {
    forall b: nat ensures RefAt(dropped, b) == RefAt(before, b) { CountsFit(before, b); }
    CountsDetermineRanges(dropped, before);
  }
}
