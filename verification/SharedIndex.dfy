/** The volatile index of shared blocks over whole runs, and the frees that rely on it. */
module SharedIndex {
  import opened Sorting
  import opened SharedRanges
  import opened SharedEvents
  import opened SharedOwners

  /** No extent ends at the last 64-bit value, which the merge uses to mean "no boundary". */
  ghost predicate Ends(es: seq<Extent>) {
    forall i :: 0 <= i < |es| ==> es[i].physical + es[i].blocks < U64_MAX
  }

  ghost predicate Below(rs: seq<Span>) { forall b: nat :: b >= U64_MAX - 1 ==> RefAt(rs, b) == 0 }

  lemma BelowInOrder(rs: seq<Span>)
    requires Canonical(rs) && Below(rs)
    ensures InOrder(rs)
  {
    forall i | 0 <= i < |rs| ensures rs[i].end < U64_MAX {
      RefInside(rs, i, rs[i].end - 1);
    }
  }

  lemma OwnedBelow(os: seq<Span>, es: seq<Extent>)
    requires Separated(os) && Ends(es) && forall b: nat :: In(os, b) <==> Owned(es, b)
    ensures InOrder(os)
  {
    forall i | 0 <= i < |os| ensures os[i].end < U64_MAX {
      assert Holds(os[i], os[i].end - 1);
      assert In(os, os[i].end - 1);
    }
  }

  ghost predicate AddsExtents(before: seq<Span>, after: seq<Span>, es: seq<Extent>) {
    forall b: nat :: RefAt(after, b) == Plus(RefAt(before, b), Owned(es, b))
  }

  ghost predicate DropsExtents(before: seq<Span>, after: seq<Span>, es: seq<Extent>) {
    forall b: nat :: RefAt(after, b) == Minus(RefAt(before, b), Owned(es, b))
  }

  ghost predicate Counts(rs: seq<Span>, es: seq<Extent>) {
    forall b: nat :: RefAt(rs, b) == Kept(Refs(es, b))
  }

  class Index {
    var ranges: seq<Span>
    var valid: bool

    ghost predicate Valid() reads this { Canonical(ranges) && Below(ranges) }

    constructor ()
      ensures Valid() && !valid && ranges == []
    {
      ranges, valid := [], false;
    }

    /** Rebuilds the index from the extents of every live file, unless it is valid. */
    method Build(files: seq<seq<Extent>>) returns (s: Outcome)
      requires Valid() && Ends(Flat(files)) && |Flat(files)| <= S64_MAX
      modifies this
      ensures Valid() && (s == Done <==> valid)
      ensures old(valid) ==> valid && ranges == old(ranges)
      ensures !old(valid) && valid ==> Counts(ranges, Flat(files))
      ensures s == Corrupt ==> exists i :: 0 <= i < |files| && AnyBad(files[i])
      ensures s == Overflow ==> exists b: nat :: Refs(Flat(files), b) > U32_MAX
    {
      if valid { return Done; }
      var ok, events := CollectEvents(files);
      s := Corrupt;
      var rs := [];
      if ok {
        var sorted := Sort(events, (v: Event) => v.position);
        TallySorted(events, sorted, Flat(files));
        s, rs := Sweep(sorted, Flat(files));
      }
      if s != Done {
        ranges, valid := [], false;
        return;
      }
      CountsBelow(rs, Flat(files));
      ranges, valid := rs, true;
    }

    /** One more owner of the blocks of `es`. On failure nothing changes. */
    method AddOwner(es: seq<Extent>) returns (s: Outcome)
      requires Valid() && Ends(es)
      modifies this`ranges
      ensures Valid()
      ensures !valid ==> s == Done && ranges == old(ranges)
      ensures s != Done ==> ranges == old(ranges)
      ensures valid && s == Done ==> AddsExtents(old(ranges), ranges, es)
      ensures s == Corrupt ==> AnyBad(es)
      ensures s == Overflow ==> exists b: nat :: Owned(es, b) && RefAt(ranges, b) == U32_MAX
    {
      if !valid { return Done; }
      var ok, os := OwnedRanges(es);
      if !ok { return Corrupt; }
      if os == [] {
        assert forall b: nat :: !In(os, b) && !Owned(es, b);
        return Done;
      }
      BelowInOrder(ranges);
      OwnedBelow(os, es);
      var rs;
      s, rs := Merge(ranges, os);
      if s != Done { return; }
      AddsBelow(ranges, rs, os, es);
      ranges := rs;
    }

    /** One owner of the blocks of `es` less. */
    method DropOwner(es: seq<Extent>) returns (s: Outcome)
      requires Valid()
      modifies this`ranges
      ensures Valid()
      ensures s != Done || !valid ==> ranges == old(ranges)
      ensures valid && s == Done ==> DropsExtents(old(ranges), ranges, es)
      ensures s != Done ==> s == Corrupt && AnyBad(es)
    {
      if !valid || ranges == [] { return Done; }
      var ok, os := OwnedRanges(es);
      if !ok { return Corrupt; }
      if os == [] {
        assert forall b: nat :: !In(os, b) && !Owned(es, b);
        return Done;
      }
      var rs;
      s, rs := Subtract(ranges, os);
      if s != Done { return; }
      DropsBelow(ranges, rs, os, es);
      ranges := rs;
    }
  }

  lemma TallySorted(evs: seq<Event>, sorted: seq<Event>, es: seq<Extent>)
    requires Tally(evs, es) && multiset(evs) == multiset(sorted) && |sorted| == |evs|
    ensures Tally(sorted, es)
  {
    forall b: nat ensures Depth(sorted, b) == Refs(es, b) { DepthPermuted(evs, sorted, b); }
    DepthPermuted(evs, sorted, 0);
  }

  lemma CountsBelow(rs: seq<Span>, es: seq<Extent>)
    requires Counts(rs, es) && Ends(es)
    ensures Below(rs)
  {
    forall b: nat | b >= U64_MAX - 1 ensures RefAt(rs, b) == 0 { RefsSome(es, b); }
  }

  lemma AddsBelow(before: seq<Span>, after: seq<Span>, os: seq<Span>, es: seq<Extent>)
    requires Adds(before, after, os) && Below(before) && Ends(es) && forall b: nat :: In(os, b) <==> Owned(es, b)
    ensures Below(after) && AddsExtents(before, after, es)
  {
  }

  lemma DropsBelow(before: seq<Span>, after: seq<Span>, os: seq<Span>, es: seq<Extent>)
    requires Drops(before, after, os) && Below(before) && forall b: nat :: In(os, b) <==> Owned(es, b)
    ensures Below(after) && DropsExtents(before, after, es)
  {
  }

  /** The live files, by object, and those of them that own a block. */
  type Files = map<nat, seq<Extent>>

  ghost function Owners(files: Files, b: nat): set<nat> { set f | f in files && Owned(files[f], b) }

  /** No shared block is missing: its count is at least its number of owners. */
  ghost predicate Safe(files: Files, rs: seq<Span>) {
    forall b: nat :: |Owners(files, b)| >= 2 ==> RefAt(rs, b) >= |Owners(files, b)|
  }

  ghost predicate Lists(order: seq<nat>, files: Files) {
    Distinct(order) && forall f :: f in files <==> f in order
  }

  function Contents(order: seq<nat>, files: Files): seq<seq<Extent>>
    requires forall i :: 0 <= i < |order| ==> order[i] in files
  {
    seq(|order|, (i: nat) requires i < |order| => files[order[i]])
  }

  datatype State = State(files: Files, valid: bool, ranges: seq<Span>)

  ghost function Had(files: Files, f: nat, b: nat): bool { f in files && Owned(files[f], b) }

  /** A rebuild from some listing of the live files. */
  ghost predicate Rebuilds(s: State, t: State) {
    && t.files == s.files && !s.valid
    && exists order :: Lists(order, s.files) && Counts(t.ranges, Flat(Contents(order, s.files)))
  }

  /** File `f` now also owns, or owns instead, blocks of `es`; the index is told. */
  ghost predicate Clones(s: State, t: State, f: nat, es: seq<Extent>) {
    && f in t.files && t.files - {f} == s.files - {f} && s.valid && AddsExtents(s.ranges, t.ranges, es)
    && forall b: nat :: Owned(t.files[f], b) ==> Had(s.files, f, b) || Owned(es, b)
  }

  /** File `f` is gone; the index is told. */
  ghost predicate Unlinks(s: State, t: State, f: nat) {
    && f in s.files && t.files == s.files - {f} && s.valid && DropsExtents(s.ranges, t.ranges, s.files[f])
  }

  /** File `f` gives up blocks and takes blocks nobody owned; the index is not told. */
  ghost predicate Rewrites(s: State, t: State, f: nat) {
    && f in t.files && t.files - {f} == s.files - {f} && s.valid && t.ranges == s.ranges
    && forall b: nat :: Owned(t.files[f], b) ==> Had(s.files, f, b) || Owners(s.files, b) == {}
  }

  /** One step of a run. A step that leaves the index invalid may do anything else. */
  ghost predicate Next(s: State, t: State) {
    t.valid ==>
      || Rebuilds(s, t) || (exists f, es :: Clones(s, t, f, es))
      || (exists f :: Unlinks(s, t, f)) || (exists f :: Rewrites(s, t, f))
  }

  lemma FewerOwners(a: set<nat>, b: set<nat>)
    requires a <= b
    ensures |a| <= |b|
  {
    if a != {} {
      var x :| x in a;
      FewerOwners(a - {x}, b - {x});
    }
  }

  lemma OthersSame(s: Files, t: Files, f: nat, b: nat)
    requires t - {f} == s - {f}
    ensures forall g :: g != f ==> (g in Owners(t, b) <==> g in Owners(s, b))
  {
    forall g | g != f ensures g in Owners(t, b) <==> g in Owners(s, b) {
      assert g in t <==> g in t - {f};
      assert g in s <==> g in s - {f};
      if g in t { assert t[g] == (t - {f})[g] == (s - {f})[g] == s[g]; }
    }
  }

  lemma CloneKeepsSafe(s: State, t: State, f: nat, es: seq<Extent>)
    requires Clones(s, t, f, es) && Safe(s.files, s.ranges)
    ensures Safe(t.files, t.ranges)
  {
    forall b: nat | |Owners(t.files, b)| >= 2 ensures RefAt(t.ranges, b) >= |Owners(t.files, b)| {
      OthersSame(s.files, t.files, f, b);
      if f in Owners(s.files, b) || f !in Owners(t.files, b) {
        FewerOwners(Owners(t.files, b), Owners(s.files, b));
      } else {
        FewerOwners(Owners(t.files, b), Owners(s.files, b) + {f});
      }
    }
  }

  lemma UnlinkKeepsSafe(s: State, t: State, f: nat)
    requires Unlinks(s, t, f) && Safe(s.files, s.ranges)
    ensures Safe(t.files, t.ranges)
  {
    forall b: nat | |Owners(t.files, b)| >= 2 ensures RefAt(t.ranges, b) >= |Owners(t.files, b)| {
      assert Owners(t.files, b) == Owners(s.files, b) - {f};
    }
  }

  lemma RewriteKeepsSafe(s: State, t: State, f: nat)
    requires Rewrites(s, t, f) && Safe(s.files, s.ranges)
    ensures Safe(t.files, t.ranges)
  {
    forall b: nat | |Owners(t.files, b)| >= 2 ensures RefAt(t.ranges, b) >= |Owners(t.files, b)| {
      OthersSame(s.files, t.files, f, b);
      if Owners(s.files, b) == {} {
        FewerOwners(Owners(t.files, b), {f});
      } else {
        FewerOwners(Owners(t.files, b), Owners(s.files, b));
      }
    }
  }

  lemma {:induction false} RefsConcat(a: seq<Extent>, c: seq<Extent>, b: nat)
    ensures Refs(a + c, b) == Refs(a, b) + Refs(c, b)
  {
    if c == [] {
      assert a + c == a;
    } else {
      RefsConcat(a, c[..|c| - 1], b);
      assert (a + c)[..|a + c| - 1] == a + c[..|c| - 1];
    }
  }

  ghost function OwnersIn(order: seq<nat>, files: Files, b: nat): set<nat>
    requires forall i :: 0 <= i < |order| ==> order[i] in files
  {
    set f | f in order && Owned(files[f], b)
  }

  /** Every owner is counted at least once. */
  lemma {:induction false} OwnersCounted(order: seq<nat>, files: Files, b: nat)
    requires forall i :: 0 <= i < |order| ==> order[i] in files
    ensures |OwnersIn(order, files, b)| <= Refs(Flat(Contents(order, files)), b)
  {
    var owners := OwnersIn(order, files, b);
    if order == [] {
      assert owners == {};
    } else {
      var init, last := order[..|order| - 1], order[|order| - 1];
      OwnersCounted(init, files, b);
      var before := OwnersIn(init, files, b);
      assert order == init + [last];
      assert Contents(order, files)[..|order| - 1] == Contents(init, files);
      assert Flat(Contents(order, files)) == Flat(Contents(init, files)) + files[last];
      RefsConcat(Flat(Contents(init, files)), files[last], b);
      RefsSome(files[last], b);
      FewerOwners(owners, if Owned(files[last], b) then before + {last} else before);
    }
  }

  lemma RebuildIsSafe(files: Files, order: seq<nat>, rs: seq<Span>)
    requires Lists(order, files) && Counts(rs, Flat(Contents(order, files)))
    ensures Safe(files, rs)
  {
    forall b: nat | |Owners(files, b)| >= 2 ensures RefAt(rs, b) >= |Owners(files, b)| {
      OwnersCounted(order, files, b);
      assert Owners(files, b) == OwnersIn(order, files, b);
    }
  }

  lemma StepKeepsSafe(s: State, t: State)
    requires Next(s, t) && (s.valid ==> Safe(s.files, s.ranges))
    ensures t.valid ==> Safe(t.files, t.ranges)
  {
    if t.valid {
      if Rebuilds(s, t) {
        var order :| Lists(order, s.files) && Counts(t.ranges, Flat(Contents(order, s.files)));
        RebuildIsSafe(s.files, order, t.ranges);
      } else if f, es :| Clones(s, t, f, es) {
        CloneKeepsSafe(s, t, f, es);
      } else if f :| Unlinks(s, t, f) {
        UnlinkKeepsSafe(s, t, f);
      } else if f :| Rewrites(s, t, f) {
        RewriteKeepsSafe(s, t, f);
      }
    }
  }

  /** Over every run that starts without an index, a valid index holds every block that two
      files own, so no query misses it. */
  lemma NeverMissed(run: seq<State>, i: nat, b: nat)
    requires i < |run| && !run[0].valid && run[i].valid
    requires forall k :: 0 <= k < |run| - 1 ==> Next(run[k], run[k + 1])
    requires |Owners(run[i].files, b)| >= 2
    ensures exists k :: 0 <= k < |run[i].ranges| && Holds(run[i].ranges[k], b)
  {
    RunIsSafe(run, i);
    RefSource(run[i].ranges, b);
  }

  lemma {:induction false} RunIsSafe(run: seq<State>, i: nat)
    requires i < |run| && !run[0].valid
    requires forall k :: 0 <= k < |run| - 1 ==> Next(run[k], run[k + 1])
    ensures run[i].valid ==> Safe(run[i].files, run[i].ranges)
  {
    if i > 0 {
      RunIsSafe(run, i - 1);
      assert Next(run[i - 1], run[i - 1 + 1]);
      StepKeepsSafe(run[i - 1], run[i]);
    }
  }
}
