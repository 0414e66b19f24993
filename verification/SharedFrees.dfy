/** Freeing a run of blocks of one file: only what no other file refers to. */
module SharedFrees {
  import opened SharedRanges
  import opened SharedEvents
  import opened SharedOwners
  import opened SharedIndex

  datatype Run = Run(start: nat, count: nat)

  ghost predicate InRuns(rs: seq<Run>, b: nat) {
    exists i :: 0 <= i < |rs| && rs[i].start <= b < rs[i].start + rs[i].count
  }

  /** Some file other than `owner`, among the first `n` of the listing, refers to `b`. */
  ghost predicate OtherRefers(order: seq<nat>, files: Files, owner: nat, n: nat, b: nat)
    requires n <= |order| && forall i :: 0 <= i < |order| ==> order[i] in files
  {
    exists i :: 0 <= i < n && order[i] != owner && Owned(files[order[i]], b)
  }

  /** What a scan of extents tells about the blocks from `cursor` on: up to `cover` they are
      all referred to; if `cover` is still `cursor`, none below `next` is. */
  ghost predicate Scanned(refers: nat -> bool, cursor: nat, end: nat, cover: nat, next: nat) {
    && cursor <= cover <= end && cursor < next <= end
    && (forall b: nat :: cursor <= b < cover ==> refers(b))
    && (cover == cursor ==> forall b: nat :: cursor <= b < next ==> !refers(b))
  }

  lemma ScannedSame(f: nat -> bool, g: nat -> bool, cursor: nat, end: nat, cover: nat, next: nat)
    requires Scanned(f, cursor, end, cover, next) && forall b: nat :: f(b) <==> g(b)
    ensures Scanned(g, cursor, end, cover, next)
  {
  }

  function Reach(e: Extent, cursor: nat, end: nat, cover: nat): nat {
    var stop := e.physical + e.blocks;
    if !e.normal || stop <= cursor || e.physical >= end || e.physical > cursor then cover
    else if Least(stop, end) > cover then Least(stop, end) else cover
  }

  function Begin(e: Extent, cursor: nat, end: nat, next: nat): nat {
    if !e.normal || e.physical + e.blocks <= cursor || e.physical >= end || e.physical <= cursor then next
    else if e.physical < next then e.physical else next
  }

  lemma ScanExtent(e: Extent, before: nat -> bool, after: nat -> bool, cursor: nat, end: nat, cover: nat, next: nat)
    requires Scanned(before, cursor, end, cover, next) && forall b: nat :: after(b) <==> before(b) || Covers(e, b)
    ensures Scanned(after, cursor, end, Reach(e, cursor, end, cover), Begin(e, cursor, end, next))
  {
  }

  /** The extents of one other file. */
  method ScanFile(es: seq<Extent>, cursor: nat, end: nat, cover0: nat, next0: nat, ghost before: nat -> bool)
    returns (cover: nat, next: nat)
    requires Scanned(before, cursor, end, cover0, next0)
    ensures Scanned((b: nat) => before(b) || Owned(es, b), cursor, end, cover, next)
  {
    cover, next := cover0, next0;
    ScannedSame(before, (b: nat) => before(b) || Owned(es[..0], b), cursor, end, cover, next);
    for j := 0 to |es|
      invariant Scanned((b: nat) => before(b) || Owned(es[..j], b), cursor, end, cover, next)
    {
      OwnedStep(es, j);
      ScanExtent(es[j], (b: nat) => before(b) || Owned(es[..j], b), (b: nat) => before(b) || Owned(es[..j + 1], b),
        cursor, end, cover, next);
      cover, next := Reach(es[j], cursor, end, cover), Begin(es[j], cursor, end, next);
    }
    assert es[..|es|] == es;
  }

  /** The exact scan over every other live file. */
  method OtherCover(order: seq<nat>, files: Files, owner: nat, cursor: nat, end: nat) returns (cover: nat, next: nat)
    requires (forall i :: 0 <= i < |order| ==> order[i] in files) && cursor < end
    ensures Scanned((b: nat) => OtherRefers(order, files, owner, |order|, b), cursor, end, cover, next)
  {
    cover, next := cursor, end;
    for i := 0 to |order|
      invariant Scanned((b: nat) => OtherRefers(order, files, owner, i, b), cursor, end, cover, next)
    {
      OtherStep(order, files, owner, i);
      ghost var now := (b: nat) => OtherRefers(order, files, owner, i, b);
      ghost var later := (b: nat) => OtherRefers(order, files, owner, i + 1, b);
      if order[i] == owner {
        ScannedSame(now, later, cursor, end, cover, next);
      } else {
        cover, next := ScanFile(files[order[i]], cursor, end, cover, next, now);
        ScannedSame((b: nat) => now(b) || Owned(files[order[i]], b), later, cursor, end, cover, next);
      }
    }
  }

  lemma OtherStep(order: seq<nat>, files: Files, owner: nat, i: nat)
    requires (forall i :: 0 <= i < |order| ==> order[i] in files) && i < |order|
    ensures forall b: nat :: OtherRefers(order, files, owner, i + 1, b) <==>
      OtherRefers(order, files, owner, i, b) || (order[i] != owner && Owned(files[order[i]], b))
  {
  }

  /** The exact way: walk the run, skipping what others refer to. */
  method FreeExactly(order: seq<nat>, files: Files, owner: nat, start: nat, end: nat)
    returns (s: Outcome, freed: seq<Run>)
    requires forall i :: 0 <= i < |order| ==> order[i] in files
    ensures s == Done
    ensures forall b: nat :: InRuns(freed, b) <==> start <= b < end && !OtherRefers(order, files, owner, |order|, b)
  {
    var cursor := start;
    freed := [];
    while cursor < end
      invariant start <= cursor && (cursor <= end || start >= end)
      invariant forall b: nat :: InRuns(freed, b) <==>
        start <= b < cursor && b < end && !OtherRefers(order, files, owner, |order|, b)
      decreases end - cursor
    {
      var cover, next := OtherCover(order, files, owner, cursor, end);
      ghost var refers := (b: nat) => OtherRefers(order, files, owner, |order|, b);
      assert Scanned(refers, cursor, end, cover, next);
      assert forall b: nat :: refers(b) == OtherRefers(order, files, owner, |order|, b);
      if cover > cursor { cursor := cover; continue; }
      if next <= cursor || next > end { return Corrupt, freed; }
      RunsAppend(freed, Run(cursor, next - cursor));
      freed := freed + [Run(cursor, next - cursor)];
      cursor := next;
    }
    s := Done;
  }

  lemma RunsAppend(rs: seq<Run>, r: Run)
    ensures forall b: nat :: InRuns(rs + [r], b) <==> InRuns(rs, b) || r.start <= b < r.start + r.count
  {
    forall b: nat ensures InRuns(rs + [r], b) <==> InRuns(rs, b) || r.start <= b < r.start + r.count {
      if InRuns(rs, b) {
        var i :| 0 <= i < |rs| && rs[i].start <= b < rs[i].start + rs[i].count;
        assert (rs + [r])[i] == rs[i];
      }
      if r.start <= b < r.start + r.count { assert (rs + [r])[|rs|] == r; }
      if InRuns(rs + [r], b) {
        var i :| 0 <= i < |rs + [r]| && (rs + [r])[i].start <= b < (rs + [r])[i].start + (rs + [r])[i].count;
        assert i < |rs| ==> rs[i] == (rs + [r])[i];
      }
    }
  }

  /** Another owner makes the block shared, so a safe index holds it. */
  lemma OtherMeansShared(order: seq<nat>, files: Files, owner: nat, rs: seq<Span>, b: nat)
    requires Lists(order, files) && Safe(files, rs) && owner in files && Owned(files[owner], b)
    requires OtherRefers(order, files, owner, |order|, b)
    ensures RefAt(rs, b) != 0
  {
    var i :| 0 <= i < |order| && order[i] != owner && Owned(files[order[i]], b);
    FewerOwners({owner, order[i]}, Owners(files, b));
  }

  /** Frees the blocks of a run of `owner` that no other file refers to, whether the index
      answers or the exact scan has to. */
  method FreeUnsharedRun(ix: Index, order: seq<nat>, files: Files, owner: nat, start: nat, count: nat)
    returns (s: Outcome, freed: seq<Run>)
    requires ix.Valid() && Lists(order, files) && owner in files && (ix.valid ==> Safe(files, ix.ranges))
    requires Ends(Flat(Contents(order, files))) && |Flat(Contents(order, files))| <= S64_MAX
    requires forall b: nat :: start <= b < start + count ==> Owned(files[owner], b)
    modifies ix
    ensures ix.Valid() && (ix.valid ==> Safe(files, ix.ranges))
    ensures s == Done ==> forall b: nat :: InRuns(freed, b) <==>
      start <= b < start + count && !OtherRefers(order, files, owner, |order|, b)
    ensures s == Overflow ==> start + count > U64_MAX
    ensures s == Corrupt ==> exists f :: f in files && AnyBad(files[f])
  {
    if count == 0 { return Done, []; }
    if start > U64_MAX - count { return Overflow, []; }
    s := ix.Build(Contents(order, files));
    if s == Done {
      if !old(ix.valid) { RebuildIsSafe(files, order, ix.ranges); }
      var shared := MaybeShared(ix.ranges, start, start + count);
      if !shared {
        freed := [Run(start, count)];
        forall b: nat
          ensures InRuns(freed, b) <==> start <= b < start + count && !OtherRefers(order, files, owner, |order|, b)
        {
          if start <= b < start + count {
            assert freed[0].start <= b < freed[0].start + freed[0].count;
            if OtherRefers(order, files, owner, |order|, b) { OtherMeansShared(order, files, owner, ix.ranges, b); }
          }
        }
        return Done, freed;
      }
    }
    if s == Corrupt {
      ghost var i :| 0 <= i < |order| && AnyBad(Contents(order, files)[i]);
      assert order[i] in files;
      return Corrupt, [];
    }
    s, freed := FreeExactly(order, files, owner, start, start + count);
  }
}
