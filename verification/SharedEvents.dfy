/** Building the shared-range index: start and end events of every extent, sorted and swept. */
module SharedEvents {
  import opened Sorting
  import opened SharedRanges

  const S64_MAX: nat := 0x7FFF_FFFF_FFFF_FFFF

  datatype Outcome = Done | Corrupt | Overflow

  /** An extent: whether it owns blocks, and the physical blocks it occupies. */
  datatype Extent = Extent(normal: bool, physical: nat, blocks: nat)

  predicate Bad(e: Extent) {
    e.normal && (e.physical == 0 || e.blocks == 0 || e.physical > U64_MAX - e.blocks)
  }

  ghost predicate AnyBad(es: seq<Extent>) { exists i :: 0 <= i < |es| && Bad(es[i]) }

  predicate Covers(e: Extent, b: nat) { e.normal && e.physical <= b < e.physical + e.blocks }

  ghost predicate Owned(es: seq<Extent>, b: nat) { exists i :: 0 <= i < |es| && Covers(es[i], b) }

  /** The number of extents that refer to block `b`. */
  ghost function Refs(es: seq<Extent>, b: nat): nat {
    if es == [] then 0 else Refs(es[..|es| - 1], b) + if Covers(es[|es| - 1], b) then 1 else 0
  }

  ghost function Flat(files: seq<seq<Extent>>): seq<Extent> {
    if files == [] then [] else Flat(files[..|files| - 1]) + files[|files| - 1]
  }

  datatype Event = Event(position: nat, delta: int)

  /** Sum of the deltas at or before `b`, and of all of them. */
  ghost function Depth(evs: seq<Event>, b: nat): int {
    if evs == [] then 0
    else Depth(evs[..|evs| - 1], b) + if evs[|evs| - 1].position <= b then evs[|evs| - 1].delta else 0
  }

  ghost function Total(evs: seq<Event>): int {
    if evs == [] then 0 else Total(evs[..|evs| - 1]) + evs[|evs| - 1].delta
  }

  lemma {:induction false} DepthConcat(a: seq<Event>, c: seq<Event>, b: nat)
    ensures Depth(a + c, b) == Depth(a, b) + Depth(c, b) && Total(a + c) == Total(a) + Total(c)
  {
    if c == [] {
      assert a + c == a;
    } else {
      DepthConcat(a, c[..|c| - 1], b);
      assert (a + c)[..|a + c| - 1] == a + c[..|c| - 1];
    }
  }

  lemma {:induction false} DepthPermuted(a: seq<Event>, c: seq<Event>, b: nat)
    requires multiset(a) == multiset(c)
    ensures Depth(a, b) == Depth(c, b) && Total(a) == Total(c)
  {
    if a == [] {
      assert |c| == |multiset(c)| == 0;
    } else {
      var last, init := a[|a| - 1], a[..|a| - 1];
      assert a == init + [last];
      assert last in multiset(c);
      var i :| 0 <= i < |c| && c[i] == last;
      TakeOut(c, i, b);
      assert multiset(a) == multiset(init) + multiset{last};
      assert multiset(init) == multiset(a) - multiset{last} == multiset(c[..i] + c[i + 1..]);
      DepthPermuted(init, c[..i] + c[i + 1..], b);
      DepthConcat(init, [last], b);
    }
  }

  lemma TakeOut(c: seq<Event>, i: nat, b: nat)
    requires i < |c|
    ensures multiset(c) == multiset(c[..i] + c[i + 1..]) + multiset{c[i]}
    ensures Depth(c, b) == Depth(c[..i] + c[i + 1..], b) + Depth([c[i]], b)
    ensures Total(c) == Total(c[..i] + c[i + 1..]) + Total([c[i]])
  {
    assert c == c[..i] + [c[i]] + c[i + 1..];
    DepthConcat(c[..i] + [c[i]], c[i + 1..], b);
    DepthConcat(c[..i], [c[i]], b);
    DepthConcat(c[..i], c[i + 1..], b);
  }

  /** The events add up to the number of references, block by block. */
  ghost predicate Tally(evs: seq<Event>, es: seq<Extent>) {
    && (forall b: nat :: Depth(evs, b) == Refs(es, b))
    && Total(evs) == 0 && |evs| <= 2 * |es|
  }

  lemma TallyExtent(evs: seq<Event>, es: seq<Extent>, e: Extent)
    requires Tally(evs, es) && !Bad(e)
    ensures !e.normal ==> Tally(evs, es + [e])
    ensures e.normal ==> Tally(evs + [Event(e.physical, 1), Event(e.physical + e.blocks, -1)], es + [e])
  {
    var more := [Event(e.physical, 1), Event(e.physical + e.blocks, -1)];
    assert (es + [e])[..|es|] == es;
    assert more == [Event(e.physical, 1)] + [Event(e.physical + e.blocks, -1)];
    forall b: nat ensures Refs(es + [e], b) == Refs(es, b) + if Covers(e, b) then 1 else 0 { }
    forall b: nat
      ensures Depth(evs + more, b) == Depth(evs, b) + if e.physical <= b < e.physical + e.blocks then 1 else 0
    {
      DepthConcat(evs, more, b);
      DepthConcat([Event(e.physical, 1)], [Event(e.physical + e.blocks, -1)], b);
    }
    DepthConcat(evs, more, 0);
    DepthConcat([Event(e.physical, 1)], [Event(e.physical + e.blocks, -1)], 0);
  }

  lemma {:induction false} RefsSome(es: seq<Extent>, b: nat)
    ensures Refs(es, b) > 0 <==> Owned(es, b)
    ensures Refs(es, b) <= |es|
  {
    if es != [] {
      var init := es[..|es| - 1];
      RefsSome(init, b);
      if Owned(init, b) {
        var i :| 0 <= i < |init| && Covers(init[i], b);
        assert Covers(es[i], b);
      }
      if Owned(es, b) && !Covers(es[|es| - 1], b) {
        var i :| 0 <= i < |es| && Covers(es[i], b);
        assert Covers(init[i], b);
      }
    }
  }

  /** The events of one file. */
  method FileEvents(start: seq<Event>, file: seq<Extent>, ghost seen: seq<Extent>) returns (ok: bool, evs: seq<Event>)
    requires Tally(start, seen)
    ensures ok <==> !AnyBad(file)
    ensures ok ==> Tally(evs, seen + file)
  {
    evs := start;
    assert seen + file[..0] == seen;
    for j := 0 to |file|
      invariant Tally(evs, seen + file[..j]) && !AnyBad(file[..j])
    {
      if Bad(file[j]) { return false, evs; }
      assert file[..j + 1] == file[..j] + [file[j]] && seen + file[..j + 1] == (seen + file[..j]) + [file[j]];
      TallyExtent(evs, seen + file[..j], file[j]);
      if file[j].normal {
        evs := evs + [Event(file[j].physical, 1), Event(file[j].physical + file[j].blocks, -1)];
      }
    }
    ok := true;
    assert file[..|file|] == file;
  }

  /** The events of all files. */
  method CollectEvents(files: seq<seq<Extent>>) returns (ok: bool, evs: seq<Event>)
    ensures ok <==> forall i :: 0 <= i < |files| ==> !AnyBad(files[i])
    ensures ok ==> Tally(evs, Flat(files))
  {
    evs := [];
    for i := 0 to |files|
      invariant Tally(evs, Flat(files[..i])) && forall k :: 0 <= k < i ==> !AnyBad(files[k])
    {
      assert files[..i + 1][..i] == files[..i];
      ok, evs := FileEvents(evs, files[i], Flat(files[..i]));
      if !ok { return; }
    }
    ok := true;
    assert files[..|files|] == files;
  }

  /** Only counts of two or more are kept. */
  function Kept(n: int): nat { if n >= 2 then n else 0 }

  /** Consumes the events at `position`. */
  method Batch(evs: seq<Event>, e: nat, position: nat) returns (next: nat, delta: int)
    requires e < |evs| && evs[e].position == position && Sorted(evs, (v: Event) => v.position)
    ensures e < next <= |evs| && delta == Total(evs[..next]) - Total(evs[..e])
    ensures forall i :: e <= i < next ==> evs[i].position == position
    ensures forall i :: next <= i < |evs| ==> evs[i].position > position
  {
    next, delta := e, 0;
    while next < |evs| && evs[next].position == position
      invariant e <= next <= |evs| && delta == Total(evs[..next]) - Total(evs[..e])
      invariant forall i :: e <= i < next ==> evs[i].position == position
    {
      assert evs[..next + 1][..next] == evs[..next];
      delta := delta + evs[next].delta;
      next := next + 1;
    }
    assert next < |evs| ==> evs[next].position >= evs[e].position;
    forall i | next <= i < |evs| ensures evs[i].position > position {
      assert i > next ==> evs[next].position <= evs[i].position;
    }
  }

  /** With the first `e` events at or before `b` and the others after it. */
  lemma {:induction false} DepthSplit(evs: seq<Event>, e: nat, b: nat)
    requires e <= |evs|
    requires forall i :: 0 <= i < e ==> evs[i].position <= b
    requires forall i :: e <= i < |evs| ==> evs[i].position > b
    ensures Depth(evs, b) == Total(evs[..e])
  {
    if evs != [] {
      var init := evs[..|evs| - 1];
      if e == |evs| {
        DepthSplit(init, e - 1, b);
        assert evs[..e] == evs && init[..e - 1] == init;
      } else {
        DepthSplit(init, e, b);
        assert evs[..e] == init[..e];
      }
    }
  }

  /** Where the sweep stands: `e` events are consumed, all at or before `previous`. */
  ghost predicate Swept(evs: seq<Event>, e: nat, previous: nat, coverage: int) {
    && e <= |evs| && coverage == Total(evs[..e])
    && (forall i :: 0 <= i < e ==> evs[i].position <= previous)
    && (forall i :: e <= i < |evs| ==> evs[i].position > previous || (e == 0 && evs[i].position >= previous))
  }

  lemma Stretch(evs: seq<Event>, es: seq<Extent>, e: nat, previous: nat, coverage: int, position: nat)
    requires Swept(evs, e, previous, coverage) && Tally(evs, es) && previous <= position
    requires forall i :: e <= i < |evs| ==> evs[i].position >= position
    ensures forall b: nat :: previous <= b < position ==> Refs(es, b) == coverage
  {
    forall b: nat | previous <= b < position ensures Refs(es, b) == coverage { DepthSplit(evs, e, b); }
  }

  lemma NoEvents(es: seq<Extent>)
    requires Tally([], es)
    ensures forall b: nat :: Refs(es, b) == 0
  {
    assert forall b: nat :: Depth([], b) == 0;
  }

  lemma AllSwept(evs: seq<Event>, es: seq<Extent>, previous: nat)
    requires Swept(evs, |evs|, previous, 0) && Tally(evs, es)
    ensures forall b: nat :: b >= previous ==> Refs(es, b) == 0
  {
    forall b: nat | b >= previous ensures Refs(es, b) == 0 { DepthSplit(evs, |evs|, b); }
  }

  /** The sweep over the sorted events. It succeeds exactly when no count exceeds 32 bits. */
  method Sweep(evs: seq<Event>, ghost es: seq<Extent>) returns (s: Outcome, rs: seq<Span>)
    requires Sorted(evs, (v: Event) => v.position) && Tally(evs, es) && |es| <= S64_MAX
    ensures s != Corrupt
    ensures s == Done ==> Canonical(rs) && forall b: nat :: RefAt(rs, b) == Kept(Refs(es, b))
    ensures s == Overflow ==> exists b: nat :: Refs(es, b) > U32_MAX
  {
    hide RefAt, Depth, Refs, Canonical;
    rs := [];
    ghost var f := (b: nat) => Kept(Refs(es, b));
    Nothing(f);
    if evs == [] {
      NoEvents(es);
      Everywhere(rs, f, 0);
      return Done, rs;
    }
    var coverage: int := 0;
    var e, previous := 0, evs[0].position;
    assert forall i :: 0 <= i < |evs| ==> evs[i].position >= previous;
    Stretch(evs, es, 0, 0, 0, previous);
    Idle(rs, f, 0, previous);
    while e < |evs|
      invariant Swept(evs, e, previous, coverage) && Upto(rs, f, previous)
    {
      var position := evs[e].position;
      forall i | e <= i < |evs| ensures evs[i].position >= position { }
      if position < previous { return Corrupt, rs; }
      Stretch(evs, es, e, previous, coverage, position);
      if position > previous && coverage >= 2 {
        assert Refs(es, previous) == coverage;
        if coverage > U32_MAX { return Overflow, rs; }
        var ok;
        ok, rs := Append(rs, previous, position, coverage);
        if !ok { return Corrupt, rs; }
      } else {
        Idle(rs, f, previous, position);
      }
      var delta;
      ghost var e0 := e;
      e, delta := Batch(evs, e, position);
      NextDepth(evs, es, e, position, coverage + delta);
      if (delta < 0 && coverage < -delta) || (delta > 0 && coverage > S64_MAX - delta) { return Corrupt, rs; }
      coverage := coverage + delta;
      if coverage < 0 { return Corrupt, rs; }
      previous := position;
    }
    assert evs[..e] == evs;
    if coverage != 0 { return Corrupt, rs; }
    AllSwept(evs, es, previous);
    Everywhere(rs, f, previous);
    s := Done;
  }

  lemma NextDepth(evs: seq<Event>, es: seq<Extent>, e: nat, position: nat, coverage: int)
    requires Tally(evs, es) && e <= |evs| && coverage == Total(evs[..e])
    requires forall i :: 0 <= i < e ==> evs[i].position <= position
    requires forall i :: e <= i < |evs| ==> evs[i].position > position
    ensures 0 <= coverage <= |es|
  {
    DepthSplit(evs, e, position);
    RefsSome(es, position);
  }
}
