/** Growing the chain at its end, and its agreement with the general update. */
module ChecksumAppend {
  import opened Geometry
  import opened ChecksumChain
  import opened ChecksumUpdate
  import opened ChecksumStore
  import opened Checksums

  /** The range begins exactly where the recorded digests end. */
  ghost predicate Appends(store: Objects, ids: seq<nat>, t: Range)
    requires forall i :: 0 <= i < |ids| ==> ids[i] in store
  {
    if ids == [] then t.start == 0 else var o := store[ids[|ids| - 1]]; t.start == o.start + o.count
  }

  /** `n` new nodes at the end. */
  ghost function Grown(base: seq<Node>, group: nat, names: nat -> nat, n: nat): (r: seq<Node>)
    ensures |r| == |base| + n
  {
    if n == 0 then base
    else var some := Grown(base, group, names, n - 1); Inserted(some, |some|, names(n - 1), group + (n - 1) * PER)
  }

  lemma {:induction false} GrownAt(base: seq<Node>, group: nat, names: nat -> nat, n: nat, i: nat)
    requires i < |base| + n
    ensures Grown(base, group, names, n)[i] ==
      if i >= |base| then Node(names(i - |base|), group + (i - |base|) * PER, 0, true, true)
      else if i == |base| - 1 && n > 0 then base[i].(dirty := true) else base[i]
  {
    if n > 0 {
      var some := Grown(base, group, names, n - 1);
      InsertedAt(some, |some|, names(n - 1), group + (n - 1) * PER, i);
      if i < |some| { GrownAt(base, group, names, n - 1, i); }
    }
  }

  ghost predicate AllBelow(nodes: seq<Node>, group: nat) { forall i :: 0 <= i < |nodes| ==> nodes[i].start < group }

  lemma {:induction false} GrownMarked(
    store: Objects, ids: seq<nat>, base: seq<Node>, t: Range, group: nat, names: nat -> nat, n: nat)
    requires Names(names, store) && Marked(store, ids, base, t, group, names, 0) && group % PER == 0
    requires FirstGroup(t) <= group
    requires AllBelow(base, group)
    ensures Marked(store, ids, Grown(base, group, names, n), t, group + n * PER, names, n)
  {
    hide Marked, Names;
    if n > 0 {
      GrownMarked(store, ids, base, t, group, names, n - 1);
      var some, g := Grown(base, group, names, n - 1), group + (n - 1) * PER;
      Multiple(group, n - 1);
      forall i | 0 <= i < |some| ensures some[i].start < g { GrownAt(base, group, names, n - 1, i); }
      MarkOne(store, ids, some, t, g, names, n - 1, |some|);
      assert g + PER == group + n * PER;
    }
  }

  lemma Multiple(group: nat, n: nat)
    requires group % PER == 0
    ensures (group + n * PER) % PER == 0
  {
  }

  /** A new object that holds the part of the range in its group. */
  function NewObject(start: nat, next: nat, t: Range): Obj {
    Obj(start, Needed(0, start, t), Overlay(Blank(), start, t), next)
  }

  function NextName(names: nat -> nat, i: nat, n: nat): nat { if i + 1 < n then names(i + 1) else 0 }

  ghost predicate NewAt(q: Objects, group: nat, names: nat -> nat, n: nat, t: Range, i: nat) {
    names(i) in q && q[names(i)] == NewObject(group + i * PER, NextName(names, i, n), t)
  }

  /** Writes `n` new objects, each linked to the next. */
  method WriteNew(q0: Objects, group: nat, names: nat -> nat, n: nat, t: Range, ghost store: Objects)
    returns (q: Objects)
    requires Names(names, store)
    ensures NewDone(q, group, names, n, t)
    ensures forall x :: (forall i: nat :: i < n ==> names(i) != x) ==>
      (x in q <==> x in q0) && (x in q ==> q[x] == q0[x])
  {
    hide NewObject;
    q := q0;
    for i := 0 to n
      invariant forall k: nat :: k < i ==> NewAt(q, group, names, n, t, k)
      invariant forall x :: (forall k: nat :: k < i ==> names(k) != x) ==>
        (x in q <==> x in q0) && (x in q ==> q[x] == q0[x])
    {
      ghost var was := q;
      q := q[names(i) := NewObject(group + i * PER, NextName(names, i, n), t)];
      forall k: nat | k < i
        ensures NewAt(q, group, names, n, t, k)
      {
        assert NewAt(was, group, names, n, t, k) && names(k) != names(i);
      }
    }
  }

  /** The tail after it took `fill` digests and a link. */
  function FilledTail(o: Obj, t: Range, next: nat): Obj {
    Obj(o.start, Needed(o.count, o.start, t), Overlay(o.raw, o.start, t), next)
  }

  /** How many new objects the range needs after the tail took what fits. */
  function NewCount(t: Range, group: nat): nat { if Stop(t) > group then DivUp(Stop(t) - group, PER) else 0 }

  lemma CountReachesEnd(t: Range, group: nat)
    requires RangeOk(t) && group % PER == 0
    requires FirstGroup(t) == group || (FirstGroup(t) + PER == group && t.start < group)
    ensures group + NewCount(t, group) * PER == LastGroup(t) + PER
  {
    Aligned(t.start);
    Aligned(Stop(t) - 1);
    if Stop(t) > group {
      var n := NewCount(t, group);
      Multiple(group, n);
      Steps(LastGroup(t), group + (n - 1) * PER);
      Multiple(group, n - 1);
      Steps(group + (n - 1) * PER, LastGroup(t));
    } else {
      Steps(LastGroup(t) + PER, group);
      Steps(group, LastGroup(t) + PER);
    }
  }

  /** The untouched chain, with its last node marked when the range starts in its group. */
  ghost function Base(store: Objects, ids: seq<nat>, filled: bool): seq<Node>
    requires forall i :: 0 <= i < |ids| ==> ids[i] in store
  {
    if filled && ids != [] then Touch(Viewed(store, ids), |ids| - 1) else Viewed(store, ids)
  }

  lemma BaseMarked(store: Objects, head: nat, ids: seq<nat>, t: Range, group: nat, names: nat -> nat)
    requires IsChain(store, head, ids) && group % PER == 0
    requires ids == [] ==> FirstGroup(t) == group
    requires ids != [] ==> group == store[ids[|ids| - 1]].start + PER
    requires ids != [] ==> (FirstGroup(t) == group || FirstGroup(t) + PER == group)
    ensures Marked(store, ids, Base(store, ids, FirstGroup(t) != group), t, group, names, 0)
    ensures AllBelow(Base(store, ids, FirstGroup(t) != group), group)
  {
    hide Good, Staged;
    var nodes, last := Viewed(store, ids), |ids| - 1;
    ViewedStaged(store, head, ids);
    MarkNone(store, ids, nodes, t, names);
    forall i | 0 <= i < |ids| ensures nodes[i].start < group {
      if i < last { assert store[ids[i]].start < store[ids[last]].start; }
    }
    if FirstGroup(t) != group { MarkFound(store, ids, nodes, t, FirstGroup(t), names, 0, last); }
  }

  /** The new objects, the last old one, and all other objects after the append. */
  ghost predicate NewDone(q: Objects, group: nat, names: nat -> nat, n: nat, t: Range) {
    forall i: nat :: i < n ==> NewAt(q, group, names, n, t, i)
  }

  ghost predicate TailDone(store: Objects, q: Objects, ids: seq<nat>, names: nat -> nat, n: nat, t: Range)
    requires forall i :: 0 <= i < |ids| ==> ids[i] in store
  {
    ids != [] ==> var id := ids[|ids| - 1]; id in q && q[id] == FilledTail(store[id], t, if n > 0 then names(0) else 0)
  }

  ghost predicate OthersSame(store: Objects, q: Objects, ids: seq<nat>) {
    forall x :: x in store && (ids == [] || x != ids[|ids| - 1]) ==> x in q && q[x] == store[x]
  }

  lemma TailStored(
    store: Objects, head: nat, ids: seq<nat>, t: Range, group: nat, names: nat -> nat, n: nat, q: Objects, i: nat)
    requires IsChain(store, head, ids) && i < |ids| && (FirstGroup(t) != group || n > 0)
    requires TailDone(store, q, ids, names, n, t) && (i < |ids| - 1 ==> ids[i] in q && q[ids[i]] == store[ids[i]])
    ensures Stored(store, q, Grown(Base(store, ids, FirstGroup(t) != group), group, names, n), i, t)
  {
    hide Overlay, Needed, Good;
    var base := Base(store, ids, FirstGroup(t) != group);
    var nodes := Grown(base, group, names, n);
    GrownAt(base, group, names, n, i);
    if i + 1 < |nodes| { GrownAt(base, group, names, n, i + 1); }
    assert store[ids[i]].next == NextOf(ids, i);
  }

  lemma NewStored(store: Objects, base: seq<Node>, t: Range, group: nat, names: nat -> nat, n: nat, q: Objects, i: nat)
    requires i < n && NewAt(q, group, names, n, t, i)
    ensures Stored(store, q, Grown(base, group, names, n), |base| + i, t)
  {
    hide Overlay, Needed, Grown;
    var nodes := Grown(base, group, names, n);
    GrownAt(base, group, names, n, |base| + i);
    assert nodes[|base| + i] == Node(names(i), group + i * PER, 0, true, true);
    if i + 1 < n {
      GrownAt(base, group, names, n, |base| + i + 1);
      assert nodes[|base| + i + 1].id == names(i + 1);
    }
    assert Then(nodes, |base| + i, 0) == NextName(names, i, n);
  }

  lemma NewDoneAt(q: Objects, group: nat, names: nat -> nat, n: nat, t: Range, i: nat)
    requires NewDone(q, group, names, n, t) && i < n
    ensures NewAt(q, group, names, n, t, i)
  {
  }

  /** The tail rewritten and the new objects written make up the whole update. */
  lemma AppendWrote(
    store: Objects, head: nat, ids: seq<nat>, t: Range, group: nat, names: nat -> nat, n: nat, q: Objects)
    requires IsChain(store, head, ids) && (FirstGroup(t) != group || n > 0)
    requires TailDone(store, q, ids, names, n, t) && NewDone(q, group, names, n, t) && OthersSame(store, q, ids)
    ensures Wrote(store, q, Grown(Base(store, ids, FirstGroup(t) != group), group, names, n), t)
  {
    hide TailDone, NewDone, Stored, IsChain, OthersSame, Base, Grown;
    ChainInStore(store, head, ids);
    BaseLength(store, ids, FirstGroup(t) != group);
    var base := Base(store, ids, FirstGroup(t) != group);
    var nodes := Grown(base, group, names, n);
    forall i: nat | i < |nodes| ensures Stored(store, q, nodes, i, t) {
      if i < |ids| {
        OldSame(store, head, ids, q, i);
        TailStored(store, head, ids, t, group, names, n, q, i);
      } else {
        NewDoneAt(q, group, names, n, t, i - |ids|);
        NewStored(store, base, t, group, names, n, q, i - |ids|);
      }
    }
    forall x | x in store && Spared(nodes, |nodes|, x) ensures x in q && q[x] == store[x] {
      SparedOther(store, ids, t, group, names, n, q, x);
    }
  }

  lemma BaseLength(store: Objects, ids: seq<nat>, filled: bool)
    requires forall i :: 0 <= i < |ids| ==> ids[i] in store
    ensures |Base(store, ids, filled)| == |ids|
    ensures forall i :: 0 <= i < |ids| ==> Base(store, ids, filled)[i].id == ids[i]
    ensures filled && ids != [] ==> Base(store, ids, filled)[|ids| - 1].dirty
  {
  }

  lemma OldSame(store: Objects, head: nat, ids: seq<nat>, q: Objects, i: nat)
    requires IsChain(store, head, ids) && OthersSame(store, q, ids) && i < |ids|
    ensures i < |ids| - 1 ==> ids[i] in q && q[ids[i]] == store[ids[i]]
  {
    if i < |ids| - 1 { DifferentIds(store, head, ids, i, |ids| - 1); }
  }

  lemma SparedOther(store: Objects, ids: seq<nat>, t: Range, group: nat, names: nat -> nat, n: nat, q: Objects, x: nat)
    requires (forall i :: 0 <= i < |ids| ==> ids[i] in store) && OthersSame(store, q, ids) && x in store
    requires FirstGroup(t) != group || n > 0
    requires var nodes := Grown(Base(store, ids, FirstGroup(t) != group), group, names, n); Spared(nodes, |nodes|, x)
    ensures x in q && q[x] == store[x]
  {
    hide Base, Grown;
    BaseLength(store, ids, FirstGroup(t) != group);
    if ids != [] { GrownAt(Base(store, ids, FirstGroup(t) != group), group, names, n, |ids| - 1); }
  }

  /** The group after the chain's last object, and the group the range starts in. */
  ghost predicate Continues(store: Objects, ids: seq<nat>, t: Range, group: nat)
    requires forall i :: 0 <= i < |ids| ==> ids[i] in store
  {
    && RangeOk(t) && group % PER == 0 && (FirstGroup(t) == group ==> t.start == group)
    && if ids == [] then FirstGroup(t) == group
       else group == store[ids[|ids| - 1]].start + PER && (FirstGroup(t) == group || FirstGroup(t) + PER == group)
  }

  /** Puts the parts together. */
  lemma AppendResult(
    store: Objects, head: nat, ids: seq<nat>, t: Range, group: nat, names: nat -> nat, n: nat, q: Objects)
    requires IsChain(store, head, ids) && Names(names, store) && Continues(store, ids, t, group)
    requires n == NewCount(t, group)
    requires TailDone(store, q, ids, names, n, t) && NewDone(q, group, names, n, t) && OthersSame(store, q, ids)
    ensures ids == [] ==> n > 0
    ensures Result(store, ids, q, if ids == [] then names(0) else head,
      Ids(Grown(Base(store, ids, FirstGroup(t) != group), group, names, n)),
                   if n > 0 then names(n - 1) else ids[|ids| - 1], t)
  {
    hide TailDone, NewDone, OthersSame, Staged, Marked, Result, WroteFirst, Complete, IsChain, Base, Grown, Names;
    ChainInStore(store, head, ids);
    ChainHead(store, head, ids);
    BaseLength(store, ids, FirstGroup(t) != group);
    var base := Base(store, ids, FirstGroup(t) != group);
    var nodes := Grown(base, group, names, n);
    Aligned(t.start);
    BaseMarked(store, head, ids, t, group, names);
    GrownMarked(store, ids, base, t, group, names, n);
    CountReachesEnd(t, group);
    MarkedComplete(store, ids, nodes, t, names, n);
    CompleteParts(store, ids, nodes, t);
    AppendWrote(store, head, ids, t, group, names, n, q);
    Finished(store, q, head, ids, nodes, t);
    GrownAt(base, group, names, n, 0);
    GrownAt(base, group, names, n, |nodes| - 1);
  }

  /** Appends digests at the end of the chain. */
  method AppendTail(store: Objects, head: nat, t: Range, room: nat, names: nat -> nat, ghost ids: seq<nat>)
    returns (s: Status, q: Objects, head': nat, tail: nat, ghost ids': seq<nat>)
    requires IsChain(store, head, ids) && |ids| <= GUARD && Names(names, store)
    ensures s == Invalid <==> !RangeOk(t)
    ensures s == Unsupported <==> RangeOk(t) && !Appends(store, ids, t)
    ensures s == NoSpace <==> RangeOk(t) && Appends(store, ids, t) && room < WriteCount(store, ids, t)
    ensures s == Done || s == NoSpace || s == Invalid || s == Unsupported
    ensures s == Done ==> Result(store, ids, q, head', ids', tail, t)
  {
    hide Result, FilledTail, Names, NewCount, IsChain, Base, Grown, OthersSame, TailDone, NewDone, WriteCount;
    ChainInStore(store, head, ids);
    ChainEmpty(store, head, ids);
    q, head', tail, ids' := store, head, 0, ids;
    if !RangeOk(t) { return Invalid, q, head', tail, ids'; }
    if head == 0 {
      if t.start != 0 { return Unsupported, q, head', tail, ids'; }
      var n := NewCount(t, 0);
      WritesFromScratch(store, ids, t);
      if n > room { return NoSpace, q, head', tail, ids'; }
      q := WriteNew(store, 0, names, n, t, store);
      AppendDone(store, store, q, ids, 0, names, n, t);
      AppendResult(store, head, ids, t, 0, names, n, q);
      ids' := Ids(Grown(Base(store, ids, FirstGroup(t) != 0), 0, names, n));
      return Done, q, names(0), names(n - 1), ids';
    }
    s, tail := Tail(store, head, ids);
    var o := store[tail];
    TailGood(store, head, ids);
    if o.count == 0 || o.count > PER || t.start != o.start + o.count { return Unsupported, q, head', tail, ids'; }
    var group := o.start + PER;
    var n := NewCount(t, group);
    WritesAtTheEnd(store, head, ids, t);
    if 1 + n > room { return NoSpace, q, head', tail, ids'; }
    WhereItStarts(t, o);
    var q1 := store[tail := FilledTail(o, t, if n > 0 then names(0) else 0)];
    q := WriteNew(q1, group, names, n, t, store);
    AppendDone(store, q1, q, ids, group, names, n, t);
    AppendResult(store, head, ids, t, group, names, n, q);
    ids' := Ids(Grown(Base(store, ids, FirstGroup(t) != group), group, names, n));
    if n > 0 { tail := names(n - 1); }
    s := Done;
  }

  lemma ChainEmpty(store: Objects, head: nat, ids: seq<nat>)
    requires IsChain(store, head, ids)
    ensures head == 0 <==> ids == []
  {
  }

  lemma AppendDone(
    store: Objects, q1: Objects, q: Objects, ids: seq<nat>, group: nat, names: nat -> nat, n: nat, t: Range)
    requires Names(names, store) && forall i :: 0 <= i < |ids| ==> ids[i] in store
    requires if ids == [] then q1 == store
      else q1 == store[ids[|ids| - 1] := FilledTail(store[ids[|ids| - 1]], t, if n > 0 then names(0) else 0)]
    requires NewDone(q, group, names, n, t)
    requires forall x :: (forall i: nat :: i < n ==> names(i) != x) ==>
      (x in q <==> x in q1) && (x in q ==> q[x] == q1[x])
    ensures TailDone(store, q, ids, names, n, t) && OthersSame(store, q, ids)
  {
    hide FilledTail, NewDone;
    forall x | x in store ensures x in q && q[x] == q1[x] { assert forall i: nat :: i < n ==> names(i) != x; }
  }

  lemma TailGood(store: Objects, head: nat, ids: seq<nat>)
    requires IsChain(store, head, ids) && ids != []
    ensures store[ids[|ids| - 1]].start % PER == 0 && 0 < store[ids[|ids| - 1]].count <= PER
  {
  }

  lemma WhereItStarts(t: Range, o: Obj)
    requires o.start % PER == 0 && 0 < o.count <= PER && t.start == o.start + o.count
    ensures FirstGroup(t) == o.start || FirstGroup(t) == o.start + PER == t.start
    ensures (o.start + PER) % PER == 0
  {
    Aligned(t.start);
  }

  /** The digest of block `b` when the range is recorded and nothing else changes. */
  ghost function Expected(store: Objects, ids: seq<nat>, t: Range, b: nat): Option<Digest> {
    if Touched(t, b) then Some(t.digests[b - t.start]) else At(store, ids, b)
  }

  /** Where a range continues the recorded digests, no slot comes into use unasked. */
  lemma AppendIsExact(store: Objects, head: nat, ids: seq<nat>, q: Objects, ids': seq<nat>, t: Range, b: nat)
    requires IsChain(store, head, ids) && Appends(store, ids, t) && Recorded(store, ids, q, ids', t)
    ensures At(q, ids', b) == Expected(store, ids, t, b)
  {
    hide Good, At;
    assert At(q, ids', b) == RecordedAt(At(store, ids, b), SlotAt(store, ids, b), b, t);
    if !Touched(t, b) && Group(b) == FirstGroup(t) && b < t.start && ids != [] {
      TailGood(store, head, ids);
      WhereItStarts(t, store[ids[|ids| - 1]]);
      Aligned(b);
      AtObject(store, ids, |ids| - 1, b);
    }
    Aligned(b);
  }

  lemma GroupsFrom(t: Range, group: nat)
    requires RangeOk(t) && group % PER == 0
    requires FirstGroup(t) == group || (FirstGroup(t) + PER == group && t.start < group)
    ensures Groups(t) == NewCount(t, group) + if FirstGroup(t) == group then 0 else 1
  {
    CountReachesEnd(t, group);
    GroupsOrdered(t);
    var n := NewCount(t, group);
    assert LastGroup(t) - FirstGroup(t) == (n - 1) * PER + (group - FirstGroup(t));
    if FirstGroup(t) == group { Exactly(n - 1); } else { Exactly(n); }
  }

  lemma Exactly(n: int)
    ensures n * PER / PER == n
  {
  }

  lemma WritesFromScratch(store: Objects, ids: seq<nat>, t: Range)
    requires RangeOk(t) && ids == [] && t.start == 0
    ensures WriteCount(store, ids, t) == NewCount(t, 0)
  {
    GroupsFrom(t, 0);
  }

  /** At the end of a chain the tail is always written: it takes digests or a new link. */
  lemma WritesAtTheEnd(store: Objects, head: nat, ids: seq<nat>, t: Range)
    requires IsChain(store, head, ids) && ids != [] && RangeOk(t) && Appends(store, ids, t)
    ensures WriteCount(store, ids, t) == 1 + NewCount(t, store[ids[|ids| - 1]].start + PER)
  {
    var last := |ids| - 1;
    var o := store[ids[last]];
    TailGood(store, head, ids);
    WhereItStarts(t, o);
    GroupsFrom(t, o.start + PER);
    if FirstGroup(t) == o.start {
      assert HasGroup(store, ids, o.start);
    } else {
      assert ids[last] in store && store[ids[last]].start < FirstGroup(t);
      forall k | 0 <= k < |ids| ensures store[ids[k]].start <= o.start {
        assert k < last ==> store[ids[k]].start < store[ids[last]].start;
      }
    }
  }

  /** Appending and the general update, each applied to the same chain: they succeed together,
      and afterwards every block has the same digest in both. */
  method AppendBothWays(store: Objects, head: nat, t: Range, room: nat, names: nat -> nat, ghost ids: seq<nat>)
    returns (s: Status, q: Objects, ghost ids': seq<nat>, s': Status, r: Objects, ghost ids'': seq<nat>)
    requires IsChain(store, head, ids) && |ids| <= GUARD && Names(names, store)
    ensures s != Unsupported ==> s == s'
    ensures s == Done ==> forall b: nat :: At(q, ids', b) == At(r, ids'', b) == Expected(store, ids, t, b)
  {
    hide IsChain, Names, Recorded, WriteCount, At, Expected;
    ChainInStore(store, head, ids);
    var h, tail;
    s, q, h, tail, ids' := AppendTail(store, head, t, room, names, ids);
    s', r, h, tail, ids'' := SetRange(store, head, t, room, names, ids);
    if s == Done {
      forall b: nat
        ensures At(q, ids', b) == At(r, ids'', b) == Expected(store, ids, t, b)
      {
        AppendIsExact(store, head, ids, q, ids', t, b);
        AppendIsExact(store, head, ids, r, ids'', t, b);
      }
    }
  }
}
