/** The two ways to record digests: for any range, and at the end of the chain. */
module Checksums {
  import opened ChecksumChain
  import opened ChecksumUpdate
  import opened ChecksumStore

  /** The chain as nodes that nothing has touched yet. */
  ghost function Viewed(store: Objects, ids: seq<nat>): seq<Node>
    requires forall i :: 0 <= i < |ids| ==> ids[i] in store
  {
    seq(|ids|, (i: nat) requires i < |ids| => View(ids[i], store[ids[i]]))
  }

  lemma ViewedStaged(store: Objects, head: nat, ids: seq<nat>)
    requires IsChain(store, head, ids)
    ensures Staged(store, ids, Viewed(store, ids)) && Ids(Viewed(store, ids)) == ids
  {
    hide Good, Staged;
    var nodes := Viewed(store, ids);
    assert Ids(nodes) == ids;
    forall i | 0 <= i < |nodes| ensures Views(store, nodes[i]) { assert ids[i] != 0 && Good(store[ids[i]]); }
    CollectedStaged(store, head, nodes);
  }

  /** The last object of the chain: `None` for an empty one. */
  method Tail(store: Objects, head: nat, ghost ids: seq<nat>) returns (s: Status, id: nat)
    ensures IsChain(store, head, ids) && 0 < |ids| <= GUARD ==> s == Done && id == ids[|ids| - 1]
    ensures IsChain(store, head, ids) && ids == [] ==> s == Missing
    ensures s == Done ==> id in store && id != 0
    ensures s != Invalid
  {
    id := head;
    if head == 0 { return Missing, id; }
    ghost var fine := IsChain(store, head, ids) && |ids| <= GUARD;
    var previous := 0;
    for n := 0 to GUARD
      invariant id != 0
      invariant fine ==> n < |ids| && id == ids[n] && (n > 0 ==> previous == store[ids[n - 1]].start)
    {
      if id !in store { return Missing, id; }
      var o := store[id];
      if fine && n > 0 { assert store[ids[n - 1]].start < store[ids[n]].start; }
      if o.start % PER != 0 || (n > 0 && o.start < previous) { return Corrupt, id; }
      if fine { assert o.next == NextOf(ids, n); }
      if o.next == 0 { return Done, id; }
      previous, id := o.start, o.next;
    }
    s := Loop;
  }

  /** The chain has an object for the group. */
  ghost predicate HasGroup(store: Objects, ids: seq<nat>, group: nat) {
    exists k :: 0 <= k < |ids| && ids[k] in store && store[ids[k]].start == group
  }

  /** How many objects recording a range has to write: one for every touched group, and the
      object before the first of them when that group is new and has to be linked in. */
  ghost function WriteCount(store: Objects, ids: seq<nat>, t: Range): nat
    requires t.digests != []
  {
    Groups(t) + if !HasGroup(store, ids, FirstGroup(t)) && HasBefore(store, ids, FirstGroup(t)) then 1 else 0
  }

  ghost predicate HasBefore(store: Objects, ids: seq<nat>, group: nat) {
    exists k :: 0 <= k < |ids| && ids[k] in store && store[ids[k]].start < group
  }

  lemma RelinksOne(store: Objects, ids: seq<nat>, nodes: seq<Node>, t: Range)
    requires Ids(nodes) == ids && forall i :: 0 <= i < |nodes| ==> Views(store, nodes[i])
    ensures Relinked(nodes, t) <==> !HasGroup(store, ids, FirstGroup(t)) && HasBefore(store, ids, FirstGroup(t))
  {
    forall i | 0 <= i < |nodes| ensures ids[i] in store && store[ids[i]].start == nodes[i].start {
      assert Ids(nodes)[i] == nodes[i].id && Views(store, nodes[i]);
    }
  }

  /** The object of one group, if the chain has it. */
  method FindGroup(store: Objects, head: nat, group: nat, ghost ids: seq<nat>)
    returns (s: Status, id: nat, ghost at: nat)
    ensures IsChain(store, head, ids) && |ids| <= GUARD ==> s == Done || s == Missing
    ensures IsChain(store, head, ids) && |ids| <= GUARD && s == Done ==> at < |ids| && id == ids[at]
    ensures IsChain(store, head, ids) && |ids| <= GUARD && s == Done ==> store[id].start == group
    ensures IsChain(store, head, ids) && |ids| <= GUARD && s == Missing ==> !HasGroup(store, ids, group)
    ensures s == Done ==> id in store
    ensures s != Invalid
  {
    id, at := head, 0;
    ghost var fine := IsChain(store, head, ids) && |ids| <= GUARD;
    var previous := 0;
    for n := 0 to GUARD
      invariant fine ==> n <= |ids| && id == (if n < |ids| then ids[n] else 0)
      invariant fine ==> (n > 0 ==> previous == store[ids[n - 1]].start)
      invariant fine ==> forall k :: 0 <= k < n ==> store[ids[k]].start < group
    {
      if id == 0 { return Missing, id, n; }
      if id !in store { return Missing, id, n; }
      var o := store[id];
      if fine && n > 0 { assert store[ids[n - 1]].start < store[ids[n]].start; }
      if o.start % PER != 0 || (n > 0 && o.start <= previous) { return Corrupt, id, n; }
      if o.start == group { return Done, id, n; }
      if o.start > group {
        if fine { assert forall k :: n < k < |ids| ==> store[ids[n]].start < store[ids[k]].start; }
        return Missing, id, n;
      }
      if fine { assert o.next == NextOf(ids, n); }
      previous, id := o.start, o.next;
    }
    s := Missing;
  }

  /** What both operations achieve. */
  ghost predicate Result(store: Objects, ids: seq<nat>, q: Objects, head: nat, ids': seq<nat>, tail: nat, t: Range) {
    && IsChain(q, head, ids') && ids' != [] && tail == ids'[|ids'| - 1]
    && Recorded(store, ids, q, ids', t) && (AllBlankPast(store, ids) ==> AllBlankPast(q, ids'))
    && forall x :: x in store && x !in ids ==> x in q && q[x] == store[x]
  }

  lemma Finished(store: Objects, q: Objects, head: nat, ids: seq<nat>, nodes: seq<Node>, t: Range)
    requires IsChain(store, head, ids) && Complete(store, ids, nodes, t) && Wrote(store, q, nodes, t) && nodes != []
    ensures Result(store, ids, q, nodes[0].id, Ids(nodes), nodes[|nodes| - 1].id, t)
  {
    hide IsChain, Recorded, After, Good, Linked, AllBlankPast;
    WroteChain(store, q, ids, nodes, t);
    WroteDigests(store, q, head, ids, nodes, t);
    if AllBlankPast(store, ids) { WroteBlank(store, q, ids, nodes, t); }
    forall x | x in store && x !in ids ensures x in q && q[x] == store[x] {
      forall i | 0 <= i < |nodes| && nodes[i].dirty ensures nodes[i].id != x { assert NodeOk(store, ids, nodes[i]); }
      assert Spared(nodes, |nodes|, x);
    }
  }

  /** One existing object takes the whole range: only that object is written. */
  lemma OneObject(store: Objects, head: nat, ids: seq<nat>, at: nat, t: Range, q: Objects)
    requires IsChain(store, head, ids) && at < |ids| && RangeOk(t)
    requires FirstGroup(t) == LastGroup(t) == store[ids[at]].start
    requires var o := store[ids[at]];
      q == store[ids[at] := Obj(o.start, Needed(o.count, o.start, t), Overlay(o.raw, o.start, t), o.next)]
    ensures Result(store, ids, q, head, ids, ids[|ids| - 1], t)
  {
    hide Good, Staged, Overlay, Needed, IsChain;
    ChainInStore(store, head, ids);
    var nodes := Viewed(store, ids);
    ViewedStaged(store, head, ids);
    TouchKeeps(store, ids, nodes, at);
    var r := Touch(nodes, at);
    assert Ids(r) == ids;
    OneComplete(store, ids, nodes, at, t);
    OneWrote(store, head, ids, at, t, q);
    Finished(store, q, head, ids, r, t);
    assert r[0].id == ids[0] && r[|r| - 1].id == ids[|ids| - 1];
    assert head == First(ids) by { ChainHead(store, head, ids); }
  }

  lemma ChainHead(store: Objects, head: nat, ids: seq<nat>)
    requires IsChain(store, head, ids)
    ensures head == First(ids)
  {
  }

  lemma ChainInStore(store: Objects, head: nat, ids: seq<nat>)
    requires IsChain(store, head, ids)
    ensures forall i :: 0 <= i < |ids| ==> ids[i] in store
  {
  }

  lemma OneComplete(store: Objects, ids: seq<nat>, nodes: seq<Node>, at: nat, t: Range)
    requires at < |nodes| && Staged(store, ids, Touch(nodes, at)) && RangeOk(t)
    requires FirstGroup(t) == LastGroup(t) == nodes[at].start
    requires forall i :: 0 <= i < |nodes| ==> !nodes[i].isNew
    ensures Complete(store, ids, Touch(nodes, at), t)
  {
    hide Staged;
    var r := Touch(nodes, at);
    forall b: nat | Touched(t, b) ensures Has(r, Group(b)) {
      GroupOrder(t.start, b);
      GroupOrder(b, Stop(t) - 1);
      assert r[at].start == Group(b) && r[at].dirty;
    }
  }

  lemma OneStored(store: Objects, head: nat, ids: seq<nat>, at: nat, t: Range, q: Objects, i: nat)
    requires IsChain(store, head, ids) && at < |ids| && i < |ids|
    requires var o := store[ids[at]];
      q == store[ids[at] := Obj(o.start, Needed(o.count, o.start, t), Overlay(o.raw, o.start, t), o.next)]
    ensures Stored(store, q, Touch(Viewed(store, ids), at), i, t)
  {
    hide Overlay, Needed, Good, Ordered;
    ChainInStore(store, head, ids);
    var nodes := Touch(Viewed(store, ids), at);
    assert nodes[i].id == ids[i] && Then(nodes, i, 0) == NextOf(ids, i) == store[ids[i]].next;
    if i != at { DifferentIds(store, head, ids, i, at); }
  }

  lemma OneWrote(store: Objects, head: nat, ids: seq<nat>, at: nat, t: Range, q: Objects)
    requires IsChain(store, head, ids) && at < |ids|
    requires var o := store[ids[at]];
      q == store[ids[at] := Obj(o.start, Needed(o.count, o.start, t), Overlay(o.raw, o.start, t), o.next)]
    ensures Wrote(store, q, Touch(Viewed(store, ids), at), t)
  {
    hide Overlay, Needed, Good, Stored, IsChain;
    ChainInStore(store, head, ids);
    var nodes := Touch(Viewed(store, ids), at);
    forall i: nat | i < |nodes| ensures Stored(store, q, nodes, i, t) { OneStored(store, head, ids, at, t, q, i); }
    forall x | x in store && Spared(nodes, |nodes|, x) ensures x in q && q[x] == store[x] {
      assert nodes[at].dirty && nodes[at].id == ids[at];
    }
  }

  lemma DifferentIds(store: Objects, head: nat, ids: seq<nat>, i: nat, j: nat)
    requires IsChain(store, head, ids) && i < |ids| && j < |ids| && i != j
    ensures ids[i] != ids[j]
  {
    if i < j {
      assert store[ids[i]].start < store[ids[j]].start;
    } else {
      assert store[ids[j]].start < store[ids[i]].start;
    }
  }

  /** The quick way for a range inside one group that the chain already has. */
  method UpdateExisting(store: Objects, head: nat, t: Range, room: nat, ghost ids: seq<nat>)
    returns (s: Status, q: Objects, tail: nat)
    ensures IsChain(store, head, ids) && |ids| <= GUARD && RangeOk(t) && s == Done ==>
      Result(store, ids, q, head, ids, tail, t)
    ensures s == Invalid <==> !RangeOk(t)
    ensures IsChain(store, head, ids) && |ids| <= GUARD && RangeOk(t) ==>
      && (s == Missing <==> FirstGroup(t) != LastGroup(t) || (room > 0 && !HasGroup(store, ids, FirstGroup(t))))
      && (s == NoSpace <==> FirstGroup(t) == LastGroup(t) && room == 0)
      && (s == Done || s == Missing || s == NoSpace)
  {
    hide IsChain, Result, Good, Overlay, Needed;
    q, tail := store, 0;
    if !RangeOk(t) { return Invalid, q, tail; }
    if LastGroup(t) != FirstGroup(t) { return Missing, q, tail; }
    if room == 0 { return NoSpace, q, tail; }
    s, tail := Tail(store, head, ids);
    if s != Done { return; }
    var id;
    ghost var at;
    s, id, at := FindGroup(store, head, FirstGroup(t), ids);
    if s != Done { return; }
    var o := store[id];
    if o.start != FirstGroup(t) || t.start - o.start + |t.digests| > PER {
      SameGroupFits(t);
      return Corrupt, q, tail;
    }
    q := store[id := Obj(o.start, Needed(o.count, o.start, t), Overlay(o.raw, o.start, t), o.next)];
    if IsChain(store, head, ids) && |ids| <= GUARD { OneObject(store, head, ids, at, t, q); }
  }

  lemma SameGroupFits(t: Range)
    requires RangeOk(t) && LastGroup(t) == FirstGroup(t)
    ensures t.start - FirstGroup(t) + |t.digests| <= PER
  {
    Aligned(t.start);
    Aligned(Stop(t) - 1);
  }

  /** Records digests for any range. */
  method SetRange(store: Objects, head: nat, t: Range, room: nat, names: nat -> nat, ghost ids: seq<nat>)
    returns (s: Status, q: Objects, head': nat, tail: nat, ghost ids': seq<nat>)
    requires IsChain(store, head, ids) && |ids| <= GUARD && Names(names, store)
    ensures s == Invalid <==> !RangeOk(t)
    ensures s == NoSpace <==> RangeOk(t) && room < WriteCount(store, ids, t)
    ensures s == Done || s == NoSpace || s == Invalid
    ensures s == Done ==> Result(store, ids, q, head', ids', tail, t)
  {
    hide IsChain, Result, Staged, Marked, Complete, WroteFirst, Views, Names, HasGroup, HasBefore, Relinked, Dirt;
    q, head', tail, ids' := store, head, 0, ids;
    if !RangeOk(t) { return Invalid, q, head', tail, ids'; }
    if FirstGroup(t) == LastGroup(t) {
      s, q, tail := UpdateExisting(store, head, t, room, ids);
      OneGroupOnly(t);
      if s != Missing { return; }
    }
    var nodes;
    s, nodes := Collect(store, head, ids);
    CollectedStaged(store, head, nodes);
    var used;
    Untouched(store, nodes);
    RelinksOne(store, ids, nodes, t);
    s, nodes, used := Mark(store, ids, nodes, t, names);
    MarkedComplete(store, ids, nodes, t, names, used);
    CompleteParts(store, ids, nodes, t);
    s, q := Rewrite(store, ids, nodes, t, room);
    if s != Done { return; }
    Finished(store, q, head, ids, nodes, t);
    head', tail, ids' := nodes[0].id, nodes[|nodes| - 1].id, Ids(nodes);
  }

  lemma Untouched(store: Objects, nodes: seq<Node>)
    requires forall i :: 0 <= i < |nodes| ==> Views(store, nodes[i])
    ensures forall i :: 0 <= i < |nodes| ==> !nodes[i].isNew && !nodes[i].dirty
  {
  }

  lemma OneGroupOnly(t: Range)
    requires t.digests != [] && FirstGroup(t) == LastGroup(t)
    ensures Groups(t) == 1
  {
  }

  lemma CompleteParts(store: Objects, ids: seq<nat>, nodes: seq<Node>, t: Range)
    requires Complete(store, ids, nodes, t)
    ensures Staged(store, ids, nodes) && nodes != []
    ensures forall i :: 0 <= i < |nodes| && nodes[i].isNew ==> Meets(t, nodes[i].start)
  {
    assert Touched(t, t.start);
    assert Has(nodes, Group(t.start));
  }
}
