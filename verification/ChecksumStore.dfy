/** Writing the marked objects back, and what the file's digests are afterwards. */
module ChecksumStore {
  import opened Geometry
  import opened ChecksumChain
  import opened ChecksumUpdate

  /** From `store` to `q` exactly the marked objects among the first `n` changed, each to
      what it has to be. */
  ghost predicate WroteFirst(store: Objects, q: Objects, nodes: seq<Node>, n: nat, t: Range) {
    && n <= |nodes| && (forall i: nat :: i < n ==> Stored(store, q, nodes, i, t))
    && (forall x :: x in store && Spared(nodes, n, x) ==> x in q && q[x] == store[x])
  }

  ghost predicate Wrote(store: Objects, q: Objects, nodes: seq<Node>, t: Range) {
    WroteFirst(store, q, nodes, |nodes|, t)
  }

  ghost predicate Spared(nodes: seq<Node>, n: nat, x: nat)
    requires n <= |nodes|
  {
    forall i :: 0 <= i < n && nodes[i].dirty ==> nodes[i].id != x
  }

  ghost predicate Stored(store: Objects, q: Objects, nodes: seq<Node>, i: nat, t: Range) {
    i < |nodes| && nodes[i].id in q && q[nodes[i].id] == After(store, nodes[i], Then(nodes, i, 0), t)
  }

  lemma WroteSkip(store: Objects, q: Objects, ids: seq<nat>, nodes: seq<Node>, n: nat, t: Range)
    requires Staged(store, ids, nodes) && WroteFirst(store, q, nodes, n, t) && n < |nodes| && !nodes[n].dirty
    ensures WroteFirst(store, q, nodes, n + 1, t)
  {
    hide Linked, Good, Overlay, Needed;
    assert NodeOk(store, ids, nodes[n]);
    assert Spared(nodes, n, nodes[n].id);
    forall x | x in store && Spared(nodes, n + 1, x) ensures x in q && q[x] == store[x] { assert Spared(nodes, n, x); }
  }

  lemma WroteOne(store: Objects, q: Objects, ids: seq<nat>, nodes: seq<Node>, n: nat, t: Range)
    requires Staged(store, ids, nodes) && WroteFirst(store, q, nodes, n, t) && n < |nodes| && nodes[n].dirty
    ensures WroteFirst(store, q[nodes[n].id := After(store, nodes[n], Then(nodes, n, 0), t)], nodes, n + 1, t)
  {
    hide Linked, NodeOk, After;
    var r := q[nodes[n].id := After(store, nodes[n], Then(nodes, n, 0), t)];
    forall i: nat | i < n + 1 ensures Stored(store, r, nodes, i, t) {
      if i < n { assert Stored(store, q, nodes, i, t) && nodes[i].id != nodes[n].id; }
    }
    forall x | x in store && Spared(nodes, n + 1, x) ensures x in r && r[x] == store[x] {
      assert Spared(nodes, n, x) && nodes[n].id != x;
    }
  }

  /** Writes the marked objects, as long as the change list has room. */
  method Rewrite(store: Objects, ghost ids: seq<nat>, nodes: seq<Node>, t: Range, room: nat)
    returns (s: Status, q: Objects)
    requires Staged(store, ids, nodes) && forall i :: 0 <= i < |nodes| && nodes[i].isNew ==> Meets(t, nodes[i].start)
    ensures s == Done || s == NoSpace
    ensures s == NoSpace <==> Dirt(nodes) > room
    ensures s == Done ==> Wrote(store, q, nodes, t)
  {
    hide Staged, WroteFirst, After, Dirt;
    q := store;
    var left: nat := room;
    WroteNone(store, nodes, t);
    DirtNone(nodes[..0]);
    for i := 0 to |nodes|
      invariant WroteFirst(store, q, nodes, i, t) && left + Dirt(nodes[..i]) == room
    {
      DirtStep(nodes, i);
      DirtPrefix(nodes, i + 1);
      if !nodes[i].dirty {
        WroteSkip(store, q, ids, nodes, i, t);
        continue;
      }
      if nodes[i].isNew && !Meets(t, nodes[i].start) { return Invalid, q; }
      if left == 0 { return NoSpace, q; }
      left := left - 1;
      WroteOne(store, q, ids, nodes, i, t);
      q := q[nodes[i].id := After(store, nodes[i], Then(nodes, i, 0), t)];
    }
    assert nodes[..|nodes|] == nodes;
    s := Done;
  }

  lemma WroteNone(store: Objects, nodes: seq<Node>, t: Range)
    ensures WroteFirst(store, store, nodes, 0, t)
  {
  }

  /** A node for every group up to the last touched one. */
  ghost predicate Complete(store: Objects, ids: seq<nat>, nodes: seq<Node>, t: Range) {
    && Staged(store, ids, nodes) && RangeOk(t)
    && (forall b: nat :: Touched(t, b) ==> Has(nodes, Group(b)))
    && (forall i :: 0 <= i < |nodes| && nodes[i].isNew ==> Meets(t, nodes[i].start))
  }

  lemma MarkedComplete(store: Objects, ids: seq<nat>, nodes: seq<Node>, t: Range, names: nat -> nat, used: nat)
    requires RangeOk(t) && Marked(store, ids, nodes, t, LastGroup(t) + PER, names, used)
    ensures Complete(store, ids, nodes, t)
  {
    hide Staged;
    forall b: nat | Touched(t, b) ensures Has(nodes, Group(b)) {
      Aligned(b);
      GroupOrder(t.start, b);
      GroupOrder(b, Stop(t) - 1);
    }
    forall i | 0 <= i < |nodes| && nodes[i].isNew ensures Meets(t, nodes[i].start) {
      NewAligned(store, ids, nodes, i);
      Aligned(t.start);
      Aligned(Stop(t) - 1);
      Steps(nodes[i].start, LastGroup(t));
    }
  }

  lemma Steps(a: nat, b: nat)
    requires a % PER == 0 && b % PER == 0 && a < b + PER
    ensures a <= b
  {
  }

  lemma NewAligned(store: Objects, ids: seq<nat>, nodes: seq<Node>, i: nat)
    requires Staged(store, ids, nodes) && i < |nodes|
    ensures nodes[i].start % PER == 0
  {
    assert NodeOk(store, ids, nodes[i]);
  }

  lemma GroupOrder(a: nat, b: nat)
    requires a <= b
    ensures Group(a) <= Group(b)
  {
  }

  lemma NeededFits(o: Obj, start: nat, t: Range)
    requires Good(o) || (o.count == 0 && Meets(t, start))
    ensures 0 < Needed(o.count, start, t) <= PER
  {
  }

  /** What was written is a chain again. */
  lemma WroteChain(store: Objects, q: Objects, ids: seq<nat>, nodes: seq<Node>, t: Range)
    requires Complete(store, ids, nodes, t) && Wrote(store, q, nodes, t)
    ensures IsChain(q, First(Ids(nodes)), Ids(nodes))
  {
    hide Overlay, Needed, Good;
    var new_ids := Ids(nodes);
    forall i: nat | i < |nodes|
      ensures new_ids[i] in q && q[new_ids[i]].start == nodes[i].start && GoodNode(q, new_ids, i)
    {
      WroteNode(store, q, ids, nodes, t, i);
    }
    forall i, j | 0 <= i < j < |nodes| ensures q[new_ids[i]].start < q[new_ids[j]].start {
      assert q[new_ids[i]].start == nodes[i].start && q[new_ids[j]].start == nodes[j].start;
    }
    assert forall i: nat :: i < |nodes| ==> GoodNode(q, new_ids, i);
  }

  ghost predicate GoodNode(q: Objects, ids: seq<nat>, i: nat) {
    i < |ids| && ids[i] in q && ids[i] != 0 && Good(q[ids[i]]) && q[ids[i]].next == NextOf(ids, i)
  }

  lemma WroteNode(store: Objects, q: Objects, ids: seq<nat>, nodes: seq<Node>, t: Range, i: nat)
    requires Complete(store, ids, nodes, t) && Wrote(store, q, nodes, t) && i < |nodes|
    ensures nodes[i].id in q && q[nodes[i].id].start == nodes[i].start && GoodNode(q, Ids(nodes), i)
  {
    hide Overlay, Needed;
    assert NodeOk(store, ids, nodes[i]) && Stored(store, q, nodes, i, t) && Ids(nodes)[i] == nodes[i].id;
    assert NextOf(Ids(nodes), i) == Then(nodes, i, 0);
    if nodes[i].dirty {
      NeededFits(Before(store, nodes[i]), nodes[i].start, t);
    } else {
      assert Linked(store, nodes, i);
    }
  }

  /** Digests recorded: the given ones in the range, everything else as before, except that
      slots between the old end of the first touched group and the range come into use with
      whatever lies in them, which is zero in a new object. */
  ghost predicate Recorded(store: Objects, ids: seq<nat>, q: Objects, ids': seq<nat>, t: Range) {
    forall b: nat :: At(q, ids', b) == RecordedAt(At(store, ids, b), SlotAt(store, ids, b), b, t)
  }

  function RecordedAt(before: Option<Digest>, slot: Digest, b: nat, t: Range): Option<Digest> {
    if Touched(t, b) then Some(t.digests[b - t.start])
    else if before.None? && Group(b) == FirstGroup(t) && b < t.start then Some(slot)
    else before
  }

  /** Block `b` gets a digest that nobody asked to record. */
  ghost predicate Exposed(store: Objects, ids: seq<nat>, t: Range, b: nat) {
    !Touched(t, b) && At(store, ids, b).None? && RecordedAt(None, SlotAt(store, ids, b), b, t).Some?
  }

  /** Slots in use in the group of block `b`. */
  ghost function InUse(store: Objects, ids: seq<nat>, b: nat): nat {
    var o := Holder(store, ids, b);
    if o.Some? then o.value.count else 0
  }

  lemma {:induction false} SameHolder(store: Objects, ids: seq<nat>, a: nat, b: nat)
    requires Group(a) == Group(b)
    ensures Holder(store, ids, a) == Holder(store, ids, b)
  {
    if ids != [] { SameHolder(store, ids[..|ids| - 1], a, b); }
  }

  /** That happens exactly when the range starts past the end of what its first group has. */
  lemma ExposedExactlyWhen(store: Objects, ids: seq<nat>, t: Range)
    ensures (exists b: nat :: Exposed(store, ids, t, b)) <==> InUse(store, ids, t.start) < t.start % PER
  {
    Aligned(t.start);
    if b: nat :| Exposed(store, ids, t, b) {
      Aligned(b);
      SameHolder(store, ids, b, t.start);
    }
    if InUse(store, ids, t.start) < t.start % PER {
      var b := t.start - 1;
      Aligned(b);
      SameGroup(t.start);
      SameHolder(store, ids, b, t.start);
      assert Exposed(store, ids, t, b);
    }
  }

  /** It happens: the first digests of a file, for block 5, give blocks 0 to 4 a digest too. */
  lemma ExposedAtFive()
    ensures forall b: nat :: b < 5 ==> Exposed(map[], [], Range(5, [7]), b)
    ensures forall b: nat :: b < 5 ==> RecordedAt(None, SlotAt(map[], [], b), b, Range(5, [7])) == Some(ZERO)
  {
  }

  /** The unused slots of an object are zero. */
  ghost predicate BlankPast(o: Obj) { forall j :: o.count <= j < PER ==> o.raw[j] == ZERO }

  ghost predicate AllBlankPast(store: Objects, ids: seq<nat>) {
    forall i :: 0 <= i < |ids| && ids[i] in store ==> BlankPast(store[ids[i]])
  }

  /** Counts only grow, so that stays so in every object the operations write. */
  lemma StaysBlank(o: Obj, start: nat, next: nat, t: Range)
    requires BlankPast(o)
    ensures BlankPast(Obj(start, Needed(o.count, start, t), Overlay(o.raw, start, t), next))
  {
  }

  lemma WroteBlank(store: Objects, q: Objects, ids: seq<nat>, nodes: seq<Node>, t: Range)
    requires Staged(store, ids, nodes) && Wrote(store, q, nodes, t) && AllBlankPast(store, ids)
    ensures AllBlankPast(q, Ids(nodes))
  {
    hide Overlay, Needed, Linked, Good;
    forall i: nat | i < |nodes| ensures nodes[i].id in q ==> BlankPast(q[nodes[i].id]) {
      assert Stored(store, q, nodes, i, t) && NodeOk(store, ids, nodes[i]);
      assert BlankPast(Before(store, nodes[i]));
      StaysBlank(Before(store, nodes[i]), nodes[i].start, Then(nodes, i, 0), t);
    }
  }

  /** Then a digest nobody asked for is zero. */
  lemma {:induction false} ExposedIsZero(store: Objects, ids: seq<nat>, t: Range, b: nat)
    requires AllBlankPast(store, ids) && Exposed(store, ids, t, b)
    ensures SlotAt(store, ids, b) == ZERO
  {
    HolderInside(store, ids, b);
  }

  lemma {:induction false} HolderInside(store: Objects, ids: seq<nat>, b: nat)
    ensures Holder(store, ids, b).Some? ==>
      exists i :: 0 <= i < |ids| && ids[i] in store && Holder(store, ids, b) == Some(store[ids[i]])
  {
    if ids != [] {
      var init := ids[..|ids| - 1];
      HolderInside(store, init, b);
      assert forall i :: 0 <= i < |init| ==> init[i] == ids[i];
    }
  }

  lemma SameGroup(b: nat)
    requires b % PER > 0
    ensures Group(b - 1) == Group(b) && (b - 1) % PER == b % PER - 1
  {
  }

  /** The cell of a marked object after the copy. */
  lemma CellAfter(o: Obj, start: nat, next: nat, t: Range, b: nat)
    requires start == Group(b) && RangeOk(t) && (Good(o) || (o.count == 0 && Meets(t, start)))
    ensures Cell(Obj(start, Needed(o.count, start, t), Overlay(o.raw, start, t), next), b)
      == RecordedAt(Cell(o, b), o.raw[b % PER], b, t)
  {
    Aligned(b);
    Aligned(t.start);
    var j := b % PER;
    assert start + j == b;
    if !Touched(t, b) && o.count <= j < Needed(o.count, start, t) {
      GapBefore(start, t, b);
    }
  }

  lemma GapBefore(start: nat, t: Range, b: nat)
    requires start == Group(b) && Meets(t, start) && b < Stop(t) && !Touched(t, b)
    ensures Group(b) == FirstGroup(t) && b < t.start
  {
    Aligned(b);
    Aligned(t.start);
    Steps(FirstGroup(t), start);
    Steps(start, FirstGroup(t));
  }

  lemma SameStart(store: Objects, ids: seq<nat>, nodes: seq<Node>, i: nat, j: nat)
    requires Staged(store, ids, nodes) && i < |nodes| && j < |nodes| && nodes[i].start == nodes[j].start
    ensures i == j
  {
  }

  lemma OtherStart(store: Objects, ids: seq<nat>, nodes: seq<Node>, i: nat, j: nat)
    requires Staged(store, ids, nodes) && i < |nodes| && j < |nodes| && i != j
    ensures nodes[i].start != nodes[j].start
  {
  }

  lemma OldCell(store: Objects, head: nat, ids: seq<nat>, nodes: seq<Node>, i: nat, b: nat)
    requires IsChain(store, head, ids) && Staged(store, ids, nodes) && i < |nodes| && nodes[i].start == Group(b)
    ensures At(store, ids, b) == Cell(Before(store, nodes[i]), b)
    ensures SlotAt(store, ids, b) == Before(store, nodes[i]).raw[b % PER]
  {
    hide Good, Linked;
    assert NodeOk(store, ids, nodes[i]);
    if nodes[i].isNew {
      forall k | 0 <= k < |ids| && ids[k] in store ensures store[ids[k]].start != Group(b) {
        assert ids[k] in ids;
        var m :| 0 <= m < |nodes| && nodes[m].id == ids[k] && !nodes[m].isNew;
        assert NodeOk(store, ids, nodes[m]);
        OtherStart(store, ids, nodes, i, m);
      }
      AtNowhere(store, ids, b);
    } else {
      var k :| 0 <= k < |ids| && ids[k] == nodes[i].id;
      AtObject(store, ids, k, b);
    }
  }

  lemma NoCell(store: Objects, ids: seq<nat>, nodes: seq<Node>, b: nat)
    requires Staged(store, ids, nodes) && forall i :: 0 <= i < |nodes| ==> nodes[i].start != Group(b)
    ensures At(store, ids, b) == None
  {
    forall k | 0 <= k < |ids| && ids[k] in store ensures store[ids[k]].start != Group(b) {
      assert ids[k] in ids;
      var m :| 0 <= m < |nodes| && nodes[m].id == ids[k] && !nodes[m].isNew;
      assert NodeOk(store, ids, nodes[m]);
    }
    AtNowhere(store, ids, b);
  }

  /** The digests after a complete rewrite. */
  lemma WroteDigests(store: Objects, q: Objects, head: nat, ids: seq<nat>, nodes: seq<Node>, t: Range)
    requires IsChain(store, head, ids) && Complete(store, ids, nodes, t) && Wrote(store, q, nodes, t)
    ensures Recorded(store, ids, q, Ids(nodes), t)
  {
    hide IsChain, Staged, Overlay, Needed, Good;
    WroteChain(store, q, ids, nodes, t);
    forall b: nat ensures At(q, Ids(nodes), b) == RecordedAt(At(store, ids, b), SlotAt(store, ids, b), b, t) {
      WroteDigest(store, q, head, ids, nodes, t, b);
    }
  }

  lemma WroteDigest(store: Objects, q: Objects, head: nat, ids: seq<nat>, nodes: seq<Node>, t: Range, b: nat)
    requires IsChain(store, head, ids) && Complete(store, ids, nodes, t) && Wrote(store, q, nodes, t)
    requires IsChain(q, First(Ids(nodes)), Ids(nodes))
    ensures At(q, Ids(nodes), b) == RecordedAt(At(store, ids, b), SlotAt(store, ids, b), b, t)
  {
    hide Overlay, Needed, Linked;
    if i: nat :| i < |nodes| && nodes[i].start == Group(b) {
      OldCell(store, head, ids, nodes, i, b);
      WroteNode(store, q, ids, nodes, t, i);
      assert Ids(nodes)[i] == nodes[i].id && Stored(store, q, nodes, i, t) && NodeOk(store, ids, nodes[i]);
      AtObject(q, Ids(nodes), i, b);
      if nodes[i].dirty {
        CellAfter(Before(store, nodes[i]), nodes[i].start, Then(nodes, i, 0), t, b);
      } else if Touched(t, b) || Group(b) == FirstGroup(t) {
        OneGroup(store, ids, nodes, i, b);
      }
    } else {
      NoCell(store, ids, nodes, b);
      forall i | 0 <= i < |nodes| ensures q[Ids(nodes)[i]].start != Group(b) { WroteNode(store, q, ids, nodes, t, i); }
      AtNowhere(q, Ids(nodes), b);
    }
  }

  lemma OneGroup(store: Objects, ids: seq<nat>, nodes: seq<Node>, i: nat, b: nat)
    requires Staged(store, ids, nodes) && i < |nodes| && nodes[i].start == Group(b) && Has(nodes, Group(b))
    ensures nodes[i].dirty
  {
    var m :| 0 <= m < |nodes| && nodes[m].start == Group(b) && nodes[m].dirty;
    SameStart(store, ids, nodes, i, m);
  }
}
