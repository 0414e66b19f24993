/** Recording digests for a range of blocks anywhere in a file. */
module ChecksumUpdate {
  import opened Geometry
  import opened ChecksumChain

  /** The touched blocks and their digests. */
  datatype Range = Range(start: nat, digests: seq<Digest>)

  function Stop(t: Range): nat { t.start + |t.digests| }
  predicate Touched(t: Range, b: nat) { t.start <= b < Stop(t) }

  predicate RangeOk(t: Range) { t.digests != [] && Stop(t) <= U64_MAX }

  function FirstGroup(t: Range): nat { Group(t.start) }
  function LastGroup(t: Range): nat requires t.digests != [] { Group(Stop(t) - 1) }

  /** The group of object `start` meets the range. */
  predicate Meets(t: Range, start: nat) { start < Stop(t) && t.start < start + PER }

  /** The digests of the range copied over the slots of one object. */
  function Overlay(raw: Raw, start: nat, t: Range): (r: Raw)
    ensures forall j: nat :: j < PER ==>
      r[j] == if Touched(t, start + j) then t.digests[start + j - t.start] else raw[j]
  {
    var s: seq<Digest> := seq(PER, (j: nat) requires j < PER =>
      if Touched(t, start + j) then t.digests[start + j - t.start] else raw[j]);
    s
  }

  function Blank(): Raw { seq(PER, (_: nat) => ZERO) }

  function Larger(a: nat, b: nat): nat { if a < b then b else a }

  /** Slots in use after the copy: at least up to the last touched one. */
  function Needed(count: nat, start: nat, t: Range): nat {
    if Meets(t, start) then Larger(count, Min(start + PER, Stop(t)) - start) else count
  }

  function Before(store: Objects, n: Node): Obj {
    if !n.isNew && n.id in store then store[n.id] else Obj(n.start, 0, Blank(), 0)
  }

  /** The object as it is written back. */
  function After(store: Objects, n: Node, next: nat, t: Range): Obj {
    var o := Before(store, n);
    if !n.dirty then o else Obj(n.start, Needed(o.count, n.start, t), Overlay(o.raw, n.start, t), next)
  }

  /** Where the group search ends: the first node not before the group. */
  method Seek(nodes: seq<Node>, group: nat) returns (at: nat)
    ensures at <= |nodes| && (forall i :: 0 <= i < at ==> nodes[i].start < group)
    ensures at < |nodes| ==> nodes[at].start >= group
  {
    at := 0;
    while at < |nodes| && nodes[at].start < group
      invariant at <= |nodes| && forall i :: 0 <= i < at ==> nodes[i].start < group
    {
      at := at + 1;
    }
  }

  /** Names for new objects: never zero, never in use, never twice. */
  ghost predicate Names(names: nat -> nat, store: Objects) {
    && (forall i: nat :: names(i) != 0 && names(i) !in store)
    && (forall i: nat, j: nat :: i < j ==> names(i) != names(j))
  }

  /** Every group from the first one up to `group` has a marked node; new nodes are among
      these groups and took the first `used` names. */
  ghost predicate Marked(
    store: Objects, ids: seq<nat>, nodes: seq<Node>, t: Range, group: nat, names: nat -> nat, used: nat)
  {
    && Staged(store, ids, nodes)
    && (forall g: nat :: g % PER == 0 && FirstGroup(t) <= g < group ==> Has(nodes, g))
    && (forall i :: 0 <= i < |nodes| && nodes[i].isNew ==> FirstGroup(t) <= nodes[i].start < group)
    && (forall i :: 0 <= i < |nodes| && nodes[i].isNew ==> exists k: nat :: k < used && nodes[i].id == names(k))
  }

  ghost predicate Has(nodes: seq<Node>, g: nat) {
    exists i :: 0 <= i < |nodes| && nodes[i].start == g && nodes[i].dirty
  }

  lemma FreeName(store: Objects, ids: seq<nat>, nodes: seq<Node>, t: Range, group: nat, names: nat -> nat, used: nat)
    requires Names(names, store) && Marked(store, ids, nodes, t, group, names, used)
    ensures forall i :: 0 <= i < |nodes| ==> nodes[i].id != names(used)
  {
    forall i | 0 <= i < |nodes| ensures nodes[i].id != names(used) { assert NodeOk(store, ids, nodes[i]); }
  }

  /** The node of one more group: found or inserted at `at`, and marked. */
  lemma MarkOne(
    store: Objects, ids: seq<nat>, nodes: seq<Node>, t: Range, group: nat, names: nat -> nat, used: nat, at: nat)
    requires Names(names, store) && Marked(store, ids, nodes, t, group, names, used) && group % PER == 0
    requires FirstGroup(t) <= group
    requires at <= |nodes| && (forall i :: 0 <= i < at ==> nodes[i].start < group)
    requires at < |nodes| ==> nodes[at].start > group
    ensures Marked(store, ids, Inserted(nodes, at, names(used), group), t, group + PER, names, used + 1)
  {
    hide NodeOk, Staged, Inserted;
    var id := names(used);
    FreeName(store, ids, nodes, t, group, names, used);
    StagedOrder(store, ids, nodes);
    assert Slot(store, nodes, at, id, group);
    InsertKeeps(store, ids, nodes, at, id, group);
    var r := Inserted(nodes, at, id, group);
    InsertedAt(nodes, at, id, group, at);
    forall i | 0 <= i < |r| && r[i].isNew
      ensures FirstGroup(t) <= r[i].start < group + PER && exists k: nat :: k < used + 1 && r[i].id == names(k)
    {
      InsertedAt(nodes, at, id, group, i);
    }
    forall g: nat | g % PER == 0 && FirstGroup(t) <= g < group + PER ensures Has(r, g) {
      if g == group {
        assert r[at].start == g && r[at].dirty;
      } else {
        Between(g, group);
        assert Has(nodes, g);
        var i :| 0 <= i < |nodes| && nodes[i].start == g && nodes[i].dirty;
        var j := if i < at then i else i + 1;
        InsertedAt(nodes, at, id, group, j);
        assert r[j].start == g && r[j].dirty;
      }
    }
  }

  lemma Between(g: nat, group: nat)
    requires g % PER == 0 && group % PER == 0 && g < group + PER && g != group
    ensures g < group
  {
  }

  lemma StagedOrder(store: Objects, ids: seq<nat>, nodes: seq<Node>)
    requires Staged(store, ids, nodes)
    ensures forall i, j :: 0 <= i < j < |nodes| ==> nodes[i].start < nodes[j].start && nodes[i].id != nodes[j].id
  {
  }

  lemma MarkFound(
    store: Objects, ids: seq<nat>, nodes: seq<Node>, t: Range, group: nat, names: nat -> nat, used: nat, at: nat)
    requires Marked(store, ids, nodes, t, group, names, used) && group % PER == 0
    requires at < |nodes| && nodes[at].start == group
    ensures Marked(store, ids, Touch(nodes, at), t, group + PER, names, used)
  {
    hide NodeOk, Staged;
    TouchKeeps(store, ids, nodes, at);
    var r := Touch(nodes, at);
    forall g: nat | g % PER == 0 && FirstGroup(t) <= g < group + PER ensures Has(r, g) {
      if g == group {
        assert r[at].start == g && r[at].dirty;
      } else {
        Between(g, group);
        assert Has(nodes, g);
        var i :| 0 <= i < |nodes| && nodes[i].start == g && nodes[i].dirty;
        assert r[i].start == g && r[i].dirty;
      }
    }
  }

  /** How many groups the range touches. */
  function Groups(t: Range): nat
    requires t.digests != []
  {
    GroupsOrdered(t);
    (LastGroup(t) - FirstGroup(t)) / PER + 1
  }

  lemma GroupsOrdered(t: Range)
    requires t.digests != []
    ensures FirstGroup(t) <= LastGroup(t)
  {
  }

  /** The first touched group is new and comes after an existing object, which is relinked. */
  ghost predicate Relinked(nodes: seq<Node>, t: Range) {
    && (forall i :: 0 <= i < |nodes| ==> nodes[i].start != FirstGroup(t))
    && (exists i :: 0 <= i < |nodes| && nodes[i].start < FirstGroup(t))
  }

  /** What has been marked so far, counted. */
  ghost predicate Tallied(nodes: seq<Node>, collected: seq<Node>, t: Range, group: nat) {
    && FirstGroup(t) <= group
    && Dirt(nodes) == (group - FirstGroup(t)) / PER + (if group > FirstGroup(t) && Relinked(collected, t) then 1 else 0)
    && (forall i :: 0 <= i < |nodes| && nodes[i].dirty ==> nodes[i].start < group)
    && (group == FirstGroup(t) ==> nodes == collected)
  }

  /** Past the first group, a new node follows one that is marked already. */
  lemma PredecessorMarked(
    store: Objects, ids: seq<nat>, nodes: seq<Node>, t: Range, group: nat, names: nat -> nat, used: nat, at: nat)
    requires Marked(store, ids, nodes, t, group, names, used) && group % PER == 0 && FirstGroup(t) < group
    requires at <= |nodes| && (forall i :: 0 <= i < at ==> nodes[i].start < group)
    requires forall i :: at <= i < |nodes| ==> nodes[i].start >= group
    ensures at > 0 && nodes[at - 1].dirty
  {
    hide FirstGroup;
    PreviousGroup(t, group);
    var g := group - PER;
    assert Has(nodes, g);
    var j :| 0 <= j < |nodes| && nodes[j].start == g && nodes[j].dirty;
    assert NodeOk(store, ids, nodes[at - 1]);
    assert j < at - 1 ==> nodes[j].start < nodes[at - 1].start;
    if nodes[at - 1].start != g { Between(nodes[at - 1].start, g); }
  }

  lemma PreviousGroup(t: Range, group: nat)
    requires group % PER == 0 && FirstGroup(t) < group
    ensures FirstGroup(t) <= group - PER && (group - PER) % PER == 0
  {
    Aligned(t.start);
  }

  lemma AfterSeek(store: Objects, ids: seq<nat>, nodes: seq<Node>, group: nat, at: nat)
    requires Staged(store, ids, nodes) && at <= |nodes| && (at < |nodes| ==> nodes[at].start >= group)
    ensures forall i :: at <= i < |nodes| ==> nodes[i].start >= group
    ensures forall i :: at < i < |nodes| ==> nodes[i].start > group
  {
    forall i | at < i < |nodes| ensures nodes[i].start > group { assert nodes[at].start < nodes[i].start; }
  }

  lemma NextGroup(t: Range, group: nat)
    requires FirstGroup(t) <= group
    ensures (group + PER - FirstGroup(t)) / PER == (group - FirstGroup(t)) / PER + 1
  {
  }

  lemma TallyFound(store: Objects, ids: seq<nat>, nodes: seq<Node>, collected: seq<Node>, t: Range, group: nat, at: nat)
    requires Staged(store, ids, nodes) && Tallied(nodes, collected, t, group)
    requires at < |nodes| && nodes[at].start == group
    ensures Tallied(Touch(nodes, at), collected, t, group + PER)
  {
    DirtTouch(nodes, at);
    NextGroup(t, group);
  }

  lemma TallyInserted(
    store: Objects, ids: seq<nat>, nodes: seq<Node>, collected: seq<Node>, t: Range, group: nat,
    names: nat -> nat, used: nat, at: nat)
    requires Marked(store, ids, nodes, t, group, names, used) && Tallied(nodes, collected, t, group) && group % PER == 0
    requires at <= |nodes| && (forall i :: 0 <= i < at ==> nodes[i].start < group)
    requires forall i :: at <= i < |nodes| ==> nodes[i].start > group
    requires forall i :: 0 <= i < |collected| ==> !collected[i].dirty
    ensures Tallied(Inserted(nodes, at, names(used), group), collected, t, group + PER)
  {
    hide Staged, Inserted;
    DirtInserted(nodes, at, names(used), group);
    NextGroup(t, group);
    if FirstGroup(t) < group {
      PredecessorMarked(store, ids, nodes, t, group, names, used, at);
    } else {
      assert Relinked(collected, t) <==> at > 0;
    }
    var r := Inserted(nodes, at, names(used), group);
    InsertedAt(nodes, at, names(used), group, 0);
    forall i | 0 <= i < |r| && r[i].dirty ensures r[i].start < group + PER {
      InsertedAt(nodes, at, names(used), group, i);
    }
  }

  /** Finds or inserts a node for every touched group. */
  method Mark(store: Objects, ghost ids: seq<nat>, collected: seq<Node>, t: Range, names: nat -> nat)
    returns (s: Status, nodes: seq<Node>, used: nat)
    requires Names(names, store) && Staged(store, ids, collected) && RangeOk(t)
    requires forall i :: 0 <= i < |collected| ==> !collected[i].isNew && !collected[i].dirty
    ensures s == Done
    ensures Marked(store, ids, nodes, t, LastGroup(t) + PER, names, used)
    ensures Dirt(nodes) == Groups(t) + if Relinked(collected, t) then 1 else 0
  {
    hide Staged, Marked, Tallied, Dirt, Relinked, Names, Inserted;
    nodes, used := collected, 0;
    var group := FirstGroup(t);
    MarkNone(store, ids, nodes, t, names);
    TallyNone(nodes, t);
    while true
      invariant Marked(store, ids, nodes, t, group, names, used) && group % PER == 0
      invariant FirstGroup(t) <= group <= LastGroup(t) && Tallied(nodes, collected, t, group)
      decreases LastGroup(t) - group
    {
      var at := Seek(nodes, group);
      MarkedStaged(store, ids, nodes, t, group, names, used);
      AfterSeek(store, ids, nodes, group, at);
      if at == |nodes| || nodes[at].start != group {
        MarkOne(store, ids, nodes, t, group, names, used, at);
        TallyInserted(store, ids, nodes, collected, t, group, names, used, at);
        nodes, used := Inserted(nodes, at, names(used), group), used + 1;
      } else {
        MarkFound(store, ids, nodes, t, group, names, used, at);
        TallyFound(store, ids, nodes, collected, t, group, at);
        nodes := Touch(nodes, at);
      }
      if group == LastGroup(t) { break; }
      if group > U64_MAX - PER { return Invalid, nodes, used; }
      StepGroup(t, group);
      group := group + PER;
    }
    TallyEnds(nodes, collected, t);
    s := Done;
  }

  lemma MarkedStaged(
    store: Objects, ids: seq<nat>, nodes: seq<Node>, t: Range, group: nat, names: nat -> nat, used: nat)
    requires Marked(store, ids, nodes, t, group, names, used)
    ensures Staged(store, ids, nodes)
  {
  }

  lemma TallyNone(nodes: seq<Node>, t: Range)
    requires forall i :: 0 <= i < |nodes| ==> !nodes[i].dirty
    ensures Tallied(nodes, nodes, t, FirstGroup(t))
  {
    DirtNone(nodes);
  }

  lemma TallyEnds(nodes: seq<Node>, collected: seq<Node>, t: Range)
    requires t.digests != [] && Tallied(nodes, collected, t, LastGroup(t) + PER)
    ensures Dirt(nodes) == Groups(t) + if Relinked(collected, t) then 1 else 0
  {
    GroupsOrdered(t);
    NextGroup(t, LastGroup(t));
  }

  lemma StepGroup(t: Range, group: nat)
    requires RangeOk(t) && group % PER == 0 && FirstGroup(t) <= group < LastGroup(t)
    ensures group + PER <= LastGroup(t) && (group + PER) % PER == 0 && group <= U64_MAX - PER
  {
  }

  lemma MarkNone(store: Objects, ids: seq<nat>, nodes: seq<Node>, t: Range, names: nat -> nat)
    requires Staged(store, ids, nodes) && forall i :: 0 <= i < |nodes| ==> !nodes[i].isNew
    ensures Marked(store, ids, nodes, t, FirstGroup(t), names, 0)
  {
  }
}
