/** A file's checksums: a chain of objects, each holding the digests of one group of blocks. */
module ChecksumChain {
  import opened Geometry

  /** Digests of one object, and how many links a walk follows before giving up. */
  const PER: nat := 123
  const GUARD: nat := 1048576
  const U64_MAX: nat := 0xFFFF_FFFF_FFFF_FFFF
  const ZERO: nat := 0

  /** A digest is kept as a number; `ZERO` is a slot of zero bytes. */
  type Digest = nat
  type Raw = s: seq<Digest> | |s| == PER witness seq(PER, _ => ZERO)

  datatype Status = Done | Missing | Corrupt | Loop | NoSpace | Invalid | Unsupported

  /** All slots of an object exist on disk; the first `count` of them are in use. */
  datatype Obj = Obj(start: nat, count: nat, raw: Raw, next: nat)
  type Objects = map<nat, Obj>

  function Group(b: nat): nat { b / PER * PER }

  predicate Good(o: Obj) { o.start % PER == 0 && 0 < o.count <= PER }

  function First(ids: seq<nat>): nat { if ids == [] then 0 else ids[0] }
  function NextOf(ids: seq<nat>, i: nat): nat { if i + 1 < |ids| then ids[i + 1] else 0 }

  ghost predicate Ordered(store: Objects, ids: seq<nat>) {
    && (forall i :: 0 <= i < |ids| ==> ids[i] in store)
    && (forall i, j :: 0 <= i < j < |ids| ==> store[ids[i]].start < store[ids[j]].start)
  }

  /** The objects `ids` form the chain from `head`: linked in order, in ascending groups. */
  ghost predicate IsChain(store: Objects, head: nat, ids: seq<nat>) {
    && head == First(ids) && Ordered(store, ids)
    && (forall i :: 0 <= i < |ids| ==> ids[i] != 0 && Good(store[ids[i]]) && store[ids[i]].next == NextOf(ids, i))
  }

  function Cell(o: Obj, b: nat): Option<Digest> { if b % PER < o.count then Some(o.raw[b % PER]) else None }

  /** The object of the chain that covers block `b`. */
  ghost function Holder(store: Objects, ids: seq<nat>, b: nat): Option<Obj> {
    if ids == [] then None
    else
      var last := ids[|ids| - 1];
      if last in store && store[last].start == Group(b) then Some(store[last]) else Holder(store, ids[..|ids| - 1], b)
  }

  /** The digest recorded for block `b`. */
  ghost function At(store: Objects, ids: seq<nat>, b: nat): Option<Digest> {
    var o := Holder(store, ids, b);
    if o.Some? then Cell(o.value, b) else None
  }

  /** What lies in the slot of block `b`, in use or not. */
  ghost function SlotAt(store: Objects, ids: seq<nat>, b: nat): Digest {
    var o := Holder(store, ids, b);
    if o.Some? then o.value.raw[b % PER] else ZERO
  }

  lemma {:induction false} AtObject(store: Objects, ids: seq<nat>, k: nat, b: nat)
    requires Ordered(store, ids) && k < |ids| && store[ids[k]].start == Group(b)
    ensures Holder(store, ids, b) == Some(store[ids[k]]) && At(store, ids, b) == Cell(store[ids[k]], b)
  {
    if k < |ids| - 1 { AtObject(store, ids[..|ids| - 1], k, b); }
  }

  lemma {:induction false} AtNowhere(store: Objects, ids: seq<nat>, b: nat)
    requires forall k :: 0 <= k < |ids| && ids[k] in store ==> store[ids[k]].start != Group(b)
    ensures Holder(store, ids, b) == None && At(store, ids, b) == None
  {
    if ids != [] { AtNowhere(store, ids[..|ids| - 1], b); }
  }

  lemma Aligned(b: nat)
    ensures Group(b) % PER == 0 && Group(b) <= b < Group(b) + PER && b % PER == b - Group(b)
  {
  }

  /** In-memory view of one object of the chain. */
  datatype Node = Node(id: nat, start: nat, count: nat, isNew: bool, dirty: bool)

  function Ids(nodes: seq<Node>): (ids: seq<nat>)
    ensures |ids| == |nodes| && forall i :: 0 <= i < |nodes| ==> ids[i] == nodes[i].id
  {
    seq(|nodes|, (i: nat) requires i < |nodes| => nodes[i].id)
  }

  ghost predicate Views(store: Objects, n: Node) {
    && n.id != 0 && n.id in store && store[n.id].start == n.start && store[n.id].count == n.count && Good(store[n.id])
    && !n.isNew && !n.dirty
  }

  function Then(nodes: seq<Node>, i: nat, current: nat): nat { if i + 1 < |nodes| then nodes[i + 1].id else current }

  /** The walk so far: the nodes are linked from `head`, and `current` comes next. */
  ghost predicate Walked(store: Objects, head: nat, nodes: seq<Node>, current: nat) {
    && (forall i :: 0 <= i < |nodes| ==> Views(store, nodes[i]))
    && head == (if nodes == [] then current else nodes[0].id)
    && (forall i :: 0 <= i < |nodes| ==> store[nodes[i].id].next == Then(nodes, i, current))
    && (forall i, j :: 0 <= i < j < |nodes| ==> nodes[i].start < nodes[j].start)
  }

  ghost predicate Matches(ids: seq<nat>, nodes: seq<Node>, current: nat) {
    |nodes| <= |ids| && Ids(nodes) == ids[..|nodes|] && current == if |nodes| < |ids| then ids[|nodes|] else 0
  }

  function View(id: nat, o: Obj): Node { Node(id, o.start, o.count, false, false) }

  predicate Follows(nodes: seq<Node>, o: Obj) { Good(o) && (nodes == [] || nodes[|nodes| - 1].start < o.start) }

  lemma WalkOn(store: Objects, head: nat, nodes: seq<Node>, current: nat)
    requires Walked(store, head, nodes, current) && current != 0 && current in store && Follows(nodes, store[current])
    ensures Walked(store, head, nodes + [View(current, store[current])], store[current].next)
  {
    var o := store[current];
    var more := nodes + [View(current, o)];
    forall i | 0 <= i < |nodes|
      ensures nodes[i].start < o.start
    {
      assert i < |nodes| - 1 ==> nodes[i].start < nodes[|nodes| - 1].start;
    }
    forall i | 0 <= i < |more| ensures more[i].id in store && store[more[i].id].next == Then(more, i, o.next) {
      if i < |nodes| { assert store[nodes[i].id].next == Then(nodes, i, current); }
    }
  }

  lemma WalkEnds(store: Objects, head: nat, nodes: seq<Node>)
    requires Walked(store, head, nodes, 0)
    ensures IsChain(store, head, Ids(nodes))
  {
    var ids := Ids(nodes);
    assert forall i :: 0 <= i < |ids| ==> ids[i] == nodes[i].id;
    forall i | 0 <= i < |ids| ensures NextOf(ids, i) == Then(nodes, i, 0) { }
  }

  /** On a good chain the next object is as it should be. */
  lemma MatchOn(store: Objects, head: nat, ids: seq<nat>, nodes: seq<Node>, current: nat)
    requires IsChain(store, head, ids) && Matches(ids, nodes, current) && Walked(store, head, nodes, current)
    requires current != 0
    ensures current in store && Follows(nodes, store[current]) && |nodes| < |ids|
    ensures Matches(ids, nodes + [View(current, store[current])], store[current].next)
  {
    var n := |nodes|;
    assert ids[n] == current;
    assert store[current].next == NextOf(ids, n);
    if n > 0 {
      assert Ids(nodes)[n - 1] == ids[..n][n - 1] == ids[n - 1];
      assert store[ids[n - 1]].start < store[ids[n]].start;
    }
    assert Ids(nodes + [View(current, store[current])]) == ids[..n] + [ids[n]] == ids[..n + 1];
  }

  /** Walks the chain. If `ids` is the chain from `head` and not too long, it is what comes back. */
  method Collect(store: Objects, head: nat, ghost ids: seq<nat>) returns (s: Status, nodes: seq<Node>)
    ensures s == Done ==> IsChain(store, head, Ids(nodes)) && forall i :: 0 <= i < |nodes| ==> Views(store, nodes[i])
    ensures IsChain(store, head, ids) && |ids| <= GUARD ==> s == Done && Ids(nodes) == ids
  {
    hide IsChain, Matches;
    nodes := [];
    var current := head;
    ghost var fine := IsChain(store, head, ids) && |ids| <= GUARD;
    if fine { MatchStart(store, head, ids); }
    while current != 0 && |nodes| < GUARD
      invariant |nodes| <= GUARD && Walked(store, head, nodes, current) && (fine ==> Matches(ids, nodes, current))
      decreases GUARD - |nodes|
    {
      if fine { MatchOn(store, head, ids, nodes, current); }
      if current !in store { return Missing, nodes; }
      if !Follows(nodes, store[current]) { return Corrupt, nodes; }
      WalkOn(store, head, nodes, current);
      nodes, current := nodes + [View(current, store[current])], store[current].next;
    }
    if fine { MatchEnds(store, head, ids, nodes, current); }
    if current != 0 { return Loop, nodes; }
    WalkEnds(store, head, nodes);
    s := Done;
  }

  lemma MatchStart(store: Objects, head: nat, ids: seq<nat>)
    requires IsChain(store, head, ids)
    ensures Matches(ids, [], head)
  {
    assert Ids([]) == ids[..0];
  }

  lemma MatchEnds(store: Objects, head: nat, ids: seq<nat>, nodes: seq<Node>, current: nat)
    requires IsChain(store, head, ids) && Matches(ids, nodes, current) && (current == 0 || |nodes| >= |ids|)
    ensures current == 0 && Ids(nodes) == ids
  {
    assert ids[..|ids|] == ids;
  }

  /** The nodes on the way to the new chain: in order; those not marked are linked already. */
  ghost predicate Staged(store: Objects, ids: seq<nat>, nodes: seq<Node>) {
    && (forall i, j :: 0 <= i < j < |nodes| ==> nodes[i].start < nodes[j].start && nodes[i].id != nodes[j].id)
    && (forall i :: 0 <= i < |nodes| ==> NodeOk(store, ids, nodes[i]))
    && (forall i: nat :: i < |nodes| && !nodes[i].dirty ==> Linked(store, nodes, i))
    && (forall x :: x in ids ==> exists i :: 0 <= i < |nodes| && nodes[i].id == x && !nodes[i].isNew)
  }

  ghost predicate Linked(store: Objects, nodes: seq<Node>, i: nat) {
    i < |nodes| && nodes[i].id in store && store[nodes[i].id].next == Then(nodes, i, 0)
  }

  ghost predicate NodeOk(store: Objects, ids: seq<nat>, n: Node) {
    && n.id != 0 && n.start % PER == 0
    && if n.isNew then n.dirty && n.id !in store
       else
         && n.id in ids && n.id in store && store[n.id].start == n.start && store[n.id].count == n.count
         && Good(store[n.id])
  }

  lemma CollectedNode(store: Objects, head: nat, nodes: seq<Node>, i: nat)
    requires IsChain(store, head, Ids(nodes)) && i < |nodes| && Views(store, nodes[i])
    ensures NodeOk(store, Ids(nodes), nodes[i]) && Linked(store, nodes, i)
  {
    assert Ids(nodes)[i] == nodes[i].id && store[Ids(nodes)[i]].next == NextOf(Ids(nodes), i);
  }

  lemma CollectedStaged(store: Objects, head: nat, nodes: seq<Node>)
    requires IsChain(store, head, Ids(nodes)) && forall i :: 0 <= i < |nodes| ==> Views(store, nodes[i])
    ensures Staged(store, Ids(nodes), nodes)
  {
    hide Good, NodeOk, Linked;
    var ids := Ids(nodes);
    forall i, j | 0 <= i < j < |nodes| ensures nodes[i].start < nodes[j].start && nodes[i].id != nodes[j].id {
      assert ids[i] == nodes[i].id && ids[j] == nodes[j].id && store[ids[i]].start < store[ids[j]].start;
    }
    forall i: nat | i < |nodes|
      ensures NodeOk(store, ids, nodes[i]) && Linked(store, nodes, i)
    {
      CollectedNode(store, head, nodes, i);
    }
    forall x | x in ids ensures exists i :: 0 <= i < |nodes| && nodes[i].id == x && !nodes[i].isNew {
      var i :| 0 <= i < |ids| && ids[i] == x;
      assert nodes[i].id == x;
    }
  }

  function Touch(nodes: seq<Node>, at: nat): seq<Node> requires at < |nodes| { nodes[at := nodes[at].(dirty := true)] }

  /** A new node before position `at`; its predecessor has to be relinked. */
  function Inserted(nodes: seq<Node>, at: nat, id: nat, start: nat): seq<Node>
    requires at <= |nodes|
  {
    (if at > 0 then Touch(nodes[..at], at - 1) else []) + [Node(id, start, 0, true, true)] + nodes[at..]
  }

  /** How many nodes have to be written back. */
  function Dirt(nodes: seq<Node>): nat {
    if nodes == [] then 0 else Dirt(nodes[..|nodes| - 1]) + if nodes[|nodes| - 1].dirty then 1 else 0
  }

  lemma {:induction false} DirtConcat(a: seq<Node>, b: seq<Node>)
    ensures Dirt(a + b) == Dirt(a) + Dirt(b)
  {
    if b == [] {
      assert a + b == a;
    } else {
      DirtConcat(a, b[..|b| - 1]);
      assert (a + b)[..|a + b| - 1] == a + b[..|b| - 1];
    }
  }

  lemma {:induction false} DirtNone(nodes: seq<Node>)
    requires forall i :: 0 <= i < |nodes| ==> !nodes[i].dirty
    ensures Dirt(nodes) == 0
  {
    if nodes != [] { DirtNone(nodes[..|nodes| - 1]); }
  }

  lemma DirtOne(n: Node)
    ensures Dirt([n]) == if n.dirty then 1 else 0
  {
    assert [n][..0] == [];
  }

  lemma DirtTouch(nodes: seq<Node>, at: nat)
    requires at < |nodes|
    ensures Dirt(Touch(nodes, at)) == Dirt(nodes) + if nodes[at].dirty then 0 else 1
  {
    hide Dirt;
    var a, b := nodes[..at], nodes[at + 1..];
    assert nodes == a + [nodes[at]] + b && Touch(nodes, at) == a + [nodes[at].(dirty := true)] + b;
    DirtConcat(a + [nodes[at]], b);
    DirtConcat(a + [nodes[at].(dirty := true)], b);
    DirtConcat(a, [nodes[at]]);
    DirtConcat(a, [nodes[at].(dirty := true)]);
    DirtOne(nodes[at]);
    DirtOne(nodes[at].(dirty := true));
  }

  /** A new node is written, and its predecessor unless it is written already. */
  lemma DirtInserted(nodes: seq<Node>, at: nat, id: nat, start: nat)
    requires at <= |nodes|
    ensures Dirt(Inserted(nodes, at, id, start)) == Dirt(nodes) + 1 + if at > 0 && !nodes[at - 1].dirty then 1 else 0
  {
    hide Dirt;
    var a := if at > 0 then Touch(nodes[..at], at - 1) else [];
    var n := Node(id, start, 0, true, true);
    DirtOne(n);
    DirtConcat(a + [n], nodes[at..]);
    DirtConcat(a, [n]);
    DirtConcat(nodes[..at], nodes[at..]);
    assert nodes == nodes[..at] + nodes[at..];
    if at > 0 { DirtTouch(nodes[..at], at - 1); } else { assert nodes[..at] == []; }
  }

  lemma DirtStep(nodes: seq<Node>, n: nat)
    requires n < |nodes|
    ensures Dirt(nodes[..n + 1]) == Dirt(nodes[..n]) + if nodes[n].dirty then 1 else 0
  {
    assert nodes[..n + 1][..n] == nodes[..n];
  }

  lemma DirtPrefix(nodes: seq<Node>, n: nat)
    requires n <= |nodes|
    ensures Dirt(nodes[..n]) <= Dirt(nodes)
  {
    DirtConcat(nodes[..n], nodes[n..]);
    assert nodes == nodes[..n] + nodes[n..];
  }

  lemma InsertedAt(nodes: seq<Node>, at: nat, id: nat, start: nat, i: nat)
    requires at <= |nodes| && i <= |nodes|
    ensures var r := Inserted(nodes, at, id, start);
      && |r| == |nodes| + 1
      && r[i] == if i == at then Node(id, start, 0, true, true)
                 else if i + 1 == at then nodes[i].(dirty := true) else if i < at then nodes[i] else nodes[i - 1]
  {
  }

  /** A place for a new node in the order. */
  ghost predicate Slot(store: Objects, nodes: seq<Node>, at: nat, id: nat, start: nat) {
    && at <= |nodes| && id != 0 && id !in store && start % PER == 0
    && (forall i :: 0 <= i < |nodes| ==> nodes[i].id != id)
    && (forall i :: 0 <= i < at ==> nodes[i].start < start)
    && (forall i :: at <= i < |nodes| ==> start < nodes[i].start)
  }

  lemma InsertOrder(store: Objects, ids: seq<nat>, nodes: seq<Node>, at: nat, id: nat, start: nat)
    requires Staged(store, ids, nodes) && Slot(store, nodes, at, id, start)
    ensures var r := Inserted(nodes, at, id, start);
      forall i, j :: 0 <= i < j < |r| ==> r[i].start < r[j].start && r[i].id != r[j].id
  {
    hide NodeOk, Inserted;
    var r := Inserted(nodes, at, id, start);
    InsertedAt(nodes, at, id, start, 0);
    forall i, j | 0 <= i < j < |r| ensures r[i].start < r[j].start && r[i].id != r[j].id {
      InsertedAt(nodes, at, id, start, i);
      InsertedAt(nodes, at, id, start, j);
    }
  }

  lemma InsertNodes(store: Objects, ids: seq<nat>, nodes: seq<Node>, at: nat, id: nat, start: nat)
    requires Staged(store, ids, nodes) && Slot(store, nodes, at, id, start)
    ensures var r := Inserted(nodes, at, id, start); forall i :: 0 <= i < |r| ==> NodeOk(store, ids, r[i])
  {
    hide Good, Inserted, Linked;
    var r := Inserted(nodes, at, id, start);
    InsertedAt(nodes, at, id, start, 0);
    forall i | 0 <= i < |r| ensures NodeOk(store, ids, r[i]) { InsertedAt(nodes, at, id, start, i); }
  }

  lemma InsertLinks(store: Objects, ids: seq<nat>, nodes: seq<Node>, at: nat, id: nat, start: nat)
    requires Staged(store, ids, nodes) && Slot(store, nodes, at, id, start)
    ensures var r := Inserted(nodes, at, id, start); forall i: nat :: i < |r| && !r[i].dirty ==> Linked(store, r, i)
  {
    hide NodeOk, Inserted, Slot;
    SlotInside(store, nodes, at, id, start);
    var r := Inserted(nodes, at, id, start);
    InsertedAt(nodes, at, id, start, 0);
    forall i: nat | i < |r| && !r[i].dirty ensures Linked(store, r, i) {
      InsertedAt(nodes, at, id, start, i);
      if i + 1 < |r| { InsertedAt(nodes, at, id, start, i + 1); }
      assert Linked(store, nodes, if i < at then i else i - 1);
    }
  }

  lemma SlotInside(store: Objects, nodes: seq<Node>, at: nat, id: nat, start: nat)
    requires Slot(store, nodes, at, id, start)
    ensures at <= |nodes|
  {
  }

  lemma InsertKeeps(store: Objects, ids: seq<nat>, nodes: seq<Node>, at: nat, id: nat, start: nat)
    requires Staged(store, ids, nodes) && Slot(store, nodes, at, id, start)
    ensures Staged(store, ids, Inserted(nodes, at, id, start))
  {
    hide Good, Inserted, NodeOk, Linked;
    var r := Inserted(nodes, at, id, start);
    InsertOrder(store, ids, nodes, at, id, start);
    InsertNodes(store, ids, nodes, at, id, start);
    InsertLinks(store, ids, nodes, at, id, start);
    InsertedAt(nodes, at, id, start, 0);
    forall x | x in ids ensures exists i :: 0 <= i < |r| && r[i].id == x && !r[i].isNew {
      var i :| 0 <= i < |nodes| && nodes[i].id == x && !nodes[i].isNew;
      var j := if i < at then i else i + 1;
      InsertedAt(nodes, at, id, start, j);
      assert r[j].id == x && !r[j].isNew;
    }
  }

  lemma TouchKeeps(store: Objects, ids: seq<nat>, nodes: seq<Node>, at: nat)
    requires Staged(store, ids, nodes) && at < |nodes|
    ensures Staged(store, ids, Touch(nodes, at))
  {
    hide Good;
    var r := Touch(nodes, at);
    forall i | 0 <= i < |r|
      ensures r[i].id == nodes[i].id && r[i].start == nodes[i].start && r[i].isNew == nodes[i].isNew
    {
    }
    forall i | 0 <= i < |r| ensures Then(r, i, 0) == Then(nodes, i, 0) { }
    forall x | x in ids ensures exists i :: 0 <= i < |r| && r[i].id == x && !r[i].isNew {
      var i :| 0 <= i < |nodes| && nodes[i].id == x && !nodes[i].isNew;
      assert r[i].id == x;
    }
  }
}
