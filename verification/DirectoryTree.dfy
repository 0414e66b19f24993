/** Looking up, adding and removing names in a directory tree. */
module DirectoryTree {
  import opened Geometry
  import opened DirectoryPages
  import opened DirectoryStore
  import opened DirectoryBuild

  datatype Op = Add(entry: Entry) | Remove(name: Name)

  function Target(op: Op): Name { if op.Add? then op.entry.name else op.name }

  ghost predicate Absent(pol: Policy, es: set<Entry>, n: Name) { forall e :: e in es ==> !SameName(pol, e.name, n) }

  ghost function Without(pol: Policy, es: set<Entry>, n: Name): set<Entry> {
    set e | e in es && !SameName(pol, e.name, n)
  }

  /** What an operation makes of the set of entries. */
  ghost predicate Edits(pol: Policy, op: Op, before: set<Entry>, after: set<Entry>) {
    match op
    case Add(e) => Absent(pol, before, e.name) && after == before + {e}
    case Remove(n) => !Absent(pol, before, n) && after == Without(pol, before, n)
  }

  /** The subtree `r` is the subtree `node` after the operation. */
  ghost predicate Outcome(pol: Policy, op: Op, a: Snap, b: Snap, node: nat, r: nat, h: nat, prefix: Name) {
    && Ok(pol, b.pages, r, h, prefix)
    && Accounts(a, b, Reach(a.pages, node, h), Reach(b.pages, r, h))
    && Edits(pol, op, Entries(a.pages, node, h), Entries(b.pages, r, h))
  }

  /** A place in the tree where the operation can start. */
  ghost predicate Ready(pol: Policy, op: Op, s: Snap, node: nat, h: nat, prefix: Name) {
    && Good(pol) && Ok(pol, s.pages, node, h, prefix) && |prefix| + h == DIGEST && prefix <= Key(pol, Target(op))
    && (op.Add? ==> EntryOk(pol, op.entry))
    && Reach(s.pages, node, h) <= s.taken - s.retired && s.retired <= s.taken
  }

  method FindIn(pol: Policy, es: seq<Entry>, n: Name) returns (at: Option<nat>)
    ensures at.Some? ==> at.value < |es| && SameName(pol, es[at.value].name, n)
    ensures at.None? ==> forall i :: 0 <= i < |es| ==> !SameName(pol, es[i].name, n)
  {
    for i := 0 to |es|
      invariant forall k :: 0 <= k < i ==> !SameName(pol, es[k].name, n)
    {
      var same := NameEqual(pol, es[i].name, n);
      if same { return Some(i); }
    }
    at := None;
  }

  function Dropped(es: seq<Entry>, i: nat): seq<Entry> requires i < |es| { es[..i] + es[i + 1..] }

  lemma {:induction false} BytesConcat(a: seq<Entry>, b: seq<Entry>)
    ensures Bytes(a + b) == Bytes(a) + Bytes(b)
  {
    if b == [] {
      assert a + b == a;
    } else {
      BytesConcat(a, b[..|b| - 1]);
      assert (a + b)[..|a + b| - 1] == a + b[..|b| - 1];
    }
  }

  lemma DroppedOk(pol: Policy, es: seq<Entry>, i: nat, prefix: Name)
    requires EntriesOk(pol, es, prefix) && |es| > 1 && i < |es|
    ensures EntriesOk(pol, Dropped(es, i), prefix)
  {
    hide SameName, Key, EntryOk;
    var d := Dropped(es, i);
    forall k | 0 <= k < |d| ensures d[k] == es[if k < i then k else k + 1] { }
  }

  lemma DroppedBytes(es: seq<Entry>, i: nat)
    requires i < |es|
    ensures Bytes(Dropped(es, i)) <= Bytes(es)
  {
    hide Bytes;
    BytesConcat(es[..i], es[i + 1..]);
    BytesConcat(es[..i] + [es[i]], es[i + 1..]);
    BytesConcat(es[..i], [es[i]]);
    assert es == es[..i] + [es[i]] + es[i + 1..];
  }

  lemma DroppedEntries(pol: Policy, es: seq<Entry>, i: nat, n: Name)
    requires Twinless(pol, es) && i < |es| && SameName(pol, es[i].name, n)
    ensures AsSet(Dropped(es, i)) == Without(pol, AsSet(es), n)
  {
    var d := Dropped(es, i);
    forall e ensures e in d <==> e in es && !SameName(pol, e.name, n) {
      if e in d {
        var k :| 0 <= k < |d| && d[k] == e;
        var m := if k < i then k else k + 1;
        assert es[m] == e;
        assert m < i ==> !SameName(pol, es[m].name, es[i].name);
        assert i < m ==> !SameName(pol, es[i].name, es[m].name);
      }
      if e in es && !SameName(pol, e.name, n) {
        var m :| 0 <= m < |es| && es[m] == e;
        assert m < i ==> d[m] == e;
        assert m > i ==> d[m - 1] == e;
      }
    }
  }

  lemma AddedOk(pol: Policy, es: seq<Entry>, e: Entry, prefix: Name)
    requires EntriesOk(pol, es, prefix) && EntryOk(pol, e) && prefix <= Key(pol, e.name)
    requires forall i :: 0 <= i < |es| ==> !SameName(pol, es[i].name, e.name)
    ensures EntriesOk(pol, es + [e], prefix)
  {
    hide SameName, Key, EntryOk;
    var d := es + [e];
    forall k | 0 <= k < |es| ensures d[k] == es[k] { }
  }

  lemma AddedBytes(es: seq<Entry>, e: Entry)
    ensures Bytes(es + [e]) == Bytes(es) + Record(e.name) && AsSet(es + [e]) == AsSet(es) + {e}
  {
    assert (es + [e])[..|es|] == es;
  }

  /** The leaf holds `es` after the operation. */
  lemma LeafReplaced(
    pol: Policy, op: Op, a: Snap, b: Snap, own: set<nat>, node: nat, r: nat, h: nat, prefix: Name, es: seq<Entry>)
    requires Ready(pol, op, a, node, h, prefix) && node != 0 && PageAt(a.pages, node).Leaf?
    requires EntriesOk(pol, es, prefix) && Bytes(es) <= LEAF_BYTES && Replaced(a, b, own, node, Leaf(es), r)
    requires Edits(pol, op, AsSet(PageAt(a.pages, node).entries), AsSet(es))
    ensures Outcome(pol, op, a, b, node, r, h, prefix) && Steps(a, b, own, {node})
  {
    ReplacedSteps(a, b, own, node, Leaf(es), r);
  }

  lemma LeafGone(pol: Policy, op: Op, a: Snap, b: Snap, own: set<nat>, node: nat, h: nat, prefix: Name)
    requires Ready(pol, op, a, node, h, prefix) && node != 0 && PageAt(a.pages, node).Leaf? && op.Remove?
    requires |PageAt(a.pages, node).entries| == 1 && SameName(pol, PageAt(a.pages, node).entries[0].name, op.name)
    requires b == a.(retired := a.retired + {node})
    ensures Outcome(pol, op, a, b, node, 0, h, prefix) && Steps(a, b, own, {node})
  {
    var es := PageAt(a.pages, node).entries;
    assert es[0] in Entries(a.pages, node, h);
    forall e | e in es ensures e == es[0] { }
  }

  lemma LeafSplit(
    pol: Policy, op: Op, a: Snap, b: Snap, c: Snap, own: set<nat>, node: nat, r: nat, h: nat, prefix: Name)
    requires Ready(pol, op, a, node, h, prefix) && node != 0 && PageAt(a.pages, node).Leaf? && op.Add?
    requires Builds(a, b) && Ok(pol, b.pages, r, h, prefix) && Reach(b.pages, r, h) == b.taken - a.taken
    requires Edits(pol, op, Entries(a.pages, node, h), Entries(b.pages, r, h)) && c == b.(retired := b.retired + {node})
    ensures Outcome(pol, op, a, c, node, r, h, prefix) && Steps(a, c, own, {node})
  {
    BuildsSteps(a, b, own, {node});
  }

  lemma BuildsSteps(a: Snap, b: Snap, own: set<nat>, reach: set<nat>)
    requires Builds(a, b)
    ensures Steps(a, b, own, reach)
  {
  }

  /** Why there is no space: the volume is full, or too many names have one digest. */
  ghost predicate LacksSpace(pol: Policy, op: Op, es: set<Entry>, full: bool) {
    full || (op.Add? && Crammed(pol, es + {op.entry}))
  }

  /** The operation in a leaf page. */
  method MutateLeaf(st: Store, pol: Policy, node: nat, op: Op, h: nat, ghost prefix: Name) returns (s: Status, r: nat)
    requires st.Valid() && Ready(pol, op, st.Now(), node, h, prefix) && node != 0 && PageAt(st.pages, node).Leaf?
    modifies st, st.tx
    ensures st.Valid() && (s == Done || s == Exists || s == Missing || s == NoSpace)
    ensures Steps(old(st.Now()), st.Now(), st.own, {node})
    ensures s == NoSpace ==> LacksSpace(pol, op, old(Entries(st.pages, node, h)), st.Full())
    ensures s == Done ==> Outcome(pol, op, old(st.Now()), st.Now(), node, r, h, prefix)
    ensures s == Exists ==> op.Add? && !Absent(pol, Entries(st.pages, node, h), op.entry.name)
    ensures s == Exists ==> st.Now() == old(st.Now())
    ensures s == Missing ==> op.Remove? && Absent(pol, Entries(st.pages, node, h), op.name) && st.Now() == old(st.Now())
  {
    hide Steps, Outcome, Bytes, Builds, Replaced, Crammed;
    r := 0;
    ghost var a := st.Now();
    SameSteps(a, st.own, {node});
    var es := PageAt(st.pages, node).entries;
    assert EntriesOk(pol, es, prefix) && Bytes(es) <= LEAF_BYTES && node in Reach(st.pages, node, h);
    assert Entries(st.pages, node, h) == AsSet(es);
    var at := FindIn(pol, es, Target(op));
    if op.Remove? {
      if at.None? { return Missing, r; }
      assert es[at.value] in es;
      if |es| == 1 {
        var ok := st.Retire(node);
        LeafGone(pol, op, a, st.Now(), st.own, node, h, prefix);
        return Done, 0;
      }
      DroppedOk(pol, es, at.value, prefix);
      DroppedBytes(es, at.value);
      DroppedEntries(pol, es, at.value, op.name);
      var q := st.Replace(node, Leaf(Dropped(es, at.value)));
      if q.None? { return NoSpace, r; }
      LeafReplaced(pol, op, a, st.Now(), st.own, node, q.value, h, prefix, Dropped(es, at.value));
      return Done, q.value;
    }
    if at.Some? {
      assert es[at.value] in es;
      return Exists, r;
    }
    AddedOk(pol, es, op.entry, prefix);
    AddedBytes(es, op.entry);
    if Record(op.entry.name) <= LEAF_BYTES - Bytes(es) {
      var q := st.Replace(node, Leaf(es + [op.entry]));
      if q.None? { return NoSpace, r; }
      LeafReplaced(pol, op, a, st.Now(), st.own, node, q.value, h, prefix, es + [op.entry]);
      return Done, q.value;
    }
    s, r := Build(st, pol, es + [op.entry], h, prefix);
    assert AsSet(es + [op.entry]) == AsSet(es) + {op.entry};
    BuildsSteps(a, st.Now(), st.own, {node});
    if s != Done { return; }
    ghost var b := st.Now();
    BuildsKeep(a, b);
    var ok := st.Retire(node);
    LeafSplit(pol, op, a, b, st.Now(), st.own, node, r, h, prefix);
  }

  lemma BuildsKeep(a: Snap, b: Snap)
    requires Builds(a, b)
    ensures a.taken <= b.taken
  {
  }

  lemma SameSteps(a: Snap, own: set<nat>, reach: set<nat>)
    ensures Steps(a, a, own, reach)
  {
  }
}
