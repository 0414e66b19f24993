/** Whole directories: lookups and updates of several names at once. */
module Directories {
  import opened Geometry
  import opened Counting
  import opened DirectoryPages
  import opened DirectoryStore
  import opened DirectoryBuild
  import opened DirectoryTree
  import opened DirectoryMutate

  const U32_MAX: nat := 0xFFFF_FFFF

  /** A directory: the tree under `root` with `count` names. */
  ghost predicate Directory(pol: Policy, s: Snap, root: nat, count: nat) {
    && Ok(pol, s.pages, root, DIGEST, []) && Reach(s.pages, root, DIGEST) <= s.taken - s.retired && s.retired <= s.taken
    && count == |Entries(s.pages, root, DIGEST)| <= U32_MAX
  }

  lemma RootIffCount(pol: Policy, s: Snap, root: nat, count: nat)
    requires Directory(pol, s, root, count)
    ensures root == 0 <==> count == 0
  {
    NeverEmpty(pol, s.pages, root, DIGEST, []);
  }

  /** The loop of a lookup. It follows the digest to one leaf and compares names there. */
  method Lookup(pol: Policy, p: Pages, taken: set<nat>, root: nat, count: nat, n: Name)
    returns (s: Status, found: Option<Entry>)
    requires Good(pol)
    ensures found.Some? ==> s == Done
    ensures (root == 0 <==> count == 0) && Ok(pol, p, root, DIGEST, []) && Reach(p, root, DIGEST) <= taken ==>
      && s != Corrupt
      && (found.Some? ==> found.value in Entries(p, root, DIGEST) && SameName(pol, found.value.name, n))
      && (found.None? ==> Absent(pol, Entries(p, root, DIGEST), n))
  {
    hide Ok, Reach, ReachAll, Entries, EntriesAll;
    found := None;
    if count == 0 {
      if root != 0 { return Corrupt, None; }
      EmptyTree(pol, p, DIGEST, []);
      return Missing, None;
    }
    if root == 0 { return Corrupt, None; }
    var key, node, depth := Key(pol, n), root, 0;
    ghost var fine := Ok(pol, p, root, DIGEST, []) && Reach(p, root, DIGEST) <= taken;
    while true
      invariant depth <= DIGEST && node != 0
      invariant fine ==> Ok(pol, p, node, DIGEST - depth, key[..depth]) && Reach(p, node, DIGEST - depth) <= taken
      invariant fine ==> Narrowed(pol, p, root, node, DIGEST - depth, n)
      decreases DIGEST - depth
    {
      ghost var h := DIGEST - depth;
      if fine { HasItself(p, node, h); }
      if node !in taken { return Corrupt, None; }
      var page := PageAt(p, node);
      if page.Leaf? {
        var at := FindIn(pol, page.entries, n);
        LeafHolds(p, node, h);
        if at.None? { return Missing, None; }
        assert page.entries[at.value] in page.entries;
        return Done, Some(page.entries[at.value]);
      }
      if fine { BranchShape(pol, p, node, h, key[..depth]); }
      if depth >= DIGEST || !page.Branch? || |page.children| != SLOTS || page.count != NonZero(page.children) {
        return Corrupt, None;
      }
      var slot := key[depth];
      if fine {
        Narrows(pol, p, root, node, h, key[..depth], n);
        ChildReach(p, node, h, slot);
        Apart(pol, p, node, h, key[..depth], slot, slot);
        assert key[..depth + 1] == key[..depth] + [slot];
      }
      node, depth := page.children[slot], depth + 1;
      if node == 0 {
        EmptyTree(pol, p, DIGEST - depth, []);
        return Missing, None;
      }
    }
  }

  /** All entries of the tree with the name `n` are below `node`. */
  ghost predicate Narrowed(pol: Policy, p: Pages, root: nat, node: nat, h: nat, n: Name) {
    && Entries(p, node, h) <= Entries(p, root, DIGEST)
    && forall e :: e in Entries(p, root, DIGEST) && SameName(pol, e.name, n) ==> e in Entries(p, node, h)
  }

  lemma Narrows(pol: Policy, p: Pages, root: nat, node: nat, h: nat, prefix: Name, n: Name)
    requires Good(pol) && Ok(pol, p, node, h, prefix) && node != 0 && PageAt(p, node).Branch? && |prefix| + h == DIGEST
    requires h > 0
    requires Narrowed(pol, p, root, node, h, n)
    ensures |PageAt(p, node).children| == SLOTS
    ensures Narrowed(pol, p, root, PageAt(p, node).children[Key(pol, n)[|prefix|]], h - 1, n)
  {
    BranchParts(pol, p, node, h, prefix);
    ChildReach(p, node, h, Key(pol, n)[|prefix|]);
    forall e | e in Entries(p, root, DIGEST) && SameName(pol, e.name, n)
      ensures e in Entries(p, PageAt(p, node).children[Key(pol, n)[|prefix|]], h - 1)
    {
      SameNameSameKey(pol, e.name, n);
      InItsSlot(pol, p, node, h, prefix, e);
    }
  }

  lemma HasItself(p: Pages, node: nat, h: nat)
    requires node != 0
    ensures node in Reach(p, node, h)
  {
  }

  lemma LeafHolds(p: Pages, node: nat, h: nat)
    requires node != 0 && PageAt(p, node).Leaf?
    ensures Entries(p, node, h) == AsSet(PageAt(p, node).entries)
  {
  }

  lemma BranchShape(pol: Policy, p: Pages, node: nat, h: nat, prefix: Name)
    requires Ok(pol, p, node, h, prefix) && node != 0 && !PageAt(p, node).Leaf?
    ensures h > 0 && PageAt(p, node).Branch? && |PageAt(p, node).children| == SLOTS
    ensures PageAt(p, node).count == NonZero(PageAt(p, node).children)
  {
  }

  /** Removing a name that is there removes exactly one entry. */
  lemma OneFewer(pol: Policy, p: Pages, root: nat, n: Name)
    requires Good(pol) && Ok(pol, p, root, DIGEST, []) && !Absent(pol, Entries(p, root, DIGEST), n)
    ensures |Without(pol, Entries(p, root, DIGEST), n)| == |Entries(p, root, DIGEST)| - 1
  {
    var es := Entries(p, root, DIGEST);
    var x :| x in es && SameName(pol, x.name, n);
    forall y | y in es && SameName(pol, y.name, n) ensures y == x { NoTwins(pol, p, root, DIGEST, [], x, y); }
    assert Without(pol, es, n) == es - {x};
  }

  ghost predicate Stops(pol: Policy, op: Op, s: Status, es: set<Entry>, full: bool) {
    Fails(pol, op, s, es, full) || (s == Overflow && op.Add? && |es| == U32_MAX)
  }

  lemma Counted(pol: Policy, op: Op, a: Snap, b: Snap, own: set<nat>, root: nat, root': nat, count: nat)
    requires Good(pol) && Directory(pol, a, root, count) && Outcome(pol, op, a, b, root, root', DIGEST, [])
    requires Steps(a, b, own, Reach(a.pages, root, DIGEST)) && b.retired <= b.taken && (op.Add? ==> count < U32_MAX)
    ensures Directory(pol, b, root', if op.Add? then count + 1 else count - 1)
  {
    hide Ok, Reach, Entries, Original;
    if op.Remove? { OneFewer(pol, a.pages, root, op.name); }
  }

  /** One name added to or removed from a directory. */
  method Apply(st: Store, pol: Policy, root: nat, count: nat, op: Op) returns (s: Status, root': nat, count': nat)
    requires st.Valid() && Good(pol) && Directory(pol, st.Now(), root, count) && (op.Add? ==> EntryOk(pol, op.entry))
    modifies st, st.tx
    ensures st.Valid() && Steps(old(st.Now()), st.Now(), st.own, old(Reach(st.pages, root, DIGEST)))
    ensures s == Done ==> Directory(pol, st.Now(), root', count')
    ensures s == Done ==> Outcome(pol, op, old(st.Now()), st.Now(), root, root', DIGEST, [])
    ensures s != Done ==> Stops(pol, op, s, old(Entries(st.pages, root, DIGEST)), st.Full())
  {
    hide Ok, Reach, Entries, Original, Steps, Outcome, Builds, Crammed;
    root', count' := root, count;
    ghost var a := st.Now();
    RootIffCount(pol, a, root, count);
    SameSteps(a, st.own, Reach(a.pages, root, DIGEST));
    EmptyTree(pol, a.pages, DIGEST, []);
    if op.Remove? && (count == 0 || root == 0) { return Missing, root', count'; }
    if op.Add? && count == U32_MAX { return Overflow, root', count'; }
    if root == 0 {
      SingleOk(pol, op.entry, []);
      s, root' := Build(st, pol, [op.entry], DIGEST, []);
      BuildsSteps(a, st.Now(), st.own, Reach(a.pages, root, DIGEST));
      assert AsSet([op.entry]) == Entries(a.pages, root, DIGEST) + {op.entry};
      if s != Done { return; }
      FirstName(pol, op, a, st.Now(), root', DIGEST, []);
    } else {
      s, root' := Mutate(st, pol, root, op, DIGEST, []);
      if s != Done { return; }
    }
    Counted(pol, op, a, st.Now(), st.own, root, root', count);
    count' := if op.Add? then count + 1 else count - 1;
  }

  lemma FirstName(pol: Policy, op: Op, a: Snap, b: Snap, leaf: nat, h: nat, prefix: Name)
    requires op.Add? && Builds(a, b) && Ok(pol, b.pages, leaf, h, prefix)
    requires Reach(b.pages, leaf, h) == b.taken - a.taken && Entries(b.pages, leaf, h) == AsSet([op.entry])
    ensures Outcome(pol, op, a, b, 0, leaf, h, prefix)
  {
  }

  ghost function Cut(pol: Policy, es: set<Entry>, n: Option<Name>): set<Entry> {
    if n.Some? then Without(pol, es, n.value) else es
  }

  predicate NameOk(pol: Policy, n: Name) {
    0 < |n| <= NAME_MAX && pol.utf8(n) && n != [46] && n != [46, 46]
  }

  /** From `a` to `b` the directory lost and gained blocks and names as recorded. */
  ghost predicate Moved(pol: Policy, a: Snap, b: Snap, own: set<nat>, root: nat, root': nat, es: set<Entry>) {
    && Steps(a, b, own, Reach(a.pages, root, DIGEST))
    && Accounts(a, b, Reach(a.pages, root, DIGEST), Reach(b.pages, root', DIGEST))
    && Entries(b.pages, root', DIGEST) == es
  }

  lemma MovedMore(
    pol: Policy, op: Op, a: Snap, b: Snap, c: Snap, own: set<nat>, root: nat, count: nat, root': nat, root'': nat,
    es: set<Entry>)
    requires Directory(pol, a, root, count) && Moved(pol, a, b, own, root, root', es)
    requires Steps(b, c, own, Reach(b.pages, root', DIGEST)) && Outcome(pol, op, b, c, root', root'', DIGEST, [])
    ensures Moved(pol, a, c, own, root, root'', Entries(c.pages, root'', DIGEST))
    ensures Edits(pol, op, es, Entries(c.pages, root'', DIGEST))
  {
    hide Ok, Reach, Entries, Original, Edits;
    var r0, r1, r2 := Reach(a.pages, root, DIGEST), Reach(b.pages, root', DIGEST), Reach(c.pages, root'', DIGEST);
    AccountsTwice(a, b, c, own, r0, r1, r2);
    StepsTwice(a, b, c, own, r0, r1, r0);
  }

  lemma MovedPart(pol: Policy, a: Snap, b: Snap, c: Snap, own: set<nat>, root: nat, root': nat, es: set<Entry>)
    requires Moved(pol, a, b, own, root, root', es) && Steps(b, c, own, Reach(b.pages, root', DIGEST))
    ensures Steps(a, c, own, Reach(a.pages, root, DIGEST))
  {
    hide Ok, Reach, Entries, Original;
    StepsTwice(a, b, c, own, Reach(a.pages, root, DIGEST), Reach(b.pages, root', DIGEST), Reach(a.pages, root, DIGEST));
  }

  lemma NotMoved(pol: Policy, a: Snap, own: set<nat>, root: nat)
    ensures Moved(pol, a, a, own, root, root, Entries(a.pages, root, DIGEST))
  {
    SameSteps(a, own, Reach(a.pages, root, DIGEST));
  }

  /** One optional removal inside an update. */
  method RemoveOne(
    st: Store, pol: Policy, root: nat, count: nat, n: Option<Name>, ghost a: Snap, ghost start: nat, ghost n0: nat,
    ghost es: set<Entry>)
    returns (s: Status, root': nat, count': nat)
    requires st.Valid() && Good(pol) && Directory(pol, a, start, n0) && Directory(pol, st.Now(), root, count)
    requires Moved(pol, a, st.Now(), st.own, start, root, es)
    modifies st, st.tx
    ensures st.Valid() && Steps(a, st.Now(), st.own, Reach(a.pages, start, DIGEST))
    ensures s == Done ==> Directory(pol, st.Now(), root', count')
    ensures s == Done ==> Moved(pol, a, st.Now(), st.own, start, root', Cut(pol, es, n))
    ensures s != Done ==> (s == NoSpace && st.Full()) || (s == Missing && n.Some? && Absent(pol, es, n.value))
    ensures s == Done && n.Some? ==> !Absent(pol, es, n.value)
  {
    hide Ok, Reach, Entries, Original, Steps, Outcome, Directory, Accounts;
    root', count' := root, count;
    if n.None? { return Done, root', count'; }
    ghost var b := st.Now();
    s, root', count' := Apply(st, pol, root, count, Remove(n.value));
    MovedPart(pol, a, b, st.Now(), st.own, start, root, es);
    if s == Done { MovedMore(pol, Remove(n.value), a, b, st.Now(), st.own, start, n0, root, root', es); }
  }

  /** Removes up to two names and adds up to one, all or nothing once the caller undoes a
      failure. The second name is skipped when it is byte for byte the first. */
  method Update(
    st: Store, pol: Policy, root: nat, count: nat, removeA: Option<Name>, removeB: Option<Name>, add: Option<Entry>)
    returns (s: Status, root': nat, count': nat)
    requires st.Valid() && Good(pol) && Directory(pol, st.Now(), root, count)
    requires add.Some? ==> pol.portable(add.value.name)
    modifies st, st.tx
    ensures st.Valid() && Steps(old(st.Now()), st.Now(), st.own, old(Reach(st.pages, root, DIGEST)))
    ensures s == Done ==> Directory(pol, st.Now(), root', count')
    ensures s == Done ==>
      Accounts(old(st.Now()), st.Now(), old(Reach(st.pages, root, DIGEST)), Reach(st.pages, root', DIGEST))
    ensures var es := old(Entries(st.pages, root, DIGEST)); var b := if removeA == removeB then None else removeB;
      var left := Cut(pol, Cut(pol, es, removeA), b);
      && (s == Done ==> Entries(st.pages, root', DIGEST) == left + if add.Some? then {add.value} else {})
      && (s == Done && add.Some? ==> Absent(pol, left, add.value.name))
      && (s == Exists ==> add.Some? && !Absent(pol, left, add.value.name))
      && (s == NoSpace ==> st.Full() || (add.Some? && Crammed(pol, left + {add.value})))
      && (s == Overflow ==> add.Some? && |left| == U32_MAX)
      && (s == Missing ==>
          || (removeA.Some? && Absent(pol, es, removeA.value))
          || (b.Some? && Absent(pol, Cut(pol, es, removeA), b.value)))
      && (s == Done || s == Exists || s == Overflow ==>
          && (removeA.Some? ==> !Absent(pol, es, removeA.value))
          && (b.Some? ==> !Absent(pol, Cut(pol, es, removeA), b.value)))
    ensures s == Invalid <==> add.Some? && !NameOk(pol, add.value.name)
    ensures s != Corrupt
  {
    hide Ok, Reach, Entries, Original, Steps, Outcome, Directory, Accounts, Absent, Without, Crammed;
    root', count' := root, count;
    ghost var a, es := st.Now(), Entries(st.pages, root, DIGEST);
    RootIffCount(pol, a, root, count);
    NotMoved(pol, a, st.own, root);
    if (count == 0) != (root == 0) { return Corrupt, root', count'; }
    if add.Some? && !NameOk(pol, add.value.name) { return Invalid, root', count'; }
    s, root', count' := RemoveOne(st, pol, root', count', removeA, a, root, count, es);
    if s != Done { return; }
    if removeB != removeA {
      s, root', count' := RemoveOne(st, pol, root', count', removeB, a, root, count, Cut(pol, es, removeA));
      if s != Done { return; }
    }
    if add.Some? {
      ghost var b, old' := st.Now(), root';
      ghost var left := Entries(st.pages, root', DIGEST);
      s, root', count' := Apply(st, pol, root', count', Add(add.value));
      MovedPart(pol, a, b, st.Now(), st.own, root, old', left);
      if s != Done { return; }
      MovedMore(pol, Add(add.value), a, b, st.Now(), st.own, root, count, old', root', left);
    }
    RootIffCount(pol, st.Now(), root', count');
    if (count' == 0) != (root' == 0) { return Corrupt, root', count'; }
  }

  /** What a lookup of `n` must find. */
  ghost function Finds(pol: Policy, es: set<Entry>, n: Name): set<Entry> { set e | e in es && SameName(pol, e.name, n) }

  /** An operation changes what is found for its own name only. */
  lemma OnlyThatName(pol: Policy, op: Op, before: set<Entry>, after: set<Entry>, n: Name)
    requires Edits(pol, op, before, after)
    ensures !SameName(pol, Target(op), n) ==> Finds(pol, after, n) == Finds(pol, before, n)
    ensures SameName(pol, Target(op), n) ==> Finds(pol, after, n) == if op.Add? then {op.entry} else {}
  {
  }

  /** Writing the saved pages back restores every block that was in use. */
  lemma UndoRestores(a: Snap, b: Snap, own: set<nat>, reach: set<nat>)
    requires a.undo == map[] && Steps(a, b, own, reach)
    ensures SamePages(a.pages, b.pages + b.undo, a.taken)
  {
    forall x | x in a.taken ensures PageAt(b.pages + b.undo, x) == PageAt(a.pages, x) {
      assert Original(b, x) == Original(a, x);
    }
  }
}
