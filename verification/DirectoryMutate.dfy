/** Adding and removing names below branch pages, and whole directory updates. */
module DirectoryMutate {
  import opened Counting
  import opened DirectoryPages
  import opened DirectoryStore
  import opened DirectoryBuild
  import opened DirectoryTree

  lemma GrowEntries(p: Pages, q: Pages, ch: seq<nat>, slot: nat, h: nat, child: nat)
    requires slot < |ch| && ch[slot] == 0
    requires forall i :: 0 <= i < |ch| && i != slot ==> Entries(q, ch[i], h) == Entries(p, ch[i], h)
    ensures EntriesAll(q, ch[slot := child], h) == EntriesAll(p, ch, h) + Entries(q, child, h)
  {
    var now := ch[slot := child];
    forall e ensures e in EntriesAll(q, now, h) <==> e in EntriesAll(p, ch, h) + Entries(q, child, h) {
      EntriesAllHas(q, now, h, e);
      EntriesAllHas(p, ch, h, e);
      if e in EntriesAll(p, ch, h) {
        var i :| 0 <= i < |ch| && e in Entries(p, ch[i], h);
        assert e in Entries(q, now[i], h);
      }
      if e in Entries(q, child, h) { assert e in Entries(q, now[slot], h); }
      if e in EntriesAll(q, now, h) {
        var i :| 0 <= i < |now| && e in Entries(q, now[i], h);
        assert i != slot ==> e in Entries(p, ch[i], h);
      }
    }
  }

  /** Everything about a step below one slot of a branch: from `a` to `b` the child at the
      slot became `child'`. */
  datatype Place = Place(
    pol: Policy, op: Op, own: set<nat>, node: nat, h: nat, prefix: Name, count: nat, ch: seq<nat>, slot: Byte)

  function Child(w: Place): nat requires w.slot < |w.ch| { w.ch[w.slot] }

  ghost predicate Below(w: Place, a: Snap) {
    && w.h > 0 && w.node != 0 && |w.ch| == SLOTS && PageAt(a.pages, w.node) == Branch(w.count, w.ch)
    && Ready(w.pol, w.op, a, w.node, w.h, w.prefix) && w.slot == Key(w.pol, Target(w.op))[|w.prefix|]
  }

  ghost predicate ChildDone(w: Place, a: Snap, b: Snap, child': nat)
    requires Below(w, a)
  {
    && Steps(a, b, w.own, Reach(a.pages, Child(w), w.h - 1))
    && Outcome(w.pol, w.op, a, b, Child(w), child', w.h - 1, w.prefix + [w.slot])
  }

  /** The subtrees in the other slots. */
  ghost function Rest(w: Place): seq<nat>
    requires w.slot < |w.ch|
  {
    w.ch[w.slot := 0]
  }

  ghost function RestReach(w: Place, a: Snap): set<nat>
    requires w.slot < |w.ch| && w.h > 0
  {
    ReachAll(a.pages, Rest(w), w.h - 1)
  }

  ghost function RestEntries(w: Place, a: Snap): set<Entry>
    requires w.slot < |w.ch| && w.h > 0
  {
    EntriesAll(a.pages, Rest(w), w.h - 1)
  }

  lemma ChildReady(w: Place, a: Snap)
    requires Below(w, a)
    ensures Ready(w.pol, w.op, a, Child(w), w.h - 1, w.prefix + [w.slot])
    ensures Reach(a.pages, Child(w), w.h - 1) <= Reach(a.pages, w.node, w.h)
  {
    ChildReach(a.pages, w.node, w.h, w.slot);
    var key := Key(w.pol, Target(w.op));
    assert key[..|w.prefix|] == w.prefix && key[..|w.prefix| + 1] == key[..|w.prefix|] + [key[|w.prefix|]];
  }

  lemma Parts(w: Place, a: Snap)
    requires Below(w, a)
    ensures Reach(a.pages, w.node, w.h) == {w.node} + RestReach(w, a) + Reach(a.pages, Child(w), w.h - 1)
    ensures Entries(a.pages, w.node, w.h) == RestEntries(w, a) + Entries(a.pages, Child(w), w.h - 1)
    ensures w.node !in RestReach(w, a) && w.node !in Reach(a.pages, Child(w), w.h - 1)
    ensures RestReach(w, a) !! Reach(a.pages, Child(w), w.h - 1)
  {
    hide Ok, Reach, ReachAll, Entries, EntriesAll;
    assert Rest(w)[w.slot := Child(w)] == w.ch;
    EmptyTree(w.pol, a.pages, w.h - 1, w.prefix);
    GrowReach(a.pages, a.pages, Rest(w), w.slot, w.h - 1, Child(w), RestReach(w, a));
    GrowEntries(a.pages, a.pages, Rest(w), w.slot, w.h - 1, Child(w));
    BranchParts(w.pol, a.pages, w.node, w.h, w.prefix);
    Apart(w.pol, a.pages, w.node, w.h, w.prefix, w.slot, w.slot);
    forall x | x in RestReach(w, a) ensures x != w.node && x !in Reach(a.pages, Child(w), w.h - 1) {
      ReachAllHas(a.pages, Rest(w), w.h - 1, x);
      var i: nat :| i < SLOTS && x in Reach(a.pages, Rest(w)[i], w.h - 1);
      Apart(w.pol, a.pages, w.node, w.h, w.prefix, i, w.slot);
    }
  }

  lemma BranchParts(pol: Policy, p: Pages, node: nat, h: nat, prefix: Name)
    requires node != 0 && h > 0 && PageAt(p, node).Branch? && Ok(pol, p, node, h, prefix)
    ensures Reach(p, node, h) == {node} + ReachAll(p, PageAt(p, node).children, h - 1)
    ensures Entries(p, node, h) == EntriesAll(p, PageAt(p, node).children, h - 1)
    ensures PageAt(p, node).count == NonZero(PageAt(p, node).children)
    ensures |PageAt(p, node).children| == SLOTS
  {
  }

  lemma Apart(pol: Policy, p: Pages, node: nat, h: nat, prefix: Name, i: nat, j: nat)
    requires node != 0 && h > 0 && PageAt(p, node).Branch? && Ok(pol, p, node, h, prefix) && i < SLOTS && j < SLOTS
    ensures var ch := PageAt(p, node).children;
      && |ch| == SLOTS && node !in Reach(p, ch[i], h - 1) && Ok(pol, p, ch[i], h - 1, prefix + [i])
      && (i != j ==> Reach(p, ch[i], h - 1) !! Reach(p, ch[j], h - 1))
  {
    var ch := PageAt(p, node).children;
    assert Ok(pol, p, ch[i], h - 1, prefix + [i]);
    if j < i { assert Reach(p, ch[j], h - 1) !! Reach(p, ch[i], h - 1); }
  }

  /** The other subtrees, which hold no entry of the operation's name. */
  lemma RestAbsent(w: Place, a: Snap)
    requires Below(w, a)
    ensures Absent(w.pol, RestEntries(w, a), Target(w.op))
  {
    hide Ok, Reach, ReachAll, Entries, EntriesAll;
    forall e | e in RestEntries(w, a) ensures !SameName(w.pol, e.name, Target(w.op)) {
      EntriesAllHas(a.pages, Rest(w), w.h - 1, e);
      var i: nat :| i < SLOTS && e in Entries(a.pages, Rest(w)[i], w.h - 1);
      EmptyTree(w.pol, a.pages, w.h - 1, w.prefix);
      Apart(w.pol, a.pages, w.node, w.h, w.prefix, i, i);
      SlotOf(w.pol, a.pages, w.ch[i], w.h - 1, w.prefix, i, e);
      if SameName(w.pol, e.name, Target(w.op)) { SameNameSameKey(w.pol, e.name, Target(w.op)); }
    }
  }

  /** After the step and the write of block `r`, the other subtrees are as before. */
  lemma RestStays(w: Place, a: Snap, b: Snap, c: Snap, child': nat, r: nat)
    requires Below(w, a) && ChildDone(w, a, b, child') && c.pages == b.pages[r := PageAt(c.pages, r)]
    requires r == w.node || r !in a.taken
    ensures ReachAll(c.pages, Rest(w), w.h - 1) == RestReach(w, a)
    ensures forall i: nat :: i < SLOTS && i != w.slot ==>
      && Ok(w.pol, c.pages, w.ch[i], w.h - 1, w.prefix + [i])
      && Reach(c.pages, w.ch[i], w.h - 1) == Reach(a.pages, w.ch[i], w.h - 1) <= RestReach(w, a)
      && Entries(c.pages, w.ch[i], w.h - 1) == Entries(a.pages, w.ch[i], w.h - 1)
  {
    hide Ok, Reach, ReachAll, Entries, EntriesAll, Outcome, Original;
    Parts(w, a);
    assert SamePages(a.pages, c.pages, RestReach(w, a));
    FrameAll(a.pages, c.pages, Rest(w), w.h - 1);
    forall i: nat | i < SLOTS && i != w.slot
      ensures Ok(w.pol, c.pages, w.ch[i], w.h - 1, w.prefix + [i])
      ensures Reach(c.pages, w.ch[i], w.h - 1) == Reach(a.pages, w.ch[i], w.h - 1) <= RestReach(w, a)
      ensures Entries(c.pages, w.ch[i], w.h - 1) == Entries(a.pages, w.ch[i], w.h - 1)
    {
      SubReach(a.pages, Rest(w), w.h - 1, i);
      Apart(w.pol, a.pages, w.node, w.h, w.prefix, i, i);
      Frame(a.pages, c.pages, w.ch[i], w.h - 1);
      FrameOk(w.pol, a.pages, c.pages, w.ch[i], w.h - 1, w.prefix + [i]);
    }
  }

  /** The new child lies in the old child's blocks and new ones. */
  lemma ChildPlace(w: Place, a: Snap, b: Snap, child': nat)
    requires Below(w, a) && ChildDone(w, a, b, child')
    ensures Reach(b.pages, child', w.h - 1) <= Reach(a.pages, Child(w), w.h - 1) + (b.taken - a.taken) <= b.taken
    ensures w.node !in Reach(b.pages, child', w.h - 1) && w.node in a.taken && w.node in b.taken
    ensures RestReach(w, a) !! Reach(b.pages, child', w.h - 1)
    ensures RestReach(w, a) <= a.taken && w.node !in b.retired
  {
    hide Ok, Reach, ReachAll, Entries, EntriesAll, Original;
    Parts(w, a);
  }

  lemma ChildStays(w: Place, a: Snap, b: Snap, c: Snap, child': nat, r: nat)
    requires Below(w, a) && ChildDone(w, a, b, child') && c.pages == b.pages[r := PageAt(c.pages, r)]
    requires r == w.node || r !in b.taken
    ensures Ok(w.pol, c.pages, child', w.h - 1, w.prefix + [w.slot])
    ensures Reach(c.pages, child', w.h - 1) == Reach(b.pages, child', w.h - 1)
    ensures Entries(c.pages, child', w.h - 1) == Entries(b.pages, child', w.h - 1)
    ensures r !in Reach(c.pages, child', w.h - 1)
  {
    hide Ok, Reach, ReachAll, Entries, EntriesAll, Original, Steps, Edits;
    ChildPlace(w, a, b, child');
    Frame(b.pages, c.pages, child', w.h - 1);
    FrameOk(w.pol, b.pages, c.pages, child', w.h - 1, w.prefix + [w.slot]);
  }

  /** The branch rewritten with the new child is a good subtree. */
  lemma BranchOk(w: Place, a: Snap, b: Snap, c: Snap, child': nat, r: nat)
    requires Below(w, a) && ChildDone(w, a, b, child') && c.pages == b.pages[r := PageAt(c.pages, r)]
    requires r > 0 && (r == w.node || r !in b.taken) && a.taken <= b.taken
    requires var now := w.ch[w.slot := child']; NonZero(now) > 0 && PageAt(c.pages, r) == Branch(NonZero(now), now)
    ensures Ok(w.pol, c.pages, r, w.h, w.prefix)
    ensures Reach(c.pages, r, w.h) == {r} + RestReach(w, a) + Reach(b.pages, child', w.h - 1)
    ensures Entries(c.pages, r, w.h) == RestEntries(w, a) + Entries(b.pages, child', w.h - 1)
  {
    hide Below, Outcome, Original, Steps, Edits, ReachAll, EntriesAll, ChildDone;
    BelowShape(w, a);
    var now, h := w.ch[w.slot := child'], w.h - 1;
    RestStays(w, a, b, c, child', r);
    ChildPlace(w, a, b, child');
    ChildStays(w, a, b, c, child', r);
    assert Rest(w)[w.slot := child'] == now;
    assert Ok(w.pol, c.pages, r, w.h, w.prefix) by {
      Slots(w, a, c, child', r);
    }
    assert Reach(c.pages, 0, h) == Reach(a.pages, 0, h) == {} && Entries(c.pages, 0, h) == Entries(a.pages, 0, h) == {};
    GrowReach(c.pages, c.pages, Rest(w), w.slot, h, child', RestReach(w, a));
    GrowEntries(a.pages, c.pages, Rest(w), w.slot, h, child');
  }

  lemma BelowShape(w: Place, a: Snap)
    requires Below(w, a)
    ensures w.h > 0 && w.node != 0 && |w.ch| == SLOTS
  {
  }

  lemma Slots(w: Place, a: Snap, c: Snap, child': nat, r: nat)
    requires Below(w, a) && r > 0
    requires NonZero(w.ch[w.slot := child']) > 0
    requires PageAt(c.pages, r) == Branch(NonZero(w.ch[w.slot := child']), w.ch[w.slot := child'])
    requires forall i: nat :: i < SLOTS && i != w.slot ==>
      && Ok(w.pol, c.pages, w.ch[i], w.h - 1, w.prefix + [i])
      && Reach(c.pages, w.ch[i], w.h - 1) == Reach(a.pages, w.ch[i], w.h - 1) <= RestReach(w, a)
    requires Ok(w.pol, c.pages, child', w.h - 1, w.prefix + [w.slot]) && r !in Reach(c.pages, child', w.h - 1)
    requires RestReach(w, a) !! Reach(c.pages, child', w.h - 1) && (r == w.node || r !in RestReach(w, a))
    ensures Ok(w.pol, c.pages, r, w.h, w.prefix)
  {
    hide Reach, ReachAll, Entries, EntriesAll;
    Parts(w, a);
    var now, h := w.ch[w.slot := child'], w.h - 1;
    forall i: nat | i < SLOTS
      ensures Ok(w.pol, c.pages, now[i], h, w.prefix + [i]) && r !in Reach(c.pages, now[i], h)
    {
    }
    forall i: nat, j: nat | i < j < SLOTS ensures Reach(c.pages, now[i], h) !! Reach(c.pages, now[j], h) {
      Apart(w.pol, a.pages, w.node, w.h, w.prefix, i, j);
    }
  }

  /** Counting blocks: the child accounts for its own, the branch page for its one. */
  lemma BranchAccounts(
    a: Snap, b: Snap, c: Snap, own: set<nat>, node: nat, r: set<nat>, rest: set<nat>, child: set<nat>, child': set<nat>)
    requires Steps(a, b, own, child) && Accounts(a, b, child, child') && a.retired <= a.taken
    requires {node} + rest + child <= a.taken - a.retired && node !in rest && node !in child && rest !! child
    requires b.taken <= c.taken && b.retired <= c.retired <= b.retired + {node} && Accounts(b, c, {node}, r)
    ensures Accounts(a, c, {node} + rest + child, r + rest + child')
  {
  }

  lemma EditsMore(pol: Policy, op: Op, rest: set<Entry>, before: set<Entry>, after: set<Entry>)
    requires Edits(pol, op, before, after) && Absent(pol, rest, Target(op))
    ensures Edits(pol, op, rest + before, rest + after)
  {
  }

  lemma BranchStored(w: Place, a: Snap, b: Snap, c: Snap, child': nat, r: nat)
    requires Below(w, a) && ChildDone(w, a, b, child')
    requires var now := w.ch[w.slot := child'];
      NonZero(now) > 0 && Replaced(b, c, w.own, w.node, Branch(NonZero(now), now), r)
    ensures Outcome(w.pol, w.op, a, c, w.node, r, w.h, w.prefix) && Steps(a, c, w.own, Reach(a.pages, w.node, w.h))
  {
    hide Ok, Reach, ReachAll, Entries, EntriesAll, Original, Edits, Ready, RestReach, RestEntries, NonZero;
    Parts(w, a);
    ChildPlace(w, a, b, child');
    RestAbsent(w, a);
    var now := w.ch[w.slot := child'];
    ReplacedSteps(b, c, w.own, w.node, Branch(NonZero(now), now), r);
    BranchOk(w, a, b, c, child', r);
    ReadyTaken(w, a);
    EditsMore(w.pol, w.op, RestEntries(w, a), Entries(a.pages, Child(w), w.h - 1), Entries(b.pages, child', w.h - 1));
    BranchAccounts(a, b, c, w.own, w.node, {r}, RestReach(w, a), Reach(a.pages, Child(w), w.h - 1),
      Reach(b.pages, child', w.h - 1));
    StepsTwice(a, b, c, w.own, Reach(a.pages, Child(w), w.h - 1), {w.node}, Reach(a.pages, w.node, w.h));
  }

  lemma ReadyTaken(w: Place, a: Snap)
    requires Below(w, a)
    ensures Reach(a.pages, w.node, w.h) <= a.taken - a.retired && a.retired <= a.taken
  {
  }

  /** The last child is gone, and the branch with it. */
  lemma BranchGone(w: Place, a: Snap, b: Snap, c: Snap)
    requires Below(w, a) && ChildDone(w, a, b, 0) && NonZero(w.ch[w.slot := 0]) == 0
    requires c == b.(retired := b.retired + {w.node})
    ensures Outcome(w.pol, w.op, a, c, w.node, 0, w.h, w.prefix) && Steps(a, c, w.own, Reach(a.pages, w.node, w.h))
  {
    hide Ok, Reach, ReachAll, Entries, EntriesAll, Original, Edits, Ready;
    Parts(w, a);
    ChildPlace(w, a, b, 0);
    RestAbsent(w, a);
    RestNone(w, a);
    EmptyTree(w.pol, b.pages, w.h - 1, w.prefix + [w.slot]);
    EmptyTree(w.pol, c.pages, w.h, w.prefix);
    ReadyTaken(w, a);
    EditsMore(w.pol, w.op, RestEntries(w, a), Entries(a.pages, Child(w), w.h - 1), {});
    RetiredSteps(b, w.own, w.node);
    BranchAccounts(a, b, c, w.own, w.node, {}, RestReach(w, a), Reach(a.pages, Child(w), w.h - 1), {});
    StepsTwice(a, b, c, w.own, Reach(a.pages, Child(w), w.h - 1), {w.node}, Reach(a.pages, w.node, w.h));
  }

  lemma RetiredSteps(b: Snap, own: set<nat>, node: nat)
    ensures Steps(b, b.(retired := b.retired + {node}), own, {node})
  {
  }

  lemma RestNone(w: Place, a: Snap)
    requires w.slot < |w.ch| && w.h > 0 && NonZero(w.ch[w.slot := 0]) == 0
    ensures RestReach(w, a) == {} && RestEntries(w, a) == {}
  {
    NonZeroNone(Rest(w));
    forall x ensures x !in RestReach(w, a) { ReachAllHas(a.pages, Rest(w), w.h - 1, x); }
    forall e ensures e !in RestEntries(w, a) { EntriesAllHas(a.pages, Rest(w), w.h - 1, e); }
  }

  /** A new leaf for a slot that was empty. */
  lemma SingleDone(w: Place, a: Snap, b: Snap, leaf: nat)
    requires Below(w, a) && Child(w) == 0 && w.op.Add? && Builds(a, b)
    requires Ok(w.pol, b.pages, leaf, w.h - 1, w.prefix + [w.slot])
    requires Reach(b.pages, leaf, w.h - 1) == b.taken - a.taken
    requires Entries(b.pages, leaf, w.h - 1) == AsSet([w.op.entry])
    ensures ChildDone(w, a, b, leaf)
  {
    BuildsSteps(a, b, w.own, {});
  }

  lemma SingleOk(pol: Policy, e: Entry, prefix: Name)
    requires EntryOk(pol, e) && prefix <= Key(pol, e.name)
    ensures EntriesOk(pol, [e], prefix)
  {
  }

  /** The failures that an operation reports, and what they mean for the subtree. */
  ghost predicate Fails(pol: Policy, op: Op, s: Status, es: set<Entry>, full: bool) {
    || (s == NoSpace && LacksSpace(pol, op, es, full))
    || (s == Exists && op.Add? && !Absent(pol, es, op.entry.name))
    || (s == Missing && op.Remove? && Absent(pol, es, op.name))
  }

  lemma FailsAbove(w: Place, a: Snap, s: Status, full: bool)
    requires Below(w, a) && Fails(w.pol, w.op, s, Entries(a.pages, Child(w), w.h - 1), full)
    ensures Fails(w.pol, w.op, s, Entries(a.pages, w.node, w.h), full)
  {
    hide Ok, Reach, ReachAll, Entries, EntriesAll, Crammed;
    Parts(w, a);
    RestAbsent(w, a);
    if w.op.Add? && Crammed(w.pol, Entries(a.pages, Child(w), w.h - 1) + {w.op.entry}) {
      MoreCrammed(w.pol, Entries(a.pages, Child(w), w.h - 1) + {w.op.entry},
                  Entries(a.pages, w.node, w.h) + {w.op.entry});
    }
  }

  /** Adds or removes one name below `node`. */
  method Mutate(st: Store, pol: Policy, node: nat, op: Op, h: nat, ghost prefix: Name) returns (s: Status, r: nat)
    requires st.Valid() && node != 0 && Ready(pol, op, st.Now(), node, h, prefix)
    modifies st, st.tx
    ensures st.Valid() && Steps(old(st.Now()), st.Now(), st.own, old(Reach(st.pages, node, h)))
    ensures s == Done ==> Outcome(pol, op, old(st.Now()), st.Now(), node, r, h, prefix)
    ensures s != Done ==> Fails(pol, op, s, old(Entries(st.pages, node, h)), st.Full())
    ensures s == Exists || s == Missing ==> st.Now() == old(st.Now())
    decreases h, 1
  {
    var page := PageAt(st.pages, node);
    if page.Leaf? {
      s, r := MutateLeaf(st, pol, node, op, h, prefix);
    } else {
      s, r := MutateBranch(st, pol, node, op, h, prefix);
    }
  }

  method MutateBranch(st: Store, pol: Policy, node: nat, op: Op, h: nat, ghost prefix: Name) returns (s: Status, r: nat)
    requires st.Valid() && node != 0 && Ready(pol, op, st.Now(), node, h, prefix) && !PageAt(st.pages, node).Leaf?
    modifies st, st.tx
    ensures st.Valid() && Steps(old(st.Now()), st.Now(), st.own, old(Reach(st.pages, node, h)))
    ensures s == Done ==> Outcome(pol, op, old(st.Now()), st.Now(), node, r, h, prefix)
    ensures s != Done ==> Fails(pol, op, s, old(Entries(st.pages, node, h)), st.Full())
    ensures s == Exists || s == Missing ==> st.Now() == old(st.Now())
    decreases h, 0
  {
    hide Reach, ReachAll, Entries, EntriesAll, Steps, Outcome, Original, NonZero, Replaced, Crammed;
    r := 0;
    ghost var a := st.Now();
    if h == 0 { return Corrupt, r; }
    var page := PageAt(st.pages, node);
    var slot := Key(pol, Target(op))[DIGEST - h];
    ghost var w := Place(pol, op, st.own, node, h, prefix, page.count, page.children, slot);
    assert Below(w, a);
    ChildReady(w, a);
    ReadyTaken(w, a);
    SameSteps(a, st.own, Reach(a.pages, node, h));
    var child := page.children[slot];
    BranchParts(pol, a.pages, node, h, prefix);
    var child' := 0;
    if child == 0 {
      EmptyTree(pol, a.pages, h - 1, prefix + [slot]);
      if op.Remove? {
        FailsAbove(w, a, Missing, st.Full());
        return Missing, r;
      }
      SingleOk(pol, op.entry, prefix + [slot]);
      s, child' := Build(st, pol, [op.entry], h - 1, prefix + [slot]);
      BuildsSteps(a, st.Now(), st.own, Reach(a.pages, node, h));
      if s != Done {
        assert AsSet([op.entry]) == Entries(a.pages, child, h - 1) + {op.entry};
        FailsAbove(w, a, s, st.Full());
        return;
      }
      SingleDone(w, a, st.Now(), child');
    } else {
      s, child' := Mutate(st, pol, child, op, h - 1, prefix + [slot]);
      StepsWider(a, st.Now(), st.own, Reach(a.pages, child, h - 1), Reach(a.pages, node, h));
      if s != Done {
        FailsAbove(w, a, s, st.Full());
        return;
      }
      assert ChildDone(w, a, st.Now(), child');
    }
    s, r := MutateParent(st, w, a, node, page, slot, child');
  }

  lemma StepsWider(a: Snap, b: Snap, own: set<nat>, reach: set<nat>, wider: set<nat>)
    requires Steps(a, b, own, reach) && reach <= wider
    ensures Steps(a, b, own, wider)
  {
  }

  /** Stores the branch page with its new child, or gives it up when it was the last one. */
  method MutateParent(st: Store, ghost w: Place, ghost a: Snap, node: nat, page: Page, slot: Byte, child': nat)
    returns (s: Status, r: nat)
    requires st.Valid() && Below(w, a) && w.node == node && page == Branch(w.count, w.ch) && w.slot == slot
    requires w.own == st.own
    requires ChildDone(w, a, st.Now(), child')
    modifies st, st.tx
    ensures st.Valid() && (s == Done || s == NoSpace) && Steps(a, st.Now(), st.own, Reach(a.pages, node, w.h))
    ensures s == NoSpace ==> st.Full()
    ensures s == Done ==> Outcome(w.pol, w.op, a, st.Now(), node, r, w.h, w.prefix)
  {
    hide Reach, ReachAll, Entries, EntriesAll, Steps, Outcome, Original, NonZero, Replaced, Ready;
    var now := page.children[slot := child'];
    ghost var b := st.Now();
    ChildPlace(w, a, b, child');
    ChildSteps(w, a, b, child');
    NonZeroUpdate(page.children, slot, child');
    WasCounted(w, a);
    var count := page.count;
    if page.children[slot] == 0 && child' != 0 { count := count + 1; }
    if page.children[slot] != 0 && child' == 0 { count := count - 1; }
    if count == 0 {
      NonZeroNone(now);
      assert now[slot] == child';
      var ok := st.Retire(node);
      BranchGone(w, a, b, st.Now());
      return Done, 0;
    }
    var q := st.Replace(node, Branch(count, now));
    if q.None? { return NoSpace, 0; }
    BranchStored(w, a, b, st.Now(), child', q.value);
    return Done, q.value;
  }

  lemma WasCounted(w: Place, a: Snap)
    requires Below(w, a)
    ensures w.count == NonZero(w.ch)
  {
  }

  lemma ChildSteps(w: Place, a: Snap, b: Snap, child': nat)
    requires Below(w, a) && ChildDone(w, a, b, child')
    ensures Steps(a, b, w.own, Reach(a.pages, w.node, w.h))
  {
    hide Reach, Steps, Outcome;
    ChildReady(w, a);
    StepsWider(a, b, w.own, Reach(a.pages, Child(w), w.h - 1), Reach(a.pages, w.node, w.h));
  }
}
