/** Building a subtree from a list of entries. */
module DirectoryBuild {
  import opened Counting
  import opened DirectoryPages
  import opened DirectoryStore

  datatype Status = Done | Exists | Missing | NoSpace | Invalid | Overflow | Corrupt

  /** The entries whose digest has byte `slot` at position `d`. */
  function Group(pol: Policy, es: seq<Entry>, d: nat, slot: Byte): seq<Entry> {
    if es == [] then []
    else
      var last := es[|es| - 1];
      Group(pol, es[..|es| - 1], d, slot)
      + if d < |Key(pol, last.name)| && Key(pol, last.name)[d] == slot then [last] else []
  }

  method GroupOf(pol: Policy, es: seq<Entry>, d: nat, slot: Byte) returns (g: seq<Entry>)
    ensures g == Group(pol, es, d, slot)
  {
    g := [];
    for i := 0 to |es|
      invariant g == Group(pol, es[..i], d, slot)
    {
      assert es[..i + 1][..i] == es[..i];
      var key := Key(pol, es[i].name);
      if d < |key| && key[d] == slot { g := g + [es[i]]; }
    }
    assert es[..|es|] == es;
  }

  ghost predicate InGroup(pol: Policy, e: Entry, d: nat, slot: Byte) {
    d < |Key(pol, e.name)| && Key(pol, e.name)[d] == slot
  }

  lemma {:induction false} GroupHas(pol: Policy, es: seq<Entry>, d: nat, slot: Byte)
    requires Twinless(pol, es)
    ensures forall e :: e in Group(pol, es, d, slot) <==> e in es && InGroup(pol, e, d, slot)
    ensures Twinless(pol, Group(pol, es, d, slot))
  {
    if es != [] {
      var init, last := es[..|es| - 1], es[|es| - 1];
      GroupHas(pol, init, d, slot);
      var g := Group(pol, init, d, slot);
      assert es == init + [last];
      if InGroup(pol, last, d, slot) {
        forall i | 0 <= i < |g| ensures !SameName(pol, g[i].name, last.name) {
          assert g[i] in g;
          var k :| 0 <= k < |init| && init[k] == g[i];
          assert es[k] == g[i];
        }
      }
    }
  }

  lemma GroupOk(pol: Policy, es: seq<Entry>, prefix: Name, slot: Byte)
    requires EntriesOk(pol, es, prefix) && Group(pol, es, |prefix|, slot) != []
    ensures EntriesOk(pol, Group(pol, es, |prefix|, slot), prefix + [slot])
  {
    GroupHas(pol, es, |prefix|, slot);
    var g := Group(pol, es, |prefix|, slot);
    forall i | 0 <= i < |g| ensures EntryOk(pol, g[i]) && prefix + [slot] <= Key(pol, g[i].name) {
      assert g[i] in es;
      var key := Key(pol, g[i].name);
      assert key[..|prefix|] == prefix && key[..|prefix| + 1] == key[..|prefix|] + [key[|prefix|]];
    }
  }

  /** Subtrees for the slots below `slot` are built, in blocks that were free at `a`. */
  ghost predicate Partial(
    pol: Policy, es: seq<Entry>, a: Snap, b: Snap, ch: seq<nat>, slot: nat, h: nat, prefix: Name)
  {
    && |ch| == SLOTS && slot <= SLOTS && (forall i :: slot <= i < SLOTS ==> ch[i] == 0)
    && (forall i: nat :: i < slot ==> Ok(pol, b.pages, ch[i], h, prefix + [i]))
    && (forall i: nat, e :: i < slot ==> (e in Entries(b.pages, ch[i], h) <==> e in es && InGroup(pol, e, |prefix|, i)))
    && (forall i: nat, j: nat :: i < j < SLOTS ==> Reach(b.pages, ch[i], h) !! Reach(b.pages, ch[j], h))
    && ReachAll(b.pages, ch, h) == b.taken - a.taken && a.taken <= b.taken
    && b.retired == a.retired && b.undo == a.undo && SamePages(a.pages, b.pages, a.taken)
  }

  /** One more subtree `child`, built between `b` and `c`. */
  lemma Grow(
    pol: Policy, es: seq<Entry>, a: Snap, b: Snap, c: Snap, ch: seq<nat>, slot: nat, h: nat, prefix: Name, child: nat)
    requires slot < SLOTS && Partial(pol, es, a, b, ch, slot, h, prefix)
    requires b.taken <= c.taken && c.retired == b.retired && c.undo == b.undo && SamePages(b.pages, c.pages, b.taken)
    requires Ok(pol, c.pages, child, h, prefix + [slot]) && Reach(c.pages, child, h) == c.taken - b.taken
    requires forall e :: e in Entries(c.pages, child, h) <==> e in es && InGroup(pol, e, |prefix|, slot)
    ensures Partial(pol, es, a, c, ch[slot := child], slot + 1, h, prefix)
  {
    hide Ok, Reach, ReachAll, Entries, InGroup;
    var now := ch[slot := child];
    forall i: nat | i < SLOTS && i != slot
      ensures Reach(c.pages, ch[i], h) == Reach(b.pages, ch[i], h) <= b.taken - a.taken
      ensures Entries(c.pages, ch[i], h) == Entries(b.pages, ch[i], h)
      ensures i < slot ==> Ok(pol, c.pages, ch[i], h, prefix + [i])
    {
      SubReach(b.pages, ch, h, i);
      Frame(b.pages, c.pages, ch[i], h);
      if i < slot { FrameOk(pol, b.pages, c.pages, ch[i], h, prefix + [i]); }
    }
    assert ReachAll(c.pages, now, h) == c.taken - a.taken by {
      GrowReach(b.pages, c.pages, ch, slot, h, child, b.taken - a.taken);
    }
  }

  lemma SubReach(p: Pages, ch: seq<nat>, h: nat, i: nat)
    requires i < |ch|
    ensures Reach(p, ch[i], h) <= ReachAll(p, ch, h)
  {
    forall b | b in Reach(p, ch[i], h) ensures b in ReachAll(p, ch, h) { ReachAllHas(p, ch, h, b); }
  }

  lemma GrowReach(p: Pages, q: Pages, ch: seq<nat>, slot: nat, h: nat, child: nat, before: set<nat>)
    requires slot < |ch| && ch[slot] == 0 && ReachAll(p, ch, h) == before
    requires forall i :: 0 <= i < |ch| && i != slot ==> Reach(q, ch[i], h) == Reach(p, ch[i], h)
    ensures ReachAll(q, ch[slot := child], h) == before + Reach(q, child, h)
  {
    var now := ch[slot := child];
    forall b ensures b in ReachAll(q, now, h) <==> b in before + Reach(q, child, h) {
      ReachAllHas(q, now, h, b);
      ReachAllHas(p, ch, h, b);
      if b in before {
        var i :| 0 <= i < |ch| && b in Reach(p, ch[i], h);
        assert b in Reach(q, now[i], h);
      }
      if b in Reach(q, child, h) { assert b in Reach(q, now[slot], h); }
      if b in ReachAll(q, now, h) {
        var i :| 0 <= i < |now| && b in Reach(q, now[i], h);
        assert i != slot ==> b in Reach(p, ch[i], h);
      }
    }
  }

  lemma NothingBuilt(pol: Policy, es: seq<Entry>, a: Snap, ch: seq<nat>, h: nat, prefix: Name)
    requires |ch| == SLOTS && forall i :: 0 <= i < SLOTS ==> ch[i] == 0
    ensures Partial(pol, es, a, a, ch, 0, h, prefix) && NonZero(ch) == 0
  {
    NonZeroNone(ch);
    forall b ensures b !in ReachAll(a.pages, ch, h) { ReachAllHas(a.pages, ch, h, b); }
  }

  /** The branch page over finished subtrees. */
  lemma Finished(pol: Policy, es: seq<Entry>, a: Snap, b: Snap, c: Snap, ch: seq<nat>, h: nat, prefix: Name, root: nat)
    requires Good(pol) && EntriesOk(pol, es, prefix) && |prefix| + h + 1 == DIGEST
    requires Partial(pol, es, a, b, ch, SLOTS, h, prefix)
    requires root > 0 && root !in b.taken
    requires c == b.(pages := b.pages[root := Branch(NonZero(ch), ch)], taken := b.taken + {root})
    ensures NonZero(ch) > 0 && Ok(pol, c.pages, root, h + 1, prefix)
    ensures Reach(c.pages, root, h + 1) == c.taken - a.taken
    ensures Entries(c.pages, root, h + 1) == AsSet(es)
  {
    SomeSlot(pol, es, a, b, ch, h, prefix);
    FrameAll(b.pages, c.pages, ch, h);
    forall i: nat | i < SLOTS
      ensures Ok(pol, c.pages, ch[i], h, prefix + [i]) && Reach(c.pages, ch[i], h) == Reach(b.pages, ch[i], h)
      ensures root !in Reach(c.pages, ch[i], h)
    {
      SubReach(b.pages, ch, h, i);
      Frame(b.pages, c.pages, ch[i], h);
      FrameOk(pol, b.pages, c.pages, ch[i], h, prefix + [i]);
    }
    AllEntries(pol, es, a, b, ch, h, prefix);
  }

  lemma SomeSlot(pol: Policy, es: seq<Entry>, a: Snap, b: Snap, ch: seq<nat>, h: nat, prefix: Name)
    requires Good(pol) && EntriesOk(pol, es, prefix) && |prefix| + h + 1 == DIGEST
    requires Partial(pol, es, a, b, ch, SLOTS, h, prefix)
    ensures NonZero(ch) > 0
  {
    NonZeroNone(ch);
    var i := Key(pol, es[0].name)[|prefix|];
    assert es[0] in es && InGroup(pol, es[0], |prefix|, i);
    assert es[0] in Entries(b.pages, ch[i], h);
  }

  lemma AllEntries(pol: Policy, es: seq<Entry>, a: Snap, b: Snap, ch: seq<nat>, h: nat, prefix: Name)
    requires Good(pol) && |prefix| + h + 1 == DIGEST && Partial(pol, es, a, b, ch, SLOTS, h, prefix)
    ensures EntriesAll(b.pages, ch, h) == AsSet(es)
  {
    forall e ensures e in EntriesAll(b.pages, ch, h) <==> e in es {
      EntriesAllHas(b.pages, ch, h, e);
      if e in es {
        var i := Key(pol, e.name)[|prefix|];
        assert InGroup(pol, e, |prefix|, i);
        assert e in Entries(b.pages, ch[i], h);
      }
    }
  }

  lemma LeafBuilt(pol: Policy, es: seq<Entry>, a: Snap, b: Snap, root: nat, h: nat, prefix: Name)
    requires EntriesOk(pol, es, prefix) && Bytes(es) <= LEAF_BYTES && root > 0 && root !in a.taken
    requires b == a.(pages := a.pages[root := Leaf(es)], taken := a.taken + {root})
    ensures Ok(pol, b.pages, root, h, prefix) && Reach(b.pages, root, h) == b.taken - a.taken
    ensures Entries(b.pages, root, h) == AsSet(es)
  {
  }

  /** What a build does: all in blocks that were free. */
  ghost predicate Builds(a: Snap, b: Snap) {
    a.taken <= b.taken && b.retired == a.retired && b.undo == a.undo && SamePages(a.pages, b.pages, a.taken)
  }

  /** Some of the entries all have one digest and do not fit into one page. */
  ghost predicate Crammed(pol: Policy, es: set<Entry>) {
    exists g: seq<Entry> :: OneDigest(pol, g) && AsSet(g) <= es && Bytes(g) > LEAF_BYTES
  }

  ghost predicate OneDigest(pol: Policy, g: seq<Entry>) {
    Twinless(pol, g) && forall e, f :: e in g && f in g ==> Key(pol, e.name) == Key(pol, f.name)
  }

  lemma MoreCrammed(pol: Policy, es: set<Entry>, more: set<Entry>)
    requires es <= more && Crammed(pol, es)
    ensures Crammed(pol, more)
  {
  }

  lemma GroupCrammed(pol: Policy, es: seq<Entry>, d: nat, slot: Byte)
    requires Twinless(pol, es) && Crammed(pol, AsSet(Group(pol, es, d, slot)))
    ensures Crammed(pol, AsSet(es))
  {
    hide Crammed;
    GroupHas(pol, es, d, slot);
    MoreCrammed(pol, AsSet(Group(pol, es, d, slot)), AsSet(es));
  }

  /** Entries whose whole digest is used up have one digest. */
  lemma DigestUsedUp(pol: Policy, es: seq<Entry>, prefix: Name)
    requires Good(pol) && EntriesOk(pol, es, prefix) && |prefix| == DIGEST && Bytes(es) > LEAF_BYTES
    ensures Crammed(pol, AsSet(es))
  {
    hide Bytes;
    forall e | e in es ensures Key(pol, e.name) == prefix { }
    assert OneDigest(pol, es);
  }

  /** One page if the entries fit, otherwise a branch with a subtree for every byte that
      occurs. Fails only for lack of space, or when even the whole digest does not tell
      enough names apart. */
  method Build(st: Store, pol: Policy, es: seq<Entry>, h: nat, ghost prefix: Name) returns (s: Status, root: nat)
    requires st.Valid() && Good(pol) && EntriesOk(pol, es, prefix) && |prefix| + h == DIGEST
    modifies st`pages, st.tx
    ensures st.Valid() && (s == Done || s == NoSpace) && Builds(old(st.Now()), st.Now())
    ensures s == NoSpace ==> st.Full() || Crammed(pol, AsSet(es))
    ensures s == Done ==> root > 0 && Ok(pol, st.pages, root, h, prefix)
    ensures s == Done ==> Reach(st.pages, root, h) == st.Now().taken - old(st.Now()).taken
    ensures s == Done ==> Entries(st.pages, root, h) == AsSet(es)
    decreases h
  {
    hide Ok, Reach, ReachAll, Entries, EntriesAll, EntriesOk, NonZero, Bytes, Partial, Group, Crammed;
    root := 0;
    ghost var a := st.Now();
    if Bytes(es) <= LEAF_BYTES {
      var r := st.Fresh(Leaf(es));
      if r.None? { return NoSpace, 0; }
      LeafBuilt(pol, es, a, st.Now(), r.value, h, prefix);
      return Done, r.value;
    }
    if h == 0 {
      DigestUsedUp(pol, es, prefix);
      return NoSpace, 0;
    }
    var ch := seq(SLOTS, (_: nat) => 0);
    var count := 0;
    NothingBuilt(pol, es, a, ch, h - 1, prefix);
    for slot := 0 to SLOTS
      invariant st.Valid() && Partial(pol, es, a, st.Now(), ch, slot, h - 1, prefix) && count == NonZero(ch)
      invariant |ch| == SLOTS && forall i :: slot <= i < SLOTS ==> ch[i] == 0
    {
      ghost var b := st.Now();
      var group := GroupOf(pol, es, DIGEST - h, slot);
      EntriesTwinless(pol, es, prefix);
      GroupHas(pol, es, |prefix|, slot);
      var child := 0;
      if group != [] {
        GroupOk(pol, es, prefix, slot);
        s, child := Build(st, pol, group, h - 1, prefix + [slot]);
        if s != Done {
          PartialBuilds(pol, es, a, b, st.Now(), ch, slot, h - 1, prefix);
          if Crammed(pol, AsSet(group)) { GroupCrammed(pol, es, |prefix|, slot); }
          return s, 0;
        }
        count := count + 1;
      } else {
        EmptyTree(pol, b.pages, h - 1, prefix + [slot]);
      }
      NonZeroUpdate(ch, slot, child);
      Grow(pol, es, a, b, st.Now(), ch, slot, h - 1, prefix, child);
      ch := ch[slot := child];
    }
    SomeSlot(pol, es, a, st.Now(), ch, h - 1, prefix);
    if count == 0 { return Corrupt, root; }
    ghost var b := st.Now();
    PartialBuilds(pol, es, a, b, b, ch, SLOTS, h - 1, prefix);
    var r := st.Fresh(Branch(count, ch));
    if r.None? { return NoSpace, 0; }
    Finished(pol, es, a, b, st.Now(), ch, h - 1, prefix, r.value);
    return Done, r.value;
  }

  lemma PartialBuilds(
    pol: Policy, es: seq<Entry>, a: Snap, b: Snap, c: Snap, ch: seq<nat>, slot: nat, h: nat, prefix: Name)
    requires Partial(pol, es, a, b, ch, slot, h, prefix) && Builds(b, c)
    ensures Builds(a, c)
  {
  }

  lemma EntriesTwinless(pol: Policy, es: seq<Entry>, prefix: Name)
    requires EntriesOk(pol, es, prefix)
    ensures Twinless(pol, es)
  {
  }

  lemma EmptyTree(pol: Policy, p: Pages, h: nat, prefix: Name)
    ensures Ok(pol, p, 0, h, prefix) && Reach(p, 0, h) == {} && Entries(p, 0, h) == {}
  {
  }
}
