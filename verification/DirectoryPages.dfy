/** The pages of a directory: a 256-way trie over the digest of the folded name. */
module DirectoryPages {
  import opened Counting

  const DIGEST := 32
  const SLOTS := 256
  const NAME_MAX := 1023
  const LEAF_BYTES := 4016

  type Byte = b: nat | b < 256
  type Name = seq<Byte>

  datatype Entry = Entry(name: Name, id: nat, kind: nat)
  datatype Page = Leaf(entries: seq<Entry>) | Branch(count: nat, children: seq<nat>) | Other

  type Pages = map<nat, Page>
  function PageAt(p: Pages, b: nat): Page { if b in p then p[b] else Other }

  /** How a volume treats names: folding (the identity unless the volume folds case), the
      digest, and which byte strings are names at all. */
  datatype Policy = Policy(fold: Byte -> Byte, digest: Name -> Name, utf8: Name -> bool, portable: Name -> bool)

  ghost predicate Good(pol: Policy) { forall n :: |pol.digest(n)| == DIGEST }

  function Folded(pol: Policy, n: Name): (r: Name)
    ensures |r| == |n| && forall i :: 0 <= i < |n| ==> r[i] == pol.fold(n[i])
  {
    seq(|n|, (i: nat) requires i < |n| => pol.fold(n[i]))
  }

  function Key(pol: Policy, n: Name): Name { pol.digest(Folded(pol, n)) }

  predicate SameName(pol: Policy, a: Name, b: Name) {
    |a| == |b| && forall i :: 0 <= i < |a| ==> pol.fold(a[i]) == pol.fold(b[i])
  }

  /** The byte-by-byte comparison. */
  method NameEqual(pol: Policy, a: Name, b: Name) returns (same: bool)
    ensures same <==> SameName(pol, a, b)
  {
    if |a| != |b| { return false; }
    for i := 0 to |a|
      invariant forall k :: 0 <= k < i ==> pol.fold(a[k]) == pol.fold(b[k])
    {
      if pol.fold(a[i]) != pol.fold(b[i]) { return false; }
    }
    same := true;
  }

  /** Names that are the same take the same way through the trie. */
  lemma SameNameSameKey(pol: Policy, a: Name, b: Name)
    requires SameName(pol, a, b)
    ensures Key(pol, a) == Key(pol, b)
  {
    assert Folded(pol, a) == Folded(pol, b);
  }

  function Record(n: Name): nat { (24 + |n| + 7) / 8 * 8 }

  function Bytes(es: seq<Entry>): nat { if es == [] then 0 else Bytes(es[..|es| - 1]) + Record(es[|es| - 1].name) }

  predicate EntryOk(pol: Policy, e: Entry) {
    0 < |e.name| <= NAME_MAX && pol.utf8(e.name) && pol.portable(e.name)
  }

  ghost predicate Twinless(pol: Policy, es: seq<Entry>) {
    forall i, j :: 0 <= i < j < |es| ==> !SameName(pol, es[i].name, es[j].name)
  }

  ghost predicate EntriesOk(pol: Policy, es: seq<Entry>, prefix: Name) {
    && es != [] && Twinless(pol, es)
    && (forall i :: 0 <= i < |es| ==> EntryOk(pol, es[i]) && prefix <= Key(pol, es[i].name))
  }

  /** The blocks and the entries of the subtree at `node`, which may have `h` more branch
      levels. A node zero is an empty subtree. */
  ghost function Reach(p: Pages, node: nat, h: nat): set<nat>
    decreases h, 0
  {
    if node == 0 then {}
    else if PageAt(p, node).Branch? && h > 0 then {node} + ReachAll(p, PageAt(p, node).children, h - 1)
    else {node}
  }

  ghost function ReachAll(p: Pages, ch: seq<nat>, h: nat): set<nat>
    decreases h, |ch| + 1
  {
    if ch == [] then {} else ReachAll(p, ch[..|ch| - 1], h) + Reach(p, ch[|ch| - 1], h)
  }

  ghost function AsSet(es: seq<Entry>): set<Entry> { set e | e in es }

  ghost function Entries(p: Pages, node: nat, h: nat): set<Entry>
    decreases h, 0
  {
    if node == 0 then {}
    else if PageAt(p, node).Leaf? then AsSet(PageAt(p, node).entries)
    else if PageAt(p, node).Branch? && h > 0 then EntriesAll(p, PageAt(p, node).children, h - 1)
    else {}
  }

  ghost function EntriesAll(p: Pages, ch: seq<nat>, h: nat): set<Entry>
    decreases h, |ch| + 1
  {
    if ch == [] then {} else EntriesAll(p, ch[..|ch| - 1], h) + Entries(p, ch[|ch| - 1], h)
  }

  lemma {:induction false} ReachAllHas(p: Pages, ch: seq<nat>, h: nat, b: nat)
    ensures b in ReachAll(p, ch, h) <==> exists i :: 0 <= i < |ch| && b in Reach(p, ch[i], h)
  {
    if ch != [] {
      var init := ch[..|ch| - 1];
      ReachAllHas(p, init, h, b);
      assert forall i :: 0 <= i < |init| ==> init[i] == ch[i];
    }
  }

  lemma {:induction false} EntriesAllHas(p: Pages, ch: seq<nat>, h: nat, e: Entry)
    ensures e in EntriesAll(p, ch, h) <==> exists i :: 0 <= i < |ch| && e in Entries(p, ch[i], h)
  {
    if ch != [] {
      var init := ch[..|ch| - 1];
      EntriesAllHas(p, init, h, e);
      assert forall i :: 0 <= i < |init| ==> init[i] == ch[i];
    }
  }

  /** The subtree at `node` holds names whose digests begin with `prefix`; its pages are used
      once each, and no page is empty. */
  ghost predicate Ok(pol: Policy, p: Pages, node: nat, h: nat, prefix: Name)
    decreases h
  {
    node == 0 ||
    match PageAt(p, node)
    case Leaf(es) => EntriesOk(pol, es, prefix) && Bytes(es) <= LEAF_BYTES
    case Branch(count, ch) =>
      && h > 0 && |ch| == SLOTS && count == NonZero(ch) && count > 0
      && (forall i: nat :: i < SLOTS ==> Ok(pol, p, ch[i], h - 1, prefix + [i]) && node !in Reach(p, ch[i], h - 1))
      && (forall i: nat, j: nat :: i < j < SLOTS ==> Reach(p, ch[i], h - 1) !! Reach(p, ch[j], h - 1))
    case Other => false
  }

  ghost predicate SamePages(p: Pages, q: Pages, blocks: set<nat>) {
    forall b :: b in blocks ==> PageAt(q, b) == PageAt(p, b)
  }

  /** A subtree depends on its own blocks only. */
  lemma {:induction false} Frame(p: Pages, q: Pages, node: nat, h: nat)
    requires SamePages(p, q, Reach(p, node, h))
    ensures Reach(q, node, h) == Reach(p, node, h) && Entries(q, node, h) == Entries(p, node, h)
    decreases h, 0
  {
    if node != 0 {
      assert node in Reach(p, node, h);
      if h > 0 && PageAt(p, node).Branch? { FrameAll(p, q, PageAt(p, node).children, h - 1); }
    }
  }

  lemma {:induction false} FrameAll(p: Pages, q: Pages, ch: seq<nat>, h: nat)
    requires SamePages(p, q, ReachAll(p, ch, h))
    ensures ReachAll(q, ch, h) == ReachAll(p, ch, h) && EntriesAll(q, ch, h) == EntriesAll(p, ch, h)
    decreases h, |ch| + 1
  {
    if ch != [] {
      FrameAll(p, q, ch[..|ch| - 1], h);
      Frame(p, q, ch[|ch| - 1], h);
    }
  }

  lemma {:induction false} FrameOk(pol: Policy, p: Pages, q: Pages, node: nat, h: nat, prefix: Name)
    requires SamePages(p, q, Reach(p, node, h)) && Ok(pol, p, node, h, prefix)
    ensures Ok(pol, q, node, h, prefix)
    decreases h
  {
    if node != 0 {
      assert node in Reach(p, node, h);
      if PageAt(p, node).Branch? {
        var ch := PageAt(p, node).children;
        forall i: nat | i < SLOTS
          ensures Ok(pol, q, ch[i], h - 1, prefix + [i]) && Reach(q, ch[i], h - 1) == Reach(p, ch[i], h - 1)
        {
          ChildReach(p, node, h, i);
          FrameOk(pol, p, q, ch[i], h - 1, prefix + [i]);
          Frame(p, q, ch[i], h - 1);
        }
      }
    }
  }

  lemma ChildReach(p: Pages, node: nat, h: nat, i: nat)
    requires node != 0 && h > 0 && PageAt(p, node).Branch? && i < |PageAt(p, node).children|
    ensures Reach(p, PageAt(p, node).children[i], h - 1) <= Reach(p, node, h)
    ensures Entries(p, PageAt(p, node).children[i], h - 1) <= Entries(p, node, h)
  {
    var ch := PageAt(p, node).children;
    forall b | b in Reach(p, ch[i], h - 1) ensures b in Reach(p, node, h) { ReachAllHas(p, ch, h - 1, b); }
    forall e | e in Entries(p, ch[i], h - 1) ensures e in Entries(p, node, h) { EntriesAllHas(p, ch, h - 1, e); }
  }

  /** Every entry lies under the prefix of its digest. */
  lemma {:induction false} Routed(pol: Policy, p: Pages, node: nat, h: nat, prefix: Name, e: Entry)
    requires Ok(pol, p, node, h, prefix) && e in Entries(p, node, h)
    ensures EntryOk(pol, e) && prefix <= Key(pol, e.name)
    decreases h
  {
    if PageAt(p, node).Branch? {
      var ch := PageAt(p, node).children;
      EntriesAllHas(p, ch, h - 1, e);
      var i :| 0 <= i < |ch| && e in Entries(p, ch[i], h - 1);
      Routed(pol, p, ch[i], h - 1, prefix + [i], e);
      assert prefix <= prefix + [i];
    }
  }

  lemma SlotOf(pol: Policy, p: Pages, node: nat, h: nat, prefix: Name, i: Byte, e: Entry)
    requires Ok(pol, p, node, h, prefix + [i]) && e in Entries(p, node, h)
    ensures |prefix| < |Key(pol, e.name)| && Key(pol, e.name)[|prefix|] == i
  {
    hide Ok, Entries;
    Routed(pol, p, node, h, prefix + [i], e);
    assert (prefix + [i])[|prefix|] == i;
  }

  /** In a branch, an entry is below the slot its digest names. */
  lemma InItsSlot(pol: Policy, p: Pages, node: nat, h: nat, prefix: Name, e: Entry)
    requires Ok(pol, p, node, h, prefix) && node != 0 && PageAt(p, node).Branch? && |Key(pol, e.name)| > |prefix|
    ensures e in Entries(p, node, h) <==> e in Entries(p, PageAt(p, node).children[Key(pol, e.name)[|prefix|]], h - 1)
  {
    var ch := PageAt(p, node).children;
    ChildReach(p, node, h, Key(pol, e.name)[|prefix|]);
    if e in Entries(p, node, h) {
      EntriesAllHas(p, ch, h - 1, e);
      var i :| 0 <= i < |ch| && e in Entries(p, ch[i], h - 1);
      SlotOf(pol, p, ch[i], h - 1, prefix, i, e);
    }
  }

  /** No two entries of a subtree have the same name. */
  lemma {:induction false} NoTwins(pol: Policy, p: Pages, node: nat, h: nat, prefix: Name, a: Entry, b: Entry)
    requires Good(pol) && Ok(pol, p, node, h, prefix) && |prefix| + h == DIGEST
    requires a in Entries(p, node, h) && b in Entries(p, node, h) && SameName(pol, a.name, b.name)
    ensures a == b
    decreases h
  {
    if PageAt(p, node).Branch? {
      SameNameSameKey(pol, a.name, b.name);
      InItsSlot(pol, p, node, h, prefix, a);
      InItsSlot(pol, p, node, h, prefix, b);
      var i := Key(pol, a.name)[|prefix|];
      NoTwins(pol, p, PageAt(p, node).children[i], h - 1, prefix + [i], a, b);
    } else {
      var es := PageAt(p, node).entries;
      var i :| 0 <= i < |es| && es[i] == a;
      var j :| 0 <= j < |es| && es[j] == b;
    }
  }

  /** A subtree without entries is the node zero. */
  lemma {:induction false} NeverEmpty(pol: Policy, p: Pages, node: nat, h: nat, prefix: Name)
    requires Ok(pol, p, node, h, prefix)
    ensures node == 0 <==> Entries(p, node, h) == {}
    decreases h
  {
    if node != 0 {
      if PageAt(p, node).Branch? {
        var ch := PageAt(p, node).children;
        NonZeroNone(ch);
        var i: nat :| i < |ch| && ch[i] != 0;
        NeverEmpty(pol, p, ch[i], h - 1, prefix + [i]);
        ChildReach(p, node, h, i);
      } else {
        assert PageAt(p, node).entries[0] in Entries(p, node, h);
      }
    }
  }
}
