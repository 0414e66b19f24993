/** The object index: a 256-way radix tree over object ids. Looking up one id and listing the
    whole tree must agree, whatever graph the pages on disk form. */
module IndexTree {
  import opened Counting
  import VisitSet

  const SLOTS: nat := 256
  const DEPTH: nat := 16
  const PER_PAGE: nat := 125

  type Byte = b: nat | b < 256
  type Id = s: seq<Byte> | |s| == DEPTH witness seq(DEPTH, _ => 0)

  /** An entry; `plain` sums up the checks on its type, flags and reserved fields. */
  datatype Entry = Entry(id: Id, block: nat, kind: nat, plain: bool)
  datatype Page = Leaf(entries: seq<Entry>) | Branch(count: nat, children: seq<nat>) | Bad

  datatype Volume = Volume(pages: map<nat, Page>, taken: set<nat>)
  function PageAt(v: Volume, b: nat): Page { if b in v.pages then v.pages[b] else Bad }

  datatype Answer = Found(block: nat, kind: nat) | Missing | Corrupt

  predicate BranchValid(v: Volume, page: Page) {
    && page.Branch? && |page.children| == SLOTS && page.count == NonZero(page.children)
    && forall i :: 0 <= i < SLOTS && page.children[i] != 0 ==> page.children[i] in v.taken
  }

  /** The entry with this id in one leaf. */
  function InLeaf(v: Volume, es: seq<Entry>, id: Id): Answer {
    if es == [] then Missing
    else if es[0].id == id then (if es[0].block in v.taken then Found(es[0].block, es[0].kind) else Corrupt)
    else InLeaf(v, es[1..], id)
  }

  /** What a lookup below `node` finds, `depth` bytes of the id being used up. */
  function Look(v: Volume, node: nat, id: Id, depth: nat): Answer
    requires depth <= DEPTH
    decreases DEPTH - depth
  {
    var page := PageAt(v, node);
    if page.Leaf? then (if |page.entries| > PER_PAGE then Corrupt else InLeaf(v, page.entries, id))
    else if depth >= DEPTH || !BranchValid(v, page) then Corrupt
    else if page.children[id[depth]] == 0 then Missing
    else Look(v, page.children[id[depth]], id, depth + 1)
  }

  function Find(v: Volume, root: nat, id: Id): Answer {
    if root == 0 || root !in v.taken then Corrupt else Look(v, root, id, 0)
  }

  /** The loop of the lookup. */
  method Lookup(v: Volume, root: nat, id: Id) returns (r: Answer)
    ensures r == Find(v, root, id)
  {
    if root == 0 || root !in v.taken { return Corrupt; }
    var node, depth := root, 0;
    while true
      invariant depth <= DEPTH && Look(v, root, id, 0) == Look(v, node, id, depth)
      decreases DEPTH - depth
    {
      var page := PageAt(v, node);
      if page.Leaf? {
        if |page.entries| > PER_PAGE { return Corrupt; }
        for i := 0 to |page.entries|
          invariant InLeaf(v, page.entries, id) == InLeaf(v, page.entries[i..], id)
        {
          if page.entries[i].id == id {
            if page.entries[i].block !in v.taken { return Corrupt; }
            return Found(page.entries[i].block, page.entries[i].kind);
          }
          assert page.entries[i..][1..] == page.entries[i + 1..];
        }
        return Missing;
      }
      if depth >= DEPTH || !BranchValid(v, page) { return Corrupt; }
      node, depth := page.children[id[depth]], depth + 1;
      if node == 0 { return Missing; }
    }
  }

  ghost predicate Unique(es: seq<Entry>) { forall i, j :: 0 <= i < j < |es| ==> es[i].id != es[j].id }

  /** The answer that a list of entries gives. */
  ghost predicate Answers(es: seq<Entry>, id: Id, r: Answer) {
    match r
    case Found(block, kind) => exists e :: e in es && e.id == id && e.block == block && e.kind == kind
    case Missing => forall e :: e in es ==> e.id != id
    case Corrupt => false
  }

  predicate EntryOk(v: Volume, e: Entry, prefix: seq<Byte>) {
    prefix <= e.id && (exists i :: 0 <= i < DEPTH && e.id[i] != 0) && e.plain && e.block in v.taken
  }

  /** What listing the subtree at `node` has to produce. */
  ghost predicate Lists(v: Volume, node: nat, prefix: seq<Byte>, es: seq<Entry>)
    requires |prefix| <= DEPTH
  {
    && Unique(es) && (forall i :: 0 <= i < |es| ==> EntryOk(v, es[i], prefix))
    && forall id: Id :: prefix <= id ==> Answers(es, id, Look(v, node, id, |prefix|))
  }

  lemma {:induction false} LeafAnswers(v: Volume, es: seq<Entry>, id: Id)
    requires forall i :: 0 <= i < |es| ==> es[i].block in v.taken
    ensures Answers(es, id, InLeaf(v, es, id))
  {
    if es != [] && es[0].id != id {
      LeafAnswers(v, es[1..], id);
      assert es == [es[0]] + es[1..];
    }
  }

  /** Checks the entries of a leaf, each against all later ones. */
  method CheckLeaf(v: Volume, es: seq<Entry>, prefix: seq<Byte>) returns (ok: bool)
    ensures ok <==> Unique(es) && forall i :: 0 <= i < |es| ==> EntryOk(v, es[i], prefix)
  {
    for i := 0 to |es|
      invariant forall k :: 0 <= k < i ==> EntryOk(v, es[k], prefix)
      invariant forall k, l :: 0 <= k < i && k < l < |es| ==> es[k].id != es[l].id
    {
      if !EntryOk(v, es[i], prefix) { return false; }
      for j := i + 1 to |es|
        invariant forall l :: i < l < j ==> es[i].id != es[l].id
      {
        if es[i].id == es[j].id { return false; }
      }
    }
    ok := true;
  }

  /** The subtrees of the first `n` slots, one list after the other. */
  ghost predicate SlotLists(v: Volume, ch: seq<nat>, prefix: seq<Byte>, n: nat, es: seq<Entry>)
    requires |prefix| < DEPTH && |ch| == SLOTS && n <= SLOTS
  {
    && Unique(es) && (forall i :: 0 <= i < |es| ==> EntryOk(v, es[i], prefix) && es[i].id[|prefix|] < n)
    && forall id: Id :: prefix <= id && id[|prefix|] < n ==> Answers(es, id, Below(v, ch, id, |prefix|))
  }

  ghost function Below(v: Volume, ch: seq<nat>, id: Id, depth: nat): Answer
    requires depth < DEPTH && |ch| == SLOTS
  {
    if ch[id[depth]] == 0 then Missing else Look(v, ch[id[depth]], id, depth + 1)
  }

  lemma NextSlot(v: Volume, ch: seq<nat>, prefix: seq<Byte>, n: Byte, es: seq<Entry>, more: seq<Entry>)
    requires |prefix| < DEPTH && |ch| == SLOTS && SlotLists(v, ch, prefix, n, es)
    requires if ch[n] == 0 then more == [] else Lists(v, ch[n], prefix + [n], more)
    ensures SlotLists(v, ch, prefix, n + 1, es + more)
  {
    var d := |prefix|;
    var all := es + more;
    forall i | 0 <= i < |more| ensures EntryOk(v, more[i], prefix) && more[i].id[d] == n {
      assert prefix + [n] <= more[i].id && (prefix + [n])[d] == n && prefix <= prefix + [n];
    }
    forall i, j | 0 <= i < j < |all| ensures all[i].id != all[j].id {
      if i < |es| <= j { assert es[i].id[d] < n && more[j - |es|].id[d] == n; }
    }
    forall id: Id | prefix <= id && id[d] < n + 1 ensures Answers(all, id, Below(v, ch, id, d)) {
      SlotAnswer(v, ch, prefix, n, es, more, id);
    }
  }

  lemma SlotAnswer(v: Volume, ch: seq<nat>, prefix: seq<Byte>, n: Byte, es: seq<Entry>, more: seq<Entry>, id: Id)
    requires |prefix| < DEPTH && |ch| == SLOTS && SlotLists(v, ch, prefix, n, es) && prefix <= id && id[|prefix|] <= n
    requires if ch[n] == 0 then more == [] else Lists(v, ch[n], prefix + [n], more)
    requires forall i :: 0 <= i < |more| ==> more[i].id[|prefix|] == n
    ensures Answers(es + more, id, Below(v, ch, id, |prefix|))
  {
    hide Look, EntryOk;
    var d := |prefix|;
    assert forall e :: e in es ==> e.id[d] < n;
    assert forall e :: e in more ==> e.id[d] == n;
    if id[d] == n {
      assert id[..d + 1] == id[..d] + [id[d]] == prefix + [n];
      if ch[n] != 0 { assert Answers(more, id, Look(v, ch[n], id, d + 1)); }
    } else {
      assert Answers(es, id, Below(v, ch, id, d));
    }
  }

  /** The entries below `node` in the order of their slots, whatever their state. */
  ghost function Listed(v: Volume, node: nat, prefix: seq<Byte>): seq<Entry>
    requires |prefix| <= DEPTH
    decreases DEPTH - |prefix|, SLOTS + 1
  {
    var page := PageAt(v, node);
    if page.Leaf? then page.entries
    else if |prefix| < DEPTH && BranchValid(v, page) then SlotListed(v, page.children, prefix, SLOTS) else []
  }

  ghost function SlotListed(v: Volume, ch: seq<nat>, prefix: seq<Byte>, n: nat): seq<Entry>
    requires |prefix| < DEPTH && |ch| == SLOTS && n <= SLOTS
    decreases DEPTH - |prefix|, n
  {
    if n == 0 then []
    else SlotListed(v, ch, prefix, n - 1) + if ch[n - 1] == 0 then [] else Listed(v, ch[n - 1], prefix + [n - 1])
  }

  /** The pages at and below `node`; a page that is reached along two ways is in it twice. */
  ghost function Visits(v: Volume, node: nat, prefix: seq<Byte>): seq<nat>
    requires |prefix| <= DEPTH
    decreases DEPTH - |prefix|, SLOTS + 1
  {
    var page := PageAt(v, node);
    if !page.Leaf? && |prefix| < DEPTH && BranchValid(v, page)
    then [node] + SlotVisits(v, page.children, prefix, SLOTS)
    else [node]
  }

  ghost function SlotVisits(v: Volume, ch: seq<nat>, prefix: seq<Byte>, n: nat): seq<nat>
    requires |prefix| < DEPTH && |ch| == SLOTS && n <= SLOTS
    decreases DEPTH - |prefix|, n
  {
    if n == 0 then []
    else SlotVisits(v, ch, prefix, n - 1) + if ch[n - 1] == 0 then [] else Visits(v, ch[n - 1], prefix + [n - 1])
  }

  /** Every page at and below `node` is allocated and valid, and so are its entries. */
  ghost predicate Sound(v: Volume, node: nat, prefix: seq<Byte>)
    requires |prefix| <= DEPTH
    decreases DEPTH - |prefix|, SLOTS + 1
  {
    && node != 0 && node != VisitSet.U64_MAX && node in v.taken
    && var page := PageAt(v, node);
    if page.Leaf? then
      |page.entries| <= PER_PAGE && Unique(page.entries) &&
      forall i :: 0 <= i < |page.entries| ==> EntryOk(v, page.entries[i], prefix)
    else
      |prefix| < DEPTH && BranchValid(v, page) && SlotsSound(v, page.children, prefix, SLOTS)
  }

  ghost predicate SlotsSound(v: Volume, ch: seq<nat>, prefix: seq<Byte>, n: nat)
    requires |prefix| < DEPTH && |ch| == SLOTS && n <= SLOTS
    decreases DEPTH - |prefix|, n
  {
    n == 0 || (SlotsSound(v, ch, prefix, n - 1) && (ch[n - 1] == 0 || Sound(v, ch[n - 1], prefix + [n - 1])))
  }

  ghost function Elements(s: seq<nat>): set<nat> { set x | x in s }

  /** No block is in it twice, and none of those seen before is in it. */
  ghost predicate Once(s: seq<nat>, seen: set<nat>) {
    (forall i, j :: 0 <= i < j < |s| ==> s[i] != s[j]) && forall i :: 0 <= i < |s| ==> s[i] !in seen
  }

  lemma OnceSplit(a: seq<nat>, b: seq<nat>, seen: set<nat>)
    ensures Once(a + b, seen) <==> Once(a, seen) && Once(b, seen + Elements(a))
    ensures Elements(a + b) == Elements(a) + Elements(b)
  {
    var s := a + b;
    if Once(s, seen) {
      assert forall i :: 0 <= i < |a| ==> s[i] == a[i];
      assert forall i :: 0 <= i < |b| ==> s[|a| + i] == b[i];
    }
  }

  /** The subtree can be listed: it is sound, a tree, disjoint from what was seen, and fits. */
  ghost predicate Listable(v: Volume, node: nat, prefix: seq<Byte>, seen: set<nat>, room: nat)
    requires |prefix| <= DEPTH
  {
    Sound(v, node, prefix) && Once(Visits(v, node, prefix), seen) && |Listed(v, node, prefix)| <= room
  }

  /** The same of the first `n` slots of a branch. */
  ghost predicate SlotsListable(v: Volume, ch: seq<nat>, prefix: seq<Byte>, n: nat, seen: set<nat>, room: nat)
    requires |prefix| < DEPTH && |ch| == SLOTS && n <= SLOTS
  {
    && SlotsSound(v, ch, prefix, n) && Once(SlotVisits(v, ch, prefix, n), seen)
    && |SlotListed(v, ch, prefix, n)| <= room
  }

  lemma MoreSlots(v: Volume, ch: seq<nat>, prefix: seq<Byte>, n: Byte, seen: set<nat>, room: nat)
    requires |prefix| < DEPTH && |ch| == SLOTS && SlotsListable(v, ch, prefix, n, seen, room)
    ensures var seen' := seen + Elements(SlotVisits(v, ch, prefix, n));
      var room' := room - |SlotListed(v, ch, prefix, n)|;
      SlotsListable(v, ch, prefix, n + 1, seen, room) <==> ch[n] == 0 || Listable(v, ch[n], prefix + [n], seen', room')
    ensures Elements(SlotVisits(v, ch, prefix, n + 1)) ==
      Elements(SlotVisits(v, ch, prefix, n)) + if ch[n] == 0 then {} else Elements(Visits(v, ch[n], prefix + [n]))
    ensures SlotListed(v, ch, prefix, n + 1) ==
      SlotListed(v, ch, prefix, n) + if ch[n] == 0 then [] else Listed(v, ch[n], prefix + [n])
    ensures SlotsListable(v, ch, prefix, SLOTS, seen, room) ==> SlotsListable(v, ch, prefix, n + 1, seen, room)
  {
    hide Once, Elements, Sound, Visits, Listed;
    if SlotsListable(v, ch, prefix, SLOTS, seen, room) { FewerSlots(v, ch, prefix, n + 1, seen, room); }
    var visits, listed := SlotVisits(v, ch, prefix, n), SlotListed(v, ch, prefix, n);
    if ch[n] == 0 {
      assert visits + [] == visits && listed + [] == listed;
    } else {
      OnceSplit(visits, Visits(v, ch[n], prefix + [n]), seen);
    }
  }

  lemma FewerSlots(v: Volume, ch: seq<nat>, prefix: seq<Byte>, n: nat, seen: set<nat>, room: nat)
    requires |prefix| < DEPTH && |ch| == SLOTS && n <= SLOTS && SlotsListable(v, ch, prefix, SLOTS, seen, room)
    ensures SlotsListable(v, ch, prefix, n, seen, room)
    decreases SLOTS - n
  {
    hide Once, Elements, Sound, Visits, Listed;
    if n < SLOTS {
      FewerSlots(v, ch, prefix, n + 1, seen, room);
      var more := if ch[n] == 0 then [] else Visits(v, ch[n], prefix + [n]);
      OnceSplit(SlotVisits(v, ch, prefix, n), more, seen);
    }
  }

  lemma BranchListable(v: Volume, node: nat, prefix: seq<Byte>, seen: set<nat>, room: nat)
    requires |prefix| < DEPTH && !PageAt(v, node).Leaf? && BranchValid(v, PageAt(v, node))
    requires node != 0 && node != VisitSet.U64_MAX && node in v.taken && node !in seen
    ensures var ch := PageAt(v, node).children;
      && (Listable(v, node, prefix, seen, room) <==> SlotsListable(v, ch, prefix, SLOTS, seen + {node}, room))
      && Elements(Visits(v, node, prefix)) == {node} + Elements(SlotVisits(v, ch, prefix, SLOTS))
  {
    hide SlotsSound, SlotVisits, SlotListed;
    OnceSplit([node], SlotVisits(v, PageAt(v, node).children, prefix, SLOTS), seen);
    assert Elements([node]) == {node} && Once([node], seen);
  }

  lemma LeafListable(v: Volume, node: nat, prefix: seq<Byte>, seen: set<nat>, room: nat)
    requires |prefix| <= DEPTH && PageAt(v, node).Leaf?
    requires node != 0 && node != VisitSet.U64_MAX && node in v.taken && node !in seen
    ensures var es := PageAt(v, node).entries;
      && Listed(v, node, prefix) == es && Elements(Visits(v, node, prefix)) == {node}
      && (Listable(v, node, prefix, seen, room) <==>
          && |es| <= PER_PAGE && |es| <= room && Unique(es)
          && forall i :: 0 <= i < |es| ==> EntryOk(v, es[i], prefix))
  {
    hide Unique, EntryOk;
    assert Visits(v, node, prefix) == [node];
  }

  lemma HeadFirst(v: Volume, node: nat, prefix: seq<Byte>, seen: set<nat>, room: nat)
    requires |prefix| <= DEPTH && Listable(v, node, prefix, seen, room)
    ensures node != 0 && node != VisitSet.U64_MAX && node in v.taken && node !in seen
    ensures !PageAt(v, node).Leaf? ==> |prefix| < DEPTH && BranchValid(v, PageAt(v, node))
  {
    hide SlotsSound, SlotVisits, SlotListed, BranchValid;
    assert Visits(v, node, prefix)[0] == node;
  }

  /** Lists a subtree. Every block is visited once; a block met again means the pages do not
      form a tree. Success means that lookups and the list agree on every id. */
  method Snapshot(v: Volume, node: nat, prefix: seq<Byte>, capacity: nat, copied: nat, visited: VisitSet.Set)
    returns (ok: bool, es: seq<Entry>)
    requires visited.Valid() && |prefix| <= DEPTH && copied <= capacity
    modifies visited, visited.slots
    ensures visited.Valid() && (visited.slots == old(visited.slots) || fresh(visited.slots))
    ensures visited.Blocks() >= old(visited.Blocks())
    ensures ok ==> node != 0 && node in v.taken && node in visited.Blocks() && node !in old(visited.Blocks())
    ensures ok ==> copied + |es| <= capacity && Lists(v, node, prefix, es)
    ensures ok <==> Listable(v, node, prefix, old(visited.Blocks()), capacity - copied)
    ensures ok ==> es == Listed(v, node, prefix)
    ensures ok ==> visited.Blocks() == old(visited.Blocks()) + Elements(Visits(v, node, prefix))
    decreases DEPTH - |prefix|
  {
    hide Lists, SlotLists, Listable, SlotsListable, Listed, SlotListed, Visits, SlotVisits, Elements, Unique, EntryOk,
      Sound, SlotsSound, Once, VisitSet.Table, VisitSet.Members, NonZero;
    es := [];
    ghost var seen, room := visited.Blocks(), capacity - copied;
    if Listable(v, node, prefix, seen, room) { HeadFirst(v, node, prefix, seen, room); }
    if node == 0 || node !in v.taken { return false, es; }
    ok := visited.Claim(node);
    if !ok { return; }
    var page := PageAt(v, node);
    if page.Leaf? {
      LeafListable(v, node, prefix, seen, room);
      if |page.entries| > PER_PAGE || |page.entries| > capacity - copied { return false, es; }
      ok := CheckLeaf(v, page.entries, prefix);
      if ok {
        LeafLists(v, node, prefix);
        es := page.entries;
      }
      return;
    }
    if |prefix| >= DEPTH || !BranchValid(v, page) { return false, es; }
    NoSlots(v, page.children, prefix);
    BranchListable(v, node, prefix, seen, room);
    for n := 0 to SLOTS
      invariant visited.Valid() && (visited.slots == old(visited.slots) || fresh(visited.slots))
      invariant visited.Blocks() == seen + {node} + Elements(SlotVisits(v, page.children, prefix, n))
      invariant SlotLists(v, page.children, prefix, n, es) && copied + |es| <= capacity
      invariant SlotsListable(v, page.children, prefix, n, seen + {node}, room)
      invariant es == SlotListed(v, page.children, prefix, n)
    {
      var child := page.children[n];
      MoreSlots(v, page.children, prefix, n, seen + {node}, room);
      var more := [];
      if child != 0 {
        ok, more := Snapshot(v, child, prefix + [n], capacity, copied + |es|, visited);
        if !ok { return; }
      }
      NextSlot(v, page.children, prefix, n, es, more);
      es := es + more;
    }
    BranchLists(v, node, prefix, es);
    ListedAll(v, node, prefix);
    ok := true;
  }

  lemma LeafLists(v: Volume, node: nat, prefix: seq<Byte>)
    requires |prefix| <= DEPTH && PageAt(v, node).Leaf? && |PageAt(v, node).entries| <= PER_PAGE
    requires var es := PageAt(v, node).entries; Unique(es) && forall i :: 0 <= i < |es| ==> EntryOk(v, es[i], prefix)
    ensures Lists(v, node, prefix, PageAt(v, node).entries)
  {
    var es := PageAt(v, node).entries;
    forall id: Id | prefix <= id ensures Answers(es, id, Look(v, node, id, |prefix|)) { LeafAnswers(v, es, id); }
  }

  lemma NoSlots(v: Volume, ch: seq<nat>, prefix: seq<Byte>)
    requires |prefix| < DEPTH && |ch| == SLOTS
    ensures SlotLists(v, ch, prefix, 0, [])
    ensures SlotListed(v, ch, prefix, 0) == [] && Elements(SlotVisits(v, ch, prefix, 0)) == {}
    ensures forall seen, room: nat :: SlotsListable(v, ch, prefix, 0, seen, room)
  {
  }

  lemma ListedAll(v: Volume, node: nat, prefix: seq<Byte>)
    requires |prefix| < DEPTH && !PageAt(v, node).Leaf? && BranchValid(v, PageAt(v, node))
    ensures Listed(v, node, prefix) == SlotListed(v, PageAt(v, node).children, prefix, SLOTS)
  {
    hide SlotListed;
  }

  lemma BranchLists(v: Volume, node: nat, prefix: seq<Byte>, es: seq<Entry>)
    requires |prefix| < DEPTH && !PageAt(v, node).Leaf? && BranchValid(v, PageAt(v, node))
    requires SlotLists(v, PageAt(v, node).children, prefix, SLOTS, es)
    ensures Lists(v, node, prefix, es)
  {
    var ch := PageAt(v, node).children;
    forall id: Id | prefix <= id ensures Answers(es, id, Look(v, node, id, |prefix|)) {
      assert Answers(es, id, Below(v, ch, id, |prefix|));
    }
  }

  /** Every page is valid, and none is reached along two ways. */
  ghost predicate SoundTree(v: Volume, root: nat) { Sound(v, root, []) && Once(Visits(v, root, []), {}) }

  /** The whole index: it can be listed exactly when its pages are sound, form a tree and hold
      as many entries as announced; then no id is in it twice and it is what lookups find. */
  method SnapshotAll(v: Volume, root: nat, count: nat, total: nat, hash: nat -> nat) returns (ok: bool, es: seq<Entry>)
    ensures ok ==> |es| == count && Unique(es)
    ensures ok ==> root != 0 && root in v.taken
    ensures ok ==> forall id: Id :: Answers(es, id, Find(v, root, id))
    ensures ok <==> 0 < count <= total && SoundTree(v, root) && |Listed(v, root, [])| == count
    ensures ok ==> es == Listed(v, root, [])
  {
    hide Listed, Once, Visits;
    es := [];
    if count == 0 || count > total || root == 0 { return false, es; }
    var visited := new VisitSet.Set(hash);
    ok, es := Snapshot(v, root, [], count, 0, visited);
    ok := ok && |es| == count;
  }
}
