/** The pointer tree over a file's extent pages: built level by level, resolved by division. */
module ExtentTree {
  import opened Geometry
  import opened Transaction

  const FAN: nat := 502
  const MAX_LEVELS: nat := 3

  datatype Page = Page(level: nat, pointers: seq<nat>)
  type Pages = map<nat, Page>

  datatype Status = Done | Invalid | TooBig | NoSpace | Corrupt

  function Power(k: nat): nat { if k == 0 then 1 else FAN * Power(k - 1) }

  lemma Powers()
    ensures Power(0) == 1 && Power(1) == FAN && Power(2) == FAN * FAN && Power(3) == FAN * FAN * FAN
  {
    assert Power(1) == FAN * Power(0);
    assert Power(2) == FAN * Power(1);
    assert Power(3) == FAN * Power(2);
  }

  /** Levels for `n` extent pages: the least that are enough, or zero if none are. */
  method Levels(n: nat) returns (levels: nat)
    ensures levels == 0 <==> n == 0 || n > Power(MAX_LEVELS)
    ensures levels > 0 ==> levels <= MAX_LEVELS && n <= Power(levels) && (levels > 1 ==> Power(levels - 1) < n)
  {
    Powers();
    var capacity := FAN;
    levels := 1;
    if n == 0 { return 0; }
    while capacity < n && levels < MAX_LEVELS
      invariant 1 <= levels <= MAX_LEVELS && capacity == Power(levels) && (levels > 1 ==> Power(levels - 1) < n)
    {
      capacity := capacity * FAN;
      levels := levels + 1;
    }
    if capacity < n { levels := 0; }
  }

  function Chunk(s: seq<nat>, p: nat): seq<nat>
    requires p * FAN < |s|
  {
    s[p * FAN..Min(|s|, p * FAN + FAN)]
  }

  /** Parent `p` points to the `p`-th chunk of the level below. */
  ghost predicate LevelOk(pages: Pages, level: nat, below: seq<nat>, above: seq<nat>) {
    && |above| == DivUp(|below|, FAN)
    && forall p: nat :: p < |above| ==> ParentOk(pages, level, below, above, p)
  }

  ghost predicate ParentOk(pages: Pages, level: nat, below: seq<nat>, above: seq<nat>, p: nat) {
    p < |above| && p * FAN < |below| && above[p] in pages && pages[above[p]] == Page(level, Chunk(below, p))
  }

  ghost predicate LevelAt(pages: Pages, ls: seq<seq<nat>>, k: nat) {
    k + 1 < |ls| && LevelOk(pages, k, ls[k], ls[k + 1])
  }

  /** All levels of a tree, from the extent pages up to the root alone. */
  ghost predicate Tree(pages: Pages, ls: seq<seq<nat>>) {
    && |ls| >= 2 && |ls[|ls| - 1]| == 1 && (forall k :: 0 <= k < |ls| ==> |ls[k]| > 0)
    && forall k: nat :: k < |ls| - 1 ==> LevelAt(pages, ls, k)
  }

  ghost predicate Keeps(p: Pages, q: Pages, blocks: seq<nat>) {
    forall b :: b in blocks ==> b in p && b in q && q[b] == p[b]
  }

  /** The state that building works on: what is stored, and which blocks are in use. */
  ghost predicate Extends(p: Pages, q: Pages, before: seq<bool>, after: seq<bool>, made: seq<nat>) {
    && |before| == |after| && (forall i, j :: 0 <= i < j < |made| ==> made[i] != made[j])
    && (forall b :: b in made ==> b < |before| && !before[b] && b in q)
    && (forall b: nat :: b < |before| ==> (after[b] <==> before[b] || b in made))
    && (forall b :: b !in made ==> (b in q <==> b in p) && (b in q ==> q[b] == p[b]))
  }

  lemma ExtendsMore(p: Pages, q: Pages, before: seq<bool>, after: seq<bool>, made: seq<nat>, b: nat, page: Page)
    requires Extends(p, q, before, after, made) && b < |after| && !after[b]
    ensures Extends(p, q[b := page], before, after[b := true], made + [b])
  {
    assert b !in made;
  }

  /** One level: a page for every chunk. */
  method BuildLevel(
    tx: Tx, pages: Pages, level: nat, below: seq<nat>, ghost p0: Pages, ghost before: seq<bool>, ghost made: seq<nat>)
    returns (s: Status, above: seq<nat>, q: Pages)
    requires tx.Valid() && below != [] && Extends(p0, pages, before, tx.bitmap, made)
    modifies tx
    ensures tx.Valid() && tx.deferred == old(tx.deferred) && (s == Done || s == NoSpace)
    ensures s == NoSpace ==> tx.Full()
    ensures s == Done ==> LevelOk(q, level, below, above) && above != []
    ensures s == Done ==> Extends(p0, q, before, tx.bitmap, made + above)
    ensures s == Done ==> Keeps(pages, q, made)
  {
    hide Extends;
    above, q := [], pages;
    var count := DivUp(|below|, FAN);
    assert made + [] == made;
    MadeStored(p0, pages, before, tx.bitmap, made);
    for p := 0 to count
      invariant tx.Valid() && tx.deferred == old(tx.deferred) && |above| == p
      invariant Extends(p0, q, before, tx.bitmap, made + above)
      invariant forall i: nat :: i < p ==> ParentOk(q, level, below, above, i)
      invariant forall b :: b in made ==> b in pages && b in q && q[b] == pages[b]
    {
      ghost var bits := tx.bitmap;
      MadeStored(p0, q, before, bits, made + above);
      var r := tx.Alloc();
      if r.None? { return NoSpace, above, q; }
      NotMade(p0, q, before, bits, made + above, r.value);
      ExtendsMore(p0, q, before, bits, made + above, r.value, Page(level, Chunk(below, p)));
      assert made + above + [r.value] == made + (above + [r.value]);
      ghost var q0, above0 := q, above;
      q := q[r.value := Page(level, Chunk(below, p))];
      above := above + [r.value];
      forall i: nat | i < p + 1 ensures ParentOk(q, level, below, above, i) {
        if i < p { assert ParentOk(q0, level, below, above0, i) && above0[i] in made + above0; }
      }
      assert forall b :: b in made ==> b in made + above0;
    }
    s := Done;
  }

  lemma MadeStored(p: Pages, q: Pages, before: seq<bool>, after: seq<bool>, made: seq<nat>)
    requires Extends(p, q, before, after, made)
    ensures |before| == |after| && forall b :: b in made ==> b in q && b < |after| && after[b]
  {
  }

  lemma NotMade(p: Pages, q: Pages, before: seq<bool>, after: seq<bool>, made: seq<nat>, b: nat)
    requires Extends(p, q, before, after, made) && b < |after| && !after[b]
    ensures b !in made
  {
  }

  /** All nodes of the levels above the extent pages. */
  ghost function Nodes(ls: seq<seq<nat>>): seq<nat> {
    if |ls| <= 1 then [] else Nodes(ls[..|ls| - 1]) + ls[|ls| - 1]
  }

  /** The levels built so far. */
  ghost predicate Partial(pages: Pages, ls: seq<seq<nat>>) {
    && |ls| >= 1 && (forall k :: 0 <= k < |ls| ==> |ls[k]| > 0)
    && forall k: nat :: k < |ls| - 1 ==> LevelAt(pages, ls, k)
  }

  lemma LevelStays(p: Pages, q: Pages, level: nat, below: seq<nat>, above: seq<nat>)
    requires LevelOk(p, level, below, above) && Keeps(p, q, above)
    ensures LevelOk(q, level, below, above)
  {
    forall i: nat | i < |above|
      ensures ParentOk(q, level, below, above, i)
    {
      assert ParentOk(p, level, below, above, i);
    }
  }

  lemma {:induction false} NodesHave(ls: seq<seq<nat>>, k: nat)
    requires 0 < k < |ls|
    ensures forall b :: b in ls[k] ==> b in Nodes(ls)
  {
    if k < |ls| - 1 { NodesHave(ls[..|ls| - 1], k); }
  }

  lemma NodesAppend(ls: seq<seq<nat>>, above: seq<nat>)
    requires |ls| >= 1
    ensures Nodes(ls + [above]) == Nodes(ls) + above
  {
    assert (ls + [above])[..|ls|] == ls;
  }

  lemma LevelKept(p: Pages, q: Pages, ls: seq<seq<nat>>, above: seq<nat>, k: nat)
    requires LevelAt(p, ls, k) && Keeps(p, q, Nodes(ls))
    ensures LevelAt(q, ls + [above], k)
  {
    hide LevelOk, Nodes;
    NodesHave(ls, k + 1);
    LevelStays(p, q, k, ls[k], ls[k + 1]);
  }

  lemma LastLevel(q: Pages, ls: seq<seq<nat>>, above: seq<nat>)
    requires |ls| >= 1 && LevelOk(q, |ls| - 1, ls[|ls| - 1], above)
    ensures LevelAt(q, ls + [above], |ls| - 1)
  {
  }

  lemma StillFilled(ls: seq<seq<nat>>, above: seq<nat>)
    requires (forall k :: 0 <= k < |ls| ==> |ls[k]| > 0) && |above| > 0
    ensures forall k :: 0 <= k < |ls + [above]| ==> |(ls + [above])[k]| > 0
  {
  }

  lemma NextLevel(p: Pages, q: Pages, ls: seq<seq<nat>>, above: seq<nat>)
    requires Partial(p, ls) && above != [] && LevelOk(q, |ls| - 1, ls[|ls| - 1], above)
    requires Keeps(p, q, Nodes(ls))
    ensures Partial(q, ls + [above]) && Nodes(ls + [above]) == Nodes(ls) + above
  {
    hide LevelOk, LevelAt, Nodes, Keeps;
    var more := ls + [above];
    NodesAppend(ls, above);
    StillFilled(ls, above);
    LastLevel(q, ls, above);
    forall k: nat | k < |more| - 1 ensures LevelAt(q, more, k) {
      if k < |ls| - 1 { LevelKept(p, q, ls, above, k); }
    }
  }

  /** How many nodes level `k` has, as the pages below it demand. */
  ghost predicate Sizes(n: nat, ls: seq<seq<nat>>) {
    forall k: nat :: k < |ls| ==> SizeOk(n, ls, k)
  }

  ghost predicate SizeOk(n: nat, ls: seq<seq<nat>>, k: nat) {
    k < |ls| && |ls[k]| * Power(k) < n + Power(k) && n <= |ls[k]| * Power(k)
  }

  lemma NextSize(n: nat, ls: seq<seq<nat>>, above: seq<nat>)
    requires |ls| >= 1 && |ls| <= MAX_LEVELS && Sizes(n, ls) && |above| == DivUp(|ls[|ls| - 1]|, FAN)
    ensures Sizes(n, ls + [above])
  {
    Powers();
    var k := |ls| - 1;
    assert SizeOk(n, ls, k);
    forall i: nat | i < |ls + [above]| ensures SizeOk(n, ls + [above], i) {
      if i < |ls| { assert SizeOk(n, ls, i); }
    }
  }

  /** Builds the tree. Its height is the number of levels that the page count asks for. */
  method Build(tx: Tx, pages: Pages, list: seq<nat>)
    returns (s: Status, root: nat, levels: nat, q: Pages, ghost ls: seq<seq<nat>>)
    requires tx.Valid()
    modifies tx
    ensures tx.Valid() && tx.deferred == old(tx.deferred)
    ensures s == Invalid <==> list == []
    ensures s == TooBig <==> |list| > Power(MAX_LEVELS)
    ensures s != Corrupt && (s == NoSpace ==> tx.Full())
    ensures s == Done ==> Tree(q, ls) && ls[0] == list && root == ls[|ls| - 1][0] && levels == |ls| - 1 <= MAX_LEVELS
    ensures s == Done ==> |list| <= Power(levels) && (levels > 1 ==> Power(levels - 1) < |list|)
    ensures s == Done ==> Extends(pages, q, old(tx.bitmap), tx.bitmap, Nodes(ls))
  {
    hide Extends, LevelOk, SizeOk;
    root, levels, q, ls := 0, 0, pages, [list];
    if list == [] { return Invalid, root, levels, q, ls; }
    var enough := Levels(|list|);
    if enough == 0 { return TooBig, root, levels, q, ls; }
    var current, level := list, 0;
    StartSize(list);
    NothingMade(pages, tx.bitmap);
    while true
      invariant tx.Valid() && tx.deferred == old(tx.deferred) && current != [] && level < MAX_LEVELS
      invariant Partial(q, ls) && |ls| == level + 1 && ls[0] == list && ls[level] == current && Sizes(|list|, ls)
      invariant Extends(pages, q, old(tx.bitmap), tx.bitmap, Nodes(ls)) && (level > 0 ==> |current| > 1)
      decreases MAX_LEVELS - level
    {
      ghost var q0 := q;
      var above;
      s, above, q := BuildLevel(tx, q, level, current, pages, old(tx.bitmap), Nodes(ls));
      if s != Done { return; }
      NextLevel(q0, q, ls, above);
      LevelSize(q, level, current, above);
      NextSize(|list|, ls, above);
      ls := ls + [above];
      Height(|list|, ls);
      if |above| == 1 {
        return Done, above[0], level + 1, q, ls;
      }
      current, level := above, level + 1;
      if level >= MAX_LEVELS { return TooBig, root, levels, q, ls; }
    }
  }

  lemma StartSize(list: seq<nat>)
    ensures Sizes(|list|, [list])
  {
    forall k: nat | k < 1 ensures SizeOk(|list|, [list], k) { }
  }

  lemma NothingMade(pages: Pages, bits: seq<bool>)
    ensures Extends(pages, pages, bits, bits, [])
  {
  }

  lemma LevelSize(pages: Pages, level: nat, below: seq<nat>, above: seq<nat>)
    requires LevelOk(pages, level, below, above)
    ensures |above| == DivUp(|below|, FAN)
  {
  }

  /** The topmost level tells how many levels the page count needed. */
  lemma Height(n: nat, ls: seq<seq<nat>>)
    requires 2 <= |ls| <= MAX_LEVELS + 1 && Sizes(n, ls) && n > 0 && ls[|ls| - 1] != []
    ensures |ls[|ls| - 1]| == 1 <==> n <= Power(|ls| - 1)
    ensures |ls| > 2 && |ls[|ls| - 2]| > 1 ==> Power(|ls| - 2) < n
  {
    Powers();
    assert SizeOk(n, ls, |ls| - 1) && SizeOk(n, ls, |ls| - 2);
  }

  predicate PageValid(pages: Pages, taken: set<nat>, node: nat, level: nat) {
    && node in pages && pages[node].level == level && 0 < |pages[node].pointers| <= FAN
    && forall i :: 0 <= i < |pages[node].pointers| ==> pages[node].pointers[i] in taken
  }

  ghost predicate AllTaken(taken: set<nat>, ls: seq<seq<nat>>) {
    forall k: nat, i: nat :: k < |ls| && i < |ls[k]| ==> ls[k][i] in taken
  }

  /** The node at position `p` of level `k + 1` is good, and leads to its chunk. */
  lemma NodeIsValid(pages: Pages, taken: set<nat>, ls: seq<seq<nat>>, k: nat, p: nat)
    requires Tree(pages, ls) && AllTaken(taken, ls) && k + 1 < |ls| && p < |ls[k + 1]|
    ensures p * FAN < |ls[k]| && PageValid(pages, taken, ls[k + 1][p], k)
    ensures pages[ls[k + 1][p]].pointers == Chunk(ls[k], p)
  {
    assert LevelAt(pages, ls, k);
    assert ParentOk(pages, k, ls[k], ls[k + 1], p);
    var c := Chunk(ls[k], p);
    forall i | 0 <= i < |c| ensures c[i] in taken { assert c[i] == ls[k][p * FAN + i]; }
  }

  lemma Digits(n: nat, k: nat)
    requires k < MAX_LEVELS
    ensures Power(k) > 0 && n % Power(k + 1) / Power(k) < FAN
    ensures n / Power(k + 1) * FAN + n % Power(k + 1) / Power(k) == n / Power(k)
    ensures n % Power(k + 1) % Power(k) == n % Power(k)
  {
    Powers();
    assert k == 0 || k == 1 || k == 2;
  }

  /** The descent stands at level `k`, on the way to extent page `index`. */
  ghost predicate Here(ls: seq<seq<nat>>, k: nat, index: nat, block: nat, rest: nat) {
    && k < |ls| && Power(k) > 0 && rest == index % Power(k)
    && index / Power(k) < |ls[k]| && block == ls[k][index / Power(k)]
  }

  lemma Descend(pages: Pages, taken: set<nat>, ls: seq<seq<nat>>, k: nat, index: nat, block: nat, rest: nat)
    requires Tree(pages, ls) && |ls| - 1 <= MAX_LEVELS && AllTaken(taken, ls) && index < |ls[0]|
    requires k < MAX_LEVELS && Here(ls, k + 1, index, block, rest)
    ensures Power(k) > 0 && PageValid(pages, taken, block, k)
    ensures rest / Power(k) < |pages[block].pointers|
    ensures Here(ls, k, index, pages[block].pointers[rest / Power(k)], rest % Power(k))
  {
    hide Tree, AllTaken, Power, Chunk, PageValid;
    Digits(index, k);
    NodeIsValid(pages, taken, ls, k, index / Power(k + 1));
    SlotInside(pages, ls, k, index);
    InLevel(pages, ls, k, index);
  }

  ghost predicate Describes(pages: Pages, taken: set<nat>, ls: seq<seq<nat>>, root: nat, levels: nat, count: nat) {
    && Tree(pages, ls) && AllTaken(taken, ls) && root == ls[|ls| - 1][0] && levels == |ls| - 1
    && count == |ls[0]| && count <= Power(levels)
  }

  /** Descends from the root, taking one digit of the index at every level. */
  method Resolve(pages: Pages, taken: set<nat>, root: nat, levels: nat, count: nat, index: nat, ghost ls: seq<seq<nat>>)
    returns (s: Status, block: nat)
    requires 0 < levels <= MAX_LEVELS
    ensures Describes(pages, taken, ls, root, levels, count) ==>
      if index < count then s == Done && block == ls[0][index] else s == Corrupt
  {
    hide Here, Power, PageValid, Tree, AllTaken;
    ghost var fine := Describes(pages, taken, ls, root, levels, count);
    block := root;
    if index >= count { return Corrupt, block; }
    var left, rest := levels, index;
    if fine { AtRoot(pages, ls, index); }
    while left > 0
      invariant left <= levels && (fine ==> Here(ls, left, index, block, rest))
    {
      var level := left - 1;
      var span := SpanOf(level);
      if fine { Descend(pages, taken, ls, level, index, block, rest); }
      if !PageValid(pages, taken, block, level) { return Corrupt, block; }
      var slot := rest / span;
      ValidInside(pages, taken, block, level);
      if slot >= |pages[block].pointers| { return Corrupt, block; }
      block, rest := pages[block].pointers[slot], rest % span;
      left := level;
    }
    if fine { Arrived(ls, index, block, rest); }
    s := Done;
  }

  lemma ValidInside(pages: Pages, taken: set<nat>, node: nat, level: nat)
    requires PageValid(pages, taken, node, level)
    ensures node in pages
  {
  }

  lemma Arrived(ls: seq<seq<nat>>, index: nat, block: nat, rest: nat)
    requires Here(ls, 0, index, block, rest)
    ensures index < |ls[0]| && block == ls[0][index]
  {
  }

  /** The loop that multiplies the span of a level. */
  method SpanOf(level: nat) returns (span: nat)
    ensures span == Power(level) && span > 0
  {
    span := 1;
    for i := 0 to level
      invariant span == Power(i) && span > 0
    {
      span := span * FAN;
    }
  }

  lemma AtRoot(pages: Pages, ls: seq<seq<nat>>, index: nat)
    requires Tree(pages, ls) && |ls| - 1 <= MAX_LEVELS && index < |ls[0]| && |ls[0]| <= Power(|ls| - 1)
    ensures Here(ls, |ls| - 1, index, ls[|ls| - 1][0], index)
  {
    Powers();
    assert |ls| == 2 || |ls| == 3 || |ls| == 4;
  }

  /** The digit names a pointer that the page has. */
  lemma SlotInside(pages: Pages, ls: seq<seq<nat>>, level: nat, index: nat)
    requires Tree(pages, ls) && |ls| - 1 <= MAX_LEVELS && level + 1 < |ls| && index < |ls[0]| && level < MAX_LEVELS
    requires Power(level + 1) > 0 && Power(level) > 0 && index / Power(level + 1) < |ls[level + 1]|
    requires index / Power(level + 1) * FAN < |ls[level]|
    ensures var p, slot := index / Power(level + 1), index % Power(level + 1) / Power(level);
      slot < |Chunk(ls[level], p)| && Chunk(ls[level], p)[slot] == ls[level][index / Power(level)]
  {
    Digits(index, level);
    InLevel(pages, ls, level, index);
  }

  lemma {:induction false} InLevel(pages: Pages, ls: seq<seq<nat>>, level: nat, index: nat)
    requires Tree(pages, ls) && level < |ls| && level <= MAX_LEVELS && index < |ls[0]|
    ensures Power(level) > 0 && index / Power(level) < |ls[level]|
  {
    if level > 0 {
      InLevel(pages, ls, level - 1, index);
      assert LevelAt(pages, ls, level - 1);
      Digits(index, level - 1);
      Powers();
      assert level == 1 || level == 2 || level == 3;
    }
  }

  /** The nodes of levels 1 to `k` below positions `a` to `b` of level `k`, these included. */
  ghost function Under(ls: seq<seq<nat>>, k: nat, a: nat, b: nat): multiset<nat>
    requires k < |ls| && a <= b <= |ls[k]|
    decreases k
  {
    if k == 0 then multiset{}
    else multiset(ls[k][a..b]) + Under(ls, k - 1, Min(|ls[k - 1]|, a * FAN), Min(|ls[k - 1]|, b * FAN))
  }

  lemma {:induction false} UnderSplit(ls: seq<seq<nat>>, k: nat, a: nat, b: nat, c: nat)
    requires k < |ls| && a <= b <= c <= |ls[k]|
    ensures Under(ls, k, a, b) + Under(ls, k, b, c) == Under(ls, k, a, c)
    decreases k
  {
    hide Under;
    if k > 0 {
      UnderStep(ls, k, a, b);
      UnderStep(ls, k, b, c);
      UnderStep(ls, k, a, c);
      UnderSplit(ls, k - 1, Min(|ls[k - 1]|, a * FAN), Min(|ls[k - 1]|, b * FAN), Min(|ls[k - 1]|, c * FAN));
      var x, y, z := ls[k][a..b], ls[k][b..c], ls[k][a..c];
      assert x + y == z && multiset(x + y) == multiset(x) + multiset(y);
      var m := |ls[k - 1]|;
      Mixed(multiset(x), Under(ls, k - 1, Min(m, a * FAN), Min(m, b * FAN)), multiset(y),
        Under(ls, k - 1, Min(m, b * FAN), Min(m, c * FAN)));
    } else {
      UnderZero(ls, a, b);
      UnderZero(ls, b, c);
      UnderZero(ls, a, c);
    }
  }

  lemma Mixed(a: multiset<nat>, x: multiset<nat>, b: multiset<nat>, y: multiset<nat>)
    ensures (a + x) + (b + y) == (a + b) + (x + y)
  {
  }

  lemma {:induction false} UnderAll(pages: Pages, ls: seq<seq<nat>>, k: nat)
    requires Tree(pages, ls) && k < |ls|
    ensures Under(ls, k, 0, |ls[k]|) == multiset(Nodes(ls[..k + 1]))
    decreases k
  {
    hide Tree, Under, Nodes;
    if k > 0 {
      UnderAll(pages, ls, k - 1);
      LevelCount(pages, ls, k - 1);
      NodesTo(ls, k);
      UnderStep(ls, k, 0, |ls[k]|);
      assert ls[k][0..|ls[k]|] == ls[k];
      assert multiset(Nodes(ls[..k]) + ls[k]) == multiset(Nodes(ls[..k])) + multiset(ls[k]);
    } else {
      UnderZero(ls, 0, |ls[0]|);
      NoNodes(ls);
    }
  }

  lemma LevelCount(pages: Pages, ls: seq<seq<nat>>, k: nat)
    requires Tree(pages, ls) && k + 1 < |ls|
    ensures |ls[k]| <= |ls[k + 1]| * FAN
  {
    assert LevelAt(pages, ls, k);
  }

  lemma NoNodes(ls: seq<seq<nat>>)
    requires ls != []
    ensures Nodes(ls[..1]) == []
  {
  }

  lemma NodesTo(ls: seq<seq<nat>>, k: nat)
    requires 0 < k < |ls|
    ensures Nodes(ls[..k + 1]) == Nodes(ls[..k]) + ls[k]
  {
    assert ls[..k + 1][..k] == ls[..k];
  }

  lemma UnderEmpty(ls: seq<seq<nat>>, k: nat, a: nat)
    requires k < |ls| && a <= |ls[k]|
    ensures Under(ls, k, a, a) == multiset{}
    decreases k
  {
    if k > 0 { UnderEmpty(ls, k - 1, Min(|ls[k - 1]|, a * FAN)); }
  }

  ghost predicate NodeAt(pages: Pages, taken: set<nat>, ls: seq<seq<nat>>, level: nat, p: nat, node: nat) {
    Tree(pages, ls) && AllTaken(taken, ls) && level + 1 < |ls| && p < |ls[level + 1]| && node == ls[level + 1][p]
  }

  /** Gives up a node after everything below it. */
  method DeferNodes(pages: Pages, taken: set<nat>, node: nat, level: nat, ghost ls: seq<seq<nat>>, ghost p: nat)
    returns (s: Status, freed: seq<nat>)
    ensures NodeAt(pages, taken, ls, level, p, node) ==>
      s == Done && multiset(freed) == Under(ls, level + 1, p, p + 1)
    decreases level
  {
    hide Tree, AllTaken, Under, PageValid;
    ghost var fine := NodeAt(pages, taken, ls, level, p, node);
    freed := [];
    if fine { NodeIsValid(pages, taken, ls, level, p); }
    if !PageValid(pages, taken, node, level) { return Corrupt, freed; }
    ValidInside(pages, taken, node, level);
    var pointers := pages[node].pointers;
    ghost var base := if fine then p * FAN else 0;
    if fine { UnderEmpty(ls, level, base); }
    if level > 0 {
      for i := 0 to |pointers|
        invariant fine ==> base + i <= |ls[level]| && multiset(freed) == Under(ls, level, base, base + i)
      {
        var some;
        s, some := DeferNodes(pages, taken, pointers[i], level - 1, ls, base + i);
        if s != Done { return; }
        if fine { UnderSplit(ls, level, base, base + i, base + i + 1); }
        freed := freed + some;
      }
    }
    if fine { NodeAndBelow(ls, level, p); }
    s, freed := Done, freed + [node];
  }

  lemma NodeAndBelow(ls: seq<seq<nat>>, level: nat, p: nat)
    requires level + 1 < |ls| && p < |ls[level + 1]| && p * FAN < |ls[level]|
    ensures p * FAN + |Chunk(ls[level], p)| <= |ls[level]|
    ensures Under(ls, level + 1, p, p + 1) ==
      multiset{ls[level + 1][p]}
      + if level > 0 then Under(ls, level, p * FAN, p * FAN + |Chunk(ls[level], p)|) else multiset{}
  {
    hide Under;
    assert ls[level + 1][p..p + 1] == [ls[level + 1][p]];
    UnderStep(ls, level + 1, p, p + 1);
    if level == 0 { UnderZero(ls, Min(|ls[0]|, p * FAN), Min(|ls[0]|, (p + 1) * FAN)); }
  }

  lemma UnderStep(ls: seq<seq<nat>>, k: nat, a: nat, b: nat)
    requires 0 < k < |ls| && a <= b <= |ls[k]|
    ensures Under(ls, k, a, b) == multiset(ls[k][a..b])
      + Under(ls, k - 1, Min(|ls[k - 1]|, a * FAN), Min(|ls[k - 1]|, b * FAN))
  {
  }

  lemma UnderZero(ls: seq<seq<nat>>, a: nat, b: nat)
    requires |ls| > 0 && a <= b <= |ls[0]|
    ensures Under(ls, 0, a, b) == multiset{}
  {
  }

  /** Gives up every extent page and every node, each exactly once. */
  method DeferAll(pages: Pages, taken: set<nat>, root: nat, levels: nat, count: nat, ghost ls: seq<seq<nat>>)
    returns (s: Status, freed: seq<nat>)
    requires 0 < levels <= MAX_LEVELS
    ensures Describes(pages, taken, ls, root, levels, count) ==> s == Done
    ensures Describes(pages, taken, ls, root, levels, count) ==>
      multiset(freed) == multiset(ls[0]) + multiset(Nodes(ls))
  {
    hide Describes, Under, Nodes;
    ghost var fine := Describes(pages, taken, ls, root, levels, count);
    freed := [];
    if fine { Unfolded(pages, taken, ls, root, levels, count); }
    for i := 0 to count
      invariant fine ==> freed == ls[0][..i]
    {
      var block;
      s, block := Resolve(pages, taken, root, levels, count, i, ls);
      if s != Done { return; }
      freed := freed + [block];
    }
    var nodes;
    s, nodes := DeferNodes(pages, taken, root, levels - 1, ls, 0);
    if fine {
      UnderAll(pages, ls, |ls| - 1);
      assert ls[..|ls|] == ls && ls[0][..count] == ls[0];
      assert multiset(freed + nodes) == multiset(freed) + multiset(nodes);
    }
    freed := freed + nodes;
  }

  lemma Unfolded(pages: Pages, taken: set<nat>, ls: seq<seq<nat>>, root: nat, levels: nat, count: nat)
    requires Describes(pages, taken, ls, root, levels, count)
    ensures |ls| == levels + 1 >= 2 && |ls[|ls| - 1]| == 1 && root == ls[|ls| - 1][0] && count == |ls[0]|
    ensures Tree(pages, ls) && AllTaken(taken, ls)
  {
  }

  // Building a tree and using it.

  function TakenBy(bits: seq<bool>): set<nat> { set b: nat | b < |bits| && bits[b] }

  lemma BuiltIsTaken(p: Pages, q: Pages, before: seq<bool>, after: seq<bool>, ls: seq<seq<nat>>, k: nat, i: nat)
    requires Extends(p, q, before, after, Nodes(ls)) && k < |ls| && i < |ls[k]|
    requires forall b :: b in ls[0] ==> b < |before| && before[b]
    ensures ls[k][i] in TakenBy(after)
  {
    assert ls[k][i] in ls[k];
    if k > 0 { NodesHave(ls, k); }
  }

  lemma BuiltIsDescribed(
    p: Pages, q: Pages, before: seq<bool>, after: seq<bool>, ls: seq<seq<nat>>, root: nat, levels: nat)
    requires Extends(p, q, before, after, Nodes(ls)) && Tree(q, ls)
    requires root == ls[|ls| - 1][0] && levels == |ls| - 1 && |ls[0]| <= Power(levels)
    requires forall b :: b in ls[0] ==> b < |before| && before[b]
    ensures Describes(q, TakenBy(after), ls, root, levels, |ls[0]|)
  {
    forall k: nat, i: nat | k < |ls| && i < |ls[k]| ensures ls[k][i] in TakenBy(after) {
      BuiltIsTaken(p, q, before, after, ls, k, i);
    }
  }

  /** Every index of a page list of any length the format allows resolves, through the tree just
      built for it, to the page at that index; an index past the end is refused. */
  method BuildAndResolve(tx: Tx, pages: Pages, list: seq<nat>, index: nat)
    returns (built: Status, found: Status, block: nat)
    requires tx.Valid() && forall b :: b in list ==> b < |tx.bitmap| && tx.bitmap[b]
    modifies tx
    ensures built == Done && index < |list| ==> found == Done && block == list[index]
    ensures built == Done && index >= |list| ==> found == Corrupt
    ensures built == Done || (built == Invalid && list == []) || (built == TooBig && |list| > Power(MAX_LEVELS)) ||
      (built == NoSpace && tx.Full())
  {
    hide Tree, Extends, Describes, Power;
    ghost var before, ls := tx.bitmap, [];
    var root, levels, q;
    found, block := Corrupt, 0;
    built, root, levels, q, ls := Build(tx, pages, list);
    if built == Done {
      BuiltIsDescribed(pages, q, before, tx.bitmap, ls, root, levels);
      BuiltUp(q, ls);
      found, block := Resolve(q, TakenBy(tx.bitmap), root, levels, |list|, index, ls);
    }
  }

  lemma BuiltUp(q: Pages, ls: seq<seq<nat>>)
    requires Tree(q, ls)
    ensures |ls| >= 2
  {
  }

  lemma {:induction false} Once(s: seq<nat>, b: nat)
    requires forall i, j :: 0 <= i < j < |s| ==> s[i] != s[j]
    ensures multiset(s)[b] == if b in s then 1 else 0
  {
    if s != [] {
      var init := s[..|s| - 1];
      Once(init, b);
      assert s == init + [s[|s| - 1]];
    }
  }

  function NewlyTaken(before: seq<bool>, after: seq<bool>, b: nat): nat
    requires |before| == |after|
  {
    if b < |after| && after[b] && !before[b] then 1 else 0
  }

  /** Giving a tree up again frees every page of the list and exactly the blocks that building
      it had allocated, each once. */
  method BuildAndFree(tx: Tx, pages: Pages, list: seq<nat>) returns (built: Status, freed: seq<nat>)
    requires tx.Valid() && forall b :: b in list ==> b < |tx.bitmap| && tx.bitmap[b]
    modifies tx
    ensures |tx.bitmap| == |old(tx.bitmap)|
    ensures built == Done ==>
      forall b: nat :: multiset(freed)[b] == multiset(list)[b] + NewlyTaken(old(tx.bitmap), tx.bitmap, b)
  {
    hide Tree, Extends, Describes, Power;
    ghost var before, ls := tx.bitmap, [];
    var root, levels, q;
    freed := [];
    built, root, levels, q, ls := Build(tx, pages, list);
    if built == Done {
      BuiltIsDescribed(pages, q, before, tx.bitmap, ls, root, levels);
      BuiltUp(q, ls);
      built, freed := DeferAll(q, TakenBy(tx.bitmap), root, levels, |list|, ls);
      forall b: nat ensures multiset(Nodes(ls))[b] == NewlyTaken(before, tx.bitmap, b) {
        NewOnce(pages, q, before, tx.bitmap, Nodes(ls), b);
      }
    }
  }

  lemma NewOnce(p: Pages, q: Pages, before: seq<bool>, after: seq<bool>, made: seq<nat>, b: nat)
    requires Extends(p, q, before, after, made)
    ensures |before| == |after| && multiset(made)[b] == NewlyTaken(before, after, b)
  {
    Once(made, b);
  }
}
