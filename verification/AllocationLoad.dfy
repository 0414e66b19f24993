/** Loading the allocation map at mount: the tree walk, then the checks that the pages do
    not overlap anything else and that the bitmap agrees with the superblock. */
module AllocationLoad {
  import opened Geometry
  import opened Discovery
  import opened Sorting
  import opened AllocationTree

  /** Number of allocated blocks. */
  function Used(bits: seq<bool>): (n: nat)
    ensures n <= |bits|
  {
    if bits == [] then 0 else Used(bits[..|bits| - 1]) + if bits[|bits| - 1] then 1 else 0
  }

  lemma {:induction false} UsedConcat(a: seq<bool>, b: seq<bool>)
    ensures Used(a + b) == Used(a) + Used(b)
  {
    if b == [] {
      assert a + b == a;
    } else {
      UsedConcat(a, b[..|b| - 1]);
      assert (a + b)[..|a + b| - 1] == a + b[..|b| - 1];
    }
  }

  /** Setting or clearing one bit moves the count by one. */
  lemma UsedUpdate(bits: seq<bool>, i: nat, v: bool)
    requires i < |bits| && bits[i] != v
    ensures Used(bits[i := v]) == if v then Used(bits) + 1 else Used(bits) - 1
  {
    var a, b := bits[..i], bits[i + 1..];
    assert bits == a + [bits[i]] + b && bits[i := v] == a + [v] + b;
    UsedConcat(a + [bits[i]], b);
    UsedConcat(a + [v], b);
    UsedConcat(a, [bits[i]]);
    UsedConcat(a, [v]);
    assert Used([v]) == if v then 1 else 0;
    assert Used([bits[i]]) == if bits[i] then 1 else 0;
  }

  const WORD: nat := 64

  /** Counts whole machine words first, then the remaining bits one by one. */
  method CountFree(bits: seq<bool>) returns (free: nat)
    ensures free == |bits| - Used(bits)
  {
    var used := 0;
    var words := |bits| / WORD;
    for i := 0 to words
      invariant used == Used(bits[..i * WORD])
    {
      var word := bits[i * WORD..(i + 1) * WORD];
      UsedConcat(bits[..i * WORD], word);
      assert bits[..(i + 1) * WORD] == bits[..i * WORD] + word;
      used := used + Used(word);
    }
    for bit := words * WORD to |bits|
      invariant used == Used(bits[..bit])
    {
      assert bits[..bit + 1][..bit] == bits[..bit];
      used := used + if bits[bit] then 1 else 0;
    }
    assert bits[..|bits|] == bits;
    free := |bits| - used;
  }

  /** A block a tree page may occupy. */
  predicate PagePlace(sb: Superblock, b: nat) {
    0 < b < sb.total && b != LOCATOR_A && b != LOCATOR_B && b !in sb.checkpoint
  }

  ghost predicate Placed(sb: Superblock, blocks: seq<nat>) {
    Distinct(blocks) && forall b :: b in blocks ==> PagePlace(sb, b)
  }

  /** Sorts the page list and compares neighbours only. */
  method CheckPlaced(sb: Superblock, blocks: seq<nat>) returns (ok: bool)
    ensures ok <==> Placed(sb, blocks)
  {
    var sorted := Sort(blocks, (b: nat) => b);
    SameMembers(blocks, sorted);
    DistinctCounts(blocks);
    DistinctCounts(sorted);
    for i := 0 to |sorted|
      invariant forall k :: 0 <= k < i ==> PagePlace(sb, sorted[k])
      invariant forall j, k :: 0 <= j < k < i ==> sorted[j] != sorted[k]
    {
      if !PagePlace(sb, sorted[i]) {
        assert sorted[i] in blocks;
        return false;
      }
      if i > 0 && sorted[i] == sorted[i - 1] { return false; }
      if i > 0 {
        assert forall j :: 0 <= j < i ==> sorted[j] <= sorted[i - 1] <= sorted[i];
      }
    }
    ok := true;
  }

  predicate AllSet(bits: seq<bool>, blocks: seq<nat>) {
    forall i :: 0 <= i < |blocks| ==> blocks[i] < |bits| && bits[blocks[i]]
  }

  ghost predicate LoadChecks(sb: Superblock, l: Layout, bits: seq<bool>) {
    && Placed(sb, l.leaves + l.branches)
    && sb.freeBlocks == |bits| - Used(bits)
    && AllSet(bits, l.leaves) && AllSet(bits, l.branches) && AllSet(bits, sb.checkpoint)
    && AllSet(bits, [sb.objectIndex, sb.rootObject])
  }

  method CheckSet(bits: seq<bool>, blocks: seq<nat>) returns (ok: bool)
    requires forall i :: 0 <= i < |blocks| ==> blocks[i] < |bits|
    ensures ok <==> AllSet(bits, blocks)
  {
    for i := 0 to |blocks|
      invariant forall k :: 0 <= k < i ==> bits[blocks[k]]
    {
      if !bits[blocks[i]] { return false; }
    }
    ok := true;
  }

  /** The mount-time load. It fails exactly when a page is bad or a check fails. */
  method Load(p: Pages, device: nat, sb: Superblock) returns (r: Option<(Layout, seq<bool>)>)
    requires BasicValid(sb, device)
    ensures r.Some? ==> TreeReads(p, device, sb) && TreeIs(p, sb, r.value.0, r.value.1)
    ensures r.Some? ==> LoadChecks(sb, r.value.0, r.value.1)
    ensures r.None? ==> forall l, bits :: TreeReads(p, device, sb) && TreeIs(p, sb, l, bits) ==>
      !LoadChecks(sb, l, bits)
  {
    hide TreeReads, Placed, Used, AllSet, TreeIs;
    var ok, layout, bits := LoadTree(p, device, sb);
    if !ok { return None; }
    forall l, b | TreeIs(p, sb, l, b) ensures l == layout && b == bits { TreeIsUnique(p, sb, l, b, layout, bits); }
    BitsFit(p, sb, layout, bits);
    ok := CheckPlaced(sb, layout.leaves + layout.branches);
    if !ok { return None; }
    var free := CountFree(bits);
    if free != sb.freeBlocks { return None; }
    PlacedInside(sb, layout);
    ok := CheckSet(bits, layout.leaves);
    if !ok { return None; }
    ok := CheckSet(bits, layout.branches);
    if !ok { return None; }
    assert forall i :: 0 <= i < 3 ==> sb.checkpoint[i] < sb.total;
    ok := CheckSet(bits, sb.checkpoint);
    if !ok { return None; }
    ok := CheckSet(bits, [sb.objectIndex, sb.rootObject]);
    if !ok { return None; }
    r := Some((layout, bits));
  }

  lemma PlacedInside(sb: Superblock, l: Layout)
    requires Placed(sb, l.leaves + l.branches)
    ensures forall i :: 0 <= i < |l.leaves| ==> l.leaves[i] < sb.total
    ensures forall i :: 0 <= i < |l.branches| ==> l.branches[i] < sb.total
  {
    assert forall i :: 0 <= i < |l.leaves| ==> l.leaves[i] in l.leaves + l.branches;
    assert forall i :: 0 <= i < |l.branches| ==> l.branches[i] in l.leaves + l.branches;
  }

  lemma BitsFit(p: Pages, sb: Superblock, l: Layout, bits: seq<bool>)
    requires TreeIs(p, sb, l, bits)
    ensures |bits| == sb.total
  {
  }

  /** The pages determine both the layout and the bitmap. */
  lemma TreeIsUnique(p: Pages, sb: Superblock, l: Layout, a: seq<bool>, m: Layout, b: seq<bool>)
    requires TreeIs(p, sb, l, a) && TreeIs(p, sb, m, b)
    ensures l == m && a == b
  {
    assert l.leaves == m.leaves;
    forall i | 0 <= i < |l.branches| ensures l.branches[i] == m.branches[i] {
      if 1 + Level2(sb.total) <= i {
        var g := i - 1 - Level2(sb.total);
        assert l.branches[i] == Level1Block(p, sb.allocationRoot, g) == m.branches[i];
      } else if i > 0 {
        assert l.branches[i] == Level2Block(p, sb.allocationRoot, i - 1) == m.branches[i];
      }
    }
    forall i | 0 <= i < sb.total ensures a[i] == b[i] {
      var k := i / LEAF_BITS;
      assert LeafHolds(PageAt(p, l.leaves[k]), a, k) && LeafHolds(PageAt(p, m.leaves[k]), b, k);
      LeavesAgree(PageAt(p, l.leaves[k]), a, b, i);
    }
  }

  lemma LeavesAgree(page: Page, a: seq<bool>, b: seq<bool>, i: nat)
    requires i < |a| == |b|
    requires LeafHolds(page, a, i / LEAF_BITS) && LeafHolds(page, b, i / LEAF_BITS)
    ensures a[i] == b[i]
  {
    var start := i / LEAF_BITS * LEAF_BITS;
    assert start <= i < start + LeafWidth(|a|, i / LEAF_BITS);
    assert a[start..start + LeafWidth(|a|, i / LEAF_BITS)][i - start] == a[i];
    assert b[start..start + LeafWidth(|a|, i / LEAF_BITS)][i - start] == b[i];
  }
}
