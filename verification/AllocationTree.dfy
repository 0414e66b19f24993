/** The allocation bitmap as a three-level tree of pages, and the load that walks it. */
module AllocationTree {
  import opened Geometry
  import opened Discovery

  /** Allocation pages. A leaf holds one span of the bitmap, a branch the blocks below it. */
  datatype Page =
    | LeafPage(generation: nat, index: nat, bits: seq<bool>)
    | BranchPage(generation: nat, index: nat, level: nat, pointers: seq<nat>)
    | OtherPage

  type Pages = map<nat, Page>

  const ROOT_LEVEL: nat := 3

  function PageAt(p: Pages, b: nat): Page { if b in p then p[b] else OtherPage }

  /** The blocks of a tree: leaves in order, and root, then level two, then level one. */
  datatype Layout = Layout(leaves: seq<nat>, branches: seq<nat>)

  predicate Shaped(l: Layout, total: nat) {
    |l.leaves| == Leaves(total) && |l.branches| == Branches(total)
  }

  function LeafWidth(total: nat, k: nat): nat
    requires k * LEAF_BITS <= total
  {
    Min(LEAF_BITS, total - k * LEAF_BITS)
  }

  /** Number of children of branch `i` when `n` children are spread over full pages. */
  function Width(n: nat, i: nat): nat
    requires i * FANOUT <= n
  {
    Min(FANOUT, n - i * FANOUT)
  }

  predicate BranchOk(p: Pages, device: nat, generation: nat, b: nat, index: nat, level: nat, entries: nat) {
    && 0 < b < device && PageAt(p, b).BranchPage?
    && 0 < PageAt(p, b).generation <= generation
    && PageAt(p, b).index == index && PageAt(p, b).level == level
    && |PageAt(p, b).pointers| == entries && 0 < entries <= FANOUT
  }

  predicate LeafOk(p: Pages, device: nat, generation: nat, b: nat, index: nat, entries: nat) {
    && 0 < b < device && PageAt(p, b).LeafPage?
    && 0 < PageAt(p, b).generation <= generation
    && PageAt(p, b).index == index && |PageAt(p, b).bits| == entries && 0 < entries <= LEAF_BITS
  }

  function Pointer(p: Pages, b: nat, slot: nat): nat {
    match PageAt(p, b)
    case BranchPage(_, _, _, pointers) => if slot < |pointers| then pointers[slot] else 0
    case _ => 0
  }

  /** Where each page lies, as the pages above it say. */
  function Level2Block(p: Pages, root: nat, i: nat): nat { Pointer(p, root, i) }
  function Level1Block(p: Pages, root: nat, g: nat): nat { Pointer(p, Level2Block(p, root, g / FANOUT), g % FANOUT) }
  function LeafBlock(p: Pages, root: nat, k: nat): nat { Pointer(p, Level1Block(p, root, k / FANOUT), k % FANOUT) }

  predicate Level2Ok(p: Pages, device: nat, sb: Superblock, i: nat)
    requires i * FANOUT <= Level1(sb.total)
  {
    BranchOk(p, device, sb.generation, Level2Block(p, sb.allocationRoot, i), i, 2, Width(Level1(sb.total), i))
  }

  predicate Level1Ok(p: Pages, device: nat, sb: Superblock, g: nat)
    requires g * FANOUT <= Leaves(sb.total)
  {
    BranchOk(p, device, sb.generation, Level1Block(p, sb.allocationRoot, g), g, 1, Width(Leaves(sb.total), g))
  }

  predicate LeafAtOk(p: Pages, device: nat, sb: Superblock, k: nat)
    requires k * LEAF_BITS <= sb.total
  {
    LeafOk(p, device, sb.generation, LeafBlock(p, sb.allocationRoot, k), k, LeafWidth(sb.total, k))
  }

  predicate HeaderOk(sb: Superblock) {
    && Fits(sb.total) && sb.leafCount == Leaves(sb.total)
    && 0 < sb.allocationRoot < sb.total && sb.generation != 0
  }

  /** Every page of the tree under `sb` is present and valid. */
  ghost predicate TreeReads(p: Pages, device: nat, sb: Superblock) {
    && HeaderOk(sb)
    && BranchOk(p, device, sb.generation, sb.allocationRoot, 0, ROOT_LEVEL, Level2(sb.total))
    && (forall i :: 0 <= i < Level2(sb.total) ==> Level2Ok(p, device, sb, i))
    && (forall g :: 0 <= g < Level1(sb.total) ==> Level1Ok(p, device, sb, g))
    && (forall k :: 0 <= k < Leaves(sb.total) ==> LeafAtOk(p, device, sb, k))
  }

  /** The layout and bitmap that the pages spell out. */
  ghost predicate TreeIs(p: Pages, sb: Superblock, l: Layout, bits: seq<bool>)
  {
    && Shaped(l, sb.total) && |bits| == sb.total
    && l.branches[0] == sb.allocationRoot
    && (forall i :: 0 <= i < Level2(sb.total) ==> l.branches[1 + i] == Level2Block(p, sb.allocationRoot, i))
    && (forall g :: 0 <= g < Level1(sb.total) ==>
        l.branches[1 + Level2(sb.total) + g] == Level1Block(p, sb.allocationRoot, g))
    && (forall k :: 0 <= k < Leaves(sb.total) ==> l.leaves[k] == LeafBlock(p, sb.allocationRoot, k))
    && (forall k :: 0 <= k < Leaves(sb.total) ==> LeafHolds(PageAt(p, l.leaves[k]), bits, k))
  }

  predicate LeafHolds(page: Page, bits: seq<bool>, k: nat) {
    && page.LeafPage? && k * LEAF_BITS <= |bits| && |page.bits| == LeafWidth(|bits|, k)
    && page.bits == bits[k * LEAF_BITS..k * LEAF_BITS + LeafWidth(|bits|, k)]
  }

  /** Children `first ..` of a level-one page: the innermost loop of the walk. */
  method LoadLeaves(p: Pages, device: nat, sb: Superblock, g: nat) returns (ok: bool, blocks: seq<nat>, bits: seq<bool>)
    requires HeaderOk(sb) && g < Level1(sb.total) && Level1Ok(p, device, sb, g)
    ensures ok <==> forall k :: g * FANOUT <= k < g * FANOUT + Width(Leaves(sb.total), g) ==> LeafAtOk(p, device, sb, k)
    ensures ok ==> |blocks| == Width(Leaves(sb.total), g)
    ensures ok ==> |bits| == Min(sb.total, (g * FANOUT + |blocks|) * LEAF_BITS) - g * FANOUT * LEAF_BITS
    ensures ok ==> LeavesAre(p, sb.allocationRoot, blocks, g * FANOUT) && Slices(p, bits, blocks)
  {
    hide LeavesAre, Slices;
    var entries := Width(Leaves(sb.total), g);
    blocks, bits := [], [];
    NoLeaves(p, sb.allocationRoot, g * FANOUT);
    for k := 0 to entries
      invariant |blocks| == k && |bits| == Min(sb.total, (g * FANOUT + k) * LEAF_BITS) - g * FANOUT * LEAF_BITS
      invariant LeavesAre(p, sb.allocationRoot, blocks, g * FANOUT) && Slices(p, bits, blocks)
      invariant forall i :: g * FANOUT <= i < g * FANOUT + k ==> LeafAtOk(p, device, sb, i)
    {
      var leaf := g * FANOUT + k;
      assert leaf / FANOUT == g && leaf % FANOUT == k;
      var b := Pointer(p, Level1Block(p, sb.allocationRoot, g), k);
      assert b == LeafBlock(p, sb.allocationRoot, leaf);
      if !LeafOk(p, device, sb.generation, b, leaf, LeafWidth(sb.total, leaf)) {
        assert !LeafAtOk(p, device, sb, leaf);
        return false, blocks, bits;
      }
      OneLeaf(p, sb.allocationRoot, b, leaf);
      SlicesAppend(p, bits, blocks, PageAt(p, b).bits, [b]);
      LeavesAppend(p, sb.allocationRoot, blocks, [b], g * FANOUT);
      blocks, bits := blocks + [b], bits + PageAt(p, b).bits;
    }
    ok := true;
  }

  predicate LeafSlice(p: Pages, bits: seq<bool>, b: nat, k: nat) {
    && PageAt(p, b).LeafPage? && k * LEAF_BITS + |PageAt(p, b).bits| <= |bits|
    && bits[k * LEAF_BITS..k * LEAF_BITS + |PageAt(p, b).bits|] == PageAt(p, b).bits
  }

  ghost predicate Slices(p: Pages, bits: seq<bool>, blocks: seq<nat>) {
    forall k :: 0 <= k < |blocks| ==> LeafSlice(p, bits, blocks[k], k)
  }

  /** Bits of a further run of leaves are appended where the full leaves before them end. */
  lemma SlicesAppend(p: Pages, bits: seq<bool>, blocks: seq<nat>, moreBits: seq<bool>, more: seq<nat>)
    requires Slices(p, bits, blocks) && Slices(p, moreBits, more) && (more == [] || |bits| == |blocks| * LEAF_BITS)
    ensures Slices(p, bits + moreBits, blocks + more)
  {
    forall k | 0 <= k < |blocks + more| ensures LeafSlice(p, bits + moreBits, (blocks + more)[k], k) {
      if k < |blocks| {
        assert LeafSlice(p, bits, blocks[k], k);
        var at, n := k * LEAF_BITS, |PageAt(p, blocks[k]).bits|;
        assert (bits + moreBits)[at..at + n] == bits[at..at + n];
      } else {
        var i := k - |blocks|;
        assert LeafSlice(p, moreBits, more[i], i);
        var at, n := i * LEAF_BITS, |PageAt(p, more[i]).bits|;
        assert k * LEAF_BITS == |bits| + at;
        assert (bits + moreBits)[|bits| + at..|bits| + at + n] == moreBits[at..at + n];
      }
    }
  }

  /** Leaves below the first `g` level-one pages, and bits below the first `k` leaves. */
  function LeavesBelow(total: nat, g: nat): nat { Min(Leaves(total), g * FANOUT) }
  function BitsBelow(total: nat, k: nat): nat { Min(total, k * LEAF_BITS) }

  predicate SubtreeOk(p: Pages, device: nat, sb: Superblock, g: nat)
    requires g < Level1(sb.total)
  {
    && Level1Ok(p, device, sb, g)
    && forall k :: g * FANOUT <= k < LeavesBelow(sb.total, g + 1) ==> LeafAtOk(p, device, sb, k)
  }

  ghost predicate LeavesAre(p: Pages, root: nat, blocks: seq<nat>, base: nat) {
    forall k :: 0 <= k < |blocks| ==> blocks[k] == LeafBlock(p, root, base + k)
  }

  lemma LeavesAppend(p: Pages, root: nat, blocks: seq<nat>, more: seq<nat>, base: nat)
    requires LeavesAre(p, root, blocks, base) && LeavesAre(p, root, more, base + |blocks|)
    ensures LeavesAre(p, root, blocks + more, base)
  {
    forall k | 0 <= k < |blocks + more| ensures (blocks + more)[k] == LeafBlock(p, root, base + k) {
      if k >= |blocks| { assert more[k - |blocks|] == LeafBlock(p, root, base + |blocks| + (k - |blocks|)); }
    }
  }

  lemma NoLeaves(p: Pages, root: nat, base: nat)
    ensures LeavesAre(p, root, [], base) && Slices(p, [], [])
  {
  }

  lemma OneLeaf(p: Pages, root: nat, b: nat, leaf: nat)
    requires b == LeafBlock(p, root, leaf) && PageAt(p, b).LeafPage?
    ensures LeavesAre(p, root, [b], leaf) && Slices(p, PageAt(p, b).bits, [b])
  {
    var bits := PageAt(p, b).bits;
    assert bits[0..|bits|] == bits;
  }

  /** The level-one page `g`, found at block `b`, and its leaves. */
  method LoadSubtree(p: Pages, device: nat, sb: Superblock, b: nat, g: nat)
    returns (ok: bool, leaves: seq<nat>, bits: seq<bool>)
    requires HeaderOk(sb) && g < Level1(sb.total) && b == Level1Block(p, sb.allocationRoot, g)
    ensures ok <==> SubtreeOk(p, device, sb, g)
    ensures ok ==> |leaves| == LeavesBelow(sb.total, g + 1) - g * FANOUT
    ensures ok ==> |bits| == BitsBelow(sb.total, g * FANOUT + |leaves|) - g * FANOUT * LEAF_BITS
    ensures ok ==> LeavesAre(p, sb.allocationRoot, leaves, g * FANOUT) && Slices(p, bits, leaves)
  {
    if !BranchOk(p, device, sb.generation, b, g, 1, Width(Leaves(sb.total), g)) { return false, [], []; }
    ok, leaves, bits := LoadLeaves(p, device, sb, g);
  }

  /** The pages below the level-two page `i`: the middle loop of the walk. */
  method LoadLevel1(p: Pages, device: nat, sb: Superblock, i: nat)
    returns (ok: bool, level1: seq<nat>, leaves: seq<nat>, bits: seq<bool>)
    requires HeaderOk(sb) && i < Level2(sb.total) && Level2Ok(p, device, sb, i)
    ensures ok <==> forall g :: i * FANOUT <= g < i * FANOUT + Width(Level1(sb.total), i) ==>
      SubtreeOk(p, device, sb, g)
    ensures ok ==> |level1| == Width(Level1(sb.total), i)
    ensures ok ==> |leaves| == LeavesBelow(sb.total, i * FANOUT + |level1|) - i * FANOUT * FANOUT
    ensures ok ==> |bits| == BitsBelow(sb.total, i * FANOUT * FANOUT + |leaves|) - i * FANOUT * FANOUT * LEAF_BITS
    ensures ok ==> forall j :: 0 <= j < |level1| ==> level1[j] == Level1Block(p, sb.allocationRoot, i * FANOUT + j)
    ensures ok ==> LeavesAre(p, sb.allocationRoot, leaves, i * FANOUT * FANOUT) && Slices(p, bits, leaves)
  {
    hide LeavesAre, Slices, SubtreeOk;
    var entries := Width(Level1(sb.total), i);
    level1, leaves, bits := [], [], [];
    NoLeaves(p, sb.allocationRoot, i * FANOUT * FANOUT);
    for j := 0 to entries
      invariant |level1| == j
      invariant |leaves| == LeavesBelow(sb.total, i * FANOUT + j) - i * FANOUT * FANOUT
      invariant |bits| == BitsBelow(sb.total, i * FANOUT * FANOUT + |leaves|) - i * FANOUT * FANOUT * LEAF_BITS
      invariant forall h :: 0 <= h < j ==> level1[h] == Level1Block(p, sb.allocationRoot, i * FANOUT + h)
      invariant LeavesAre(p, sb.allocationRoot, leaves, i * FANOUT * FANOUT) && Slices(p, bits, leaves)
      invariant forall g :: i * FANOUT <= g < i * FANOUT + j ==> SubtreeOk(p, device, sb, g)
    {
      var g := i * FANOUT + j;
      assert g / FANOUT == i && g % FANOUT == j;
      var b := Pointer(p, Level2Block(p, sb.allocationRoot, i), j);
      var fine, someLeaves, someBits := LoadSubtree(p, device, sb, b, g);
      if !fine { return false, level1, leaves, bits; }
      assert |leaves| == j * FANOUT && |bits| == |leaves| * LEAF_BITS;
      SlicesAppend(p, bits, leaves, someBits, someLeaves);
      LeavesAppend(p, sb.allocationRoot, leaves, someLeaves, i * FANOUT * FANOUT);
      level1, leaves, bits := level1 + [b], leaves + someLeaves, bits + someBits;
    }
    ok := true;
  }

  ghost predicate BelowOk(p: Pages, device: nat, sb: Superblock, i: nat)
    requires i < Level2(sb.total)
  {
    && Level2Ok(p, device, sb, i)
    && forall g :: i * FANOUT <= g < i * FANOUT + Width(Level1(sb.total), i) ==> SubtreeOk(p, device, sb, g)
  }

  /** Everything below the root page: the outer loop of the walk. */
  method LoadLevel2(p: Pages, device: nat, sb: Superblock)
    returns (ok: bool, level2: seq<nat>, level1: seq<nat>, leaves: seq<nat>, bits: seq<bool>)
    requires HeaderOk(sb)
    ensures ok <==> forall i :: 0 <= i < Level2(sb.total) ==> BelowOk(p, device, sb, i)
    ensures ok ==> |level2| == Level2(sb.total) && |level1| == Level1(sb.total) && |leaves| == Leaves(sb.total)
    ensures ok ==> |bits| == sb.total
    ensures ok ==> forall i :: 0 <= i < |level2| ==> level2[i] == Level2Block(p, sb.allocationRoot, i)
    ensures ok ==> forall g :: 0 <= g < |level1| ==> level1[g] == Level1Block(p, sb.allocationRoot, g)
    ensures ok ==> LeavesAre(p, sb.allocationRoot, leaves, 0) && Slices(p, bits, leaves)
  {
    hide LeavesAre, Slices, SubtreeOk;
    level2, level1, leaves, bits := [], [], [], [];
    NoLeaves(p, sb.allocationRoot, 0);
    for i := 0 to Level2(sb.total)
      invariant |level2| == i && |level1| == Min(Level1(sb.total), i * FANOUT)
      invariant |leaves| == LeavesBelow(sb.total, |level1|) && |bits| == BitsBelow(sb.total, |leaves|)
      invariant forall h :: 0 <= h < i ==> level2[h] == Level2Block(p, sb.allocationRoot, h)
      invariant forall h :: 0 <= h < i ==> BelowOk(p, device, sb, h)
      invariant forall g :: 0 <= g < |level1| ==> level1[g] == Level1Block(p, sb.allocationRoot, g)
      invariant LeavesAre(p, sb.allocationRoot, leaves, 0) && Slices(p, bits, leaves)
    {
      var b := Pointer(p, sb.allocationRoot, i);
      if !BranchOk(p, device, sb.generation, b, i, 2, Width(Level1(sb.total), i)) {
        assert !BelowOk(p, device, sb, i);
        return false, level2, level1, leaves, bits;
      }
      var fine, some1, someLeaves, someBits := LoadLevel1(p, device, sb, i);
      assert fine == BelowOk(p, device, sb, i);
      if !fine { return false, level2, level1, leaves, bits; }
      assert |level1| == i * FANOUT && |leaves| == i * FANOUT * FANOUT && |bits| == |leaves| * LEAF_BITS;
      SlicesAppend(p, bits, leaves, someBits, someLeaves);
      LeavesAppend(p, sb.allocationRoot, leaves, someLeaves, 0);
      level2, level1, leaves, bits := level2 + [b], level1 + some1, leaves + someLeaves, bits + someBits;
    }
    ok := true;
  }

  /** The whole walk from the root page: it succeeds exactly when every page is valid, and
      then returns the layout and the bitmap the pages spell out. */
  method LoadTree(p: Pages, device: nat, sb: Superblock) returns (ok: bool, layout: Layout, bits: seq<bool>)
    ensures ok <==> TreeReads(p, device, sb)
    ensures ok ==> TreeIs(p, sb, layout, bits)
  {
    layout, bits := Layout([], []), [];
    if !HeaderOk(sb) || !BranchOk(p, device, sb.generation, sb.allocationRoot, 0, ROOT_LEVEL, Level2(sb.total)) {
      return false, layout, bits;
    }
    BelowCovers(p, device, sb);
    var level2, level1, leaves;
    ok, level2, level1, leaves, bits := LoadLevel2(p, device, sb);
    if !ok { return false, layout, bits; }
    layout := Layout(leaves, [sb.allocationRoot] + level2 + level1);
    SlicesHold(p, device, sb, leaves, bits);
  }

  /** Page by page or subtree by subtree, the same pages are checked. */
  lemma BelowCovers(p: Pages, device: nat, sb: Superblock)
    requires HeaderOk(sb) && BranchOk(p, device, sb.generation, sb.allocationRoot, 0, ROOT_LEVEL, Level2(sb.total))
    ensures (forall i :: 0 <= i < Level2(sb.total) ==> BelowOk(p, device, sb, i)) <==> TreeReads(p, device, sb)
  {
    if forall i :: 0 <= i < Level2(sb.total) ==> BelowOk(p, device, sb, i) {
      forall i | 0 <= i < Level2(sb.total) ensures Level2Ok(p, device, sb, i) {
        assert BelowOk(p, device, sb, i);
      }
      forall g | 0 <= g < Level1(sb.total) ensures SubtreeOk(p, device, sb, g) && Level1Ok(p, device, sb, g) {
        assert BelowOk(p, device, sb, g / FANOUT);
      }
      forall k | 0 <= k < Leaves(sb.total) ensures LeafAtOk(p, device, sb, k) {
        assert SubtreeOk(p, device, sb, k / FANOUT);
      }
    }
    if TreeReads(p, device, sb) {
      forall i | 0 <= i < Level2(sb.total) ensures BelowOk(p, device, sb, i) {
        assert Level2Ok(p, device, sb, i);
        forall g | i * FANOUT <= g < i * FANOUT + Width(Level1(sb.total), i) ensures SubtreeOk(p, device, sb, g) {
          assert Level1Ok(p, device, sb, g);
        }
      }
    }
  }

  lemma SlicesHold(p: Pages, device: nat, sb: Superblock, leaves: seq<nat>, bits: seq<bool>)
    requires HeaderOk(sb) && |leaves| == Leaves(sb.total) && |bits| == sb.total
    requires LeavesAre(p, sb.allocationRoot, leaves, 0) && Slices(p, bits, leaves)
    requires forall k :: 0 <= k < Leaves(sb.total) ==> LeafAtOk(p, device, sb, k)
    ensures forall k :: 0 <= k < Leaves(sb.total) ==> LeafHolds(PageAt(p, leaves[k]), bits, k)
  {
    forall k | 0 <= k < Leaves(sb.total) ensures LeafHolds(PageAt(p, leaves[k]), bits, k) {
      assert LeafAtOk(p, device, sb, k) && LeafSlice(p, bits, leaves[k], k);
    }
  }
}
