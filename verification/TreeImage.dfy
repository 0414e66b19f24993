/** A tree described by its layout, page by page, and its agreement with the walk that
    follows pointers from the root. */
module TreeImage {
  import opened Geometry
  import opened Discovery
  import opened AllocationTree
  import opened DirtyClosure

  ghost predicate BranchHolds(
    p: Pages, device: nat, generation: nat, b: nat, index: nat, level: nat, children: seq<nat>)
    requires index * FANOUT <= |children|
  {
    var n := Width(|children|, index);
    && BranchOk(p, device, generation, b, index, level, n)
    && PageAt(p, b).pointers == children[index * FANOUT..index * FANOUT + n]
  }

  ghost predicate LeafIs(p: Pages, device: nat, generation: nat, b: nat, bits: seq<bool>, k: nat) {
    && LeafHolds(PageAt(p, b), bits, k)
    && LeafOk(p, device, generation, b, k, LeafWidth(|bits|, k))
  }

  /** Every page of layout `l` is on `p` with the contents its place in the tree demands. */
  ghost predicate Written(p: Pages, device: nat, generation: nat, total: nat, l: Layout, bits: seq<bool>) {
    && Fits(total) && Shaped(l, total) && |bits| == total
    && BranchHolds(p, device, generation, l.branches[0], 0, ROOT_LEVEL, Level2Blocks(l, total))
    && (forall i :: 0 <= i < Level2(total) ==>
        BranchHolds(p, device, generation, Level2Blocks(l, total)[i], i, 2, Level1Blocks(l, total)))
    && (forall g :: 0 <= g < Level1(total) ==>
        BranchHolds(p, device, generation, Level1Blocks(l, total)[g], g, 1, l.leaves))
    && (forall k :: 0 <= k < Leaves(total) ==> LeafIs(p, device, generation, l.leaves[k], bits, k))
  }

  lemma ChildPointer(p: Pages, device: nat, generation: nat, b: nat, index: nat, level: nat, children: seq<nat>, c: nat)
    requires c < |children| && index == c / FANOUT && BranchHolds(p, device, generation, b, index, level, children)
    ensures Pointer(p, b, c % FANOUT) == children[c]
  {
    assert c == index * FANOUT + c % FANOUT;
  }

  /** The walk from the root meets exactly the pages of the layout. */
  lemma WrittenBlocks(p: Pages, device: nat, generation: nat, total: nat, l: Layout, bits: seq<bool>)
    requires Written(p, device, generation, total, l, bits)
    ensures forall i :: 0 <= i < Level2(total) ==> Level2Block(p, l.branches[0], i) == Level2Blocks(l, total)[i]
    ensures forall g :: 0 <= g < Level1(total) ==> Level1Block(p, l.branches[0], g) == Level1Blocks(l, total)[g]
    ensures forall k :: 0 <= k < Leaves(total) ==> LeafBlock(p, l.branches[0], k) == l.leaves[k]
  {
    CountsFitOneRoot(total);
    forall i | 0 <= i < Level2(total) ensures Level2Block(p, l.branches[0], i) == Level2Blocks(l, total)[i] {
      assert i / FANOUT == 0 || i == FANOUT;
      assert PageAt(p, l.branches[0]).pointers[i] == Level2Blocks(l, total)[i];
    }
    forall g | 0 <= g < Level1(total) ensures Level1Block(p, l.branches[0], g) == Level1Blocks(l, total)[g] {
      ChildPointer(p, device, generation, Level2Blocks(l, total)[g / FANOUT], g / FANOUT, 2, Level1Blocks(l, total), g);
    }
    forall k | 0 <= k < Leaves(total) ensures LeafBlock(p, l.branches[0], k) == l.leaves[k] {
      ChildPointer(p, device, generation, Level1Blocks(l, total)[k / FANOUT], k / FANOUT, 1, l.leaves, k);
    }
  }

  lemma WrittenLoads(p: Pages, device: nat, sb: Superblock, l: Layout, bits: seq<bool>)
    requires HeaderOk(sb) && Written(p, device, sb.generation, sb.total, l, bits) && l.branches[0] == sb.allocationRoot
    ensures TreeReads(p, device, sb) && TreeIs(p, sb, l, bits)
  {
    WrittenBlocks(p, device, sb.generation, sb.total, l, bits);
    var root, total := sb.allocationRoot, sb.total;
    CountsFitOneRoot(total);
    forall i | 0 <= i < Level2(total) ensures Level2Ok(p, device, sb, i) {
      assert BranchHolds(p, device, sb.generation, Level2Blocks(l, total)[i], i, 2, Level1Blocks(l, total));
    }
    forall g | 0 <= g < Level1(total) ensures Level1Ok(p, device, sb, g) {
      assert BranchHolds(p, device, sb.generation, Level1Blocks(l, total)[g], g, 1, l.leaves);
    }
    forall k | 0 <= k < Leaves(total) ensures LeafAtOk(p, device, sb, k) && LeafHolds(PageAt(p, l.leaves[k]), bits, k) {
      assert LeafIs(p, device, sb.generation, l.leaves[k], bits, k);
    }
    assert Width(Level2(total), 0) == Level2(total);
  }

  lemma LoadedRoot(p: Pages, device: nat, sb: Superblock, l: Layout, bits: seq<bool>)
    requires TreeReads(p, device, sb) && TreeIs(p, sb, l, bits)
    ensures BranchHolds(p, device, sb.generation, l.branches[0], 0, ROOT_LEVEL, Level2Blocks(l, sb.total))
  {
    CountsFitOneRoot(sb.total);
    var l2 := Level2Blocks(l, sb.total);
    forall i | 0 <= i < |l2| ensures PageAt(p, sb.allocationRoot).pointers[i] == l2[i] {
      assert l2[i] == Level2Block(p, sb.allocationRoot, i);
    }
    assert PageAt(p, sb.allocationRoot).pointers == l2[0..Width(|l2|, 0)];
  }

  lemma LoadedLevel2(p: Pages, device: nat, sb: Superblock, l: Layout, bits: seq<bool>, i: nat)
    requires TreeReads(p, device, sb) && TreeIs(p, sb, l, bits) && i < Level2(sb.total)
    ensures BranchHolds(p, device, sb.generation, Level2Blocks(l, sb.total)[i], i, 2, Level1Blocks(l, sb.total))
  {
    var root, b, l1 := sb.allocationRoot, Level2Blocks(l, sb.total)[i], Level1Blocks(l, sb.total);
    assert Level2Ok(p, device, sb, i) && b == Level2Block(p, root, i);
    var n := Width(|l1|, i);
    forall j | 0 <= j < n ensures PageAt(p, b).pointers[j] == l1[i * FANOUT..i * FANOUT + n][j] {
      var g := i * FANOUT + j;
      assert g / FANOUT == i && g % FANOUT == j && l1[g] == Level1Block(p, root, g);
    }
  }

  lemma LoadedLevel1(p: Pages, device: nat, sb: Superblock, l: Layout, bits: seq<bool>, g: nat)
    requires TreeReads(p, device, sb) && TreeIs(p, sb, l, bits) && g < Level1(sb.total)
    ensures BranchHolds(p, device, sb.generation, Level1Blocks(l, sb.total)[g], g, 1, l.leaves)
  {
    var root, b := sb.allocationRoot, Level1Blocks(l, sb.total)[g];
    assert Level1Ok(p, device, sb, g) && b == Level1Block(p, root, g);
    var n := Width(|l.leaves|, g);
    forall j | 0 <= j < n ensures PageAt(p, b).pointers[j] == l.leaves[g * FANOUT..g * FANOUT + n][j] {
      var k := g * FANOUT + j;
      assert k / FANOUT == g && k % FANOUT == j && l.leaves[k] == LeafBlock(p, root, k);
    }
  }

  lemma LoadedIsWritten(p: Pages, device: nat, sb: Superblock, l: Layout, bits: seq<bool>)
    requires TreeReads(p, device, sb) && TreeIs(p, sb, l, bits)
    ensures Written(p, device, sb.generation, sb.total, l, bits)
  {
    LoadedRoot(p, device, sb, l, bits);
    forall i | 0 <= i < Level2(sb.total)
      ensures BranchHolds(p, device, sb.generation, Level2Blocks(l, sb.total)[i], i, 2, Level1Blocks(l, sb.total))
    {
      LoadedLevel2(p, device, sb, l, bits, i);
    }
    forall g | 0 <= g < Level1(sb.total)
      ensures BranchHolds(p, device, sb.generation, Level1Blocks(l, sb.total)[g], g, 1, l.leaves)
    {
      LoadedLevel1(p, device, sb, l, bits, g);
    }
    forall k | 0 <= k < Leaves(sb.total) ensures LeafIs(p, device, sb.generation, l.leaves[k], bits, k) {
      assert LeafAtOk(p, device, sb, k);
    }
  }
}
