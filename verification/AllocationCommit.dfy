/** Writing the dirty pages of a published tree, and the result: loading the new root gives
    the transaction's bitmap although clean pages were left where they are. */
module AllocationCommit {
  import opened Geometry
  import opened Sorting
  import opened AllocationTree
  import opened DirtyClosure
  import opened TreeImage
  import opened AllocationPublish

  function LeafContent(generation: nat, bits: seq<bool>, i: nat): Page {
    if i * LEAF_BITS <= |bits|
    then LeafPage(generation, i, bits[i * LEAF_BITS..i * LEAF_BITS + LeafWidth(|bits|, i)])
    else OtherPage
  }

  function BranchContent(generation: nat, level: nat, children: seq<nat>, i: nat): Page {
    if i * FANOUT <= |children|
    then BranchPage(generation, i, level, children[i * FANOUT..i * FANOUT + Width(|children|, i)])
    else OtherPage
  }

  /** From `p` to `q` exactly the dirty blocks were written, each with its content. */
  ghost predicate Wrote(p: Pages, q: Pages, blocks: seq<nat>, dirty: seq<bool>, content: nat -> Page) {
    && |blocks| == |dirty|
    && (forall i :: 0 <= i < |blocks| && dirty[i] ==> PageAt(q, blocks[i]) == content(i))
    && (forall b: nat :: !Retires(blocks, dirty, b) ==> PageAt(q, b) == PageAt(p, b))
  }

  /** One write loop: the dirty pages of a level. */
  method WriteLevel(p: Pages, blocks: seq<nat>, dirty: seq<bool>, content: nat -> Page) returns (q: Pages)
    requires |blocks| == |dirty| && Distinct(blocks)
    ensures Wrote(p, q, blocks, dirty, content)
  {
    q := p;
    for i := 0 to |blocks|
      invariant forall k :: 0 <= k < i && dirty[k] ==> PageAt(q, blocks[k]) == content(k)
      invariant forall b: nat :: !Retires(blocks, dirty, b) ==> PageAt(q, b) == PageAt(p, b)
    {
      if dirty[i] {
        assert Retires(blocks, dirty, blocks[i]);
        q := q[blocks[i] := content(i)];
      }
    }
  }

  /** The tree `next` after its dirty pages were written. */
  ghost predicate Rewritten(p: Pages, q: Pages, total: nat, next: Layout, f: Flags, generation: nat, bits: seq<bool>) {
    && FlagsFit(f, next, total) && |bits| == total
    && (forall k :: 0 <= k < |f.leaves| && f.leaves[k] ==>
        PageAt(q, next.leaves[k]) == LeafContent(generation, bits, k))
    && (forall g :: 0 <= g < |f.level1| && f.level1[g] ==>
          PageAt(q, Level1Blocks(next, total)[g]) == BranchContent(generation, 1, next.leaves, g))
    && (forall i :: 0 <= i < |f.level2| && f.level2[i] ==>
          PageAt(q, Level2Blocks(next, total)[i]) == BranchContent(generation, 2, Level1Blocks(next, total), i))
    && PageAt(q, next.branches[0]) == BranchContent(generation, ROOT_LEVEL, Level2Blocks(next, total), 0)
    && (forall b: nat :: !Retires(AllBlocks(next), Mask(f), b) ==> PageAt(q, b) == PageAt(p, b))
  }

  /** Writes dirty leaves, then level one, level two and the root. */
  method WriteTree(p: Pages, total: nat, next: Layout, f: Flags, generation: nat, bits: seq<bool>) returns (q: Pages)
    requires Fits(total) && FlagsFit(f, next, total) && |bits| == total && Distinct(AllBlocks(next))
    ensures Rewritten(p, q, total, next, f, generation, bits)
  {
    var l2, l1 := Level2Blocks(next, total), Level1Blocks(next, total);
    PartsDistinct(next, total);
    var q1 := WriteLevel(p, next.leaves, f.leaves, (i: nat) => LeafContent(generation, bits, i));
    var q2 := WriteLevel(q1, l1, f.level1, (i: nat) => BranchContent(generation, 1, next.leaves, i));
    var q3 := WriteLevel(q2, l2, f.level2, (i: nat) => BranchContent(generation, 2, l1, i));
    q := WriteLevel(q3, [next.branches[0]], [true], (i: nat) => BranchContent(generation, ROOT_LEVEL, l2, i));
    WrittenTogether(p, q1, q2, q3, q, total, next, f, generation, bits);
  }

  lemma WroteFrame(p: Pages, q: Pages, blocks: seq<nat>, dirty: seq<bool>, content: nat -> Page)
    requires Wrote(p, q, blocks, dirty, content)
    ensures forall b: nat :: b !in blocks ==> PageAt(q, b) == PageAt(p, b)
  {
  }

  lemma WrittenTogether(
    p: Pages, q1: Pages, q2: Pages, q3: Pages, q: Pages, total: nat, next: Layout, f: Flags, generation: nat,
    bits: seq<bool>)
    requires Fits(total) && FlagsFit(f, next, total) && |bits| == total && Distinct(AllBlocks(next))
    requires Wrote(p, q1, next.leaves, f.leaves, (i: nat) => LeafContent(generation, bits, i))
    requires Wrote(q1, q2, Level1Blocks(next, total), f.level1, (i: nat) =>
      BranchContent(generation, 1, next.leaves, i))
    requires Wrote(q2, q3, Level2Blocks(next, total), f.level2, (i: nat) =>
      BranchContent(generation, 2, Level1Blocks(next, total), i))
    requires Wrote(q3, q, [next.branches[0]], [true], (i: nat) =>
      BranchContent(generation, ROOT_LEVEL, Level2Blocks(next, total), i))
    ensures Rewritten(p, q, total, next, f, generation, bits)
  {
    var l2, l1 := Level2Blocks(next, total), Level1Blocks(next, total);
    PartsDistinct(next, total);
    WroteFrame(q1, q2, l1, f.level1, (i: nat) => BranchContent(generation, 1, next.leaves, i));
    WroteFrame(q2, q3, l2, f.level2, (i: nat) => BranchContent(generation, 2, l1, i));
    WroteFrame(q3, q, [next.branches[0]], [true], (i: nat) => BranchContent(generation, ROOT_LEVEL, l2, i));
    assert PageAt(q, [next.branches[0]][0]) == BranchContent(generation, ROOT_LEVEL, l2, 0);
    forall k | 0 <= k < |f.leaves| && f.leaves[k]
      ensures PageAt(q, next.leaves[k]) == LeafContent(generation, bits, k)
    {
      assert next.leaves[k] in next.leaves;
    }
    forall g | 0 <= g < |f.level1| && f.level1[g]
      ensures PageAt(q, l1[g]) == BranchContent(generation, 1, next.leaves, g)
    {
      assert l1[g] in l1;
    }
    forall i | 0 <= i < |f.level2| && f.level2[i] ensures PageAt(q, l2[i]) == BranchContent(generation, 2, l1, i) {
      assert l2[i] in l2;
    }
    forall b: nat | !Retires(AllBlocks(next), Mask(f), b) ensures PageAt(q, b) == PageAt(p, b) {
      SplitRetires(next, total, f, b);
    }
  }

  /** Pages of different levels never share a block. */
  lemma PartsDistinct(l: Layout, total: nat)
    requires Shaped(l, total) && Distinct(AllBlocks(l))
    ensures Distinct(l.leaves) && Distinct(Level2Blocks(l, total)) && Distinct(Level1Blocks(l, total))
    ensures forall b :: b in l.leaves ==>
      b !in Level1Blocks(l, total) && b !in Level2Blocks(l, total) && b != l.branches[0]
    ensures forall b :: b in Level1Blocks(l, total) ==> b !in Level2Blocks(l, total) && b != l.branches[0]
    ensures forall b :: b in Level2Blocks(l, total) ==> b != l.branches[0]
  {
    LayoutParts(l, total);
    var l2, l1 := Level2Blocks(l, total), Level1Blocks(l, total);
    DistinctParts(l.leaves + [l.branches[0]] + l2, l1);
    DistinctParts(l.leaves + [l.branches[0]], l2);
    DistinctParts(l.leaves, [l.branches[0]]);
  }

  lemma DistinctParts(a: seq<nat>, b: seq<nat>)
    requires Distinct(a + b)
    ensures Distinct(a) && Distinct(b) && forall x :: x in a ==> x !in b
  {
    assert forall i :: 0 <= i < |a| ==> (a + b)[i] == a[i];
    assert forall i :: 0 <= i < |b| ==> (a + b)[|a| + i] == b[i];
  }

  /** A page untouched by the writes, in both states. */
  lemma CleanStays(
    p: Pages, q: Pages, total: nat, l: Layout, next: Layout, f: Flags, generation: nat, bits: seq<bool>,
    taken: seq<nat>, b: nat)
    requires Rewritten(p, q, total, next, f, generation, bits)
    requires Replaces(AllBlocks(l), Mask(f), taken, AllBlocks(next))
    requires b !in taken
    ensures PageAt(q, b) == PageAt(p, b)
  {
    assert forall i :: 0 <= i < |AllBlocks(next)| && Mask(f)[i] ==> AllBlocks(next)[i] in taken;
  }

  /** Where the pages of each level stand in the joint list. */
  lemma LeafAt(l: Layout, total: nat, f: Flags, k: nat)
    requires FlagsFit(f, l, total) && k < |f.leaves|
    ensures k < |AllBlocks(l)| == |Mask(f)| && AllBlocks(l)[k] == l.leaves[k] && Mask(f)[k] == f.leaves[k]
  {
  }

  lemma RootAt(l: Layout, total: nat, f: Flags)
    requires FlagsFit(f, l, total)
    ensures |f.leaves| < |AllBlocks(l)| == |Mask(f)| && AllBlocks(l)[|f.leaves|] == l.branches[0] && Mask(f)[|f.leaves|]
  {
  }

  lemma Level2At(l: Layout, total: nat, f: Flags, i: nat)
    requires FlagsFit(f, l, total) && i < |f.level2|
    ensures |f.leaves| + 1 + i < |AllBlocks(l)| == |Mask(f)|
    ensures AllBlocks(l)[|f.leaves| + 1 + i] == Level2Blocks(l, total)[i] && Mask(f)[|f.leaves| + 1 + i] == f.level2[i]
  {
    assert Mask(f) == f.leaves + ([true] + f.level2 + f.level1);
  }

  lemma Level1At(l: Layout, total: nat, f: Flags, g: nat)
    requires FlagsFit(f, l, total) && g < |f.level1|
    ensures |f.leaves| + 1 + |f.level2| + g < |AllBlocks(l)| == |Mask(f)|
    ensures AllBlocks(l)[|f.leaves| + 1 + |f.level2| + g] == Level1Blocks(l, total)[g]
    ensures Mask(f)[|f.leaves| + 1 + |f.level2| + g] == f.level1[g]
  {
    assert Mask(f) == f.leaves + ([true] + f.level2 + f.level1);
  }

  /** Where the layouts agree, level by level. */
  lemma CleanKept(l: Layout, next: Layout, total: nat, f: Flags, taken: seq<nat>)
    requires FlagsFit(f, l, total) && FlagsFit(f, next, total)
    requires Replaces(AllBlocks(l), Mask(f), taken, AllBlocks(next))
    ensures forall k :: 0 <= k < |f.leaves| && !f.leaves[k] ==> next.leaves[k] == l.leaves[k]
    ensures forall i :: 0 <= i < |f.level2| && !f.level2[i] ==>
      Level2Blocks(next, total)[i] == Level2Blocks(l, total)[i]
    ensures forall g :: 0 <= g < |f.level1| && !f.level1[g] ==>
      Level1Blocks(next, total)[g] == Level1Blocks(l, total)[g]
  {
    hide AllBlocks, Mask;
    forall k | 0 <= k < |f.leaves| && !f.leaves[k] ensures next.leaves[k] == l.leaves[k] {
      LeafAt(l, total, f, k);
      LeafAt(next, total, f, k);
    }
    forall i | 0 <= i < |f.level2| && !f.level2[i] ensures Level2Blocks(next, total)[i] == Level2Blocks(l, total)[i] {
      Level2At(l, total, f, i);
      Level2At(next, total, f, i);
    }
    forall g | 0 <= g < |f.level1| && !f.level1[g] ensures Level1Blocks(next, total)[g] == Level1Blocks(l, total)[g] {
      Level1At(l, total, f, g);
      Level1At(next, total, f, g);
    }
  }

  /** The bitmap changed only inside dirty leaves. */
  ghost predicate ChangedInside(before: seq<bool>, after: seq<bool>, leaves: seq<bool>) {
    && |before| == |after|
    && (forall b: nat :: b < |before| && before[b] != after[b] ==> Owner(b) < |leaves| && leaves[Owner(b)])
  }

  /** A clean branch still points to the right children: none of them moved. */
  lemma CleanBranch(
    p: Pages, q: Pages, device: nat, generation: nat, newer: nat, b: nat, index: nat, level: nat,
    children: seq<nat>, moved: seq<nat>, dirty: seq<bool>, parents: seq<bool>)
    requires |children| == |moved| == |dirty| && |parents| == DivUp(|dirty|, FANOUT) && index < |parents|
    requires !parents[index]
    requires ParentsMarked(dirty, parents) && generation <= newer
    requires forall i :: 0 <= i < |dirty| && !dirty[i] ==> moved[i] == children[i]
    requires BranchHolds(p, device, generation, b, index, level, children) && PageAt(q, b) == PageAt(p, b)
    ensures BranchHolds(q, device, newer, b, index, level, moved)
  {
    var at, n := index * FANOUT, Width(|children|, index);
    forall i | at <= i < at + n ensures moved[i] == children[i] { assert i / FANOUT == index; }
    assert moved[at..at + n] == children[at..at + n];
  }

  lemma CleanLeaf(
    p: Pages, q: Pages, device: nat, generation: nat, newer: nat, b: nat, before: seq<bool>,
    after: seq<bool>, leaves: seq<bool>, k: nat)
    requires LeafIs(p, device, generation, b, before, k) && PageAt(q, b) == PageAt(p, b) && generation <= newer
    requires ChangedInside(before, after, leaves) && k < |leaves| && !leaves[k]
    ensures LeafIs(q, device, newer, b, after, k)
  {
    var at, n := k * LEAF_BITS, LeafWidth(|before|, k);
    forall i | at <= i < at + n ensures after[i] == before[i] { assert Owner(i) == k; }
    assert after[at..at + n] == before[at..at + n];
  }

  /** Incremental publication refines a full rewrite: the result is, page by page, the tree
      of the new bitmap, although only the dirty pages were written. */
  lemma RewrittenIsWritten(
    p: Pages, q: Pages, device: nat, total: nat, l: Layout, next: Layout, f: Flags,
    generation: nat, newer: nat, before: seq<bool>, after: seq<bool>, taken: seq<nat>)
    requires Written(p, device, generation, total, l, before) && 0 < generation <= newer
    requires FlagsFit(f, l, total) && Closed(f, l, total)
    requires Replaces(AllBlocks(l), Mask(f), taken, AllBlocks(next))
    requires forall b :: b in taken ==> b !in AllBlocks(l) && 0 < b < device
    requires Rewritten(p, q, total, next, f, newer, after) && ChangedInside(before, after, f.leaves)
    ensures Written(q, device, newer, total, next, after)
  {
    hide Closed, ChangedInside, Rewritten, Replaces, AllBlocks, Mask, BranchHolds, LeafIs;
    var s := Step(p, q, device, total, l, next, f, generation, newer, before, after, taken);
    NextFits(s);
    forall k | 0 <= k < Leaves(total) ensures LeafIs(q, device, newer, next.leaves[k], after, k) {
      if f.leaves[k] { FreshLeaf(s, k); } else { KeptLeaf(s, k); }
    }
    forall g | 0 <= g < Level1(total)
      ensures BranchHolds(q, device, newer, Level1Blocks(next, total)[g], g, 1, next.leaves)
    {
      if f.level1[g] { FreshLevel1(s, g); } else { KeptLevel1(s, g); }
    }
    forall i | 0 <= i < Level2(total)
      ensures BranchHolds(q, device, newer, Level2Blocks(next, total)[i], i, 2, Level1Blocks(next, total))
    {
      if f.level2[i] { FreshLevel2(s, i); } else { KeptLevel2(s, i); }
    }
    FreshRoot(s);
  }

  lemma NextFits(s: Step)
    requires Rewritten(s.p, s.q, s.total, s.next, s.f, s.newer, s.after)
    ensures FlagsFit(s.f, s.next, s.total) && |s.after| == s.total
  {
  }

  /** Everything one publication is about, as one value. */
  datatype Step = Step(
    p: Pages, q: Pages, device: nat, total: nat, l: Layout, next: Layout, f: Flags,
    generation: nat, newer: nat, before: seq<bool>, after: seq<bool>, taken: seq<nat>)

  ghost predicate StepOk(s: Step) {
    && Written(s.p, s.device, s.generation, s.total, s.l, s.before) && 0 < s.generation <= s.newer
    && FlagsFit(s.f, s.l, s.total) && FlagsFit(s.f, s.next, s.total) && Closed(s.f, s.l, s.total)
    && Replaces(AllBlocks(s.l), Mask(s.f), s.taken, AllBlocks(s.next))
    && (forall b :: b in s.taken ==> b !in AllBlocks(s.l) && 0 < b < s.device)
    && Rewritten(s.p, s.q, s.total, s.next, s.f, s.newer, s.after) && ChangedInside(s.before, s.after, s.f.leaves)
  }

  /** Dirty pages stand on claimed blocks. */
  lemma DirtyInTaken(l: Layout, next: Layout, total: nat, f: Flags, taken: seq<nat>)
    requires FlagsFit(f, l, total) && FlagsFit(f, next, total)
    requires Replaces(AllBlocks(l), Mask(f), taken, AllBlocks(next))
    ensures next.branches[0] in taken
    ensures forall k :: 0 <= k < |f.leaves| && f.leaves[k] ==> next.leaves[k] in taken
    ensures forall i :: 0 <= i < |f.level2| && f.level2[i] ==> Level2Blocks(next, total)[i] in taken
    ensures forall g :: 0 <= g < |f.level1| && f.level1[g] ==> Level1Blocks(next, total)[g] in taken
  {
    hide AllBlocks, Mask;
    RootAt(next, total, f);
    forall k | 0 <= k < |f.leaves| && f.leaves[k] ensures next.leaves[k] in taken { LeafAt(next, total, f, k); }
    forall i | 0 <= i < |f.level2| && f.level2[i]
      ensures Level2Blocks(next, total)[i] in taken
    {
      Level2At(next, total, f, i);
    }
    forall g | 0 <= g < |f.level1| && f.level1[g]
      ensures Level1Blocks(next, total)[g] in taken
    {
      Level1At(next, total, f, g);
    }
  }

  /** A block of the old tree is never written. */
  lemma OldPageStays(s: Step, b: nat)
    requires StepOk(s) && b in AllBlocks(s.l)
    ensures PageAt(s.q, b) == PageAt(s.p, b)
  {
    hide Written, Closed, ChangedInside, Rewritten, Replaces, AllBlocks, Mask;
    CleanStays(s.p, s.q, s.total, s.l, s.next, s.f, s.newer, s.after, s.taken, b);
  }

  lemma FreshLeaf(s: Step, k: nat)
    requires StepOk(s) && k < |s.f.leaves| && s.f.leaves[k]
    ensures LeafIs(s.q, s.device, s.newer, s.next.leaves[k], s.after, k)
  {
    hide Closed, ChangedInside, Written, Replaces, AllBlocks, Mask;
    DirtyInTaken(s.l, s.next, s.total, s.f, s.taken);
  }

  lemma KeptLeaf(s: Step, k: nat)
    requires StepOk(s) && k < |s.f.leaves| && !s.f.leaves[k]
    ensures LeafIs(s.q, s.device, s.newer, s.next.leaves[k], s.after, k)
  {
    hide Closed, ChangedInside, Rewritten, Replaces, LeafHolds, LeafOk;
    LeafAt(s.l, s.total, s.f, k);
    CleanKept(s.l, s.next, s.total, s.f, s.taken);
    OldPageStays(s, s.l.leaves[k]);
    assert LeafIs(s.p, s.device, s.generation, s.l.leaves[k], s.before, k);
    CleanLeaf(s.p, s.q, s.device, s.generation, s.newer, s.l.leaves[k], s.before, s.after, s.f.leaves, k);
  }

  lemma DirtyBranch(q: Pages, device: nat, generation: nat, b: nat, index: nat, level: nat, children: seq<nat>)
    requires index * FANOUT < |children| && 0 < b < device && generation > 0
    requires PageAt(q, b) == BranchContent(generation, level, children, index)
    ensures BranchHolds(q, device, generation, b, index, level, children)
  {
  }

  lemma FreshLevel1(s: Step, g: nat)
    requires StepOk(s) && g < |s.f.level1| && s.f.level1[g]
    ensures BranchHolds(s.q, s.device, s.newer, Level1Blocks(s.next, s.total)[g], g, 1, s.next.leaves)
  {
    hide Closed, ChangedInside, Written, Replaces, AllBlocks, Mask, BranchContent, BranchHolds;
    DirtyInTaken(s.l, s.next, s.total, s.f, s.taken);
    DirtyBranch(s.q, s.device, s.newer, Level1Blocks(s.next, s.total)[g], g, 1, s.next.leaves);
  }

  lemma KeptLevel1(s: Step, g: nat)
    requires StepOk(s) && g < |s.f.level1| && !s.f.level1[g]
    ensures BranchHolds(s.q, s.device, s.newer, Level1Blocks(s.next, s.total)[g], g, 1, s.next.leaves)
  {
    hide OwnersMarked, ChangedInside, Rewritten, Replaces, BranchHolds, LeafIs, ParentsMarked, AllBlocks, Mask;
    CleanKept(s.l, s.next, s.total, s.f, s.taken);
    var b := Level1Blocks(s.l, s.total)[g];
    Level1At(s.l, s.total, s.f, g);
    OldPageStays(s, b);
    assert BranchHolds(s.p, s.device, s.generation, b, g, 1, s.l.leaves);
    CleanBranch(s.p, s.q, s.device, s.generation, s.newer, b, g, 1, s.l.leaves, s.next.leaves, s.f.leaves, s.f.level1);
  }

  lemma FreshLevel2(s: Step, i: nat)
    requires StepOk(s) && i < |s.f.level2| && s.f.level2[i]
    ensures BranchHolds(s.q, s.device, s.newer, Level2Blocks(s.next, s.total)[i], i, 2, Level1Blocks(s.next, s.total))
  {
    hide Closed, ChangedInside, Written, Replaces, AllBlocks, Mask, BranchContent, BranchHolds;
    DirtyInTaken(s.l, s.next, s.total, s.f, s.taken);
    DirtyBranch(s.q, s.device, s.newer, Level2Blocks(s.next, s.total)[i], i, 2, Level1Blocks(s.next, s.total));
  }

  lemma KeptLevel2(s: Step, i: nat)
    requires StepOk(s) && i < |s.f.level2| && !s.f.level2[i]
    ensures BranchHolds(s.q, s.device, s.newer, Level2Blocks(s.next, s.total)[i], i, 2, Level1Blocks(s.next, s.total))
  {
    hide OwnersMarked, ChangedInside, Rewritten, Replaces, BranchHolds, LeafIs, ParentsMarked, AllBlocks, Mask;
    CleanKept(s.l, s.next, s.total, s.f, s.taken);
    var b, l1, m1 := Level2Blocks(s.l, s.total)[i], Level1Blocks(s.l, s.total), Level1Blocks(s.next, s.total);
    Level2At(s.l, s.total, s.f, i);
    OldPageStays(s, b);
    assert BranchHolds(s.p, s.device, s.generation, b, i, 2, l1);
    CleanBranch(s.p, s.q, s.device, s.generation, s.newer, b, i, 2, l1, m1, s.f.level1, s.f.level2);
  }

  lemma FreshRoot(s: Step)
    requires StepOk(s)
    ensures BranchHolds(s.q, s.device, s.newer, s.next.branches[0], 0, ROOT_LEVEL, Level2Blocks(s.next, s.total))
  {
    hide Closed, ChangedInside, Replaces, AllBlocks, Mask, BranchContent, BranchHolds;
    CountsFitOneRoot(s.total);
    DirtyInTaken(s.l, s.next, s.total, s.f, s.taken);
    DirtyBranch(s.q, s.device, s.newer, s.next.branches[0], 0, ROOT_LEVEL, Level2Blocks(s.next, s.total));
  }
}
