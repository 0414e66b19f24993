/** Resizing a mounted volume: a new allocation tree and new remote checkpoints for the new
    size, in blocks that nothing reachable from the old checkpoint uses. */
module Resize {
  import opened Geometry
  import opened Discovery
  import opened Sorting
  import opened AllocationTree
  import opened AllocationLoad
  import opened DirtyClosure
  import opened TreeImage
  import opened AllocationPublish
  import opened AllocationCommit
  import opened AllocationTheorem
  import opened ResizePick
  import opened CrashSafety

  const BLOCK: nat := 4096
  const MIN_BYTES: nat := 16 * 1024 * 1024
  const U64_MAX: nat := 0xFFFF_FFFF_FFFF_FFFF

  datatype Verdict = Ready | Unchanged | Invalid | NoRoom | Crowded | TooBig | Busy | Overflow

  /** Blocks that move: the pages of the old tree and its remote checkpoints. */
  predicate Moves(sb: Superblock, l: Layout, b: nat) {
    b in AllBlocks(l) || b == sb.checkpoint[1] || b == sb.checkpoint[2]
  }

  /** Allocated blocks that stay where they are. */
  predicate Live(sb: Superblock, l: Layout, bits: seq<bool>, b: nat) {
    b < |bits| && bits[b] && b != 0 && !Moves(sb, l, b)
  }

  /** The old bitmap cut or extended to the new size, with block zero set. */
  function Carried(bits: seq<bool>, total: nat): seq<bool> {
    seq(total, (b: nat) => b == 0 || (b < |bits| && bits[b]))
  }

  /** How picking ends when so many blocks are free: the two checkpoints are picked first,
      the limit of the format is looked at next, the pages of the tree come last. */
  function PickOutcome(free: int, total: nat): Verdict {
    if free < 2 then Crowded
    else if !Fits(total) then TooBig
    else if free < 2 + Leaves(total) + Branches(total) then Crowded
    else Ready
  }

  /** Some block that cannot move lies at or beyond the new end. */
  ghost predicate LiveAtOrBeyond(sb: Superblock, l: Layout, bits: seq<bool>, total: nat) {
    exists b: nat :: total <= b && Live(sb, l, bits, b)
  }

  /** The answer to a request, in the order in which the reasons are looked at. */
  ghost function Answer(sb: Superblock, l: Layout, bits: seq<bool>, device: nat, bytes: nat, snapshots: nat): Verdict {
    var total := bytes / BLOCK;
    var picking := PickOutcome(total - Used(Carried(bits, total)), total);
    if bytes % BLOCK != 0 || bytes < MIN_BYTES then Invalid
    else if total > device then NoRoom
    else if total == sb.total then Unchanged
    else if snapshots > 0 || LiveAtOrBeyond(sb, l, bits, total) then Busy
    else if picking != Ready then picking
    else if sb.generation >= U64_MAX then Overflow
    else Ready
  }

  method Carry(bits: seq<bool>, total: nat) returns (a: array<bool>)
    requires total > 0
    ensures fresh(a) && a.Length == total && a[..] == Carried(bits, total)
  {
    a := new bool[total](_ => false);
    var common := Min(|bits|, total);
    for b := 0 to common
      invariant forall i :: 0 <= i < b ==> a[i] == bits[i]
      invariant forall i :: b <= i < total ==> !a[i]
    {
      a[b] := bits[b];
    }
    a[0] := true;
  }

  /** Shrinking is refused while a live block lies beyond the new end. */
  method CheckShrink(sb: Superblock, l: Layout, bits: seq<bool>, total: nat) returns (ok: bool)
    ensures ok <==> forall b: nat :: total <= b < |bits| && bits[b] ==> Moves(sb, l, b) || b == sb.checkpoint[0]
  {
    if total < |bits| {
      for b := total to |bits|
        invariant forall i: nat :: total <= i < b && bits[i] ==> Moves(sb, l, i) || i == sb.checkpoint[0]
      {
        if !bits[b] { continue; }
        if b in l.leaves || b in l.branches || b in sb.checkpoint { continue; }
        return false;
      }
    }
    ok := true;
  }

  /** Clears the given blocks, as far as they lie in the bitmap. */
  method Clear(bitmap: array<bool>, blocks: seq<nat>)
    modifies bitmap
    ensures forall b: nat :: b < bitmap.Length ==> bitmap[b] == (old(bitmap[b]) && b !in blocks)
  {
    for i := 0 to |blocks|
      invariant forall b: nat :: b < bitmap.Length ==> bitmap[b] == (old(bitmap[b]) && b !in blocks[..i])
    {
      if blocks[i] < bitmap.Length { bitmap[blocks[i]] := false; }
      assert blocks[..i + 1] == blocks[..i] + [blocks[i]];
    }
    assert blocks[..|blocks|] == blocks;
  }

  /** The picks: two checkpoints, then the tree. */
  datatype Picks = Picks(second: nat, third: nat, layout: Layout)

  function Picked(k: Picks): seq<nat> { [k.second, k.third] + AllBlocks(k.layout) }

  /** Picks the two remote checkpoints; fails exactly when fewer than two blocks are free. */
  method PickCopies(bitmap: array<bool>) returns (ok: bool, second: nat, third: nat)
    requires bitmap.Length > 0 && bitmap[0]
    modifies bitmap
    ensures ok ==> Claims(old(bitmap[..]), bitmap[..], [second, third], {})
    ensures ok <==> bitmap.Length - Used(old(bitmap[..])) >= 2
  {
    ghost var start := bitmap[..];
    NothingTaken(start, {}, []);
    third := 0;
    second := PickNear(bitmap, bitmap.Length / 2);
    if second == 0 {
      FullCount(start);
      return false, 0, 0;
    }
    TakeOne(start, start, [], second, {});
    ghost var middle := bitmap[..];
    third := PickNear(bitmap, bitmap.Length - 1);
    if third == 0 {
      OutOfSpace(start, middle, [second]);
      return false, 0, 0;
    }
    TakeOne(start, middle, [second], third, {});
    assert [second] + [third] == [second, third];
    ClaimsCount(start, bitmap[..], [second, third]);
    ok := true;
  }

  /** Picks all blocks; the outcome is determined by the number of free blocks. */
  method Pick(bitmap: array<bool>) returns (v: Verdict, k: Picks)
    requires bitmap.Length > 0 && bitmap[0]
    modifies bitmap
    ensures v == Ready ==> Shaped(k.layout, bitmap.Length) && Claims(old(bitmap[..]), bitmap[..], Picked(k), {})
    ensures v == PickOutcome(bitmap.Length - Used(old(bitmap[..])), bitmap.Length)
  {
    ghost var start, total := bitmap[..], bitmap.Length;
    k := Picks(0, 0, Layout([], []));
    var ok, second, third := PickCopies(bitmap);
    if !ok { return Crowded, k; }
    if !Fits(bitmap.Length) { return TooBig, k; }
    var layout;
    ok, layout := AllocateLayout(bitmap, start, [second, third]);
    k := Picks(second, third, layout);
    if ok {
      ClaimsCount(start, bitmap[..], Picked(k));
    } else {
      ghost var some :| |some| < Leaves(total) + Branches(total) &&
        Claims(start, bitmap[..], [second, third] + some, {});
      OutOfSpace(start, bitmap[..], [second, third] + some);
    }
    v := if ok then Ready else Crowded;
  }

  lemma OutOfSpace(start: seq<bool>, bits: seq<bool>, taken: seq<nat>)
    requires Claims(start, bits, taken, {}) && Full(bits) && bits != [] && start[0]
    ensures |bits| - Used(start) == |taken|
  {
    ClaimsCount(start, bits, taken);
    FullCount(bits);
  }

  /** The allocated set after a resize. */
  ghost predicate Conserves(sb: Superblock, l: Layout, bits: seq<bool>, k: Picks, after: seq<bool>) {
    forall b: nat :: b < |after| ==>
      (after[b] <==> Live(sb, l, bits, b) || b == 0 || b in Picked(k))
  }

  /** What a resize starts from: a committed tree whose object blocks do not move. */
  ghost predicate Resizable(p: Pages, device: nat, sb: Superblock, l: Layout, bits: seq<bool>) {
    && Committed(p, device, sb, l, bits) && Mountable(sb, device)
    && !Moves(sb, l, sb.objectIndex) && !Moves(sb, l, sb.rootObject)
    && !Moves(sb, l, LOCATOR_A) && !Moves(sb, l, LOCATOR_B)
  }

  lemma Conservation(
    sb: Superblock, l: Layout, bits: seq<bool>, start: seq<bool>, k: Picks, middle: seq<bool>, after: seq<bool>)
    requires |bits| == sb.total && LoadChecks(sb, l, bits) && PlacesCopies(sb.checkpoint, sb.total)
    requires start == Carried(bits, |start|) && Claims(start, middle, Picked(k), {}) && |after| == |middle|
    requires forall b: nat :: b < |after| ==> after[b] == (middle[b] && !Moves(sb, l, b))
    ensures Conserves(sb, l, bits, k, after)
    ensures forall b :: b in Picked(k) ==> 0 < b < |after| && !(b < |bits| && bits[b]) && !Moves(sb, l, b)
  {
    MovesSet(sb, l, bits);
    forall b | b in Picked(k) ensures 0 < b < |after| && !(b < |bits| && bits[b]) && !Moves(sb, l, b) {
      assert !start[b];
    }
    assert !Moves(sb, l, 0);
  }

  lemma MovesSet(sb: Superblock, l: Layout, bits: seq<bool>)
    requires |bits| == sb.total && LoadChecks(sb, l, bits) && PlacesCopies(sb.checkpoint, sb.total)
    ensures forall b: nat :: Moves(sb, l, b) ==> 0 < b < |bits| && bits[b]
  {
    forall b: nat | Moves(sb, l, b) ensures 0 < b < |bits| && bits[b] {
      if b in AllBlocks(l) {
        var i :| 0 <= i < |AllBlocks(l)| && AllBlocks(l)[i] == b;
        assert PagePlace(sb, b);
        assert i < |l.leaves| ==> l.leaves[i] == b;
        assert i >= |l.leaves| ==> l.branches[i - |l.leaves|] == b;
      } else {
        assert b == sb.checkpoint[1] || b == sb.checkpoint[2];
      }
    }
  }

  /** Writing every page of a tree writes the tree. */
  lemma WholeTree(p: Pages, q: Pages, device: nat, total: nat, l: Layout, generation: nat, bits: seq<bool>)
    requires Fits(total) && Rewritten(p, q, total, l, AllDirty(total), generation, bits) && generation > 0
    requires forall b :: b in AllBlocks(l) ==> 0 < b < device
    ensures Written(q, device, generation, total, l, bits)
  {
    hide BranchHolds, BranchContent, LeafIs, LeafContent, Mask, Retires;
    var l2, l1 := Level2Blocks(l, total), Level1Blocks(l, total);
    InTree(l, total);
    CountsFitOneRoot(total);
    DirtyBranch(q, device, generation, l.branches[0], 0, ROOT_LEVEL, l2);
    forall i | 0 <= i < Level2(total) ensures BranchHolds(q, device, generation, l2[i], i, 2, l1) {
      assert AllDirty(total).level2[i];
      DirtyBranch(q, device, generation, l2[i], i, 2, l1);
    }
    forall g | 0 <= g < Level1(total) ensures BranchHolds(q, device, generation, l1[g], g, 1, l.leaves) {
      assert AllDirty(total).level1[g];
      DirtyBranch(q, device, generation, l1[g], g, 1, l.leaves);
    }
    forall k | 0 <= k < Leaves(total) ensures LeafIs(q, device, generation, l.leaves[k], bits, k) {
      assert AllDirty(total).leaves[k];
      NewLeaf(q, device, generation, l.leaves[k], bits, k);
    }
  }

  lemma NewLeaf(q: Pages, device: nat, generation: nat, b: nat, bits: seq<bool>, k: nat)
    requires k * LEAF_BITS < |bits| && 0 < b < device && generation > 0
    requires PageAt(q, b) == LeafContent(generation, bits, k)
    ensures LeafIs(q, device, generation, b, bits, k)
  {
  }

  lemma InTree(l: Layout, total: nat)
    requires Shaped(l, total)
    ensures l.branches[0] in AllBlocks(l)
    ensures forall i :: 0 <= i < Level2(total) ==> Level2Blocks(l, total)[i] in AllBlocks(l)
    ensures forall g :: 0 <= g < Level1(total) ==> Level1Blocks(l, total)[g] in AllBlocks(l)
    ensures forall k :: 0 <= k < Leaves(total) ==> l.leaves[k] in AllBlocks(l)
  {
    LayoutParts(l, total);
  }

  /** The superblock of the new geometry. */
  function Resized(sb: Superblock, k: Picks, after: seq<bool>, free: nat): Superblock
    requires k.layout.branches != []
  {
    sb.(generation := sb.generation + 1, total := |after|, freeBlocks := free, allocationRoot := k.layout.branches[0],
        leafCount := |k.layout.leaves|, checkpoint := [0, k.second, k.third])
  }

  /** What holds once the new bitmap is computed. */
  ghost predicate Planned(
    p: Pages, device: nat, sb: Superblock, l: Layout, bits: seq<bool>, k: Picks, after: seq<bool>)
  {
    && Resizable(p, device, sb, l, bits) && MIN_VOLUME <= |after| <= device && Fits(|after|)
    && Shaped(k.layout, |after|) && Distinct(Picked(k)) && Conserves(sb, l, bits, k, after)
    && (forall b :: b in Picked(k) ==> 0 < b < |after| && !(b < |bits| && bits[b]) && !Moves(sb, l, b))
    && (forall b: nat :: Live(sb, l, bits, b) ==> b < |after|)
  }

  lemma NextChecks(
    p: Pages, device: nat, sb: Superblock, l: Layout, bits: seq<bool>, k: Picks, after: seq<bool>, next: Superblock)
    requires Planned(p, device, sb, l, bits, k, after) && next == Resized(sb, k, after, |after| - Used(after))
    ensures BasicValid(next, device) && HeaderOk(next) && LoadChecks(next, k.layout, after)
    ensures Succeeds(next, sb, device) && NewPlace(next, sb)
  {
    hide TreeReads, TreeIs, Used, Conserves, BasicValid, HeaderOk, LoadChecks, Succeeds, Moves;
    NextValid(p, device, sb, l, bits, k, after, next);
    NextLoads(p, device, sb, l, bits, k, after, next);
  }

  lemma NextValid(
    p: Pages, device: nat, sb: Superblock, l: Layout, bits: seq<bool>, k: Picks, after: seq<bool>, next: Superblock)
    requires Planned(p, device, sb, l, bits, k, after) && next == Resized(sb, k, after, |after| - Used(after))
    ensures BasicValid(next, device) && HeaderOk(next)
    ensures Succeeds(next, sb, device) && NewPlace(next, sb)
  {
    hide TreeReads, TreeIs, Used, Conserves, AllSet, LoadChecks, Moves, Live, CommittedBits;
    StaySet(p, device, sb, l, bits, k, after);
    CopiesPlaced(p, device, sb, l, bits, k, after);
    NotMoved(sb, l, k.second);
    NotMoved(sb, l, k.third);
    InTree(k.layout, |after|);
    assert k.layout.branches[0] in Picked(k);
    assert next.checkpoint == [0, k.second, k.third];
  }

  lemma NotMoved(sb: Superblock, l: Layout, b: nat)
    requires !Moves(sb, l, b)
    ensures b != sb.checkpoint[1] && b != sb.checkpoint[2]
  {
  }

  lemma NextLoads(
    p: Pages, device: nat, sb: Superblock, l: Layout, bits: seq<bool>, k: Picks, after: seq<bool>, next: Superblock)
    requires Planned(p, device, sb, l, bits, k, after) && next == Resized(sb, k, after, |after| - Used(after))
    ensures LoadChecks(next, k.layout, after)
  {
    hide TreeReads, TreeIs, Used, Conserves, Placed, AllSet, Planned;
    StaySet(p, device, sb, l, bits, k, after);
    CopiesPlaced(p, device, sb, l, bits, k, after);
    PagesPlaced(p, device, sb, l, bits, k, after, next);
    PagesSet(p, device, sb, l, bits, k, after);
  }

  /** Object blocks and locators stay allocated and are not picked. */
  lemma StaySet(p: Pages, device: nat, sb: Superblock, l: Layout, bits: seq<bool>, k: Picks, after: seq<bool>)
    requires Planned(p, device, sb, l, bits, k, after)
    ensures sb.objectIndex < |after| && sb.rootObject < |after| && AllSet(after, [sb.objectIndex, sb.rootObject])
    ensures LOCATOR_A !in Picked(k) && LOCATOR_B !in Picked(k)
  {
    hide TreeReads, TreeIs, Used, Placed;
    forall i | 0 <= i < 2
      ensures [sb.objectIndex, sb.rootObject][i] < |after| && after[[sb.objectIndex, sb.rootObject][i]]
    {
      var b := [sb.objectIndex, sb.rootObject][i];
      assert b == 0 || Live(sb, l, bits, b);
    }
    assert bits[LOCATOR_A] && bits[LOCATOR_B];
    assert [sb.objectIndex, sb.rootObject][0] == sb.objectIndex && [sb.objectIndex, sb.rootObject][1] == sb.rootObject;
  }

  lemma CopiesPlaced(p: Pages, device: nat, sb: Superblock, l: Layout, bits: seq<bool>, k: Picks, after: seq<bool>)
    requires Planned(p, device, sb, l, bits, k, after)
    ensures k.second in Picked(k) && k.third in Picked(k) && k.second != k.third && k.second != 0 && k.third != 0
    ensures k.second < |after| && k.third < |after| && !Moves(sb, l, k.second) && !Moves(sb, l, k.third)
    ensures AllSet(after, [0, k.second, k.third])
  {
    hide TreeReads, TreeIs, Used, Placed, Committed;
    assert Picked(k)[0] == k.second && Picked(k)[1] == k.third;
  }

  lemma PagesPlaced(
    p: Pages, device: nat, sb: Superblock, l: Layout, bits: seq<bool>, k: Picks, after: seq<bool>, next: Superblock)
    requires Planned(p, device, sb, l, bits, k, after) && next.total == |after|
    requires next.checkpoint == [0, k.second, k.third]
    ensures Placed(next, AllBlocks(k.layout))
  {
    hide TreeReads, TreeIs, Used, Conserves, Moves, Live, AllBlocks;
    StaySet(p, device, sb, l, bits, k, after);
    var picked, all := Picked(k), AllBlocks(k.layout);
    forall i | 0 <= i < |all| ensures picked[2 + i] == all[i] { }
    forall i | 0 <= i < |all| ensures PagePlace(next, all[i]) {
      assert picked[2 + i] in picked && picked[0] == k.second && picked[1] == k.third;
    }
  }

  lemma PagesSet(p: Pages, device: nat, sb: Superblock, l: Layout, bits: seq<bool>, k: Picks, after: seq<bool>)
    requires Planned(p, device, sb, l, bits, k, after)
    ensures AllSet(after, k.layout.leaves) && AllSet(after, k.layout.branches)
  {
    hide TreeReads, TreeIs, Used, Moves, Live, Committed;
    assert forall i :: 0 <= i < |k.layout.leaves| ==> k.layout.leaves[i] in Picked(k);
    assert forall i :: 0 <= i < |k.layout.branches| ==> k.layout.branches[i] in Picked(k);
  }

  /** Writes the new tree. The new superblock's map loads; the old one's still does. */
  method WriteNew(p: Pages, device: nat, sb: Superblock, l: Layout, bits: seq<bool>, k: Picks, after: seq<bool>)
    returns (next: Superblock, q: Pages)
    requires Planned(p, device, sb, l, bits, k, after)
    ensures next == Resized(sb, k, after, |after| - Used(after))
    ensures BasicValid(next, device) && LoadChecks(next, k.layout, after)
    ensures Succeeds(next, sb, device) && NewPlace(next, sb)
    ensures TreeReads(q, device, next) && TreeIs(q, next, k.layout, after)
    ensures TreeReads(q, device, sb) && TreeIs(q, sb, l, bits)
    ensures forall b: nat :: PageAt(q, b) != PageAt(p, b) ==> b in AllBlocks(k.layout) && !(b < |bits| && bits[b])
  {
    hide TreeReads, TreeIs, LoadChecks, BasicValid, Rewritten, Written, Conserves, Mask;
    var total := |after|;
    var free := CountFree(after);
    next := Resized(sb, k, after, free);
    NextChecks(p, device, sb, l, bits, k, after, next);
    var all := AllBlocks(k.layout);
    assert forall i :: 0 <= i < |all| ==> Picked(k)[2 + i] == all[i];
    AllFit(k.layout, total);
    q := WriteTree(p, total, k.layout, AllDirty(total), sb.generation + 1, after);
    assert forall b :: b in all ==> b in Picked(k);
    WholeTree(p, q, device, total, k.layout, sb.generation + 1, after);
    WrittenLoads(q, device, next, k.layout, after);
    OnlyNew(p, q, total, k.layout, sb.generation + 1, after);
    OldTreeStays(p, q, device, sb, l, bits);
  }

  lemma AllFit(l: Layout, total: nat)
    requires Shaped(l, total)
    ensures FlagsFit(AllDirty(total), l, total)
  {
  }

  lemma OnlyNew(p: Pages, q: Pages, total: nat, l: Layout, generation: nat, bits: seq<bool>)
    requires Rewritten(p, q, total, l, AllDirty(total), generation, bits)
    ensures forall b: nat :: PageAt(q, b) != PageAt(p, b) ==> b in AllBlocks(l)
  {
  }

  /** The resize up to the commit. The answer is fixed by the request and the volume. */
  method Prepare(p: Pages, device: nat, sb: Superblock, l: Layout, bits: seq<bool>, bytes: nat, snapshots: nat)
    returns (v: Verdict, next: Superblock, k: Picks, after: seq<bool>, q: Pages)
    requires Resizable(p, device, sb, l, bits)
    ensures v == Answer(sb, l, bits, device, bytes, snapshots)
    ensures v == Ready ==> |after| == bytes / BLOCK && Conserves(sb, l, bits, k, after) && Shaped(k.layout, |after|)
    ensures v == Ready ==> forall b: nat :: Live(sb, l, bits, b) ==> b < |after|
    ensures v == Ready ==> next == Resized(sb, k, after, |after| - Used(after)) && BasicValid(next, device)
    ensures v == Ready ==> LoadChecks(next, k.layout, after)
    ensures v == Ready ==> Succeeds(next, sb, device) && NewPlace(next, sb)
    ensures v == Ready ==> forall b :: b in Picked(k) ==> !(b < |bits| && bits[b])
    ensures v == Ready ==> TreeReads(q, device, next) && TreeIs(q, next, k.layout, after)
    ensures v == Ready ==> TreeReads(q, device, sb) && TreeIs(q, sb, l, bits)
    ensures v == Ready ==> forall b: nat :: PageAt(q, b) != PageAt(p, b) ==>
      b in AllBlocks(k.layout) && !(b < |bits| && bits[b])
  {
    hide TreeReads, TreeIs, LoadChecks, BasicValid, Used, Succeeds, Conserves, Live, PickOutcome, Resizable, Resized;
    hide Carried;
    next, k, after, q := sb, Picks(0, 0, l), bits, p;
    if bytes % BLOCK != 0 || bytes < MIN_BYTES { return Invalid, next, k, after, q; }
    var total := bytes / BLOCK;
    if total > device { return NoRoom, next, k, after, q; }
    if total == sb.total { return Unchanged, next, k, after, q; }
    if snapshots > 0 { return Busy, next, k, after, q; }
    var ok := CheckShrink(sb, l, bits, total);
    Origin(p, device, sb, l, bits);
    LiveBeyond(sb, l, bits, total);
    if !ok { return Busy, next, k, after, q; }
    v, k, after := Plan(p, device, sb, l, bits, total);
    if v != Ready { return v, next, k, bits, q; }
    if sb.generation >= U64_MAX { return Overflow, next, k, after, q; }
    next, q := WriteNew(p, device, sb, l, bits, k, after);
  }

  /** The new bitmap: the old one at its new length, the picks set, what moves cleared. */
  method Plan(p: Pages, device: nat, sb: Superblock, l: Layout, bits: seq<bool>, total: nat)
    returns (v: Verdict, k: Picks, after: seq<bool>)
    requires Resizable(p, device, sb, l, bits) && MIN_VOLUME <= total <= device
    requires forall b: nat :: Live(sb, l, bits, b) ==> b < total
    ensures v == PickOutcome(total - Used(Carried(bits, total)), total)
    ensures v == Ready ==> |after| == total && Planned(p, device, sb, l, bits, k, after)
  {
    hide TreeReads, TreeIs, LoadChecks, Used, Claims, Live, Conserves;
    after := bits;
    var a := Carry(bits, total);
    ghost var start := a[..];
    v, k := Pick(a);
    if v != Ready { return; }
    ghost var middle := a[..];
    Clear(a, l.leaves);
    Clear(a, l.branches);
    Clear(a, sb.checkpoint[1..]);
    after := a[..];
    Origin(p, device, sb, l, bits);
    Cleared(sb, l, middle, after);
    Conservation(sb, l, bits, start, k, middle, after);
    ClaimsDistinct(start, middle, Picked(k));
  }

  lemma LiveBeyond(sb: Superblock, l: Layout, bits: seq<bool>, total: nat)
    requires sb.checkpoint[0] == 0 && total > 0
    ensures (forall b: nat :: total <= b < |bits| && bits[b] ==> Moves(sb, l, b) || b == sb.checkpoint[0]) <==>
      !LiveAtOrBeyond(sb, l, bits, total)
  {
    if b: nat :| total <= b < |bits| && bits[b] && !(Moves(sb, l, b) || b == sb.checkpoint[0]) {
      assert Live(sb, l, bits, b);
    }
  }

  lemma Origin(p: Pages, device: nat, sb: Superblock, l: Layout, bits: seq<bool>)
    requires Resizable(p, device, sb, l, bits)
    ensures |bits| == sb.total && LoadChecks(sb, l, bits) && PlacesCopies(sb.checkpoint, sb.total)
  {
  }

  lemma Cleared(sb: Superblock, l: Layout, middle: seq<bool>, after: seq<bool>)
    requires |after| == |middle|
    requires forall b: nat :: b < |after| ==>
      after[b] == (middle[b] && b !in l.leaves && b !in l.branches && b !in sb.checkpoint[1..])
    ensures forall b: nat :: b < |after| ==> after[b] == (middle[b] && !Moves(sb, l, b))
  {
    assert sb.checkpoint[1..] == [sb.checkpoint[1], sb.checkpoint[2]];
  }

  lemma ClaimsDistinct(start: seq<bool>, bits: seq<bool>, taken: seq<nat>)
    requires Claims(start, bits, taken, {})
    ensures Distinct(taken)
  {
  }
}
