/** The whole of allocation-map publication, and what a mount of its result loads. */
module AllocationTheorem {
  import opened Geometry
  import opened Discovery
  import opened AllocationTree
  import opened AllocationLoad
  import opened Transaction
  import opened DirtyClosure
  import opened TreeImage
  import opened AllocationPublish
  import opened AllocationCommit

  /** A block that must stay allocated whatever the transaction frees. */
  ghost predicate Pinned(bits: seq<bool>, deferred: seq<Range>, l: Layout, b: nat) {
    b < |bits| && bits[b] && !Covered(deferred, b) && b !in AllBlocks(l)
  }

  /** The transaction builds on a committed tree: it only adds to the committed bitmap, it
      journals what it adds, and it does not free tree pages itself. */
  ghost predicate BuildsOn(
    bits: seq<bool>, claimed: seq<Range>, deferred: seq<Range>, l: Layout, committed: seq<bool>) {
    && |bits| == |committed|
    && (forall b: nat :: b < |bits| && committed[b] ==> bits[b])
    && (forall b: nat :: b < |bits| && bits[b] != committed[b] ==> Covered(claimed, b))
    && (forall b :: b in AllBlocks(l) ==> !Covered(deferred, b))
  }

  /** A committed bitmap: consistent with its superblock, and holding the locator blocks. */
  ghost predicate CommittedBits(sb: Superblock, l: Layout, bits: seq<bool>) {
    && BasicValid(sb, sb.total) && sb.total > LOCATOR_B && Shaped(l, sb.total) && |bits| == sb.total
    && LoadChecks(sb, l, bits) && bits[LOCATOR_A] && bits[LOCATOR_B]
  }

  ghost predicate Committed(p: Pages, device: nat, sb: Superblock, l: Layout, bits: seq<bool>) {
    && BasicValid(sb, device) && TreeReads(p, device, sb) && TreeIs(p, sb, l, bits) && CommittedBits(sb, l, bits)
  }

  /** The bitmap after the frees are applied. */
  ghost predicate Freed(before: seq<bool>, after: seq<bool>, deferred: seq<Range>, kept: nat -> bool) {
    && |before| == |after|
    && (forall b: nat :: b < |before| ==> after[b] == (before[b] && (!Covered(deferred, b) || kept(b))))
  }

  /** What publication did to the bitmap and the journals, step by step. */
  datatype Change = Change(
    l: Layout, f: Flags, taken: seq<nat>, reservations: set<nat>, kept: nat -> bool,
    committed: seq<bool>, start: seq<bool>, middle: seq<bool>, final: seq<bool>,
    claimed: seq<Range>, claimedAfter: seq<Range>, deferred: seq<Range>, deferredAfter: seq<Range>)

  ghost predicate ChangeOk(c: Change, sb: Superblock) {
    && CommittedBits(sb, c.l, c.committed) && |c.start| == |c.middle| == |c.final| == sb.total
    && BuildsOn(c.start, c.claimed, c.deferred, c.l, c.committed)
    && (forall b: nat :: Covered(c.deferred, b) ==> b < |c.start| && c.start[b])
    && FlagsFit(c.f, c.l, sb.total) && Closed(c.f, c.l, sb.total)
    && Claims(c.start, c.middle, c.taken, c.reservations) && JournalGrows(c.claimed, c.claimedAfter, c.taken)
    && (forall b: nat :: b < sb.total && (Covered(c.claimedAfter, b) || Covered(c.deferred, b)) ==>
        c.f.leaves[Owner(b)])
    && (forall b: nat :: Covered(c.deferredAfter, b) <==>
        Covered(c.deferred, b) || Retires(AllBlocks(c.l), Mask(c.f), b))
    && Freed(c.middle, c.final, c.deferredAfter, c.kept)
  }

  lemma TakenAreFree(c: Change, sb: Superblock)
    requires ChangeOk(c, sb)
    ensures forall b :: b in c.taken ==>
      PagePlace(sb, b) && !c.committed[b] && b !in AllBlocks(c.l) && !Covered(c.deferredAfter, b) && c.final[b]
  {
    forall b | b in c.taken
      ensures PagePlace(sb, b) && !c.committed[b] && b !in AllBlocks(c.l) && !Covered(c.deferredAfter, b) && c.final[b]
    {
      assert 0 < b < sb.total && !c.start[b] && !c.committed[b];
      assert AllSet(c.committed, sb.checkpoint);
      assert b !in sb.checkpoint;
      assert forall i :: 0 <= i < |AllBlocks(c.l)| ==> c.committed[AllBlocks(c.l)[i]];
    }
  }

  /** A retired block's owner is dirty. */
  lemma RetiredOwner(l: Layout, f: Flags, total: nat, b: nat)
    requires FlagsFit(f, l, total) && Closed(f, l, total) && Retires(AllBlocks(l), Mask(f), b) && b < total
    ensures f.leaves[Owner(b)]
  {
    SplitRetires(l, total, f, b);
    if Retires(l.leaves, f.leaves, b) {
      var i :| 0 <= i < |l.leaves| && f.leaves[i] && l.leaves[i] == b;
    } else if Retires(Level2Blocks(l, total), f.level2, b) {
      var i :| 0 <= i < |f.level2| && f.level2[i] && Level2Blocks(l, total)[i] == b;
    } else if Retires(Level1Blocks(l, total), f.level1, b) {
      var i :| 0 <= i < |f.level1| && f.level1[i] && Level1Blocks(l, total)[i] == b;
    }
  }

  /** Every bit that publication changed lies in a dirty leaf. */
  lemma OnlyDirtyLeavesChange(c: Change, sb: Superblock)
    requires ChangeOk(c, sb)
    ensures ChangedInside(c.committed, c.final, c.f.leaves)
  {
    forall b: nat | b < sb.total && c.committed[b] != c.final[b]
      ensures Owner(b) < |c.f.leaves| && c.f.leaves[Owner(b)]
    {
      if c.final[b] {
        assert Covered(c.claimedAfter, b);
      } else {
        assert Covered(c.deferredAfter, b);
        if !Covered(c.deferred, b) { RetiredOwner(c.l, c.f, sb.total, b); }
      }
    }
  }

  /** No tree page overlaps another or anything fixed, and all of them stay allocated. */
  lemma NewPagesPlaced(c: Change, sb: Superblock, next: Layout)
    requires ChangeOk(c, sb) && Replaces(AllBlocks(c.l), Mask(c.f), c.taken, AllBlocks(next))
    ensures Placed(sb, AllBlocks(next)) && AllSet(c.final, AllBlocks(next))
  {
    TakenAreFree(c, sb);
    ReplacedDistinct(AllBlocks(c.l), Mask(c.f), c.taken, AllBlocks(next));
    forall i | 0 <= i < |AllBlocks(next)| ensures PagePlace(sb, AllBlocks(next)[i]) && c.final[AllBlocks(next)[i]] {
      if !Mask(c.f)[i] { KeptPageStays(c, sb, i); }
    }
  }

  lemma KeptPageStays(c: Change, sb: Superblock, i: nat)
    requires ChangeOk(c, sb) && i < |AllBlocks(c.l)| && |AllBlocks(c.l)| == |Mask(c.f)| && !Mask(c.f)[i]
    ensures PagePlace(sb, AllBlocks(c.l)[i]) && c.final[AllBlocks(c.l)[i]]
  {
    hide Closed, JournalGrows, Covered;
    var b := AllBlocks(c.l)[i];
    assert b in AllBlocks(c.l);
    assert c.committed[b] by {
      assert i < |c.l.leaves| ==> c.l.leaves[i] == b;
      assert i >= |c.l.leaves| ==> c.l.branches[i - |c.l.leaves|] == b;
    }
    assert !Retires(AllBlocks(c.l), Mask(c.f), b);
  }

  /** The bitmap that publication leaves: the pages of the new tree are allocated, those of the
      old one and the blocks to be freed are not, unless they are to be kept; all else is as
      the transaction had it. */
  ghost predicate Published(
    tx: Tx, l: Layout, layout: Layout, start: seq<bool>, deferred: seq<Range>, final: seq<bool>) {
    && |final| == |start|
    && forall b: nat :: b < |final| ==> (final[b] <==>
        b in AllBlocks(layout) || (start[b] && (tx.Kept(b) || !(Covered(deferred, b) || b in AllBlocks(l)))))
  }

  lemma BitmapPublished(tx: Tx, c: Change, sb: Superblock, layout: Layout)
    requires forall b: nat :: c.kept(b) == tx.Kept(b)
    requires ChangeOk(c, sb) && Replaces(AllBlocks(c.l), Mask(c.f), c.taken, AllBlocks(layout))
    requires |c.taken| == Used(Mask(c.f))
    ensures Published(tx, c.l, layout, c.start, c.deferred, c.final)
  {
    hide Closed, JournalGrows, Covered, Used;
    TakenAreUsed(AllBlocks(c.l), Mask(c.f), c.taken, AllBlocks(layout));
    NewPagesPlaced(c, sb, layout);
    forall b: nat | b < |c.final| && b !in AllBlocks(layout)
      ensures c.final[b] <==> c.start[b] && (tx.Kept(b) || !(Covered(c.deferred, b) || b in AllBlocks(c.l)))
    {
      assert b !in c.taken && c.middle[b] == c.start[b];
      Replaced(c.l, c.f, c.taken, layout, b);
    }
  }

  /** An old page that is no page of the new tree was retired. */
  lemma Replaced(l: Layout, f: Flags, taken: seq<nat>, layout: Layout, b: nat)
    requires Replaces(AllBlocks(l), Mask(f), taken, AllBlocks(layout)) && b !in AllBlocks(layout)
    ensures Retires(AllBlocks(l), Mask(f), b) <==> b in AllBlocks(l)
  {
    if b in AllBlocks(l) {
      var i :| 0 <= i < |AllBlocks(l)| && AllBlocks(l)[i] == b;
      assert AllBlocks(layout)[i] in AllBlocks(layout);
    }
  }

  function AllClean(total: nat): Flags {
    Flags(seq(Leaves(total), _ => false), seq(Level1(total), _ => false), seq(Level2(total), _ => false))
  }

  /** The first half: find the dirty pages, hold a block for each, retire the old ones and
      apply the frees. */
  method Prepare(tx: Tx, sb: Superblock, l: Layout, ghost committed: seq<bool>)
    returns (status: Status, layout: Layout, f: Flags, ghost c: Change)
    requires tx.Valid() && tx.total == sb.total && tx.checkpoint == sb.checkpoint
    requires CommittedBits(sb, l, committed) && BuildsOn(tx.bitmap, tx.claimed, tx.deferred, l, committed)
    modifies tx
    ensures status != Corrupted && (status == NoSpace ==> tx.Full())
    ensures status == Done ==> Shaped(layout, sb.total) && ChangeOk(c, sb)
    ensures status == Done ==> Replaces(AllBlocks(l), Mask(f), c.taken, AllBlocks(layout))
    ensures status == Done ==> c.l == l && c.f == f && c.committed == committed && c.start == old(tx.bitmap)
    ensures status == Done ==> c.final == tx.bitmap && |c.taken| == Used(Mask(f))
    ensures status == Done ==> forall b: nat :: c.kept(b) == tx.Kept(b)
    ensures status == Done ==> Needed(f, AllClean(sb.total), l, sb.total, tx.claimed, c.deferred)
    ensures status == Done ==> c.deferred == old(tx.deferred) && (forall b :: b in sb.checkpoint ==> c.kept(b))
    ensures status == Done ==> tx.free == |tx.bitmap| - Used(tx.bitmap) && |tx.bitmap| == sb.total
  {
    hide LoadChecks, BuildsOn, Closed, Claims, JournalGrows, Replaces, Retires, AllBlocks, Mask, AllSet, Covered, Used;
    hide Needed, Dirt;
    layout := l;
    var leaves := new bool[|l.leaves|](_ => false);
    var level1 := new bool[Level1(sb.total)](_ => false);
    var level2 := new bool[Level2(sb.total)](_ => false);
    ghost var start, claimed, deferred := tx.bitmap, tx.claimed, tx.deferred;
    assert Flags(leaves[..], level1[..], level2[..]) == AllClean(sb.total);
    var taken;
    status, taken := ReservePages(tx, l, leaves, level1, level2);
    f := Flags(leaves[..], level1[..], level2[..]);
    c := Change(l, f, taken, tx.reservations, (b: nat) => tx.Kept(b), committed, start, tx.bitmap, tx.bitmap,
                claimed, tx.claimed, deferred, deferred);
    if status != Done { return; }
    MaskCounts(f);
    var r;
    layout, r := AssignPages(l, sb.total, f, taken);
    if r != |taken| { return Corrupted, layout, f, c; }
    StillSet(start, tx.bitmap, taken, tx.reservations, claimed, deferred, l, committed, sb);
    var ok := RetirePages(tx, l, f);
    c := c.(deferredAfter := tx.deferred);
    tx.ApplyDeferred();
    c := c.(final := tx.bitmap);
  }

  /** Publication as the transaction performs it. `template` is the superblock being prepared.
      On success a load of the returned superblock finds exactly the transaction's bitmap and
      free count; nothing that the committed bitmap holds was overwritten, so the committed
      superblock's own tree still loads as well. */
  method Publish(
    tx: Tx, p: Pages, device: nat, sb: Superblock, l: Layout, template: Superblock, ghost committed: seq<bool>)
    returns (status: Status, next: Superblock, layout: Layout, q: Pages)
    requires tx.Valid() && tx.total == sb.total && tx.checkpoint == sb.checkpoint
    requires Committed(p, device, sb, l, committed) && BuildsOn(tx.bitmap, tx.claimed, tx.deferred, l, committed)
    requires template.total == sb.total && template.checkpoint == sb.checkpoint && template.uuid == sb.uuid
    requires template.header == sb.header
    requires Pinned(tx.bitmap, tx.deferred, l, template.objectIndex)
    requires Pinned(tx.bitmap, tx.deferred, l, template.rootObject)
    modifies tx
    ensures status != Corrupted && (status == NoSpace ==> tx.Full())
    ensures status != Done ==> q == p
    ensures status == Done ==> Shaped(layout, sb.total) && tx.free == |tx.bitmap| - Used(tx.bitmap)
    ensures status == Done ==> next == template.(generation := sb.generation + 1, allocationRoot := layout.branches[0],
                                                 leafCount := |layout.leaves|, freeBlocks := tx.free)
    ensures status == Done ==> BasicValid(next, device)
    ensures status == Done ==> TreeReads(q, device, next) && TreeIs(q, next, layout, tx.bitmap)
    ensures status == Done ==> LoadChecks(next, layout, tx.bitmap)
    ensures status == Done ==> TreeReads(q, device, sb) && TreeIs(q, sb, l, committed)
    ensures status == Done ==> Published(tx, l, layout, old(tx.bitmap), old(tx.deferred), tx.bitmap)
    ensures status == Done ==> forall b: nat :: PageAt(q, b) != PageAt(p, b) ==> b < sb.total && !committed[b]
  {
    hide TreeReads, TreeIs, LoadChecks, BuildsOn, Closed, Claims, JournalGrows, Rewritten, Replaces, Retires;
    hide CommittedBits;
    next, q := template, p;
    var f;
    ghost var c;
    status, layout, f, c := Prepare(tx, sb, l, committed);
    if status != Done { return; }
    NewPagesPlaced(c, sb, layout);
    BitmapPublished(tx, c, sb, layout);
    next := template.(generation := sb.generation + 1, allocationRoot := layout.branches[0],
      leafCount := |layout.leaves|, freeBlocks := tx.free);
    q := WriteTree(p, sb.total, layout, f, sb.generation + 1, tx.bitmap);
    Finish(c, p, q, device, sb, next, layout);
  }

  lemma PinnedStays(c: Change, sb: Superblock, b: nat)
    requires ChangeOk(c, sb) && Pinned(c.start, c.deferred, c.l, b)
    ensures b < |c.final| && c.final[b]
  {
    assert c.middle[b];
    assert forall i :: 0 <= i < |AllBlocks(c.l)| ==> AllBlocks(c.l)[i] in AllBlocks(c.l);
    assert !Covered(c.deferredAfter, b);
  }

  lemma StillSet(
    start: seq<bool>, middle: seq<bool>, taken: seq<nat>, reservations: set<nat>,
    claimed: seq<Range>, deferred: seq<Range>,
    l: Layout, committed: seq<bool>, sb: Superblock)
    requires Claims(start, middle, taken, reservations) && LoadChecks(sb, l, committed)
    requires BuildsOn(start, claimed, deferred, l, committed)
    ensures AllSet(middle, AllBlocks(l))
  {
    forall i | 0 <= i < |AllBlocks(l)| ensures AllBlocks(l)[i] < |middle| && middle[AllBlocks(l)[i]] {
      assert i < |l.leaves| ==> AllBlocks(l)[i] == l.leaves[i];
      assert i >= |l.leaves| ==> AllBlocks(l)[i] == l.branches[i - |l.leaves|];
    }
  }

  lemma Finish(c: Change, p: Pages, q: Pages, device: nat, sb: Superblock, next: Superblock, layout: Layout)
    requires ChangeOk(c, sb) && Committed(p, device, sb, c.l, c.committed)
    requires Replaces(AllBlocks(c.l), Mask(c.f), c.taken, AllBlocks(layout)) && Shaped(layout, sb.total)
    requires Rewritten(p, q, sb.total, layout, c.f, sb.generation + 1, c.final)
    requires next.generation == sb.generation + 1 && next.total == sb.total && next.checkpoint == sb.checkpoint
    requires next.uuid == sb.uuid && next.header == sb.header
    requires next.allocationRoot == layout.branches[0] && next.leafCount == |layout.leaves|
    requires next.freeBlocks == |c.final| - Used(c.final)
    requires forall b :: b in sb.checkpoint ==> c.kept(b)
    requires Pinned(c.start, c.deferred, c.l, next.objectIndex) && Pinned(c.start, c.deferred, c.l, next.rootObject)
    ensures BasicValid(next, device) && TreeReads(q, device, next) && TreeIs(q, next, layout, c.final)
    ensures LoadChecks(next, layout, c.final)
    ensures TreeReads(q, device, sb) && TreeIs(q, sb, c.l, c.committed)
    ensures forall b: nat :: PageAt(q, b) != PageAt(p, b) ==> b < sb.total && !c.committed[b]
  {
    hide TreeReads, TreeIs, LoadChecks, BuildsOn, Closed, Claims, JournalGrows, Rewritten, Replaces, Retires, Written;
    TakenAreFree(c, sb);
    NewPagesPlaced(c, sb, layout);
    FinishTree(c, p, q, device, sb, layout);
    NextIsValid(c, device, sb, next, layout);
    WrittenLoads(q, device, next, layout, c.final);
    FinalChecks(c, sb, next, layout);
    forall b: nat | b !in c.taken ensures PageAt(q, b) == PageAt(p, b) {
      CleanStays(p, q, sb.total, c.l, layout, c.f, sb.generation + 1, c.final, c.taken, b);
    }
    OldTreeStays(p, q, device, sb, c.l, c.committed);
  }

  lemma FinishTree(c: Change, p: Pages, q: Pages, device: nat, sb: Superblock, layout: Layout)
    requires ChangeOk(c, sb) && Committed(p, device, sb, c.l, c.committed)
    requires Replaces(AllBlocks(c.l), Mask(c.f), c.taken, AllBlocks(layout)) && Shaped(layout, sb.total)
    requires Rewritten(p, q, sb.total, layout, c.f, sb.generation + 1, c.final)
    ensures Written(q, device, sb.generation + 1, sb.total, layout, c.final)
  {
    hide TreeReads, TreeIs, LoadChecks, BuildsOn, Closed, Claims, JournalGrows, Rewritten, Replaces, Retires, Written;
    TakenAreFree(c, sb);
    OnlyDirtyLeavesChange(c, sb);
    LoadedIsWritten(p, device, sb, c.l, c.committed);
    RewrittenIsWritten(p, q, device, sb.total, c.l, layout, c.f, sb.generation, sb.generation + 1, c.committed, c.final,
      c.taken);
  }

  lemma NextIsValid(c: Change, device: nat, sb: Superblock, next: Superblock, layout: Layout)
    requires BasicValid(sb, device) && |c.final| == |c.start| == sb.total && Shaped(layout, sb.total)
    requires Placed(sb, AllBlocks(layout))
    requires next.generation == sb.generation + 1 && next.total == sb.total && next.checkpoint == sb.checkpoint
    requires next.uuid == sb.uuid && next.header == sb.header
    requires next.allocationRoot == layout.branches[0] && next.leafCount == |layout.leaves|
    requires next.freeBlocks == |c.final| - Used(c.final)
    requires Pinned(c.start, c.deferred, c.l, next.objectIndex) && Pinned(c.start, c.deferred, c.l, next.rootObject)
    ensures BasicValid(next, device) && HeaderOk(next)
  {
    assert AllBlocks(layout)[|layout.leaves|] == layout.branches[0];
    assert PagePlace(sb, layout.branches[0]);
  }

  lemma CheckpointStays(c: Change, sb: Superblock, b: nat)
    requires ChangeOk(c, sb) && b in sb.checkpoint && c.kept(b)
    ensures b < |c.final| && c.final[b]
  {
    var i :| 0 <= i < 3 && sb.checkpoint[i] == b;
    assert c.committed[b] && c.start[b] && c.middle[b];
  }

  lemma FinalChecks(c: Change, sb: Superblock, next: Superblock, layout: Layout)
    requires ChangeOk(c, sb) && Placed(sb, AllBlocks(layout)) && AllSet(c.final, AllBlocks(layout))
    requires next.total == sb.total && next.checkpoint == sb.checkpoint && next.freeBlocks == |c.final| - Used(c.final)
    requires forall b :: b in sb.checkpoint ==> c.kept(b)
    requires Pinned(c.start, c.deferred, c.l, next.objectIndex) && Pinned(c.start, c.deferred, c.l, next.rootObject)
    ensures LoadChecks(next, layout, c.final)
  {
    hide ChangeOk, Placed, Pinned;
    SplitAll(layout, c.final);
    PinnedStays(c, sb, next.objectIndex);
    PinnedStays(c, sb, next.rootObject);
    forall i | 0 <= i < 3 ensures sb.checkpoint[i] < |c.final| && c.final[sb.checkpoint[i]] {
      CheckpointStays(c, sb, sb.checkpoint[i]);
    }
    SamePlaces(sb, next, AllBlocks(layout));
  }

  lemma SplitAll(l: Layout, bits: seq<bool>)
    requires AllSet(bits, AllBlocks(l))
    ensures AllSet(bits, l.leaves) && AllSet(bits, l.branches)
  {
    assert forall i :: 0 <= i < |l.leaves| ==> AllBlocks(l)[i] == l.leaves[i];
    assert forall i :: 0 <= i < |l.branches| ==> AllBlocks(l)[|l.leaves| + i] == l.branches[i];
  }

  lemma SamePlaces(sb: Superblock, next: Superblock, blocks: seq<nat>)
    requires Placed(sb, blocks) && next.total == sb.total && next.checkpoint == sb.checkpoint
    ensures Placed(next, blocks)
  {
    assert forall b :: b in blocks ==> PagePlace(next, b);
  }

  /** The tree of the committed superblock can still be loaded: none of its pages was touched. */
  lemma OldTreeStays(p: Pages, q: Pages, device: nat, sb: Superblock, l: Layout, bits: seq<bool>)
    requires TreeReads(p, device, sb) && TreeIs(p, sb, l, bits)
    requires forall b: nat :: b in AllBlocks(l) ==> PageAt(q, b) == PageAt(p, b)
    ensures TreeReads(q, device, sb) && TreeIs(q, sb, l, bits)
  {
    LoadedIsWritten(p, device, sb, l, bits);
    var l2, l1 := Level2Blocks(l, sb.total), Level1Blocks(l, sb.total);
    LayoutParts(l, sb.total);
    assert l.branches[0] in AllBlocks(l) && forall i :: 0 <= i < |l2| ==> l2[i] in AllBlocks(l);
    assert forall i :: 0 <= i < |l1| ==> l1[i] in AllBlocks(l);
    assert Written(q, device, sb.generation, sb.total, l, bits) by {
      forall i | 0 <= i < Level2(sb.total) ensures BranchHolds(q, device, sb.generation, l2[i], i, 2, l1) {
        assert BranchHolds(p, device, sb.generation, l2[i], i, 2, l1);
      }
      forall g | 0 <= g < Level1(sb.total) ensures BranchHolds(q, device, sb.generation, l1[g], g, 1, l.leaves) {
        assert BranchHolds(p, device, sb.generation, l1[g], g, 1, l.leaves);
      }
      forall k | 0 <= k < Leaves(sb.total) ensures LeafIs(q, device, sb.generation, l.leaves[k], bits, k) {
        assert LeafIs(p, device, sb.generation, l.leaves[k], bits, k);
      }
    }
    WrittenLoads(q, device, sb, l, bits);
  }

  /** Publish, then mount: the load of the published superblock returns the layout just built
      and the transaction's final bitmap. */
  method PublishAndLoad(
    tx: Tx, p: Pages, device: nat, sb: Superblock, l: Layout, template: Superblock, ghost committed: seq<bool>)
    returns (status: Status, next: Superblock, layout: Layout, loaded: Option<(Layout, seq<bool>)>)
    requires tx.Valid() && tx.total == sb.total && tx.checkpoint == sb.checkpoint
    requires Committed(p, device, sb, l, committed) && BuildsOn(tx.bitmap, tx.claimed, tx.deferred, l, committed)
    requires template.total == sb.total && template.checkpoint == sb.checkpoint && template.uuid == sb.uuid
    requires template.header == sb.header
    requires Pinned(tx.bitmap, tx.deferred, l, template.objectIndex)
    requires Pinned(tx.bitmap, tx.deferred, l, template.rootObject)
    modifies tx
    ensures status == Done || (status == NoSpace && tx.Full())
    ensures status == Done ==> loaded == Some((layout, tx.bitmap))
    ensures status == Done ==> next.freeBlocks == tx.free == |tx.bitmap| - Used(tx.bitmap)
  {
    hide TreeReads, TreeIs, LoadChecks, BuildsOn, CommittedBits;
    var q;
    status, next, layout, q := Publish(tx, p, device, sb, l, template, committed);
    loaded := None;
    if status == Done {
      loaded := Load(q, device, next);
      if loaded.Some? { TreeIsUnique(q, next, loaded.value.0, loaded.value.1, layout, tx.bitmap); }
    }
  }
}
