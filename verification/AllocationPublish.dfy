/** Publishing the allocation tree of a transaction: reserve a block for every page that has
    to be rewritten, retire the old ones, apply the frees and write the dirty pages only. */
module AllocationPublish {
  import opened Geometry
  import opened Sorting
  import opened AllocationTree
  import opened AllocationLoad
  import opened Transaction
  import opened DirtyClosure

  datatype Status = Done | NoSpace | Corrupted

  method CountDirty(a: array<bool>) returns (n: nat)
    ensures n == Used(a[..])
  {
    n := 0;
    for i := 0 to a.Length
      invariant n == Used(a[..i])
    {
      assert a[..i + 1][..i] == a[..i];
      if a[i] { n := n + 1; }
    }
    assert a[..a.Length] == a[..];
  }

  /** The bitmap after claiming the blocks in `taken`, all of which were free. */
  ghost predicate Claims(before: seq<bool>, after: seq<bool>, taken: seq<nat>, reservations: set<nat>) {
    && |before| == |after| && Distinct(taken)
    && (forall b :: b in taken ==> 0 < b < |before| && !before[b] && b !in reservations)
    && (forall b: nat :: b < |before| ==> (after[b] <==> before[b] || b in taken))
  }

  ghost predicate JournalGrows(before: seq<Range>, after: seq<Range>, taken: seq<nat>) {
    forall b: nat :: Covered(after, b) <==> Covered(before, b) || b in taken
  }

  lemma NothingTaken(bits: seq<bool>, reservations: set<nat>, journal: seq<Range>)
    ensures Claims(bits, bits, [], reservations) && JournalGrows(journal, journal, [])
  {
  }

  /** Claims blocks until `needed` are held. */
  method TakeBlocks(tx: Tx, needed: nat, held: seq<nat>, ghost start: seq<bool>, ghost journal: seq<Range>)
    returns (ok: bool, taken: seq<nat>)
    requires tx.Valid() && |held| <= needed
    requires Claims(start, tx.bitmap, held, tx.reservations) && JournalGrows(journal, tx.claimed, held)
    modifies tx
    ensures tx.Valid() && tx.deferred == old(tx.deferred)
    ensures Claims(start, tx.bitmap, taken, tx.reservations) && JournalGrows(journal, tx.claimed, taken)
    ensures held <= taken && (ok ==> |taken| == needed)
    ensures !ok ==> |taken| < needed && tx.Full()
  {
    taken := held;
    while |taken| < needed
      invariant tx.Valid() && tx.deferred == old(tx.deferred) && |taken| <= needed && held <= taken
      invariant Claims(start, tx.bitmap, taken, tx.reservations) && JournalGrows(journal, tx.claimed, taken)
    {
      ghost var was, wasClaimed := tx.bitmap, tx.claimed;
      var r := tx.Alloc();
      if r.None? { return false, taken; }
      CoveredAppend(wasClaimed, Range(r.value, 1));
      TakeOne(start, was, taken, r.value, tx.reservations);
      taken := taken + [r.value];
    }
    ok := true;
  }

  lemma JournalKeeps(journal: seq<Range>, a: seq<Range>, held: seq<nat>, b: seq<Range>, taken: seq<nat>)
    requires JournalGrows(journal, a, held) && JournalGrows(journal, b, taken) && held <= taken
    ensures forall x: nat :: Covered(a, x) ==> Covered(b, x)
  {
    assert forall x :: x in held ==> x in taken;
  }

  lemma TakeOne(start: seq<bool>, bits: seq<bool>, taken: seq<nat>, b: nat, reservations: set<nat>)
    requires Claims(start, bits, taken, reservations) && 0 < b < |bits| && !bits[b] && b !in reservations
    ensures Claims(start, bits[b := true], taken + [b], reservations)
  {
    assert b !in taken;
  }

  /** One round: the leaves of everything journalled, then the closure. */
  method MarkAndClose(
    tx: Tx, l: Layout, leaves: array<bool>, level1: array<bool>, level2: array<bool>, ghost start: Flags)
    requires leaves != level1 && leaves != level2 && level1 != level2
    requires Fits(tx.total) && FlagsFit(Flags(leaves[..], level1[..], level2[..]), l, tx.total)
    requires Needed(Flags(leaves[..], level1[..], level2[..]), start, l, tx.total, tx.claimed, tx.deferred)
    modifies leaves, level1, level2
    ensures FlagsFit(Flags(leaves[..], level1[..], level2[..]), l, tx.total)
    ensures Below(old(Flags(leaves[..], level1[..], level2[..])), Flags(leaves[..], level1[..], level2[..]))
    ensures Closed(Flags(leaves[..], level1[..], level2[..]), l, tx.total)
    ensures Needed(Flags(leaves[..], level1[..], level2[..]), start, l, tx.total, tx.claimed, tx.deferred)
    ensures Covers(leaves[..], tx.total, tx.claimed, tx.deferred)
  {
    hide Closed, Needed, Least, Covered, Touched;
    ghost var before := Flags(leaves[..], level1[..], level2[..]);
    MarkTx(tx, leaves);
    ghost var middle := Flags(leaves[..], level1[..], level2[..]);
    NeededClosed(before, middle, start, l, tx.total, tx.claimed, tx.deferred);
    CloseDirty(l, tx.total, leaves, level1, level2);
    BelowTransitive(before, middle, Flags(leaves[..], level1[..], level2[..]));
  }

  /** Reserving pages dirties leaves, which may need more pages: the outer fixpoint. On success
      the flags are closed, they cover every block the transaction claimed or will free, and
      exactly one block is held for each dirty page and for the root. */
  method ReservePages(tx: Tx, l: Layout, leaves: array<bool>, level1: array<bool>, level2: array<bool>)
    returns (status: Status, taken: seq<nat>)
    requires leaves != level1 && leaves != level2 && level1 != level2
    requires tx.Valid() && Fits(tx.total) && FlagsFit(Flags(leaves[..], level1[..], level2[..]), l, tx.total)
    modifies tx, leaves, level1, level2
    ensures status != Corrupted
    ensures tx.Valid() && tx.deferred == old(tx.deferred)
    ensures Claims(old(tx.bitmap), tx.bitmap, taken, tx.reservations)
    ensures JournalGrows(old(tx.claimed), tx.claimed, taken)
    ensures FlagsFit(Flags(leaves[..], level1[..], level2[..]), l, tx.total)
    ensures status == NoSpace ==> tx.Full() && |taken| <= Dirt(Flags(leaves[..], level1[..], level2[..]))
    ensures status == Done ==> |taken| == Dirt(Flags(leaves[..], level1[..], level2[..])) + 1
    ensures status == Done ==> Closed(Flags(leaves[..], level1[..], level2[..]), l, tx.total)
    ensures status == Done ==> Needed(Flags(leaves[..], level1[..], level2[..]),
              old(Flags(leaves[..], level1[..], level2[..])), l, tx.total, tx.claimed, tx.deferred)
    ensures status == Done ==> Covers(leaves[..], tx.total, tx.claimed, tx.deferred)
  {
    hide Closed, Claims, JournalGrows, Used, Needed, Least, Covered, Touched, Covers, ClosedAbove;
    ghost var start, journal := tx.bitmap, tx.claimed;
    ghost var first := Flags(leaves[..], level1[..], level2[..]);
    NeededAtFirst(first, l, tx.total, tx.claimed, tx.deferred);
    var most := |l.leaves| + |l.branches|;
    taken := [];
    NothingTaken(start, tx.reservations, journal);
    MarkAndClose(tx, l, leaves, level1, level2, first);
    while true
      invariant tx.Valid() && tx.deferred == old(tx.deferred)
      invariant FlagsFit(Flags(leaves[..], level1[..], level2[..]), l, tx.total)
      invariant Claims(start, tx.bitmap, taken, tx.reservations) && JournalGrows(journal, tx.claimed, taken)
      invariant |taken| <= Dirt(Flags(leaves[..], level1[..], level2[..])) + 1
      invariant Needed(Flags(leaves[..], level1[..], level2[..]), first, l, tx.total, tx.claimed, tx.deferred)
      decreases most - Dirt(Flags(leaves[..], level1[..], level2[..]))
    {
      ghost var before := Flags(leaves[..], level1[..], level2[..]);
      var n0 := CountDirty(leaves);
      var n1 := CountDirty(level1);
      var n2 := CountDirty(level2);
      var needed := n0 + n1 + n2 + 1;
      DirtGrows(before, before);
      if needed > most { return Corrupted, taken; }
      var ok;
      ghost var claimed, held := tx.claimed, taken;
      ok, taken := TakeBlocks(tx, needed, taken, start, journal);
      if !ok { return NoSpace, taken; }
      JournalKeeps(journal, claimed, held, tx.claimed, taken);
      NeededMore(before, first, l, tx.total, claimed, tx.claimed, tx.deferred);
      MarkAndClose(tx, l, leaves, level1, level2, first);
      ghost var after := Flags(leaves[..], level1[..], level2[..]);
      DirtGrows(before, after);
      n0 := CountDirty(leaves);
      n1 := CountDirty(level1);
      n2 := CountDirty(level2);
      if n0 + n1 + n2 + 1 == needed && |taken| >= needed { break; }
    }
    status := Done;
  }

  /** All pages of a layout in one list, and the dirty flags in the same order. */
  function AllBlocks(l: Layout): seq<nat> { l.leaves + l.branches }
  function Mask(f: Flags): seq<bool> { f.leaves + [true] + f.level2 + f.level1 }

  lemma LayoutParts(l: Layout, total: nat)
    requires Shaped(l, total)
    ensures AllBlocks(l) == l.leaves + [l.branches[0]] + Level2Blocks(l, total) + Level1Blocks(l, total)
  {
  }

  lemma Regroup(a: seq<nat>, b: seq<nat>, c: seq<nat>, d: seq<nat>)
    ensures a + (b + c + d) == a + b + c + d
  {
  }

  lemma MaskCounts(f: Flags)
    ensures Used(Mask(f)) == Dirt(f) + 1
  {
    UsedConcat(f.leaves + [true] + f.level2, f.level1);
    UsedConcat(f.leaves + [true], f.level2);
    UsedConcat(f.leaves, [true]);
    assert Used([true]) == 1;
  }

  lemma UsedPrefix(dirty: seq<bool>, i: nat)
    requires i < |dirty|
    ensures Used(dirty[..i]) <= Used(dirty) && (dirty[i] ==> Used(dirty[..i]) < Used(dirty))
  {
    assert dirty == dirty[..i] + [dirty[i]] + dirty[i + 1..];
    UsedConcat(dirty[..i] + [dirty[i]], dirty[i + 1..]);
    UsedConcat(dirty[..i], [dirty[i]]);
    assert Used([dirty[i]]) == if dirty[i] then 1 else 0;
  }

  /** `moved` is `blocks` with the n-th dirty entry replaced by the n-th taken block. */
  ghost predicate Replaces(blocks: seq<nat>, dirty: seq<bool>, taken: seq<nat>, moved: seq<nat>) {
    && |blocks| == |dirty| == |moved| && Used(dirty) <= |taken|
    && (forall i :: 0 <= i < |blocks| && !dirty[i] ==> moved[i] == blocks[i])
    && (forall i :: 0 <= i < |blocks| && dirty[i] ==> Used(dirty[..i]) < |taken| && moved[i] == taken[Used(dirty[..i])])
  }

  /** Dirty page number `t` exists. */
  lemma {:induction false} DirtyNumber(dirty: seq<bool>, t: nat) returns (i: nat)
    requires t < Used(dirty)
    ensures i < |dirty| && dirty[i] && Used(dirty[..i]) == t
  {
    var n := |dirty| - 1;
    if t < Used(dirty[..n]) {
      i := DirtyNumber(dirty[..n], t);
      assert dirty[..n][..i] == dirty[..i];
    } else {
      i := n;
    }
  }

  /** If no more blocks were taken than pages are dirty, every taken block holds a page. */
  lemma TakenAreUsed(blocks: seq<nat>, dirty: seq<bool>, taken: seq<nat>, moved: seq<nat>)
    requires Replaces(blocks, dirty, taken, moved) && |taken| == Used(dirty)
    ensures forall b :: b in taken ==> b in moved
  {
    forall b | b in taken ensures b in moved {
      var t :| 0 <= t < |taken| && taken[t] == b;
      var i := DirtyNumber(dirty, t);
      assert moved[i] == b;
    }
  }

  /** One assignment loop; `r` blocks have been handed out before it. */
  method Refill(blocks: seq<nat>, dirty: seq<bool>, taken: seq<nat>, r: nat) returns (moved: seq<nat>, r': nat)
    requires |blocks| == |dirty| && r + Used(dirty) <= |taken|
    ensures r' == r + Used(dirty) && Replaces(blocks, dirty, taken[r..], moved)
  {
    hide Used;
    moved, r' := [], r;
    UsedNone(dirty);
    for i := 0 to |blocks|
      invariant |moved| == i && r' == r + Used(dirty[..i])
      invariant forall k :: 0 <= k < i && !dirty[k] ==> moved[k] == blocks[k]
      invariant forall k :: 0 <= k < i && dirty[k] ==>
        Used(dirty[..k]) < |taken| - r && moved[k] == taken[r..][Used(dirty[..k])]
    {
      UsedTo(dirty, i);
      UsedPrefix(dirty, i);
      if dirty[i] {
        moved, r' := moved + [taken[r']], r' + 1;
      } else {
        moved := moved + [blocks[i]];
      }
    }
    assert dirty[..|dirty|] == dirty;
  }

  lemma UsedNone(dirty: seq<bool>)
    ensures Used(dirty[..0]) == 0
  {
  }

  lemma UsedTo(dirty: seq<bool>, i: nat)
    requires i < |dirty|
    ensures Used(dirty[..i + 1]) == Used(dirty[..i]) + if dirty[i] then 1 else 0
  {
    assert dirty[..i + 1][..i] == dirty[..i];
  }

  lemma ReplacesConcat(
    a: seq<nat>, m: seq<bool>, taken: seq<nat>, fa: seq<nat>, b: seq<nat>, n: seq<bool>, fb: seq<nat>)
    requires Replaces(a, m, taken, fa) && Replaces(b, n, taken[Used(m)..], fb)
    ensures Replaces(a + b, m + n, taken, fa + fb)
  {
    UsedConcat(m, n);
    forall i | 0 <= i < |a + b| && (m + n)[i]
      ensures Used((m + n)[..i]) < |taken| && (fa + fb)[i] == taken[Used((m + n)[..i])]
    {
      if i < |a| {
        assert (m + n)[..i] == m[..i];
      } else {
        assert (m + n)[..i] == m + n[..i - |a|];
        UsedConcat(m, n[..i - |a|]);
      }
    }
  }

  /** Hands the taken blocks to the dirty leaves, the root, level two and level one, in that
      order; every taken block is used. */
  method AssignPages(l: Layout, total: nat, f: Flags, taken: seq<nat>) returns (next: Layout, r: nat)
    requires FlagsFit(f, l, total) && |taken| == Dirt(f) + 1
    ensures r == |taken| && Shaped(next, total)
    ensures Replaces(AllBlocks(l), Mask(f), taken, AllBlocks(next))
  {
    MaskCounts(f);
    var leaves, root, level2, level1;
    leaves, r := Refill(l.leaves, f.leaves, taken, 0);
    assert taken[0..] == taken;
    assert Used([true]) == 1;
    root, r := Refill([l.branches[0]], [true], taken, r);
    level2, r := Refill(Level2Blocks(l, total), f.level2, taken, r);
    level1, r := Refill(Level1Blocks(l, total), f.level1, taken, r);
    next := Layout(leaves, root + level2 + level1);
    ReplacesChain(l.leaves, f.leaves, leaves, [l.branches[0]], [true], root, Level2Blocks(l, total), f.level2, level2,
                  Level1Blocks(l, total), f.level1, level1, taken);
    LayoutParts(l, total);
    Regroup(leaves, root, level2, level1);
  }

  lemma ReplacesChain(
    a: seq<nat>, m: seq<bool>, fa: seq<nat>, b: seq<nat>, n: seq<bool>, fb: seq<nat>,
    c: seq<nat>, o: seq<bool>, fc: seq<nat>, d: seq<nat>, q: seq<bool>, fd: seq<nat>, taken: seq<nat>)
    requires |taken| == Used(m) + Used(n) + Used(o) + Used(q)
    requires Replaces(a, m, taken, fa) && Replaces(b, n, taken[Used(m)..], fb)
    requires Replaces(c, o, taken[Used(m) + Used(n)..], fc) && Replaces(d, q, taken[Used(m) + Used(n) + Used(o)..], fd)
    ensures Replaces(a + b + c + d, m + n + o + q, taken, fa + fb + fc + fd)
  {
    ReplacesConcat(a, m, taken, fa, b, n, fb);
    UsedConcat(m, n);
    ReplacesConcat(a + b, m + n, taken, fa + fb, c, o, fc);
    UsedConcat(m + n, o);
    ReplacesConcat(a + b + c, m + n + o, taken, fa + fb + fc, d, q, fd);
  }

  /** Distinct old pages and distinct moved blocks give distinct new pages. */
  lemma ReplacedDistinct(blocks: seq<nat>, dirty: seq<bool>, taken: seq<nat>, moved: seq<nat>)
    requires Replaces(blocks, dirty, taken, moved) && Distinct(blocks) && Distinct(taken)
    requires forall b :: b in taken ==> b !in blocks
    ensures Distinct(moved)
    ensures forall i :: 0 <= i < |moved| ==> if dirty[i] then moved[i] in taken else moved[i] == blocks[i]
  {
    forall i, j | 0 <= i < j < |moved| ensures moved[i] != moved[j] {
      if dirty[i] && dirty[j] {
        assert dirty[..j][..i] == dirty[..i];
        UsedPrefix(dirty[..j], i);
      } else if dirty[i] {
        assert moved[i] in taken && moved[j] in blocks;
      } else if dirty[j] {
        assert moved[j] in taken && moved[i] in blocks;
      }
    }
  }

  /** Records every dirty page's old block for freeing. */
  method RetireDirty(tx: Tx, blocks: seq<nat>, dirty: seq<bool>) returns (ok: bool)
    requires tx.Valid() && |blocks| == |dirty| && AllSet(tx.bitmap, blocks)
    modifies tx`deferred
    ensures tx.Valid() && ok
    ensures forall x: nat :: Covered(tx.deferred, x) <==> Covered(old(tx.deferred), x) || Retires(blocks, dirty, x)
  {
    for i := 0 to |blocks|
      invariant tx.Valid()
      invariant forall x: nat :: Covered(tx.deferred, x) <==>
        Covered(old(tx.deferred), x) || Retires(blocks[..i], dirty[..i], x)
    {
      ghost var was := tx.deferred;
      if dirty[i] {
        ok := tx.DeferFree(blocks[i], 1);
        if !ok { return; }
      }
      forall x: nat
        ensures Retires(blocks[..i + 1], dirty[..i + 1], x) <==>
          Retires(blocks[..i], dirty[..i], x) || (dirty[i] && blocks[i] == x)
      {
        RetiresStep(blocks, dirty, i, x);
      }
    }
    assert blocks[..|blocks|] == blocks && dirty[..|dirty|] == dirty;
    ok := true;
  }

  ghost predicate Retires(blocks: seq<nat>, dirty: seq<bool>, x: nat)
    requires |blocks| == |dirty|
  {
    exists i :: 0 <= i < |blocks| && dirty[i] && blocks[i] == x
  }

  lemma RetiresStep(blocks: seq<nat>, dirty: seq<bool>, i: nat, x: nat)
    requires |blocks| == |dirty| && i < |blocks|
    ensures Retires(blocks[..i + 1], dirty[..i + 1], x) <==>
      Retires(blocks[..i], dirty[..i], x) || (dirty[i] && blocks[i] == x)
  {
    if Retires(blocks[..i], dirty[..i], x) {
      var k :| 0 <= k < i && dirty[..i][k] && blocks[..i][k] == x;
      assert dirty[..i + 1][k] && blocks[..i + 1][k] == x;
    }
    if Retires(blocks[..i + 1], dirty[..i + 1], x) {
      var k :| 0 <= k < i + 1 && dirty[..i + 1][k] && blocks[..i + 1][k] == x;
      if k < i { assert dirty[..i][k] && blocks[..i][k] == x; }
    }
    if dirty[i] && blocks[i] == x { assert dirty[..i + 1][i] && blocks[..i + 1][i] == x; }
  }

  lemma RetiresConcat(a: seq<nat>, m: seq<bool>, b: seq<nat>, n: seq<bool>, x: nat)
    requires |a| == |m| && |b| == |n|
    ensures Retires(a + b, m + n, x) <==> Retires(a, m, x) || Retires(b, n, x)
  {
    if Retires(a, m, x) { var i :| 0 <= i < |a| && m[i] && a[i] == x; assert (m + n)[i] && (a + b)[i] == x; }
    if Retires(b, n, x) {
      var i :| 0 <= i < |b| && n[i] && b[i] == x; assert (m + n)[|a| + i] && (a + b)[|a| + i] == x;
    }
    if Retires(a + b, m + n, x) {
      var i :| 0 <= i < |a + b| && (m + n)[i] && (a + b)[i] == x;
      if i < |a| { assert m[i] && a[i] == x; } else { assert n[i - |a|] && b[i - |a|] == x; }
    }
  }

  /** Retires the root, then level two, level one and the leaves. */
  method RetirePages(tx: Tx, l: Layout, f: Flags) returns (ok: bool)
    requires tx.Valid() && FlagsFit(f, l, tx.total) && AllSet(tx.bitmap, AllBlocks(l))
    modifies tx`deferred
    ensures tx.Valid() && ok
    ensures forall x: nat :: Covered(tx.deferred, x) <==>
      Covered(old(tx.deferred), x) || Retires(AllBlocks(l), Mask(f), x)
  {
    var l2, l1 := Level2Blocks(l, tx.total), Level1Blocks(l, tx.total);
    SplitSet(tx.bitmap, l, tx.total);
    ok := RetireDirty(tx, [l.branches[0]], [true]);
    ok := RetireDirty(tx, l2, f.level2);
    ok := RetireDirty(tx, l1, f.level1);
    ok := RetireDirty(tx, l.leaves, f.leaves);
    forall x: nat
      ensures Retires(AllBlocks(l), Mask(f), x) <==>
        Retires(l.leaves, f.leaves, x) || Retires([l.branches[0]], [true], x) ||
          Retires(l2, f.level2, x) || Retires(l1, f.level1, x)
    {
      SplitRetires(l, tx.total, f, x);
    }
  }

  lemma SplitSet(bits: seq<bool>, l: Layout, total: nat)
    requires Shaped(l, total) && AllSet(bits, AllBlocks(l))
    ensures AllSet(bits, l.leaves) && AllSet(bits, [l.branches[0]])
    ensures AllSet(bits, Level2Blocks(l, total)) && AllSet(bits, Level1Blocks(l, total))
  {
    assert forall i :: 0 <= i < |l.leaves| ==> AllBlocks(l)[i] == l.leaves[i];
    assert forall i :: 0 <= i < |l.branches| ==> AllBlocks(l)[|l.leaves| + i] == l.branches[i];
  }

  lemma SplitRetires(l: Layout, total: nat, f: Flags, x: nat)
    requires FlagsFit(f, l, total)
    ensures |AllBlocks(l)| == |Mask(f)|
    ensures Retires(AllBlocks(l), Mask(f), x) <==>
      || Retires(l.leaves, f.leaves, x) || Retires([l.branches[0]], [true], x)
      || Retires(Level2Blocks(l, total), f.level2, x) || Retires(Level1Blocks(l, total), f.level1, x)
  {
    var l2, l1 := Level2Blocks(l, total), Level1Blocks(l, total);
    LayoutParts(l, total);
    RetiresConcat(l.leaves + [l.branches[0]] + l2, f.leaves + [true] + f.level2, l1, f.level1, x);
    RetiresConcat(l.leaves + [l.branches[0]], f.leaves + [true], l2, f.level2, x);
    RetiresConcat(l.leaves, f.leaves, [l.branches[0]], [true], x);
  }
}
