/** Which pages of the allocation tree a transaction must rewrite. Rewriting a page retires
    its old block, which changes the leaf that owns that block, so the set is a fixpoint. */
module DirtyClosure {
  import opened Geometry
  import opened AllocationLoad
  import opened AllocationTree
  import opened Transaction

  /** The leaf whose span contains block `b`. */
  function Owner(b: nat): nat { b / LEAF_BITS }

  predicate Subset(a: seq<bool>, b: seq<bool>) {
    |a| == |b| && forall i :: 0 <= i < |a| ==> a[i] ==> b[i]
  }

  predicate OwnerMarked(leaves: seq<bool>, total: nat, b: nat) {
    b < total && Owner(b) < |leaves| ==> leaves[Owner(b)]
  }

  /** Dirty flags of the three levels; the root page is always rewritten. */
  datatype Flags = Flags(leaves: seq<bool>, level1: seq<bool>, level2: seq<bool>)

  predicate FlagsFit(f: Flags, l: Layout, total: nat) {
    && Shaped(l, total) && |f.leaves| == Leaves(total)
    && |f.level1| == Level1(total) && |f.level2| == Level2(total)
  }

  predicate Below(f: Flags, g: Flags) {
    Subset(f.leaves, g.leaves) && Subset(f.level1, g.level1) && Subset(f.level2, g.level2)
  }

  predicate ParentsMarked(child: seq<bool>, parent: seq<bool>)
    requires |parent| == DivUp(|child|, FANOUT)
  {
    forall i :: 0 <= i < |child| && child[i] ==> parent[i / FANOUT]
  }

  predicate OwnersMarked(flags: seq<bool>, blocks: seq<nat>, leaves: seq<bool>, total: nat)
    requires |flags| == |blocks|
  {
    forall i :: 0 <= i < |flags| && flags[i] ==> OwnerMarked(leaves, total, blocks[i])
  }

  function Level2Blocks(l: Layout, total: nat): (s: seq<nat>)
    requires Shaped(l, total)
    ensures |s| == Level2(total)
  {
    l.branches[1..1 + Level2(total)]
  }

  function Level1Blocks(l: Layout, total: nat): (s: seq<nat>)
    requires Shaped(l, total)
    ensures |s| == Level1(total)
  {
    l.branches[1 + Level2(total)..]
  }

  /** Every dirty page's parent is dirty, and so is the leaf owning every retired block. */
  predicate Closed(f: Flags, l: Layout, total: nat)
    requires FlagsFit(f, l, total)
  {
    && ParentsMarked(f.leaves, f.level1) && ParentsMarked(f.level1, f.level2)
    && OwnerMarked(f.leaves, total, l.branches[0])
    && OwnersMarked(f.level2, Level2Blocks(l, total), f.leaves, total)
    && OwnersMarked(f.level1, Level1Blocks(l, total), f.leaves, total)
    && OwnersMarked(f.leaves, l.leaves, f.leaves, total)
  }

  /** Growing a flag vector grows its count. */
  lemma {:induction false} UsedGrows(a: seq<bool>, b: seq<bool>)
    requires Subset(a, b)
    ensures Used(a) <= Used(b) && (Used(a) == Used(b) ==> a == b)
  {
    if a != [] {
      var n := |a| - 1;
      UsedGrows(a[..n], b[..n]);
      assert a == a[..n] + [a[n]] && b == b[..n] + [b[n]];
    }
  }

  /** Marks the parents of all dirty children. `bound` is any set that is to contain them. */
  method MarkParents(child: array<bool>, parent: array<bool>, ghost bound: seq<bool>) returns (changed: bool)
    requires child != parent && parent.Length == DivUp(child.Length, FANOUT)
    requires Subset(parent[..], bound) && ParentsMarked(child[..], bound)
    modifies parent
    ensures Subset(old(parent[..]), parent[..]) && Subset(parent[..], bound)
    ensures changed == (parent[..] != old(parent[..]))
    ensures ParentsMarked(child[..], parent[..])
  {
    changed := false;
    for i := 0 to child.Length
      invariant Subset(old(parent[..]), parent[..]) && Subset(parent[..], bound)
      invariant changed == (parent[..] != old(parent[..]))
      invariant forall k :: 0 <= k < i && child[k] ==> parent[k / FANOUT]
    {
      if child[i] {
        var up := i / FANOUT;
        assert child[..][i] && bound[up];
        if !parent[up] {
          parent[up] := true;
          changed := true;
          assert parent[..][up] != old(parent[..])[up];
        }
      }
    }
  }

  /** Marks the leaves that own the blocks of all dirty pages; `flags` may be `leaves`. */
  method MarkOwners(
    flags: array<bool>, blocks: seq<nat>, leaves: array<bool>, total: nat, ghost dirty: seq<bool>,
    ghost bound: seq<bool>)
    returns (changed: bool)
    requires |blocks| == flags.Length && leaves.Length == Leaves(total)
    requires Subset(flags[..], dirty) && Subset(leaves[..], bound) && (flags == leaves ==> dirty == bound)
    requires OwnersMarked(dirty, blocks, bound, total)
    modifies leaves
    ensures Subset(old(leaves[..]), leaves[..]) && Subset(leaves[..], bound)
    ensures changed == (leaves[..] != old(leaves[..]))
    ensures !changed ==> OwnersMarked(flags[..], blocks, leaves[..], total)
  {
    changed := false;
    for i := 0 to flags.Length
      invariant Subset(old(leaves[..]), leaves[..]) && Subset(leaves[..], bound) && Subset(flags[..], dirty)
      invariant changed == (leaves[..] != old(leaves[..]))
      invariant !changed ==> forall k :: 0 <= k < i && flags[k] ==> OwnerMarked(leaves[..], total, blocks[k])
    {
      if flags[i] && blocks[i] < total {
        var owner := Owner(blocks[i]);
        if owner < leaves.Length && !leaves[owner] {
          assert dirty[i] && OwnerMarked(bound, total, blocks[i]);
          leaves[owner] := true;
          changed := true;
          assert leaves[..][owner] != old(leaves[..])[owner];
        }
      }
    }
  }

  /** How many pages below the root are dirty. */
  function Dirt(f: Flags): nat { Used(f.leaves) + Used(f.level1) + Used(f.level2) }

  lemma DirtGrows(f: Flags, g: Flags)
    requires Below(f, g)
    ensures Dirt(f) <= Dirt(g) <= |g.leaves| + |g.level1| + |g.level2|
    ensures Dirt(f) == Dirt(g) ==> f == g
  {
    UsedGrows(f.leaves, g.leaves);
    UsedGrows(f.level1, g.level1);
    UsedGrows(f.level2, g.level2);
  }

  lemma BelowTransitive(f: Flags, g: Flags, h: Flags)
    requires Below(f, g) && Below(g, h)
    ensures Below(f, h)
  {
  }

  /** One pass of the closure: parents of dirty pages, then owners of retired blocks. */
  method Pass(l: Layout, total: nat, leaves: array<bool>, level1: array<bool>, level2: array<bool>, ghost bound: Flags)
    returns (changed: bool)
    requires leaves != level1 && leaves != level2 && level1 != level2
    requires Fits(total) && FlagsFit(Flags(leaves[..], level1[..], level2[..]), l, total)
    requires FlagsFit(bound, l, total) && Closed(bound, l, total)
    requires Below(Flags(leaves[..], level1[..], level2[..]), bound)
    modifies leaves, level1, level2
    ensures Below(old(Flags(leaves[..], level1[..], level2[..])), Flags(leaves[..], level1[..], level2[..]))
    ensures Below(Flags(leaves[..], level1[..], level2[..]), bound)
    ensures changed == (Flags(leaves[..], level1[..], level2[..]) != old(Flags(leaves[..], level1[..], level2[..])))
    ensures !changed ==> Closed(Flags(leaves[..], level1[..], level2[..]), l, total)
  {
    var up1 := MarkParents(leaves, level1, bound.level1);
    var up2 := MarkParents(level1, level2, bound.level2);
    var root := false;
    var owner := Owner(l.branches[0]);
    if l.branches[0] < total && owner < leaves.Length && !leaves[owner] {
      leaves[owner] := true;
      root := true;
      assert leaves[..][owner] != old(leaves[..])[owner];
    }
    var own2 := MarkOwners(level2, Level2Blocks(l, total), leaves, total, bound.level2, bound.leaves);
    var own1 := MarkOwners(level1, Level1Blocks(l, total), leaves, total, bound.level1, bound.leaves);
    var own0 := MarkOwners(leaves, l.leaves, leaves, total, bound.leaves, bound.leaves);
    changed := up1 || up2 || root || own2 || own1 || own0;
  }

  ghost predicate ClosedAbove(g: Flags, f: Flags, l: Layout, total: nat) {
    FlagsFit(g, l, total) && Closed(g, l, total) && Below(f, g)
  }

  /** What all closed sets of flags above `f` have in common. */
  ghost function Least(f: Flags, l: Layout, total: nat): Flags {
    var n0, n1, n2 := Leaves(total), Level1(total), Level2(total);
    Flags(seq(n0, i requires 0 <= i < n0 => forall g :: ClosedAbove(g, f, l, total) ==> g.leaves[i]),
          seq(n1, i requires 0 <= i < n1 => forall g :: ClosedAbove(g, f, l, total) ==> g.level1[i]),
          seq(n2, i requires 0 <= i < n2 => forall g :: ClosedAbove(g, f, l, total) ==> g.level2[i]))
  }

  /** It is closed itself, hence the least one. */
  lemma LeastIsClosed(f: Flags, l: Layout, total: nat)
    requires Fits(total) && FlagsFit(f, l, total)
    ensures ClosedAbove(Least(f, l, total), f, l, total)
    ensures forall g :: ClosedAbove(g, f, l, total) ==> Below(Least(f, l, total), g)
  {
    var m := Least(f, l, total);
    LeastOwners(f, l, total, m);
    LeastAbove(f, l, total, m);
    forall i | 0 <= i < |m.leaves| && m.leaves[i] ensures m.level1[i / FANOUT] {
      forall g | ClosedAbove(g, f, l, total) ensures g.level1[i / FANOUT] { assert g.leaves[i]; }
    }
    forall i | 0 <= i < |m.level1| && m.level1[i] ensures m.level2[i / FANOUT] {
      forall g | ClosedAbove(g, f, l, total) ensures g.level2[i / FANOUT] { assert g.level1[i]; }
    }
  }

  lemma LeastAbove(f: Flags, l: Layout, total: nat, m: Flags)
    requires Fits(total) && FlagsFit(f, l, total) && m == Least(f, l, total)
    ensures Below(f, m)
  {
    forall i | 0 <= i < |f.leaves| && f.leaves[i] ensures m.leaves[i] {
      forall g | ClosedAbove(g, f, l, total) ensures g.leaves[i] { assert Subset(f.leaves, g.leaves); }
    }
    forall i | 0 <= i < |f.level1| && f.level1[i] ensures m.level1[i] {
      forall g | ClosedAbove(g, f, l, total) ensures g.level1[i] { assert Subset(f.level1, g.level1); }
    }
    forall i | 0 <= i < |f.level2| && f.level2[i] ensures m.level2[i] {
      forall g | ClosedAbove(g, f, l, total) ensures g.level2[i] { assert Subset(f.level2, g.level2); }
    }
  }

  lemma LeastOwners(f: Flags, l: Layout, total: nat, m: Flags)
    requires Fits(total) && FlagsFit(f, l, total) && m == Least(f, l, total)
    ensures OwnerMarked(m.leaves, total, l.branches[0])
    ensures OwnersMarked(m.level2, Level2Blocks(l, total), m.leaves, total)
    ensures OwnersMarked(m.level1, Level1Blocks(l, total), m.leaves, total)
    ensures OwnersMarked(m.leaves, l.leaves, m.leaves, total)
  {
    forall g | ClosedAbove(g, f, l, total) ensures OwnerMarked(g.leaves, total, l.branches[0]) { }
    forall i | 0 <= i < |m.level2| && m.level2[i] ensures OwnerMarked(m.leaves, total, Level2Blocks(l, total)[i]) {
      forall g | ClosedAbove(g, f, l, total) ensures OwnerMarked(g.leaves, total, Level2Blocks(l, total)[i]) {
        assert g.level2[i];
      }
    }
    forall i | 0 <= i < |m.level1| && m.level1[i] ensures OwnerMarked(m.leaves, total, Level1Blocks(l, total)[i]) {
      forall g | ClosedAbove(g, f, l, total) ensures OwnerMarked(g.leaves, total, Level1Blocks(l, total)[i]) {
        assert g.level1[i];
      }
    }
    forall i | 0 <= i < |m.leaves| && m.leaves[i] ensures OwnerMarked(m.leaves, total, l.leaves[i]) {
      forall g | ClosedAbove(g, f, l, total) ensures OwnerMarked(g.leaves, total, l.leaves[i]) {
        assert g.leaves[i];
      }
    }
  }

  /** Repeats passes until nothing changes: the least closed set of flags that contains the
      initial ones. */
  method CloseDirty(l: Layout, total: nat, leaves: array<bool>, level1: array<bool>, level2: array<bool>)
    requires leaves != level1 && leaves != level2 && level1 != level2
    requires Fits(total) && FlagsFit(Flags(leaves[..], level1[..], level2[..]), l, total)
    modifies leaves, level1, level2
    ensures Flags(leaves[..], level1[..], level2[..]) == Least(old(Flags(leaves[..], level1[..], level2[..])), l, total)
    ensures Below(old(Flags(leaves[..], level1[..], level2[..])), Flags(leaves[..], level1[..], level2[..]))
    ensures Closed(Flags(leaves[..], level1[..], level2[..]), l, total)
  {
    hide Closed, Least;
    ghost var start := Flags(leaves[..], level1[..], level2[..]);
    ghost var bound := Least(start, l, total);
    LeastIsClosed(start, l, total);
    ghost var pages := leaves.Length + level1.Length + level2.Length;
    var changed := true;
    while changed
      invariant Below(start, Flags(leaves[..], level1[..], level2[..]))
      invariant Below(Flags(leaves[..], level1[..], level2[..]), bound)
      invariant !changed ==> Closed(Flags(leaves[..], level1[..], level2[..]), l, total)
      decreases pages - Dirt(Flags(leaves[..], level1[..], level2[..])), changed
    {
      ghost var before := Flags(leaves[..], level1[..], level2[..]);
      changed := Pass(l, total, leaves, level1, level2, bound);
      ghost var after := Flags(leaves[..], level1[..], level2[..]);
      BelowTransitive(start, before, after);
      DirtGrows(before, after);
    }
    ghost var end := Flags(leaves[..], level1[..], level2[..]);
    assert ClosedAbove(end, start, l, total);
    BelowBoth(end, bound);
  }

  lemma BelowBoth(f: Flags, g: Flags)
    requires Below(f, g) && Below(g, f)
    ensures f == g
  {
  }

  /** Every page dirty. */
  function AllDirty(total: nat): Flags {
    Flags(seq(Leaves(total), _ => true), seq(Level1(total), _ => true), seq(Level2(total), _ => true))
  }

  /** Every leaf that owns a block of these journals is marked. */
  ghost predicate Covers(leaves: seq<bool>, total: nat, claimed: seq<Range>, deferred: seq<Range>) {
    |leaves| == Leaves(total) &&
    forall b: nat :: b < total && (Covered(claimed, b) || Covered(deferred, b)) ==> leaves[Owner(b)]
  }

  /** Nothing less than `f` is closed, contains `start` and covers the journals. */
  ghost predicate Needed(f: Flags, start: Flags, l: Layout, total: nat, claimed: seq<Range>, deferred: seq<Range>) {
    forall g :: ClosedAbove(g, start, l, total) && Covers(g.leaves, total, claimed, deferred) ==> Below(f, g)
  }

  lemma NeededAtFirst(start: Flags, l: Layout, total: nat, claimed: seq<Range>, deferred: seq<Range>)
    ensures Needed(start, start, l, total, claimed, deferred)
  {
  }

  /** A journal that grew needs no less. */
  lemma NeededMore(
    f: Flags, start: Flags, l: Layout, total: nat, claimed: seq<Range>, claimed': seq<Range>, deferred: seq<Range>)
    requires Needed(f, start, l, total, claimed, deferred)
    requires forall b: nat :: Covered(claimed, b) ==> Covered(claimed', b)
    ensures Needed(f, start, l, total, claimed', deferred)
  {
    forall g | ClosedAbove(g, start, l, total) && Covers(g.leaves, total, claimed', deferred) ensures Below(f, g) {
      assert Covers(g.leaves, total, claimed, deferred);
    }
  }

  /** Marking what the journals touch and closing the result keeps to what is needed. */
  lemma NeededClosed(
    f: Flags, m: Flags, start: Flags, l: Layout, total: nat, claimed: seq<Range>, deferred: seq<Range>)
    requires Fits(total) && FlagsFit(f, l, total) && FlagsFit(m, l, total)
    requires Needed(f, start, l, total, claimed, deferred)
    requires m.level1 == f.level1 && m.level2 == f.level2
    requires forall i: nat :: i < |m.leaves| && m.leaves[i] ==>
      f.leaves[i] || Touched(claimed, total, i) || Touched(deferred, total, i)
    ensures Needed(Least(m, l, total), start, l, total, claimed, deferred)
  {
    hide Closed, Least;
    LeastIsClosed(m, l, total);
    forall g | ClosedAbove(g, start, l, total) && Covers(g.leaves, total, claimed, deferred)
      ensures Below(Least(m, l, total), g)
    {
      assert Below(f, g);
      assert ClosedAbove(g, m, l, total);
    }
  }

  ghost predicate Touches(r: Range, total: nat, leaf: nat) {
    exists b: nat :: b < total && In(r, b) && Owner(b) == leaf
  }

  /** Marks the leaves that a range of blocks touches, clipped to the volume. */
  method MarkRange(leaves: array<bool>, total: nat, r: Range)
    requires leaves.Length == Leaves(total)
    modifies leaves
    ensures forall i :: 0 <= i < leaves.Length ==> (leaves[i] <==> old(leaves[i]) || Touches(r, total, i))
  {
    if r.count == 0 || r.start >= total {
      return;
    }
    var end := if r.start + r.count > total then total else r.start + r.count;
    var first, last := Owner(r.start), Owner(end - 1);
    var i := first;
    while i <= last
      invariant first <= i <= last + 1 && last < leaves.Length
      invariant forall k :: 0 <= k < leaves.Length ==> (leaves[k] <==> old(leaves[k]) || first <= k < i)
    {
      leaves[i] := true;
      i := i + 1;
    }
    forall k: nat ensures Touches(r, total, k) <==> first <= k <= last {
      if first <= k <= last {
        var b := if k == first then r.start else k * LEAF_BITS;
        assert b < total && In(r, b) && Owner(b) == k;
      }
    }
  }

  /** Some range of the list touches the leaf. */
  ghost predicate Touched(rs: seq<Range>, total: nat, leaf: nat) {
    exists b: nat :: b < total && Covered(rs, b) && Owner(b) == leaf
  }

  lemma TouchedNext(rs: seq<Range>, total: nat, n: nat, leaf: nat)
    requires n < |rs|
    ensures Touched(rs[..n + 1], total, leaf) <==> Touched(rs[..n], total, leaf) || Touches(rs[n], total, leaf)
  {
    assert rs[..n + 1] == rs[..n] + [rs[n]];
    CoveredAppend(rs[..n], rs[n]);
    if b: nat :| b < total && Covered(rs[..n + 1], b) && Owner(b) == leaf {
      assert Covered(rs[..n], b) || In(rs[n], b);
    }
  }

  /** Marks every leaf that a range of the list touches, and no other. */
  method MarkRanges(leaves: array<bool>, total: nat, rs: seq<Range>)
    requires leaves.Length == Leaves(total)
    modifies leaves
    ensures forall i: nat :: i < leaves.Length ==> (leaves[i] <==> old(leaves[i]) || Touched(rs, total, i))
  {
    hide Touched, Touches;
    forall i: nat ensures !Touched(rs[..0], total, i) { TouchedNone(total, i); }
    for n := 0 to |rs|
      invariant forall i: nat :: i < leaves.Length ==> (leaves[i] <==> old(leaves[i]) || Touched(rs[..n], total, i))
    {
      MarkRange(leaves, total, rs[n]);
      forall i: nat
        ensures Touched(rs[..n + 1], total, i) <==> Touched(rs[..n], total, i) || Touches(rs[n], total, i)
      {
        TouchedNext(rs, total, n, i);
      }
    }
    assert rs[..|rs|] == rs;
  }

  lemma TouchedNone(total: nat, leaf: nat)
    ensures !Touched([], total, leaf)
  {
  }

  /** Marks exactly the leaves touched by a claimed or deferred range of the transaction. */
  method MarkTx(tx: Tx, leaves: array<bool>)
    requires leaves.Length == Leaves(tx.total)
    modifies leaves
    ensures forall i: nat :: i < leaves.Length ==>
      (leaves[i] <==> old(leaves[i]) || Touched(tx.claimed, tx.total, i) || Touched(tx.deferred, tx.total, i))
    ensures Subset(old(leaves[..]), leaves[..])
    ensures forall b: nat :: b < tx.total && (Covered(tx.claimed, b) || Covered(tx.deferred, b)) ==> leaves[Owner(b)]
  {
    MarkRanges(leaves, tx.total, tx.claimed);
    MarkRanges(leaves, tx.total, tx.deferred);
    forall b: nat | b < tx.total && (Covered(tx.claimed, b) || Covered(tx.deferred, b))
      ensures leaves[Owner(b)]
    {
      assert Touched(tx.claimed, tx.total, Owner(b)) || Touched(tx.deferred, tx.total, Owner(b));
    }
  }
}
