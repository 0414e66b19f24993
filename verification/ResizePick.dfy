/** How a resize picks blocks for its new checkpoints and allocation pages. */
module ResizePick {
  import opened Geometry
  import opened AllocationTree
  import opened AllocationLoad
  import opened AllocationPublish

  function Away(a: nat, b: nat): nat { if a <= b then b - a else a - b }

  ghost predicate Full(bits: seq<bool>) { forall b :: 0 < b < |bits| ==> bits[b] }

  /** The free block nearest to `preferred`, the lower one of two; zero if there is none. */
  method PickNear(bitmap: array<bool>, preferred: nat) returns (block: nat)
    modifies bitmap
    ensures block == 0 ==> Full(old(bitmap[..])) && bitmap[..] == old(bitmap[..])
    ensures block > 0 ==> block < bitmap.Length && !old(bitmap[..])[block]
    ensures block > 0 ==> bitmap[..] == old(bitmap[..])[block := true]
    ensures block > 0 ==> var want := if preferred >= bitmap.Length then bitmap.Length - 1 else preferred;
      forall b: nat :: 0 < b < bitmap.Length && !old(bitmap[..])[b] ==>
        Away(block, want) < Away(b, want) || (Away(block, want) == Away(b, want) && block <= b)
  {
    var total := bitmap.Length;
    if total <= 1 { return 0; }
    var want := if preferred >= total then total - 1 else preferred;
    for distance := 0 to total
      invariant bitmap[..] == old(bitmap[..])
      invariant forall b: nat :: 0 < b < total && Away(b, want) < distance ==> bitmap[b]
    {
      if want >= distance {
        block := want - distance;
        if block > 0 && !bitmap[block] {
          bitmap[block] := true;
          return;
        }
      }
      if distance > 0 {
        block := want + distance;
        if block < total && !bitmap[block] {
          bitmap[block] := true;
          return;
        }
      }
    }
    assert forall b: nat :: 0 < b < total ==> Away(b, want) < total;
    block := 0;
  }

  /** The highest free block not above the cursor. */
  method PickReverse(bitmap: array<bool>, cursor: nat) returns (block: nat, next: nat)
    requires bitmap.Length > 0
    modifies bitmap
    ensures block == 0 ==> bitmap[..] == old(bitmap[..]) && forall b :: 0 < b < bitmap.Length && b <= cursor ==>
      bitmap[b]
    ensures block > 0 ==> block <= cursor && block < bitmap.Length && !old(bitmap[..])[block] && next == block - 1
    ensures block > 0 ==> bitmap[..] == old(bitmap[..])[block := true]
    ensures block > 0 ==> forall b :: block < b < bitmap.Length && b <= cursor ==> bitmap[b]
  {
    next := cursor;
    block := if cursor < bitmap.Length then cursor else bitmap.Length - 1;
    while block > 0
      invariant bitmap[..] == old(bitmap[..]) && block < bitmap.Length && block <= cursor
      invariant forall b :: block < b < bitmap.Length && b <= cursor ==> bitmap[b]
    {
      if !bitmap[block] {
        bitmap[block] := true;
        next := block - 1;
        return;
      }
      block := block - 1;
    }
  }

  /** Picks `n` more blocks downwards. It fails exactly when the bitmap fills up first. */
  method PickMany(bitmap: array<bool>, n: nat, cursor: nat, ghost start: seq<bool>, ghost held: seq<nat>)
    returns (ok: bool, picked: seq<nat>, next: nat)
    requires bitmap.Length > 0 && Claims(start, bitmap[..], held, {})
    requires forall b :: cursor < b < bitmap.Length ==> bitmap[b]
    modifies bitmap
    ensures Claims(start, bitmap[..], held + picked, {}) && (ok ==> |picked| == n)
    ensures forall b :: next < b < bitmap.Length ==> bitmap[b]
    ensures !ok ==> |picked| < n && Full(bitmap[..])
  {
    picked, next := [], cursor;
    assert held + [] == held;
    for i := 0 to n
      invariant |picked| == i && Claims(start, bitmap[..], held + picked, {})
      invariant forall b :: next < b < bitmap.Length ==> bitmap[b]
    {
      ghost var was := bitmap[..];
      var block;
      block, next := PickReverse(bitmap, next);
      if block == 0 { return false, picked, next; }
      TakeOne(start, was, held + picked, block, {});
      assert held + picked + [block] == held + (picked + [block]);
      picked := picked + [block];
    }
    ok := true;
  }

  /** Blocks for the whole tree: leaves first, then branches. */
  method AllocateLayout(bitmap: array<bool>, ghost start: seq<bool>, ghost held: seq<nat>) returns (ok: bool, l: Layout)
    requires Fits(bitmap.Length) && Claims(start, bitmap[..], held, {})
    modifies bitmap
    ensures ok ==> Shaped(l, bitmap.Length) && Claims(start, bitmap[..], held + AllBlocks(l), {})
    ensures !ok ==> Full(bitmap[..])
    ensures !ok ==> exists some ::
      |some| < Leaves(bitmap.Length) + Branches(bitmap.Length) && Claims(start, bitmap[..], held + some, {})
  {
    var leaves, branches, cursor;
    ok, leaves, cursor := PickMany(bitmap, Leaves(bitmap.Length), bitmap.Length - 1, start, held);
    if !ok { return false, Layout([], []); }
    ok, branches, cursor := PickMany(bitmap, Branches(bitmap.Length), cursor, start, held + leaves);
    assert held + leaves + branches == held + (leaves + branches);
    l := Layout(leaves, branches);
  }

  /** Claiming blocks moves the count by their number. */
  lemma {:induction false} ClaimsCount(start: seq<bool>, bits: seq<bool>, taken: seq<nat>)
    requires Claims(start, bits, taken, {})
    ensures Used(bits) == Used(start) + |taken|
    decreases |taken|
  {
    if taken == [] {
      assert bits == start;
    } else {
      var init, last := taken[..|taken| - 1], taken[|taken| - 1];
      assert taken == init + [last] && last in taken;
      assert last !in init && forall b :: b in taken <==> b in init || b == last;
      assert Claims(start, bits[last := false], init, {});
      ClaimsCount(start, bits[last := false], init);
      UsedUpdate(bits, last, false);
    }
  }

  lemma {:induction false} FullCount(bits: seq<bool>)
    requires Full(bits) && bits != [] && bits[0]
    ensures Used(bits) == |bits|
  {
    if |bits| > 1 { FullCount(bits[..|bits| - 1]); }
  }
}
