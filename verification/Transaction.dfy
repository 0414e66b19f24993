/** The allocation side of a copy-on-write transaction: blocks are claimed in the live bitmap
    at once and journalled; frees are only recorded, and applied at publication. */
module Transaction {
  import opened Geometry
  import opened Discovery
  import opened AllocationLoad

  datatype Range = Range(start: nat, count: nat)

  predicate In(r: Range, b: nat) { r.start <= b < r.start + r.count }

  ghost predicate Covered(rs: seq<Range>, b: nat) {
    exists i :: 0 <= i < |rs| && In(rs[i], b)
  }

  lemma CoveredAppend(rs: seq<Range>, r: Range)
    ensures forall b :: Covered(rs + [r], b) <==> Covered(rs, b) || In(r, b)
  {
    forall b: nat ensures Covered(rs + [r], b) <==> Covered(rs, b) || In(r, b) {
      if Covered(rs, b) { var i :| 0 <= i < |rs| && In(rs[i], b); assert In((rs + [r])[i], b); }
      if In(r, b) { assert In((rs + [r])[|rs|], b); }
    }
  }

  /** The last record made longer. */
  function Extended(rs: seq<Range>, count: nat): seq<Range>
    requires rs != []
  {
    var last := rs[|rs| - 1];
    rs[|rs| - 1 := Range(last.start, last.count + count)]
  }

  lemma CoveredExtend(rs: seq<Range>, count: nat)
    requires rs != []
    ensures forall b: nat :: Covered(Extended(rs, count), b) <==>
      Covered(rs, b) || In(Range(rs[|rs| - 1].start + rs[|rs| - 1].count, count), b)
  {
    var n, last := |rs| - 1, rs[|rs| - 1];
    var grown := Range(last.start, last.count + count);
    assert rs == rs[..n] + [last] && Extended(rs, count) == rs[..n] + [grown];
    CoveredAppend(rs[..n], last);
    CoveredAppend(rs[..n], grown);
  }

  class Tx {
    const total: nat
    const checkpoint: Triple
    /** Blocks that writers have reserved for data, and blocks a retained snapshot uses. */
    const reservations: set<nat>
    const snapshot: set<nat>
    var bitmap: seq<bool>
    var free: nat
    var claimed: seq<Range>
    var deferred: seq<Range>
    var hint: nat

    ghost predicate Valid()
      reads this
    {
      && |bitmap| == total && free == total - Used(bitmap)
      && (forall b: nat :: Covered(deferred, b) ==> b < total && bitmap[b])
      && (forall b: nat :: Covered(claimed, b) ==> b < total)
    }

    constructor (
      total: nat, checkpoint: Triple, reservations: set<nat>, snapshot: set<nat>, bitmap: seq<bool>, hint: nat)
      requires |bitmap| == total
      ensures Valid() && this.total == total && this.checkpoint == checkpoint && this.bitmap == bitmap
      ensures this.reservations == reservations && this.snapshot == snapshot
      ensures claimed == [] && deferred == []
    {
      this.total, this.checkpoint, this.reservations, this.snapshot := total, checkpoint, reservations, snapshot;
      this.bitmap, this.free, this.claimed, this.deferred, this.hint := bitmap, |bitmap| - Used(bitmap), [], [], hint;
    }

    /** No credit is left, or every block is set or reserved. */
    ghost predicate Full()
      reads this
    {
      free == 0 || forall b :: 0 < b < |bitmap| ==> bitmap[b] || b in reservations
    }

    /** Searches downwards from the hint, wrapping once from block 1 to the last block. */
    method FindFree() returns (r: Option<nat>)
      requires Valid()
      ensures r.Some? ==> 0 < r.value < total && !bitmap[r.value] && r.value !in reservations
      ensures r.None? ==> forall b :: 0 < b < total ==> bitmap[b] || b in reservations
    {
      if total <= 1 { return None; }
      var from := if hint < 1 || hint >= total then total - 1 else hint;
      var candidate := from;
      for scanned := 0 to total - 1
        invariant 0 < candidate < total
        invariant scanned < from ==> candidate == from - scanned
        invariant scanned >= from ==>
          candidate == total - 1 - (scanned - from) || (candidate == total - 1 && scanned == from)
        invariant scanned < total - 1 || candidate == from
        invariant scanned < from ==> forall b :: candidate < b <= from ==> bitmap[b] || b in reservations
        invariant scanned >= from ==> forall b :: 0 < b < total && (b <= from || b > candidate) ==>
          bitmap[b] || b in reservations
      {
        if !bitmap[candidate] && candidate !in reservations { return Some(candidate); }
        candidate := if candidate == 1 then total - 1 else candidate - 1;
      }
      r := None;
    }

    /** Allocates one block, unless the volume is full. */
    method Alloc() returns (r: Option<nat>)
      requires Valid()
      modifies this
      ensures Valid() && deferred == old(deferred)
      ensures r.None? ==> bitmap == old(bitmap) && claimed == old(claimed) && free == old(free)
      ensures r.None? <==> old(Full())
      ensures r.None? ==> Full()
      ensures r.Some? ==> 0 < r.value < total && !old(bitmap)[r.value] && r.value !in reservations
      ensures r.Some? ==> bitmap == old(bitmap)[r.value := true] && claimed == old(claimed) + [Range(r.value, 1)]
    {
      if free == 0 { return None; }
      r := FindFree();
      if r.None? { return; }
      UsedUpdate(bitmap, r.value, true);
      CoveredAppend(claimed, Range(r.value, 1));
      bitmap := bitmap[r.value := true];
      claimed := claimed + [Range(r.value, 1)];
      free := free - 1;
      hint := if r.value > 1 then r.value - 1 else total - 1;
    }

    /** Records blocks to be freed, extending the last record when adjacent. */
    method DeferFree(start: nat, count: nat) returns (ok: bool)
      requires Valid() && (start + count <= total ==> forall b :: start <= b < start + count ==> bitmap[b])
      modifies this`deferred
      ensures Valid() && ok == (count == 0 || start + count <= total)
      ensures ok ==> forall x: nat :: Covered(deferred, x) <==> Covered(old(deferred), x) || start <= x < start + count
      ensures !ok ==> deferred == old(deferred)
    {
      if count == 0 || start >= total || count > total - start { return count == 0; }
      ok := true;
      if |deferred| > 0 {
        var last := deferred[|deferred| - 1];
        if last.start + last.count == start {
          CoveredExtend(deferred, count);
          deferred := Extended(deferred, count);
          return;
        }
      }
      CoveredAppend(deferred, Range(start, count));
      deferred := deferred + [Range(start, count)];
    }

    predicate Kept(b: nat) {
      b in checkpoint || b == LOCATOR_A || b == LOCATOR_B || b in snapshot
    }

    /** Clears every recorded block except checkpoints, locators and snapshot blocks. */
    method ApplyDeferred()
      requires Valid()
      modifies this`bitmap, this`free
      ensures |bitmap| == total && free == total - Used(bitmap)
      ensures forall b: nat :: b < total ==> bitmap[b] == (old(bitmap)[b] && (!Covered(deferred, b) || Kept(b)))
    {
      ghost var was := bitmap;
      for r := 0 to |deferred|
        invariant |bitmap| == total && free == total - Used(bitmap)
        invariant forall b: nat :: b < total ==> bitmap[b] == (was[b] && (!Covered(deferred[..r], b) || Kept(b)))
      {
        assert forall b: nat :: In(deferred[r], b) ==> Covered(deferred, b);
        ApplyRange(deferred[r]);
        assert deferred[..r + 1] == deferred[..r] + [deferred[r]];
        CoveredAppend(deferred[..r], deferred[r]);
      }
      assert deferred[..|deferred|] == deferred;
    }

    method ApplyRange(range: Range)
      requires |bitmap| == total && free == total - Used(bitmap)
      requires forall b: nat :: In(range, b) ==> b < total
      modifies this`bitmap, this`free
      ensures |bitmap| == total && free == total - Used(bitmap)
      ensures forall b: nat :: b < total ==> bitmap[b] == (old(bitmap)[b] && (!In(range, b) || Kept(b)))
    {
      for i := 0 to range.count
        invariant |bitmap| == total && free == total - Used(bitmap)
        invariant forall b :: 0 <= b < total ==>
          bitmap[b] == (old(bitmap)[b] && (!(range.start <= b < range.start + i) || Kept(b)))
      {
        var b := range.start + i;
        assert In(range, b);
        if Kept(b) || !bitmap[b] { continue; }
        UsedUpdate(bitmap, b, false);
        bitmap := bitmap[b := false];
        free := free + 1;
      }
    }
  }
}
