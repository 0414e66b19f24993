/** The arenas in which writers reserve space, and the search for a free run in one of them. */
module Arenas {
  import opened Geometry

  const SHARDS: nat := 64

  /** First block of an arena; arena `SHARDS` would begin at the end of the volume. */
  function ArenaStart(total: nat, i: nat): nat
    requires total > 0
  {
    1 + (total - 1) * i / SHARDS
  }

  /** The arena that the code computes for a block. */
  function ShardFor(total: nat, block: nat): nat {
    if total <= 1 || block <= 1 then 0
    else Min(Min(block - 1, total - 2) * SHARDS / (total - 1), SHARDS - 1)
  }

  lemma Scaled(a: nat, b: nat, m: nat)
    requires a <= b
    ensures m * a <= m * b && m * a / SHARDS <= m * b / SHARDS
  {
  }

  /** The arenas follow one another from block 1 to the end of the volume. */
  lemma ArenasCover(total: nat)
    requires total > 0
    ensures ArenaStart(total, 0) == 1 && ArenaStart(total, SHARDS) == total
    ensures forall i: nat, j: nat :: i <= j <= SHARDS ==> ArenaStart(total, i) <= ArenaStart(total, j)
  {
    forall i: nat, j: nat | i <= j <= SHARDS
      ensures ArenaStart(total, i) <= ArenaStart(total, j)
    {
      Scaled(i, j, total - 1);
    }
  }

  predicate InArena(total: nat, i: nat, block: nat)
    requires total > 0
  {
    ArenaStart(total, i) <= block < ArenaStart(total, i + 1)
  }

  lemma InTurn(total: nat, i: nat, j: nat)
    requires total > 0
    ensures i <= j ==> ArenaStart(total, i) <= ArenaStart(total, j)
  {
    if i <= j { Scaled(i, j, total - 1); }
  }

  lemma SameArena(total: nat, i: nat, j: nat, block: nat)
    requires total > 0 && InArena(total, i, block) && InArena(total, j, block)
    ensures i == j
  {
    InTurn(total, i + 1, j);
    InTurn(total, j + 1, i);
  }

  /** Every allocatable block lies in exactly one arena. */
  lemma {:induction false} OneArena(total: nat, block: nat, n: nat) returns (i: nat)
    requires total > 0 && 0 < n <= SHARDS && 1 <= block < ArenaStart(total, n)
    ensures i < n && InArena(total, i, block) && forall j: nat :: j < SHARDS && InArena(total, j, block) ==> j == i
  {
    ArenasCover(total);
    if block >= ArenaStart(total, n - 1) {
      i := n - 1;
      forall j: nat | j < SHARDS && InArena(total, j, block) ensures j == i {
        SameArena(total, i, j, block);
      }
    } else {
      i := OneArena(total, block, n - 1);
    }
  }

  lemma Grows(a: nat, b: nat, m: nat)
    ensures a <= b ==> a * m <= b * m
  {
  }

  lemma Below(q: nat, r: nat, m: nat)
    requires q * m < r * m
    ensures q < r
  {
    Grows(r, q, m);
  }

  lemma Quotient(n: nat, m: nat)
    requires m > 0
    ensures n / m * m <= n < (n / m + 1) * m
  {
  }

  /** Away from the ends the computed arena is a plain quotient. */
  lemma ShardRaw(total: nat, block: nat)
    requires total > 1 && 1 <= block < total
    ensures ShardFor(total, block) == (block - 1) * SHARDS / (total - 1)
  {
    var q := (block - 1) * SHARDS / (total - 1);
    Quotient((block - 1) * SHARDS, total - 1);
    Below(q, SHARDS, total - 1);
  }

  lemma OverInOrder(a: nat, b: nat, m: nat)
    requires m > 0 && a <= b
    ensures a * SHARDS / m <= b * SHARDS / m
  {
    Quotient(a * SHARDS, m);
    Quotient(b * SHARDS, m);
    Below(a * SHARDS / m, b * SHARDS / m + 1, m);
  }

  /** The arenas computed for a run come in order, so a claim locks them in one direction. */
  lemma ShardsInOrder(total: nat, a: nat, b: nat)
    requires a <= b
    ensures ShardFor(total, a) <= ShardFor(total, b) < SHARDS
  {
    if total > 1 && a > 1 { OverInOrder(Min(a - 1, total - 2), Min(b - 1, total - 2), total - 1); }
  }

  lemma Edges(m: nat, i: nat, offset: nat)
    requires m * i / SHARDS <= offset < m * (i + 1) / SHARDS
    ensures offset * SHARDS < m * (i + 1)
  {
  }

  /** The arena computed for a block is the one that holds it, or the one before it; it is
      the right one exactly when the block is past the exact boundary. */
  lemma ShardIsNear(total: nat, block: nat, i: nat)
    requires total >= SHARDS + 1 && i < SHARDS && InArena(total, i, block)
    ensures ShardFor(total, block) == i || ShardFor(total, block) + 1 == i
    ensures ShardFor(total, block) == i <==> SHARDS * (block - 1) >= (total - 1) * i
  {
    hide ShardFor;
    ArenasCover(total);
    assert block < ArenaStart(total, SHARDS);
    var m, offset := total - 1, block - 1;
    ShardRaw(total, block);
    var q := offset * SHARDS / m;
    Quotient(offset * SHARDS, m);
    Edges(m, i, offset);
    Below(q, i + 1, m);
    Before(m, i, offset, q);
  }

  /** It does name the wrong arena: block 64 of a volume of 66 blocks is the first of arena 63. */
  lemma WrongArena()
    ensures InArena(66, 63, 64) && ShardFor(66, 64) == 62
  {
    assert 65 * 63 / SHARDS == 63 && 63 * SHARDS / 65 == 62;
  }

  lemma Before(m: nat, i: nat, offset: nat, q: nat)
    requires m >= SHARDS && m * i / SHARDS <= offset && q * m <= offset * SHARDS < (q + 1) * m && q <= i
    ensures q == i || q + 1 == i
    ensures q == i <==> SHARDS * offset >= m * i
  {
    assert offset * SHARDS > m * i - SHARDS;
    if SHARDS * offset >= m * i {
      Below(i, q + 1, m);
    } else {
      assert (i - 1) * m == m * i - m;
      assert (i - 1) * m < (q + 1) * m;
      Below(i - 1, q + 1, m);
      Below(q, i, m);
    }
  }

  predicate Free(busy: seq<bool>, from: nat, to: nat) {
    from <= to <= |busy| && forall b :: from <= b < to ==> !busy[b]
  }

  predicate Run(busy: seq<bool>, start: nat, count: nat) { Free(busy, start, start + count) }

  /** The first unavailable block of a run, or its end. */
  method FirstBusy(busy: seq<bool>, start: nat, count: nat) returns (block: nat)
    requires start + count <= |busy|
    ensures start <= block <= start + count && Free(busy, start, block)
    ensures block < start + count ==> busy[block]
  {
    block := start;
    while block < start + count
      invariant start <= block <= start + count && Free(busy, start, block)
    {
      if busy[block] { return; }
      block := block + 1;
    }
  }

  /** One sweep: the first free run in a window. A busy block rules out every start up to it,
      so the search jumps past it and still finds what testing every start would find. */
  method Sweep(busy: seq<bool>, from: nat, to: nat, count: nat) returns (r: Option<nat>)
    requires to <= |busy|
    ensures r.Some? ==> from <= r.value && r.value + count <= to && Run(busy, r.value, count)
    ensures r.Some? ==> forall c: nat :: from <= c < r.value ==> !Run(busy, c, count)
    ensures r.None? ==> forall c: nat :: from <= c && c + count <= to ==> !Run(busy, c, count)
  {
    if to < from || count > to - from { return None; }
    var candidate := from;
    while candidate <= to - count
      invariant from <= candidate
      invariant forall c: nat :: from <= c < candidate && c + count <= to ==> !Run(busy, c, count)
    {
      var blocked := FirstBusy(busy, candidate, count);
      if blocked == candidate + count { return Some(candidate); }
      forall c: nat | candidate <= c <= blocked && c + count <= to
        ensures !Run(busy, c, count)
      {
        assert busy[blocked];
      }
      candidate := blocked + 1;
    }
    r := None;
  }

  ghost predicate HasRun(busy: seq<bool>, from: nat, to: nat, count: nat) {
    exists c: nat :: from <= c && c + count <= to && Run(busy, c, count)
  }

  /** Both sweeps of an arena: from the hint to its end, then from its start to the hint. */
  method Search(busy: seq<bool>, start: nat, end: nat, hint: nat, count: nat) returns (r: Option<nat>)
    requires start <= hint <= end <= |busy|
    ensures r.Some? ==> start <= r.value && r.value + count <= end && Run(busy, r.value, count)
    ensures r.Some? <==> HasRun(busy, hint, end, count) || HasRun(busy, start, hint, count)
  {
    r := Sweep(busy, hint, end, count);
    if r.Some? { return; }
    r := Sweep(busy, start, hint, count);
  }

  /** The search misses a free run of the arena exactly when every such run spans the hint. */
  lemma MissesOnlyAcross(busy: seq<bool>, start: nat, end: nat, hint: nat, count: nat)
    requires start <= hint <= end <= |busy|
    ensures !HasRun(busy, hint, end, count) && !HasRun(busy, start, hint, count) <==>
      forall c: nat :: start <= c && c + count <= end && Run(busy, c, count) ==> c < hint < c + count
  {
    if c: nat :| start <= c && c + count <= end && Run(busy, c, count) && !(c < hint < c + count) {
      assert hint <= c ==> HasRun(busy, hint, end, count);
      assert c + count <= hint ==> HasRun(busy, start, hint, count);
    }
  }

  /** And it can miss one, on an arena of two free blocks with the hint at the second. */
  lemma CanMiss()
    ensures exists busy: seq<bool>, hint ::
      HasRun(busy, 1, |busy|, 2) && 1 <= hint <= |busy| && !HasRun(busy, hint, |busy|, 2) && !HasRun(busy, 1, hint, 2)
  {
    var busy := [true, false, false];
    assert Run(busy, 1, 2);
    assert HasRun(busy, 1, |busy|, 2) && !HasRun(busy, 2, |busy|, 2) && !HasRun(busy, 1, 2, 2);
  }
}
