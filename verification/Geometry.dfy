/** Sizes and fixed positions of the on-disk format (version 0.19), and the page
    counts of the three-level allocation tree for a volume of a given size. */
module Geometry {

  datatype Option<+T> = None | Some(value: T)

  /** Fixed recovery-locator blocks and the smallest volume that holds both. */
  const LOCATOR_A: nat := 1
  const LOCATOR_B: nat := 2047
  const MIN_VOLUME: nat := 4096

  /** Bits of one allocation leaf, and pointers of one allocation branch page. */
  const LEAF_BITS: nat := 32192
  const FANOUT: nat := 503
  const MAX_BLOCKS: nat := 503 * 503 * 503 * 32192

  function DivUp(n: nat, d: nat): (r: nat)
    requires d > 0
    ensures n <= r * d < n + d
  {
    (n + d - 1) / d
  }

  function Min(a: nat, b: nat): nat { if a <= b then a else b }

  predicate Fits(total: nat) { 0 < total <= MAX_BLOCKS }

  function Leaves(total: nat): nat { DivUp(total, LEAF_BITS) }
  function Level1(total: nat): nat { DivUp(Leaves(total), FANOUT) }
  function Level2(total: nat): nat { DivUp(Level1(total), FANOUT) }
  function Branches(total: nat): nat { 1 + Level1(total) + Level2(total) }

  /** Every size the format admits has a tree that the root page can hold. */
  lemma CountsFitOneRoot(total: nat)
    requires Fits(total)
    ensures 1 <= Level2(total) <= FANOUT
    ensures 1 <= Level1(total) <= FANOUT * FANOUT
    ensures 1 <= Leaves(total) <= FANOUT * FANOUT * FANOUT
  {
  }
}
