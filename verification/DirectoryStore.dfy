/** The block store under a pending transaction: pages the transaction owns are changed in
    place after their old contents are saved for an undo; all others are copied. */
module DirectoryStore {
  import opened Geometry
  import opened Transaction
  import opened DirectoryPages

  /** The store at one moment. */
  datatype Snap = Snap(pages: Pages, undo: Pages, taken: set<nat>, retired: set<nat>)

  /** What a block held when the operation began. */
  function Original(s: Snap, b: nat): Page { if b in s.undo then s.undo[b] else PageAt(s.pages, b) }

  /** What an operation that works on the blocks `reach` may do: only pages owned by the
      transaction change, an undo restores them, and only blocks of `reach` or new ones are
      given up. */
  ghost predicate Steps(a: Snap, b: Snap, own: set<nat>, reach: set<nat>) {
    && a.taken <= b.taken && a.retired <= b.retired <= a.retired + reach + (b.taken - a.taken)
    && (forall x :: x in a.taken ==> Original(b, x) == Original(a, x))
    && (forall x :: x in a.taken && (x !in reach || x !in own) ==> PageAt(b.pages, x) == PageAt(a.pages, x))
  }

  lemma StepsTwice(a: Snap, b: Snap, c: Snap, own: set<nat>, first: set<nat>, second: set<nat>, reach: set<nat>)
    requires Steps(a, b, own, first) && Steps(b, c, own, second) && first <= reach
    requires second <= reach + (b.taken - a.taken)
    ensures Steps(a, c, own, reach)
  {
    forall x | x in a.taken && (x !in reach || x !in own) ensures PageAt(c.pages, x) == PageAt(a.pages, x) {
      assert x in b.taken && x !in b.taken - a.taken;
    }
  }

  /** No block is lost: those in use before, and the new ones, are in use after or given up. */
  ghost predicate Accounts(a: Snap, b: Snap, before: set<nat>, after: set<nat>) {
    after == before + (b.taken - a.taken) - (b.retired - a.retired)
  }

  lemma AccountsTwice(a: Snap, b: Snap, c: Snap, own: set<nat>, first: set<nat>, second: set<nat>, third: set<nat>)
    requires Steps(a, b, own, first) && Steps(b, c, own, second) && first <= a.taken - a.retired
    requires Accounts(a, b, first, second) && Accounts(b, c, second, third)
    requires a.retired <= a.taken
    ensures Accounts(a, c, first, third) && second <= b.taken - b.retired
  {
  }

  class Store {
    const tx: Tx
    /** Blocks that operations already completed in this transaction allocated. */
    const own: set<nat>
    var pages: Pages
    var undo: Pages

    constructor (tx: Tx, own: set<nat>, pages: Pages)
      requires tx.Valid()
      ensures this.tx == tx && this.own == own && this.pages == pages && undo == map[] && Valid()
    {
      this.tx, this.own, this.pages, this.undo := tx, own, pages, map[];
    }

    ghost predicate Valid() reads this, tx { tx.Valid() }

    ghost function Now(): Snap
      reads this, tx
    {
      Snap(pages, undo,
           set b | 0 <= b < |tx.bitmap| && tx.bitmap[b],
           set b | 0 <= b < tx.total && Covered(tx.deferred, b))
    }

    ghost predicate Full() reads this, tx { tx.Full() }

    /** Writes a page to a newly allocated block. */
    method Fresh(page: Page) returns (r: Option<nat>)
      requires Valid()
      modifies this`pages, tx
      ensures Valid()
      ensures r.None? ==> Now() == old(Now()) && Full()
      ensures r.Some? ==> r.value > 0 && r.value !in old(Now()).taken
      ensures r.Some? ==>
        Now() == old(Now()).(pages := old(pages)[r.value := page], taken := old(Now()).taken + {r.value})
    {
      r := tx.Alloc();
      if r.Some? { pages := pages[r.value := page]; }
    }

    /** Gives a block up when the transaction commits. */
    method Retire(b: nat) returns (ok: bool)
      requires Valid() && b in Now().taken
      modifies tx
      ensures Valid() && ok && Now() == old(Now()).(retired := old(Now()).retired + {b})
    {
      ok := tx.DeferFree(b, 1);
    }

    /** Stores a new version of a page: in place if the transaction owns the block, otherwise
        in a new block. */
    method Replace(b: nat, page: Page) returns (r: Option<nat>)
      requires Valid() && b in Now().taken
      modifies this, tx
      ensures Valid()
      ensures r.None? ==> Now() == old(Now()) && Full()
      ensures r.Some? ==> Replaced(old(Now()), Now(), own, b, page, r.value)
    {
      if b in own {
        if b !in undo { undo := undo[b := PageAt(pages, b)]; }
        pages := pages[b := page];
        return Some(b);
      }
      r := Fresh(page);
      if r.None? { return; }
      var ok := Retire(b);
    }
  }

  ghost predicate Replaced(a: Snap, b: Snap, own: set<nat>, block: nat, page: Page, r: nat) {
    && b.pages == a.pages[r := page]
    && if block in own
       then r == block && b.taken == a.taken && b.retired == a.retired
            && b.undo == if block in a.undo then a.undo else a.undo[block := PageAt(a.pages, block)]
       else r > 0 && r !in a.taken && b.taken == a.taken + {r} && b.retired == a.retired + {block} && b.undo == a.undo
  }

  lemma ReplacedSteps(a: Snap, b: Snap, own: set<nat>, block: nat, page: Page, r: nat)
    requires Replaced(a, b, own, block, page, r) && block in a.taken
    ensures Steps(a, b, own, {block})
    ensures block !in a.retired ==> Accounts(a, b, {block}, {r})
  {
  }
}
