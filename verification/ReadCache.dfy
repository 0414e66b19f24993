/** Mapping a block of a file to the disk: the plain scan over all extents, and the search
    over pages of extents that keeps the last page it read. */
module ReadCache {

  const PER_PAGE: nat := 167
  const U64_MAX: nat := 0xFFFF_FFFF_FFFF_FFFF

  datatype Kind = Hole | Plain | Packed

  /** An extent; `sound` is the outcome of the checks on its flags. */
  datatype Extent = Extent(start: nat, physical: nat, blocks: nat, kind: Kind, sound: bool)

  datatype Answer = Mapped(physical: nat, extent: Extent) | Corrupt

  function End(e: Extent): nat { e.start + e.blocks }
  predicate Covers(e: Extent, b: nat) { e.start <= b < End(e) }

  function AnswerOf(e: Extent, b: nat): Answer
    requires Covers(e, b)
  {
    if !e.sound then Corrupt
    else match e.kind
      case Hole => Mapped(0, e)
      case Packed => Mapped(e.physical, e)
      case Plain => Mapped(e.physical + (b - e.start), e)
  }

  /** The first extent that covers the block decides. */
  ghost function Scanned(es: seq<Extent>, b: nat): Answer {
    if es == [] then Corrupt else if Covers(es[0], b) then AnswerOf(es[0], b) else Scanned(es[1..], b)
  }

  method Scan(es: seq<Extent>, b: nat) returns (r: Answer)
    ensures r == Scanned(es, b)
  {
    for i := 0 to |es|
      invariant Scanned(es, b) == Scanned(es[i..], b)
    {
      if es[i].blocks != 0 && es[i].start <= b < es[i].start + es[i].blocks { return AnswerOf(es[i], b); }
      assert es[i..][1..] == es[i + 1..];
    }
    r := Corrupt;
  }

  ghost predicate Ordered(es: seq<Extent>) {
    && (forall i :: 0 <= i < |es| ==> es[i].blocks > 0 && End(es[i]) <= U64_MAX)
    && (forall i, j :: 0 <= i < j < |es| ==> End(es[i]) <= es[j].start)
  }

  lemma {:induction false} ScanFinds(es: seq<Extent>, k: nat, b: nat)
    requires Ordered(es) && k < |es| && Covers(es[k], b)
    ensures Scanned(es, b) == AnswerOf(es[k], b)
  {
    if k > 0 { ScanFinds(es[1..], k - 1, b); }
  }

  lemma {:induction false} ScanMisses(es: seq<Extent>, b: nat)
    requires forall k :: 0 <= k < |es| ==> !Covers(es[k], b)
    ensures Scanned(es, b) == Corrupt
  {
    if es != [] { ScanMisses(es[1..], b); }
  }

  ghost function Flat(pages: seq<seq<Extent>>): seq<Extent> {
    if pages == [] then [] else Flat(pages[..|pages| - 1]) + pages[|pages| - 1]
  }

  /** Where the extents of page `p` stand in the whole list. */
  lemma {:induction false} FlatAt(pages: seq<seq<Extent>>, p: nat) returns (at: nat)
    requires p < |pages|
    ensures at + |pages[p]| <= |Flat(pages)| && Flat(pages)[at..at + |pages[p]|] == pages[p]
    ensures at == |Flat(pages[..p])|
  {
    var init := pages[..|pages| - 1];
    if p == |pages| - 1 {
      at := |Flat(init)|;
    } else {
      at := FlatAt(init, p);
      assert init[..p] == pages[..p] && init[p] == pages[p];
      assert Flat(pages)[..|Flat(init)|] == Flat(init);
      assert Flat(pages)[at..at + |pages[p]|] == Flat(init)[at..at + |pages[p]|];
    }
  }

  lemma {:induction false} FlatSource(pages: seq<seq<Extent>>, k: nat) returns (p: nat, i: nat)
    requires k < |Flat(pages)|
    ensures p < |pages| && i < |pages[p]| && Flat(pages)[k] == pages[p][i]
  {
    var init := pages[..|pages| - 1];
    if k < |Flat(init)| {
      p, i := FlatSource(init, k);
    } else {
      p, i := |pages| - 1, k - |Flat(init)|;
    }
  }

  lemma {:induction false} FlatGrows(pages: seq<seq<Extent>>, p: nat, q: nat)
    requires p < q <= |pages|
    ensures |Flat(pages[..p])| + |pages[p]| <= |Flat(pages[..q])|
  {
    assert pages[..p + 1][..p] == pages[..p];
    if q > p + 1 {
      FlatGrows(pages, p, q - 1);
      assert pages[..q][..q - 1] == pages[..q - 1];
    }
  }

  /** Order within a page, and between pages. */
  lemma PageOrder(pages: seq<seq<Extent>>, p: nat)
    requires Ordered(Flat(pages)) && p < |pages|
    ensures Ordered(pages[p])
  {
    hide Flat;
    var at := FlatAt(pages, p);
    OrderedSlice(Flat(pages), at, at + |pages[p]|);
  }

  lemma OrderedSlice(es: seq<Extent>, a: nat, b: nat)
    requires Ordered(es) && a <= b <= |es|
    ensures Ordered(es[a..b])
  {
  }

  lemma PagesApart(pages: seq<seq<Extent>>, p: nat, i: nat, q: nat, j: nat)
    requires Ordered(Flat(pages)) && p < q < |pages| && i < |pages[p]| && j < |pages[q]|
    ensures End(pages[p][i]) <= pages[q][j].start
  {
    var a := FlatAt(pages, p);
    var b := FlatAt(pages, q);
    FlatGrows(pages, p, q);
    var all := Flat(pages);
    assert all[a..a + |pages[p]|][i] == all[a + i] && all[b..b + |pages[q]|][j] == all[b + j];
    assert End(all[a + i]) <= all[b + j].start;
  }

  function First(page: seq<Extent>): nat { if page == [] then 0 else page[0].start }
  function Last(page: seq<Extent>): nat { if page == [] then 0 else End(page[|page| - 1]) }

  /** The pages of a file as it should be. */
  ghost predicate Good(pages: seq<seq<Extent>>) {
    Ordered(Flat(pages)) && forall p :: 0 <= p < |pages| ==> 0 < |pages[p]| <= PER_PAGE
  }

  /** The page that spans the block decides; without one nothing does. */
  lemma PageDecides(pages: seq<seq<Extent>>, p: nat, b: nat)
    requires Good(pages) && p < |pages| && First(pages[p]) <= b < Last(pages[p])
    ensures Scanned(Flat(pages), b) == Scanned(pages[p], b)
  {
    PageOrder(pages, p);
    var page, all := pages[p], Flat(pages);
    if i: nat :| i < |page| && Covers(page[i], b) {
      var at := FlatAt(pages, p);
      assert all[at..at + |page|][i] == all[at + i];
      ScanFinds(all, at + i, b);
      ScanFinds(page, i, b);
    } else {
      forall k: nat | k < |all| ensures !Covers(all[k], b) {
        var q, j := FlatSource(pages, k);
        if q < p { PagesApart(pages, q, j, p, 0); }
        if p < q { PagesApart(pages, p, |page| - 1, q, j); }
      }
      ScanMisses(all, b);
      ScanMisses(page, b);
    }
  }

  lemma NoPage(pages: seq<seq<Extent>>, b: nat)
    requires Good(pages) && forall p :: 0 <= p < |pages| ==> b < First(pages[p]) || Last(pages[p]) <= b
    ensures Scanned(Flat(pages), b) == Corrupt
  {
    var all := Flat(pages);
    forall k: nat | k < |all| ensures !Covers(all[k], b) {
      var p, i := FlatSource(pages, k);
      PageOrder(pages, p);
      PageSpan(pages[p], i);
    }
    ScanMisses(all, b);
  }

  lemma PageSpan(page: seq<Extent>, i: nat)
    requires Ordered(page) && i < |page|
    ensures First(page) <= page[i].start && End(page[i]) <= Last(page)
  {
    if 0 < i { assert End(page[0]) <= page[i].start; }
    if i < |page| - 1 { assert End(page[i]) <= page[|page| - 1].start; }
  }

  /** Binary search inside one page. */
  method SearchPage(page: seq<Extent>, b: nat) returns (r: Answer)
    ensures Ordered(page) ==> r == Scanned(page, b)
  {
    var lo, hi := 0, |page|;
    while lo < hi
      invariant 0 <= lo <= hi <= |page|
      invariant Ordered(page) ==> forall i :: 0 <= i < lo ==> End(page[i]) <= b
      invariant Ordered(page) ==> forall i :: hi <= i < |page| ==> b < page[i].start
    {
      var mid := lo + (hi - lo) / 2;
      var e := page[mid];
      if e.blocks == 0 || e.start > U64_MAX - e.blocks { return Corrupt; }
      if b < e.start {
        if Ordered(page) {
          forall i | mid <= i < |page| ensures b < page[i].start { assert i > mid ==> End(page[mid]) <= page[i].start; }
        }
        hi := mid;
      } else if b >= e.start + e.blocks {
        if Ordered(page) {
          forall i | 0 <= i <= mid ensures End(page[i]) <= b { assert i < mid ==> End(page[i]) <= page[mid].start; }
        }
        lo := mid + 1;
      } else {
        if Ordered(page) { ScanFinds(page, mid, b); }
        return AnswerOf(e, b);
      }
    }
    if Ordered(page) { ScanMisses(page, b); }
    r := Corrupt;
  }

  /** The cursor and the buffer that one reader keeps between blocks. */
  class Reader {
    const pages: seq<seq<Extent>>
    var valid: bool
    var index: nat
    var first: nat
    var last: nat
    var buffer: seq<Extent>

    ghost predicate Valid()
      reads this
    {
      valid ==> index < |pages| && buffer == pages[index] && first == First(buffer) && last == Last(buffer)
    }

    constructor (pages: seq<seq<Extent>>)
      ensures Valid() && !valid && this.pages == pages
    {
      this.pages, valid, index, first, last, buffer := pages, false, 0, 0, 0, [];
    }

    /** Finds the page for a block, by binary search over the pages. */
    method Seek(b: nat) returns (ok: bool)
      requires Valid()
      modifies this
      ensures Valid() && ok == valid
      ensures Good(pages) && valid ==> First(pages[index]) <= b < Last(pages[index])
      ensures Good(pages) && !valid ==> forall p :: 0 <= p < |pages| ==> b < First(pages[p]) || Last(pages[p]) <= b
    {
      var lo, hi := 0, |pages|;
      valid := false;
      while lo < hi
        invariant 0 <= lo <= hi <= |pages| && !valid
        invariant Good(pages) ==> forall p :: 0 <= p < lo ==> Last(pages[p]) <= b
        invariant Good(pages) ==> forall p :: hi <= p < |pages| ==> b < First(pages[p])
      {
        var mid := lo + (hi - lo) / 2;
        buffer := pages[mid];
        if |buffer| == 0 || |buffer| > PER_PAGE { return false; }
        var from, to := First(buffer), Last(buffer);
        if Good(pages) { GoodSpan(pages, mid); }
        if to <= from { return false; }
        if b < from {
          if Good(pages) { forall p | mid <= p < |pages| ensures b < First(pages[p]) { Rising(pages, mid, p); } }
          hi := mid;
        } else if b >= to {
          if Good(pages) { forall p | 0 <= p <= mid ensures Last(pages[p]) <= b { Rising(pages, p, mid); } }
          lo := mid + 1;
        } else {
          index, first, last, valid := mid, from, to, true;
          return true;
        }
      }
      ok := false;
    }

    /** Maps a block, reusing the page in the buffer when it spans the block. Whatever calls
        came before, the answer is that of the plain scan. */
    method Map(b: nat) returns (r: Answer)
      requires Valid()
      modifies this
      ensures Valid()
      ensures Good(pages) ==> r == Scanned(Flat(pages), b)
    {
      if !valid || b < first || b >= last {
        var ok := Seek(b);
        if !ok {
          if Good(pages) { NoPage(pages, b); }
          return Corrupt;
        }
      }
      if Good(pages) {
        PageDecides(pages, index, b);
        PageOrder(pages, index);
      }
      r := SearchPage(buffer, b);
    }
  }

  lemma GoodSpan(pages: seq<seq<Extent>>, p: nat)
    requires Good(pages) && p < |pages|
    ensures First(pages[p]) < Last(pages[p])
  {
    PageOrder(pages, p);
    PageSpan(pages[p], 0);
  }

  lemma Rising(pages: seq<seq<Extent>>, p: nat, q: nat)
    requires Good(pages) && p <= q < |pages|
    ensures First(pages[p]) <= First(pages[q]) && Last(pages[p]) <= Last(pages[q])
    ensures p < q ==> Last(pages[p]) <= First(pages[q])
  {
    if p < q {
      PagesApart(pages, p, |pages[p]| - 1, q, 0);
      GoodSpan(pages, p);
      GoodSpan(pages, q);
    }
  }
}
