/** The ordered write-and-flush protocol that commits a superblock, and the states it passes
    through when it is cut short anywhere. */
module Publication {
  import opened Geometry
  import opened Discovery

  datatype Write = Write(block: nat, content: Content)

  /** A device with a volatile cache. Each write is flushed before the next one is issued,
      so at most one write is in doubt. `history` records every state the device was in. */
  class Device {
    const blocks: nat
    var media: Disk
    var inDoubt: Option<Write>
    ghost var history: seq<(Disk, Option<Write>)>

    constructor (blocks: nat, media: Disk)
      ensures this.blocks == blocks && this.media == media && inDoubt.None?
      ensures history == [(media, None)]
    {
      this.blocks, this.media, this.inDoubt, this.history := blocks, media, None, [(media, None)];
    }

    /** Issues a write. It may fail, before or after reaching the device. */
    method Issue(w: Write) returns (ok: bool)
      requires inDoubt.None?
      modifies this
      ensures media == old(media) && (inDoubt == Some(w) || (!ok && inDoubt.None?))
      ensures history == old(history) + [(media, inDoubt)]
    {
      if w.block >= blocks {
        ok := false;
      } else {
        inDoubt := Some(w);
        ok := *;
      }
      history := history + [(media, inDoubt)];
    }

    /** A cache barrier. When it fails, the outstanding write stays in doubt. */
    method Flush() returns (ok: bool)
      requires inDoubt.Some?
      modifies this
      ensures ok ==> media == old(media)[old(inDoubt).value.block := old(inDoubt).value.content] && inDoubt.None?
      ensures !ok ==> media == old(media) && inDoubt == old(inDoubt)
      ensures history == old(history) + [(media, inDoubt)]
    {
      ok := *;
      if ok {
        media := media[inDoubt.value.block := inDoubt.value.content];
        inDoubt := None;
      }
      history := history + [(media, inDoubt)];
    }
  }

  function Apply(d: Disk, ws: seq<Write>): Disk {
    if ws == [] then d
    else var w := ws[|ws| - 1]; Apply(d, ws[..|ws| - 1])[w.block := w.content]
  }

  /** The device has `k` of the writes `ws` on media, and at most the next one in doubt. */
  ghost predicate InStep(s: (Disk, Option<Write>), d: Disk, ws: seq<Write>, k: nat) {
    && k <= |ws| && s.0 == Apply(d, ws[..k])
    && (s.1.None? || (k < |ws| && s.1 == Some(ws[k])))
  }

  /** A disk that a crash may leave behind: the write in doubt is absent, whole or torn. */
  ghost predicate Survives(img: Disk, s: (Disk, Option<Write>)) {
    || img == s.0
    || (s.1.Some? && (img == s.0[s.1.value.block := s.1.value.content] || img == s.0[s.1.value.block := Torn]))
  }

  function CopyWrite(sb: Superblock, copy: nat): Write
    requires copy < 3
  {
    Write(sb.checkpoint[copy], SuperCopy(sb))
  }

  function LocatorWrite(sb: Superblock, copy: nat): Write {
    Write(if copy == 0 then LOCATOR_A else LOCATOR_B, LocatorCopy(LocatorOf(sb)))
  }

  /** The order in which a commit reaches the media. */
  function PublishWrites(sb: Superblock, first: nat, relocate: bool): (ws: seq<Write>)
    ensures |ws| == if relocate then 5 else 3
  {
    if relocate then
      [LocatorWrite(sb, 0), CopyWrite(sb, 1), CopyWrite(sb, 2), CopyWrite(sb, 0), LocatorWrite(sb, 1)]
    else
      [CopyWrite(sb, first % 3), CopyWrite(sb, (first + 1) % 3), CopyWrite(sb, (first + 2) % 3)]
  }

  /** How many writes are durable when `committed` is raised. */
  function CommitPoint(relocate: bool): nat { if relocate then 2 else 1 }

  /** A state on the way through `ws`: at least `low` of its writes are durable, and fewer
      than `high`. */
  ghost predicate Reached(s: (Disk, Option<Write>), d: Disk, ws: seq<Write>, low: nat, high: nat) {
    exists k :: low <= k < high && InStep(s, d, ws, k)
  }

  ghost predicate OnTheWay(
    history: seq<(Disk, Option<Write>)>, from: nat, end: nat, d: Disk, ws: seq<Write>, low: nat, high: nat)
  {
    end <= |history| && forall i :: from <= i < end ==> Reached(history[i], d, ws, low, high)
  }

  lemma Widen(
    h: seq<(Disk, Option<Write>)>, from: nat, end: nat, d: Disk, ws: seq<Write>,
    low: nat, high: nat, lower: nat, higher: nat)
    requires OnTheWay(h, from, end, d, ws, low, high) && lower <= low && high <= higher
    ensures OnTheWay(h, from, end, d, ws, lower, higher)
  {
    hide InStep;
    forall i | from <= i < end ensures Reached(h[i], d, ws, lower, higher) {
      assert Reached(h[i], d, ws, low, high);
      var k :| low <= k < high && InStep(h[i], d, ws, k);
    }
  }

  /** Later states do not change what is said about earlier ones, and two stretches join. */
  lemma Join(
    before: seq<(Disk, Option<Write>)>, after: seq<(Disk, Option<Write>)>, from: nat, end: nat,
    d: Disk, ws: seq<Write>, low: nat, high: nat)
    requires |before| <= end <= |after| && after[..|before|] == before
    requires OnTheWay(before, from, |before|, d, ws, low, high) && OnTheWay(after, |before|, end, d, ws, low, high)
    ensures OnTheWay(after, from, end, d, ws, low, high)
  {
    forall i | from <= i < end ensures Reached(after[i], d, ws, low, high) {
      if i < |before| { assert after[i] == before[i]; }
    }
  }

  lemma Carry(
    before: seq<(Disk, Option<Write>)>, after: seq<(Disk, Option<Write>)>, from: nat, end: nat,
    d: Disk, ws: seq<Write>, low: nat, high: nat)
    requires end <= |before| <= |after| && after[..|before|] == before
    requires OnTheWay(before, from, end, d, ws, low, high)
    ensures OnTheWay(after, from, end, d, ws, low, high)
  {
    forall i | from <= i < end ensures Reached(after[i], d, ws, low, high) { assert after[i] == before[i]; }
  }

  /** One protocol stage: a write, then the barrier that makes it durable. All states it passes
      through are at step `k`, except the last one when the barrier succeeds. */
  method Stage(dev: Device, w: Write, ghost d: Disk, ghost ws: seq<Write>, ghost k: nat) returns (ok: bool)
    requires k < |ws| && w == ws[k] && dev.inDoubt.None? && dev.media == Apply(d, ws[..k])
    modifies dev
    ensures InStep((dev.media, dev.inDoubt), d, ws, if ok then k + 1 else k)
    ensures ok ==> dev.inDoubt.None?
    ensures |dev.history| > |old(dev.history)| && dev.history[..|old(dev.history)|] == old(dev.history)
    ensures dev.history[|dev.history| - 1] == (dev.media, dev.inDoubt)
    ensures OnTheWay(dev.history, |old(dev.history)|, if ok then |dev.history| - 1 else |dev.history|, d, ws, k, k + 1)
  {
    assert ws[..k + 1][..k] == ws[..k];
    ok := dev.Issue(w);
    assert InStep((dev.media, dev.inDoubt), d, ws, k) && Reached((dev.media, dev.inDoubt), d, ws, k, k + 1);
    if ok {
      ok := dev.Flush();
      assert InStep((dev.media, dev.inDoubt), d, ws, if ok then k + 1 else k);
    }
  }

  /** What the history of a commit looks like. Once `committed` is raised, `mark` is the index
      of the state that the committing barrier produced: every state before it is short of
      the commit point, it is at the commit point, and no later one falls behind. */
  ghost predicate Committing(
    history: seq<(Disk, Option<Write>)>, from: nat, d: Disk, ws: seq<Write>, point: nat, committed: bool, mark: nat)
  {
    if committed then
      && from <= mark < |history| && InStep(history[mark], d, ws, point) && history[mark].1.None?
      && OnTheWay(history, from, mark, d, ws, 0, point)
      && OnTheWay(history, mark, |history|, d, ws, point, |ws| + 1)
    else
      OnTheWay(history, from, |history|, d, ws, 0, point)
  }

  /** A failed stage before the commit point. */
  lemma ShortOf(
    before: seq<(Disk, Option<Write>)>, after: seq<(Disk, Option<Write>)>, from: nat,
    d: Disk, ws: seq<Write>, point: nat, k: nat)
    requires |before| <= |after| && after[..|before|] == before && k < point
    requires Committing(before, from, d, ws, point, false, 0)
    requires OnTheWay(after, |before|, |after|, d, ws, k, k + 1)
    ensures Committing(after, from, d, ws, point, false, 0)
  {
    hide InStep;
    Widen(after, |before|, |after|, d, ws, k, k + 1, 0, point);
    Join(before, after, from, |after|, d, ws, 0, point);
  }

  /** A completed stage before the commit point either reaches it or stays short of it. */
  lemma ReachesPoint(
    before: seq<(Disk, Option<Write>)>, after: seq<(Disk, Option<Write>)>, from: nat,
    d: Disk, ws: seq<Write>, point: nat, k: nat)
    requires from <= |before| < |after| && after[..|before|] == before && k < point <= |ws|
    requires Committing(before, from, d, ws, point, false, 0)
    requires OnTheWay(after, |before|, |after| - 1, d, ws, k, k + 1)
    requires InStep(after[|after| - 1], d, ws, k + 1) && after[|after| - 1].1.None?
    ensures Committing(after, from, d, ws, point, k + 1 == point, if k + 1 == point then |after| - 1 else 0)
  {
    hide InStep;
    Widen(after, |before|, |after| - 1, d, ws, k, k + 1, 0, point);
    Join(before, after, from, |after| - 1, d, ws, 0, point);
    assert Reached(after[|after| - 1], d, ws, 0, k + 2) && Reached(after[|after| - 1], d, ws, k + 1, |ws| + 1);
    assert k + 1 < point ==> Reached(after[|after| - 1], d, ws, 0, point);
  }

  /** Stages after the commit point. */
  lemma PastPoint(
    before: seq<(Disk, Option<Write>)>, after: seq<(Disk, Option<Write>)>, from: nat, mark: nat,
    d: Disk, ws: seq<Write>, point: nat, k: nat, ok: bool)
    requires |before| < |after| && after[..|before|] == before && point <= k < |ws|
    requires Committing(before, from, d, ws, point, true, mark)
    requires OnTheWay(after, |before|, if ok then |after| - 1 else |after|, d, ws, k, k + 1)
    requires ok ==> InStep(after[|after| - 1], d, ws, k + 1)
    ensures Committing(after, from, d, ws, point, true, mark)
  {
    hide InStep;
    Carry(before, after, from, mark, d, ws, 0, point);
    Widen(after, |before|, if ok then |after| - 1 else |after|, d, ws, k, k + 1, point, |ws| + 1);
    assert ok ==> Reached(after[|after| - 1], d, ws, point, |ws| + 1);
    Join(before, after, mark, |after|, d, ws, point, |ws| + 1);
    assert after[mark] == before[mark];
  }

  /** The publisher. `done` counts the durable writes. */
  method Publish(dev: Device, sb: Superblock, start: nat, relocate: bool)
    returns (ok: bool, committed: bool, ghost done: nat, ghost mark: nat)
    requires dev.inDoubt.None?
    modifies dev
    ensures InStep((dev.media, dev.inDoubt), old(dev.media), PublishWrites(sb, start, relocate), done)
    ensures committed <==> done >= CommitPoint(relocate)
    ensures ok ==> done == |PublishWrites(sb, start, relocate)| && dev.inDoubt.None?
    ensures |dev.history| >= |old(dev.history)| && dev.history[..|old(dev.history)|] == old(dev.history)
    ensures Committing(dev.history, |old(dev.history)|, old(dev.media), PublishWrites(sb, start, relocate),
              CommitPoint(relocate), committed, mark)
  {
    hide Committing, OnTheWay;
    ghost var d, ws, h := dev.media, PublishWrites(sb, start, relocate), |dev.history|;
    ghost var point := CommitPoint(relocate);
    committed, done, mark := false, 0, 0;
    var first := start;
    assert ws[..0] == [];
    NotBegun(dev.history, d, ws, point);
    if relocate {
      first := 1;
      if !ShapeValid(LocatorOf(sb)) { return false, committed, done, mark; }
      ghost var before := dev.history;
      ok := Stage(dev, LocatorWrite(sb, 0), d, ws, 0);
      if !ok {
        ShortOf(before, dev.history, h, d, ws, point, 0);
        return ok, committed, done, mark;
      }
      ReachesPoint(before, dev.history, h, d, ws, point, 0);
      done := 1;
    }
    for n := 0 to 3
      invariant done == n + (if relocate then 1 else 0) && dev.inDoubt.None? && dev.media == Apply(d, ws[..done])
      invariant committed == (n > 0) && (!committed ==> mark == 0)
      invariant |dev.history| >= h && dev.history[..h] == old(dev.history)
      invariant Committing(dev.history, h, d, ws, point, committed, mark)
    {
      ghost var before := dev.history;
      ok := Stage(dev, CopyWrite(sb, (first + n) % 3), d, ws, done);
      if committed {
        PastPoint(before, dev.history, h, mark, d, ws, point, done, ok);
      } else if ok {
        ReachesPoint(before, dev.history, h, d, ws, point, done);
      } else {
        ShortOf(before, dev.history, h, d, ws, point, done);
      }
      if !ok { return ok, committed, done, mark; }
      done := done + 1;
      if n == 0 {
        committed := true;
        mark := |dev.history| - 1;
      }
    }
    if relocate {
      ghost var before := dev.history;
      ok := Stage(dev, LocatorWrite(sb, 1), d, ws, 4);
      PastPoint(before, dev.history, h, mark, d, ws, point, 4, ok);
      if ok { done := 5; }
    } else {
      ok := true;
    }
  }

  lemma NotBegun(h: seq<(Disk, Option<Write>)>, d: Disk, ws: seq<Write>, point: nat)
    ensures Committing(h, |h|, d, ws, point, false, 0)
  {
  }
}
