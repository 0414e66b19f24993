/** What a mount finds after a crash anywhere inside a commit, ordinary or relocating. */
module CrashSafety {
  import opened Geometry
  import opened Discovery
  import opened Selection
  import opened Publication

  /** A superblock that recovery accepts on this device. */
  predicate Mountable(sb: Superblock, device: nat) {
    BasicValid(sb, device) && sb.total >= MIN_VOLUME && AvoidsLocators(sb.checkpoint)
  }

  predicate HoldsCopies(d: Disk, sb: Superblock) {
    && Read(d, sb.checkpoint[0]) == SuperCopy(sb) && Read(d, sb.checkpoint[1]) == SuperCopy(sb)
    && Read(d, sb.checkpoint[2]) == SuperCopy(sb)
  }

  /** A locator block that describes where `sb` lives and is not newer than it. */
  predicate Locates(c: Content, device: nat, sb: Superblock) {
    && Decodes(c, device) && c.loc.total == sb.total && c.loc.generation <= sb.generation
    && c.loc.uuid == sb.uuid && c.loc.checkpoint == sb.checkpoint
  }

  /** All three copies and both locators agree on `sb`. */
  predicate Healed(d: Disk, device: nat, sb: Superblock) {
    && Mountable(sb, device) && HoldsCopies(d, sb)
    && Locates(Read(d, LOCATOR_A), device, sb) && Locates(Read(d, LOCATOR_B), device, sb)
  }

  /** As `Healed`, but each locator may instead be damaged beyond decoding. */
  predicate Recoverable(d: Disk, device: nat, sb: Superblock) {
    && Mountable(sb, device) && HoldsCopies(d, sb)
    && (forall b :: b in {LOCATOR_A, LOCATOR_B} && Decodes(Read(d, b), device) ==> Locates(Read(d, b), device, sb))
  }

  /** The next superblock: newer, of the same volume. */
  predicate Succeeds(next: Superblock, prev: Superblock, device: nat) {
    Mountable(next, device) && next.generation > prev.generation && next.uuid == prev.uuid
  }

  predicate SamePlace(a: Superblock, b: Superblock) { a.total == b.total && a.checkpoint == b.checkpoint }

  /** A relocation's new remote copies go to blocks the old geometry does not use. */
  predicate NewPlace(next: Superblock, prev: Superblock) {
    {next.checkpoint[1], next.checkpoint[2]} !! {prev.checkpoint[1], prev.checkpoint[2]}
  }

  /** No superblock anywhere on the disk is newer than `sb`, and one of its generation is
      `sb` itself in one of its own copy blocks. */
  ghost predicate Newest(d: Disk, sb: Superblock) {
    forall b :: Read(d, b).SuperCopy? ==> OlderOrOwn(Read(d, b).sb, b, sb)
  }

  predicate OlderOrOwn(found: Superblock, b: nat, sb: Superblock) {
    found.generation < sb.generation || (found == sb && b in sb.checkpoint)
  }

  /** Then whatever lies where a relocation puts its new copies is older. */
  predicate FreshPlace(d: Disk, next: Superblock, prev: Superblock) {
    && NewPlace(next, prev)
    && (forall j :: 1 <= j < 3 && Read(d, next.checkpoint[j]).SuperCopy? ==>
          Read(d, next.checkpoint[j]).sb.generation < prev.generation)
  }

  lemma NewestIsFresh(d: Disk, next: Superblock, prev: Superblock, device: nat)
    requires Newest(d, prev) && Mountable(prev, device) && Mountable(next, device) && NewPlace(next, prev)
    ensures FreshPlace(d, next, prev)
  {
    forall j | 1 <= j < 3 && Read(d, next.checkpoint[j]).SuperCopy?
      ensures Read(d, next.checkpoint[j]).sb.generation < prev.generation
    {
      assert OlderOrOwn(Read(d, next.checkpoint[j]).sb, next.checkpoint[j], prev);
      assert next.checkpoint[j] !in prev.checkpoint;
    }
  }

  ghost predicate KnowsSound(validate: Validator, sb: Superblock) {
    validate(sb, true) == validate(sb, false) == Sound
  }

  /** Nothing can be found on `d` but the two superblocks and older ones. */
  ghost predicate OnlyThese(d: Disk, device: nat, prev: Superblock, next: Superblock) {
    && MapsAgreeOnVolume(d, device)
    && (forall t :: Discoverable(d, device, t) ==> t == prev || t == next || t.generation < prev.generation)
  }

  lemma MountsNewest(
    img: Disk, device: nat, readOnly: bool, validate: Validator, prev: Superblock, next: Superblock, m: Mount)
    requires device >= MIN_VOLUME && (readOnly || ReadsClean(img))
    requires KnowsSound(validate, prev) && KnowsSound(validate, next) && next.generation > prev.generation
    requires OnlyThese(img, device, prev, next)
    requires Discoverable(img, device, prev) || Discoverable(img, device, next)
    requires MountedBy(img, device, readOnly, validate, m)
    ensures m.Mounted? && m.sb == if Discoverable(img, device, next) then next else prev
  {
    NewestSoundIsMounted(img, device, readOnly, validate, if Discoverable(img, device, next) then next else prev, m);
  }

  /** A commit in place: every map has the one geometry, so only the copies matter. */
  lemma InPlaceImage(img: Disk, device: nat, prev: Superblock, next: Superblock, j: nat)
    requires Mountable(prev, device) && Succeeds(next, prev, device) && SamePlace(prev, next) && j < 3
    requires Locates(Read(img, LOCATOR_A), device, prev) && Locates(Read(img, LOCATOR_B), device, prev)
    requires forall k :: 0 <= k < 3 ==> Read(img, prev.checkpoint[k]) in {SuperCopy(prev), SuperCopy(next), Torn}
    requires Read(img, prev.checkpoint[j]).SuperCopy?
    ensures OnlyThese(img, device, prev, next)
    ensures Discoverable(img, device, Read(img, prev.checkpoint[j]).sb)
  {
    assert ReachedBy(img, device, 0, j, Read(img, prev.checkpoint[j]).sb);
  }

  predicate DistinctBlocks(ws: seq<Write>) {
    forall i, j :: 0 <= i < j < |ws| ==> ws[i].block != ws[j].block
  }

  lemma {:induction false} ApplyAt(d: Disk, ws: seq<Write>)
    requires DistinctBlocks(ws)
    ensures forall i :: 0 <= i < |ws| ==> Read(Apply(d, ws), ws[i].block) == ws[i].content
    ensures forall b :: (forall i :: 0 <= i < |ws| ==> ws[i].block != b) ==> Read(Apply(d, ws), b) == Read(d, b)
  {
    if ws != [] {
      var init := ws[..|ws| - 1];
      ApplyAt(d, init);
      forall i | 0 <= i < |ws| ensures Read(Apply(d, ws), ws[i].block) == ws[i].content {
        if i < |ws| - 1 { assert init[i] == ws[i]; }
      }
      forall b | forall i :: 0 <= i < |ws| ==> ws[i].block != b ensures Read(Apply(d, ws), b) == Read(d, b) {
        assert ws[|ws| - 1].block != b;
        assert forall i :: 0 <= i < |init| ==> init[i] == ws[i];
      }
    }
  }

  /** Block by block, what a crash after `k` durable writes leaves. */
  lemma ImageAt(d: Disk, ws: seq<Write>, s: (Disk, Option<Write>), k: nat, img: Disk)
    requires DistinctBlocks(ws) && InStep(s, d, ws, k) && Survives(img, s)
    ensures forall i :: 0 <= i < k ==> Read(img, ws[i].block) == ws[i].content
    ensures forall i :: k < i < |ws| ==> Read(img, ws[i].block) == Read(d, ws[i].block)
    ensures k < |ws| ==> Read(img, ws[k].block) in {Read(d, ws[k].block), ws[k].content, Torn}
    ensures forall b :: (forall i :: 0 <= i < |ws| ==> ws[i].block != b) ==> Read(img, b) == Read(d, b)
  {
    ApplyAt(d, ws[..k]);
    assert forall i :: 0 <= i < k ==> ws[..k][i] == ws[i];
    assert forall b: nat :: !(k < |ws| && b == ws[k].block) ==> Read(img, b) == Read(s.0, b);
  }

  lemma CleanImage(d: Disk, ws: seq<Write>, s: (Disk, Option<Write>), k: nat, img: Disk)
    requires DistinctBlocks(ws) && InStep(s, d, ws, k) && Survives(img, s) && ReadsClean(d)
    requires forall i :: 0 <= i < |ws| ==> !ws[i].content.Unreadable?
    ensures ReadsClean(img)
  {
    ImageAt(d, ws, s, k, img);
    forall b ensures !Read(img, b).Unreadable? {
      if i :| 0 <= i < |ws| && ws[i].block == b {
        assert Read(img, ws[i].block) in {Read(d, ws[i].block), ws[i].content, Torn};
      }
    }
  }

  /** A crash at any point of an ordinary commit mounts the old or the new superblock, and
      the new one as soon as one copy is durable. */
  lemma OrdinaryCommitSurvives(
    d: Disk, device: nat, readOnly: bool, validate: Validator, prev: Superblock, next: Superblock, first: nat,
    s: (Disk, Option<Write>), k: nat, img: Disk, m: Mount)
    requires device >= MIN_VOLUME && (readOnly || ReadsClean(d))
    requires KnowsSound(validate, prev) && KnowsSound(validate, next)
    requires Healed(d, device, prev) && Succeeds(next, prev, device) && SamePlace(prev, next)
    requires InStep(s, d, PublishWrites(next, first, false), k) && Survives(img, s)
    requires MountedBy(img, device, readOnly, validate, m)
    ensures m.Mounted? && m.sb in {prev, next}
    ensures k >= CommitPoint(false) ==> m.sb == next
  {
    InPlaceContents(d, prev, next, first, s, k, img);
    var intact := if k >= 1 then first % 3 else (first + 1) % 3;
    InPlaceImage(img, device, prev, next, intact);
    MountsNewest(img, device, readOnly, validate, prev, next, m);
  }

  lemma InPlaceContents(
    d: Disk, prev: Superblock, next: Superblock, first: nat, s: (Disk, Option<Write>), k: nat, img: Disk)
    requires HoldsCopies(d, prev) && PlacesCopies(prev.checkpoint, prev.total) && SamePlace(prev, next)
    requires AvoidsLocators(prev.checkpoint)
    requires InStep(s, d, PublishWrites(next, first, false), k) && Survives(img, s)
    ensures ReadsClean(d) ==> ReadsClean(img)
    ensures forall j :: 0 <= j < 3 ==> Read(img, prev.checkpoint[j]) in {SuperCopy(prev), SuperCopy(next), Torn}
    ensures k >= 1 ==> Read(img, prev.checkpoint[first % 3]) == SuperCopy(next)
    ensures k == 0 ==> Read(img, prev.checkpoint[(first + 1) % 3]) == SuperCopy(prev)
    ensures Read(img, LOCATOR_A) == Read(d, LOCATOR_A) && Read(img, LOCATOR_B) == Read(d, LOCATOR_B)
  {
    hide Apply, ReadsClean, InStep, Survives;
    var ws := PublishWrites(next, first, false);
    assert DistinctBlocks(ws);
    ImageAt(d, ws, s, k, img);
    if ReadsClean(d) { CleanImage(d, ws, s, k, img); }
    forall j | 0 <= j < 3 ensures Read(img, prev.checkpoint[j]) in {SuperCopy(prev), SuperCopy(next), Torn} {
      var i := if j == first % 3 then 0 else if j == (first + 1) % 3 then 1 else 2;
      assert ws[i].block == prev.checkpoint[j];
    }
    assert ws[0].block == prev.checkpoint[first % 3] && ws[1].block == prev.checkpoint[(first + 1) % 3];
  }

  /** A block that cannot introduce an unknown superblock of the new geometry. */
  predicate OldOrNew(c: Content, prev: Superblock, next: Superblock) {
    c.SuperCopy? ==> c.sb == next || c.sb.generation < prev.generation
  }

  lemma RelocationContents(
    d: Disk, device: nat, prev: Superblock, next: Superblock, first: nat, s: (Disk, Option<Write>), k: nat, img: Disk)
    requires HoldsCopies(d, prev) && PlacesCopies(prev.checkpoint, prev.total) && AvoidsLocators(prev.checkpoint)
    requires PlacesCopies(next.checkpoint, next.total) && AvoidsLocators(next.checkpoint) && FreshPlace(d, next, prev)
    requires InStep(s, d, PublishWrites(next, first, true), k) && Survives(img, s)
    ensures ReadsClean(d) ==> ReadsClean(img)
    ensures Read(img, LOCATOR_A) in {Read(d, LOCATOR_A), LocatorCopy(LocatorOf(next)), Torn}
    ensures Read(img, LOCATOR_B) in {Read(d, LOCATOR_B), LocatorCopy(LocatorOf(next)), Torn}
    ensures Read(img, 0) in {SuperCopy(prev), SuperCopy(next), Torn}
    ensures Read(img, prev.checkpoint[1]) == Read(img, prev.checkpoint[2]) == SuperCopy(prev)
    ensures OldOrNew(Read(img, next.checkpoint[1]), prev, next) && OldOrNew(Read(img, next.checkpoint[2]), prev, next)
    ensures k <= 2 ==> Read(img, 0) == SuperCopy(prev)
    ensures k >= 1 ==> Read(img, LOCATOR_A) == LocatorCopy(LocatorOf(next))
    ensures k >= 2 ==> Read(img, LOCATOR_A) == LocatorCopy(LocatorOf(next))
    ensures k >= 2 ==> Read(img, next.checkpoint[1]) == SuperCopy(next)
  {
    hide Apply, ReadsClean, InStep, Survives;
    var ws := PublishWrites(next, first, true);
    assert DistinctBlocks(ws);
    ImageAt(d, ws, s, k, img);
    if ReadsClean(d) { CleanImage(d, ws, s, k, img); }
    assert ws[0].block == LOCATOR_A && ws[1].block == next.checkpoint[1] && ws[2].block == next.checkpoint[2];
    assert ws[3].block == 0 && ws[4].block == LOCATOR_B;
  }

  /** The disk while both geometries may be described on it. */
  predicate BothGeometries(img: Disk, device: nat, prev: Superblock, next: Superblock) {
    && device >= MIN_VOLUME && Mountable(prev, device) && Succeeds(next, prev, device)
    && (forall b :: b in {LOCATOR_A, LOCATOR_B} ==>
          Read(img, b) == LocatorCopy(LocatorOf(next)) ||
            (Decodes(Read(img, b), device) ==> Locates(Read(img, b), device, prev)))
    && Read(img, 0) in {SuperCopy(prev), SuperCopy(next), Torn}
    && Read(img, prev.checkpoint[1]) == Read(img, prev.checkpoint[2]) == SuperCopy(prev)
    && OldOrNew(Read(img, next.checkpoint[1]), prev, next) && OldOrNew(Read(img, next.checkpoint[2]), prev, next)
  }

  lemma MapOfEither(img: Disk, device: nat, prev: Superblock, next: Superblock, i: nat)
    requires BothGeometries(img, device, prev, next) && i < 3 && MapAt(img, device, i).Some?
    ensures Agrees(prev, MapAt(img, device, i).value) || Agrees(next, MapAt(img, device, i).value)
  {
  }

  lemma CopyOfEither(img: Disk, device: nat, prev: Superblock, next: Superblock, m: Locator, j: nat)
    requires BothGeometries(img, device, prev, next) && j < 3
    requires Agrees(prev, m) || Agrees(next, m)
    ensures var c := CopyVia(img, device, m, j);
      c.Some? ==> c.value == prev || c.value == next || c.value.generation < prev.generation
  {
    if Agrees(prev, m) { assert j == 0 || j == 1 || j == 2; } else { assert j == 0 || j == 1 || j == 2; }
  }

  /** While both geometries are on the disk, only the two superblocks and older ones can be
      found; block zero still leads to the old one, locator A to a durable new one. */
  lemma RelocationImage(img: Disk, device: nat, prev: Superblock, next: Superblock)
    requires BothGeometries(img, device, prev, next)
    ensures OnlyThese(img, device, prev, next)
    ensures Read(img, 0) == SuperCopy(prev) ==> Discoverable(img, device, prev)
    ensures Read(img, LOCATOR_A) == LocatorCopy(LocatorOf(next)) && Read(img, next.checkpoint[1]) == SuperCopy(next) ==>
      Discoverable(img, device, next)
  {
    forall i | 0 <= i < 3 && MapAt(img, device, i).Some? ensures MapAt(img, device, i).value.uuid == prev.uuid {
      MapOfEither(img, device, prev, next, i);
    }
    forall t | Discoverable(img, device, t) ensures t == prev || t == next || t.generation < prev.generation {
      var i, j :| 0 <= i < 3 && 0 <= j < 3 && ReachedBy(img, device, i, j, t);
      MapOfEither(img, device, prev, next, i);
      CopyOfEither(img, device, prev, next, MapAt(img, device, i).value, j);
    }
    if Read(img, 0) == SuperCopy(prev) { assert ReachedBy(img, device, 2, 0, prev); }
    if Read(img, LOCATOR_A) == LocatorCopy(LocatorOf(next)) && Read(img, next.checkpoint[1]) == SuperCopy(next) {
      assert ReachedBy(img, device, 0, 1, next);
    }
  }

  /** A crash at any point of a relocating commit mounts the old or the new superblock, and
      the new one once its first copy is durable, whatever state the locators were in. */
  lemma RelocationSurvives(
    d: Disk, device: nat, readOnly: bool, validate: Validator, prev: Superblock, next: Superblock, first: nat,
    s: (Disk, Option<Write>), k: nat, img: Disk, m: Mount)
    requires device >= MIN_VOLUME && (readOnly || ReadsClean(d))
    requires KnowsSound(validate, prev) && KnowsSound(validate, next)
    requires Recoverable(d, device, prev) && Succeeds(next, prev, device) && FreshPlace(d, next, prev)
    requires InStep(s, d, PublishWrites(next, first, true), k) && Survives(img, s)
    requires MountedBy(img, device, readOnly, validate, m)
    ensures m.Mounted? && m.sb in {prev, next}
    ensures k >= CommitPoint(true) ==> m.sb == next
  {
    RelocationContents(d, device, prev, next, first, s, k, img);
    RelocationImage(img, device, prev, next);
    MountsNewest(img, device, readOnly, validate, prev, next, m);
  }

  /** A commit that runs to its end leaves the state the next commit starts from. */
  lemma CommitHeals(d: Disk, device: nat, prev: Superblock, next: Superblock, first: nat, relocate: bool)
    requires device >= MIN_VOLUME && Succeeds(next, prev, device)
    requires if relocate then Recoverable(d, device, prev) else Healed(d, device, prev) && SamePlace(prev, next)
    ensures Healed(Apply(d, PublishWrites(next, first, relocate)), device, next)
  {
    if relocate { RelocationHeals(d, device, next, first); } else { InPlaceHeals(d, device, prev, next, first); }
  }

  lemma RelocationHeals(d: Disk, device: nat, next: Superblock, first: nat)
    requires device >= MIN_VOLUME && Mountable(next, device)
    ensures Healed(Apply(d, PublishWrites(next, first, true)), device, next)
  {
    hide Apply;
    var ws := PublishWrites(next, first, true);
    assert DistinctBlocks(ws);
    ApplyAt(d, ws);
    assert ws[0].block == LOCATOR_A && ws[1].block == next.checkpoint[1] && ws[2].block == next.checkpoint[2];
    assert ws[3].block == next.checkpoint[0] && ws[4].block == LOCATOR_B;
  }

  lemma InPlaceHeals(d: Disk, device: nat, prev: Superblock, next: Superblock, first: nat)
    requires Succeeds(next, prev, device) && Healed(d, device, prev) && SamePlace(prev, next)
    ensures Healed(Apply(d, PublishWrites(next, first, false)), device, next)
  {
    hide Apply;
    var ws := PublishWrites(next, first, false);
    assert DistinctBlocks(ws);
    ApplyAt(d, ws);
    forall j | 0 <= j < 3 ensures Read(Apply(d, ws), next.checkpoint[j]) == SuperCopy(next) {
      var i := if j == first % 3 then 0 else if j == (first + 1) % 3 then 1 else 2;
      assert ws[i].block == next.checkpoint[j];
    }
    assert forall i :: 0 <= i < 3 ==> ws[i].block != LOCATOR_A && ws[i].block != LOCATOR_B;
  }

  /** The writes of a commit leave nothing newer than what they commit. */
  lemma {:induction false} AppliesNewest(d: Disk, ws: seq<Write>, prev: Superblock, next: Superblock)
    requires Newest(d, prev) && next.generation > prev.generation
    requires forall i :: 0 <= i < |ws| && ws[i].content.SuperCopy? ==> OlderOrOwn(ws[i].content.sb, ws[i].block, next)
    ensures forall b :: Read(Apply(d, ws), b).SuperCopy? ==> OlderOrOwn(Read(Apply(d, ws), b).sb, b, next)
  {
    if ws == [] {
      forall b | Read(d, b).SuperCopy? ensures OlderOrOwn(Read(d, b).sb, b, next) {
        assert OlderOrOwn(Read(d, b).sb, b, prev);
      }
    } else {
      var init, w := ws[..|ws| - 1], ws[|ws| - 1];
      AppliesNewest(d, init, prev, next);
      assert w == ws[|ws| - 1];
      forall b | Read(Apply(d, ws), b).SuperCopy? ensures OlderOrOwn(Read(Apply(d, ws), b).sb, b, next) {
        assert b == w.block || Read(Apply(d, ws), b) == Read(Apply(d, init), b);
      }
    }
  }

  lemma CommitKeepsNewest(d: Disk, device: nat, prev: Superblock, next: Superblock, first: nat, relocate: bool)
    requires Newest(d, prev) && Succeeds(next, prev, device)
    ensures Newest(Apply(d, PublishWrites(next, first, relocate)), next)
  {
    AppliesNewest(d, PublishWrites(next, first, relocate), prev, next);
  }

  /** A commit on the device. In every state the device passes through, whatever a crash
      makes of the write in doubt, a mount finds the old or the new superblock; from the
      state in which `committed` is raised it finds the new one. */
  method Commit(
    dev: Device, readOnly: bool, validate: Validator, prev: Superblock, next: Superblock, first: nat, relocate: bool)
    returns (ok: bool, committed: bool, ghost mark: nat)
    requires dev.inDoubt.None? && dev.blocks >= MIN_VOLUME && (readOnly || ReadsClean(dev.media))
    requires KnowsSound(validate, prev) && KnowsSound(validate, next) && Succeeds(next, prev, dev.blocks)
    requires Newest(dev.media, prev)
    requires if relocate then Recoverable(dev.media, dev.blocks, prev) && NewPlace(next, prev)
             else Healed(dev.media, dev.blocks, prev) && SamePlace(prev, next)
    modifies dev
    ensures ok ==> committed && dev.inDoubt.None? && Healed(dev.media, dev.blocks, next) && Newest(dev.media, next)
    ensures |dev.history| >= |old(dev.history)| && dev.history[..|old(dev.history)|] == old(dev.history)
    ensures Committing(dev.history, |old(dev.history)|, old(dev.media), PublishWrites(next, first, relocate),
              CommitPoint(relocate), committed, mark)
    ensures forall i, img, m ::
      |old(dev.history)| <= i < |dev.history| && Survives(img, dev.history[i])
      && MountedBy(img, dev.blocks, readOnly, validate, m) ==>
        m.Mounted? && m.sb in {prev, next} && (committed && i >= mark ==> m.sb == next)
  {
    hide Healed, Recoverable, Mountable, Survives, MountedBy, FreshPlace, NewPlace, KnowsSound, Succeeds, SamePlace;
    hide PublishWrites, Newest, Committing, InStep;
    ghost var d, h := dev.media, |dev.history|;
    ghost var done;
    ok, committed, done, mark := Publish(dev, next, first, relocate);
    ghost var ws, point := PublishWrites(next, first, relocate), CommitPoint(relocate);
    if relocate { FreshFor(d, dev.blocks, prev, next); }
    forall i, img, m | h <= i < |dev.history| && Survives(img, dev.history[i])
      && MountedBy(img, dev.blocks, readOnly, validate, m)
      ensures m.Mounted? && m.sb in {prev, next} && (committed && i >= mark ==> m.sb == next)
    {
      var k := StepOf(dev.history, h, d, ws, point, committed, mark, i);
      if relocate {
        RelocationSurvives(d, dev.blocks, readOnly, validate, prev, next, first, dev.history[i], k, img, m);
      } else {
        OrdinaryCommitSurvives(d, dev.blocks, readOnly, validate, prev, next, first, dev.history[i], k, img, m);
      }
    }
    if ok {
      AllWritten((dev.media, dev.inDoubt), d, ws, done);
      CommitHeals(d, dev.blocks, prev, next, first, relocate);
      CommitKeepsNewest(d, dev.blocks, prev, next, first, relocate);
    }
  }

  lemma FreshFor(d: Disk, device: nat, prev: Superblock, next: Superblock)
    requires Newest(d, prev) && Recoverable(d, device, prev) && Succeeds(next, prev, device) && NewPlace(next, prev)
    ensures FreshPlace(d, next, prev)
  {
    NewestIsFresh(d, next, prev, device);
  }

  lemma AllWritten(s: (Disk, Option<Write>), d: Disk, ws: seq<Write>, done: nat)
    requires InStep(s, d, ws, done) && done == |ws|
    ensures s.0 == Apply(d, ws)
  {
    assert ws[..done] == ws;
  }

  lemma StepOf(
    history: seq<(Disk, Option<Write>)>, from: nat, d: Disk, ws: seq<Write>, point: nat,
    committed: bool, mark: nat, i: nat)
    returns (k: nat)
    requires Committing(history, from, d, ws, point, committed, mark) && from <= i < |history|
    ensures InStep(history[i], d, ws, k) && (committed && i >= mark ==> k >= point)
  {
    hide InStep;
    if !committed || i < mark {
      assert Reached(history[i], d, ws, 0, point);
      k :| 0 <= k < point && InStep(history[i], d, ws, k);
    } else {
      assert Reached(history[i], d, ws, point, |ws| + 1);
      k :| point <= k < |ws| + 1 && InStep(history[i], d, ws, k);
    }
  }

  lemma StaysClean(d: Disk, next: Superblock, first: nat, relocate: bool)
    ensures ReadsClean(d) ==> ReadsClean(Apply(d, PublishWrites(next, first, relocate)))
  {
    var ws := PublishWrites(next, first, relocate);
    assert forall i :: 0 <= i < |ws| ==> !ws[i].content.Unreadable?;
    if ReadsClean(d) { AppliesClean(d, ws); }
  }

  lemma AppliesClean(d: Disk, ws: seq<Write>)
    requires ReadsClean(d) && forall i :: 0 <= i < |ws| ==> !ws[i].content.Unreadable?
    ensures ReadsClean(Apply(d, ws))
  {
    if ws != [] {
      var init := ws[..|ws| - 1];
      AppliesClean(d, init);
      forall b: nat ensures !Read(Apply(d, ws), b).Unreadable? {
        assert b == ws[|ws| - 1].block || Read(Apply(d, ws), b) == Read(Apply(d, init), b);
      }
    }
  }
}
