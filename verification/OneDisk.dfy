/** Tree pages and checkpoint copies on one disk: a crash anywhere between the first page
    write of a commit and its last checkpoint write mounts a superblock whose allocation map
    is exactly the old one or exactly the new one. */
module OneDisk {
  import opened Geometry
  import opened Discovery
  import opened Selection
  import opened Publication
  import opened CrashSafety
  import opened CrashRuns
  import opened AllocationTree
  import opened AllocationLoad
  import opened Transaction
  import opened AllocationPublish
  import opened AllocationTheorem
  import opened Resize

  /** A block holds a superblock copy, a locator or nothing known, or a page of a tree. */
  datatype Raw = Control(content: Content) | Tree(page: Page)

  type RawDisk = map<nat, Raw>

  function RawAt(r: RawDisk, b: nat): Raw { if b in r then r[b] else Control(Other) }

  /** The disk as recovery sees it, and as the tree walk sees it. */
  function Controls(r: RawDisk): Disk { map b | b in r :: if r[b].Control? then r[b].content else Other }

  function PagesOf(r: RawDisk): Pages { map b | b in r :: if r[b].Tree? then r[b].page else OtherPage }

  function RawApply(r: RawDisk, ws: seq<Write>): RawDisk {
    if ws == [] then r else var w := ws[|ws| - 1]; RawApply(r, ws[..|ws| - 1])[w.block := Control(w.content)]
  }

  ghost predicate RawStep(s: (RawDisk, Option<Write>), r: RawDisk, ws: seq<Write>, k: nat) {
    k <= |ws| && s.0 == RawApply(r, ws[..k]) && (s.1.None? || (k < |ws| && s.1 == Some(ws[k])))
  }

  ghost predicate RawSurvives(img: RawDisk, s: (RawDisk, Option<Write>)) {
    || img == s.0
    || (s.1.Some? && (img == s.0[s.1.value.block := Control(s.1.value.content)] ||
        img == s.0[s.1.value.block := Control(Torn)]))
  }

  lemma ControlsPut(r: RawDisk, b: nat, c: Content)
    ensures Controls(r[b := Control(c)]) == Controls(r)[b := c]
  {
  }

  lemma {:induction false} ControlsApply(r: RawDisk, ws: seq<Write>)
    ensures Controls(RawApply(r, ws)) == Apply(Controls(r), ws)
  {
    if ws != [] {
      var init, w := ws[..|ws| - 1], ws[|ws| - 1];
      ControlsApply(r, init);
      ControlsPut(RawApply(r, init), w.block, w.content);
    }
  }

  /** Recovery sees a crash of the disk as a crash of its control blocks. */
  lemma ControlsCrash(r: RawDisk, ws: seq<Write>, s: (RawDisk, Option<Write>), k: nat, img: RawDisk)
    requires RawStep(s, r, ws, k) && RawSurvives(img, s)
    ensures InStep((Controls(s.0), s.1), Controls(r), ws, k) && Survives(Controls(img), (Controls(s.0), s.1))
  {
    ControlsApply(r, ws[..k]);
    if s.1.Some? {
      ControlsPut(s.0, s.1.value.block, s.1.value.content);
      ControlsPut(s.0, s.1.value.block, Torn);
    }
  }

  lemma {:induction false} PagesApply(r: RawDisk, ws: seq<Write>, b: nat)
    requires forall i :: 0 <= i < |ws| ==> ws[i].block != b
    ensures PageAt(PagesOf(RawApply(r, ws)), b) == PageAt(PagesOf(r), b)
  {
    if ws != [] {
      PagesApply(r, ws[..|ws| - 1], b);
      assert ws[|ws| - 1].block != b;
    }
  }

  /** A commit's writes leave all pages alone but those in the blocks it writes. */
  lemma PagesCrash(r: RawDisk, ws: seq<Write>, s: (RawDisk, Option<Write>), k: nat, img: RawDisk, b: nat)
    requires RawStep(s, r, ws, k) && RawSurvives(img, s) && forall i :: 0 <= i < |ws| ==> ws[i].block != b
    ensures PageAt(PagesOf(img), b) == PageAt(PagesOf(r), b)
  {
    PagesApply(r, ws[..k], b);
  }

  /** The map under a superblock: it can be loaded, and this is what the load returns. */
  ghost predicate MapIs(p: Pages, device: nat, sb: Superblock, l: Layout, bits: seq<bool>) {
    TreeReads(p, device, sb) && TreeIs(p, sb, l, bits) && LoadChecks(sb, l, bits)
  }

  /** From the superblock and map in force to the next ones. */
  datatype Job = Job(
    device: nat, prev: Superblock, l: Layout, bits: seq<bool>,
    next: Superblock, layout: Layout, final: seq<bool>, first: nat, relocate: bool)

  predicate InUse(bits: seq<bool>, b: nat) { b < |bits| && bits[b] }

  /** Everything a commit starts from and aims at. `q` is what the tree walk will see when the
      new pages are in place; they go to blocks that are free in the old map. */
  ghost predicate Arranged(r: RawDisk, q: Pages, j: Job) {
    && OnDiskNow(r, j) && MapIs(PagesOf(r), j.device, j.prev, j.l, j.bits)
    && MapIs(q, j.device, j.next, j.layout, j.final)
    && CommittedBits(j.prev, j.l, j.bits) && CommittedBits(j.next, j.layout, j.final)
    && (forall b :: Changes(r, q, b) ==> !InUse(j.bits, b) && b !in j.next.checkpoint)
    && (j.relocate ==> !InUse(j.bits, j.next.checkpoint[1]) && !InUse(j.bits, j.next.checkpoint[2]))
  }

  ghost predicate OnDiskNow(r: RawDisk, j: Job) {
    && j.device >= MIN_VOLUME && ReadsClean(Controls(r)) && Healed(Controls(r), j.device, j.prev)
    && Newest(Controls(r), j.prev) && Succeeds(j.next, j.prev, j.device)
    && if j.relocate then NewPlace(j.next, j.prev) else SamePlace(j.prev, j.next)
  }

  predicate Changes(r: RawDisk, q: Pages, b: nat) { PageAt(q, b) != PageAt(PagesOf(r), b) }

  /** A crash while the pages are written, in no particular order and with nothing flushed. */
  ghost predicate TreeCrash(img: RawDisk, r: RawDisk, q: Pages) {
    forall b :: if Changes(r, q, b) then RawAt(img, b) in {RawAt(r, b), Tree(PageAt(q, b)), Control(Torn)}
                else RawAt(img, b) == RawAt(r, b)
  }

  /** The barrier behind the page writes. */
  ghost predicate TreeDone(after: RawDisk, r: RawDisk, q: Pages) {
    forall b :: RawAt(after, b) == if Changes(r, q, b) then Tree(PageAt(q, b)) else RawAt(r, b)
  }

  function JobWrites(j: Job): seq<Write> { PublishWrites(j.next, j.first, j.relocate) }

  /** A crash after the barrier, `k` checkpoint writes into the commit. */
  ghost predicate CommitCrash(
    img: RawDisk, r: RawDisk, q: Pages, j: Job, after: RawDisk, s: (RawDisk, Option<Write>), k: nat)
  {
    TreeDone(after, r, q) && RawStep(s, after, JobWrites(j), k) && RawSurvives(img, s)
  }

  /** The mounted superblock is one of the two, and its map on this disk is exactly its own. */
  ghost predicate RightMap(img: RawDisk, j: Job, m: Mount) {
    && m.Mounted? && m.sb in {j.prev, j.next}
    && (m.sb == j.prev ==> MapIs(PagesOf(img), j.device, j.prev, j.l, j.bits))
    && (m.sb == j.next ==> MapIs(PagesOf(img), j.device, j.next, j.layout, j.final))
  }

  /** Every page of the old tree, and everything fixed, is in use in the old map. */
  lemma OldInUse(j: Job, p: Pages, b: nat)
    requires MapIs(p, j.device, j.prev, j.l, j.bits) && (b in AllBlocks(j.l) || b in j.prev.checkpoint)
    ensures InUse(j.bits, b)
  {
    hide TreeReads, TreeIs;
    if b in AllBlocks(j.l) {
      var i :| 0 <= i < |AllBlocks(j.l)| && AllBlocks(j.l)[i] == b;
      assert i < |j.l.leaves| ==> j.l.leaves[i] == b;
      assert i >= |j.l.leaves| ==> j.l.branches[i - |j.l.leaves|] == b;
    }
  }

  lemma RawIsPage(img: RawDisk, r: RawDisk, b: nat)
    requires RawAt(img, b) == RawAt(r, b)
    ensures PageAt(PagesOf(img), b) == PageAt(PagesOf(r), b) && Read(Controls(img), b) == Read(Controls(r), b)
  {
  }

  lemma OldMapStays(img: RawDisk, r: RawDisk, j: Job)
    requires MapIs(PagesOf(r), j.device, j.prev, j.l, j.bits)
    requires forall b: nat :: b in AllBlocks(j.l) ==> PageAt(PagesOf(img), b) == PageAt(PagesOf(r), b)
    ensures MapIs(PagesOf(img), j.device, j.prev, j.l, j.bits)
  {
    hide TreeReads, TreeIs, LoadChecks;
    OldTreeStays(PagesOf(r), PagesOf(img), j.device, j.prev, j.l, j.bits);
  }

  // While the pages are written.

  lemma TreeCrashControls(img: RawDisk, r: RawDisk, q: Pages, j: Job)
    requires Arranged(r, q, j) && TreeCrash(img, r, q)
    ensures Healed(Controls(img), j.device, j.prev) && Newest(Controls(img), j.prev) && ReadsClean(Controls(img))
  {
    hide TreeReads, TreeIs, LoadChecks, MapIs;
    forall b | b in j.prev.checkpoint || b == LOCATOR_A || b == LOCATOR_B
      ensures Read(Controls(img), b) == Read(Controls(r), b)
    {
      if b in j.prev.checkpoint { OldInUse(j, PagesOf(r), b); }
      assert !Changes(r, q, b);
      RawIsPage(img, r, b);
    }
    forall b ensures Read(Controls(img), b) == Read(Controls(r), b) || Read(Controls(img), b) in {Other, Torn} {
      if Changes(r, q, b) { RawCases(img, r, q, b); } else { RawIsPage(img, r, b); }
    }
    assert Newest(Controls(img), j.prev) by {
      forall b | Read(Controls(img), b).SuperCopy? ensures OlderOrOwn(Read(Controls(img), b).sb, b, j.prev) {
        assert Read(Controls(r), b) == Read(Controls(img), b);
        assert OlderOrOwn(Read(Controls(r), b).sb, b, j.prev);
      }
    }
    assert ReadsClean(Controls(img)) by {
      forall b ensures !Read(Controls(img), b).Unreadable? { assert !Read(Controls(r), b).Unreadable?; }
    }
    forall i | 0 <= i < 3 ensures j.prev.checkpoint[i] in j.prev.checkpoint { }
  }

  lemma RawCases(img: RawDisk, r: RawDisk, q: Pages, b: nat)
    requires RawAt(img, b) in {RawAt(r, b), Tree(PageAt(q, b)), Control(Torn)}
    ensures Read(Controls(img), b) == Read(Controls(r), b) || Read(Controls(img), b) in {Other, Torn}
  {
  }

  lemma HealedMounts(d: Disk, device: nat, readOnly: bool, validate: Validator, sb: Superblock, m: Mount)
    requires device >= MIN_VOLUME && Healed(d, device, sb) && Newest(d, sb) && ReadsClean(d) && KnowsSound(validate, sb)
    requires MountedBy(d, device, readOnly, validate, m)
    ensures m.Mounted? && m.sb == sb
  {
    hide Newest, ReadsClean, MountedBy;
    forall t | Discoverable(d, device, t)
      ensures t == sb || t.generation < sb.generation
    {
      NewestDiscoverable(d, device, sb, t);
    }
    assert ReachedBy(d, device, 0, 0, sb);
    assert MapsAgreeOnVolume(d, device);
    NewestSoundIsMounted(d, device, readOnly, validate, sb, m);
  }

  /** A crash among the page writes mounts the old superblock with its old map. */
  lemma TreeCrashIsRight(img: RawDisk, r: RawDisk, q: Pages, j: Job, readOnly: bool, validate: Validator, m: Mount)
    requires Arranged(r, q, j) && TreeCrash(img, r, q) && KnowsSound(validate, j.prev)
    requires MountedBy(Controls(img), j.device, readOnly, validate, m)
    ensures RightMap(img, j, m) && m.sb == j.prev
  {
    hide MapIs, Healed, Newest, ReadsClean, MountedBy, KnowsSound, Succeeds, PagesOf, Controls;
    TreeCrashControls(img, r, q, j);
    HealedMounts(Controls(img), j.device, readOnly, validate, j.prev, m);
    forall b: nat | b in AllBlocks(j.l) ensures PageAt(PagesOf(img), b) == PageAt(PagesOf(r), b) {
      OldInUse(j, PagesOf(r), b);
      assert !Changes(r, q, b);
      RawIsPage(img, r, b);
    }
    OldMapStays(img, r, j);
    NewerDiffers(j);
  }

  lemma NewerDiffers(j: Job)
    requires Succeeds(j.next, j.prev, j.device)
    ensures j.next != j.prev
  {
  }

  // While the checkpoints are written.

  lemma DoneControls(after: RawDisk, r: RawDisk, q: Pages, j: Job)
    requires Arranged(r, q, j) && TreeDone(after, r, q)
    ensures Healed(Controls(after), j.device, j.prev) && Newest(Controls(after), j.prev) && ReadsClean(Controls(after))
  {
    hide Arranged, Controls;
    assert TreeCrash(after, r, q);
    TreeCrashControls(after, r, q, j);
  }

  lemma DonePages(after: RawDisk, r: RawDisk, q: Pages, b: nat)
    requires TreeDone(after, r, q)
    ensures PageAt(PagesOf(after), b) == PageAt(q, b)
  {
    if !Changes(r, q, b) { RawIsPage(after, r, b); } else { assert RawAt(after, b) == Tree(PageAt(q, b)); }
  }

  /** Where a commit writes. */
  lemma WriteBlocks(j: Job, i: nat)
    requires i < |JobWrites(j)|
    ensures var b := JobWrites(j)[i].block; b in j.next.checkpoint || b == LOCATOR_A || b == LOCATOR_B
  {
  }

  /** No page of either tree lies where the commit writes. */
  lemma PagesElsewhere(r: RawDisk, q: Pages, j: Job, b: nat, i: nat)
    requires Arranged(r, q, j) && (b in AllBlocks(j.l) || b in AllBlocks(j.layout)) && i < |JobWrites(j)|
    ensures JobWrites(j)[i].block != b
  {
    hide TreeReads, TreeIs, Healed, Newest, ReadsClean, JobWrites, PagesOf, Controls;
    WriteBlocks(j, i);
    if b in AllBlocks(j.layout) {
      assert PagePlace(j.next, b);
    } else {
      assert PagePlace(j.prev, b);
      OldInUse(j, PagesOf(r), b);
      assert j.relocate ==> j.next.checkpoint[0] == 0;
    }
  }

  lemma PagesKept(
    img: RawDisk, r: RawDisk, q: Pages, j: Job, after: RawDisk, s: (RawDisk, Option<Write>), k: nat, b: nat)
    requires Arranged(r, q, j) && CommitCrash(img, r, q, j, after, s, k)
    requires b in AllBlocks(j.l) || b in AllBlocks(j.layout)
    ensures PageAt(PagesOf(img), b) == PageAt(q, b)
  {
    hide Arranged, TreeDone, JobWrites, PagesOf, RawStep, RawSurvives;
    forall i | 0 <= i < |JobWrites(j)| ensures JobWrites(j)[i].block != b { PagesElsewhere(r, q, j, b, i); }
    PagesCrash(after, JobWrites(j), s, k, img, b);
    DonePages(after, r, q, b);
  }

  lemma OldPagesUnchanged(r: RawDisk, q: Pages, j: Job, b: nat)
    requires Arranged(r, q, j) && b in AllBlocks(j.l)
    ensures PageAt(PagesOf(r), b) == PageAt(q, b)
  {
    hide MapIs, Healed, Newest, ReadsClean, PagesOf, Controls;
    OldInUse(j, PagesOf(r), b);
    assert !Changes(r, q, b);
  }

  lemma BothMaps(img: RawDisk, r: RawDisk, q: Pages, j: Job, after: RawDisk, s: (RawDisk, Option<Write>), k: nat)
    requires Arranged(r, q, j) && CommitCrash(img, r, q, j, after, s, k)
    ensures MapIs(PagesOf(img), j.device, j.prev, j.l, j.bits)
    ensures MapIs(PagesOf(img), j.device, j.next, j.layout, j.final)
  {
    hide TreeReads, TreeIs, LoadChecks, CommitCrash, PagesOf, OnDiskNow;
    forall b: nat | b in AllBlocks(j.layout) ensures PageAt(PagesOf(img), b) == PageAt(q, b) {
      PagesKept(img, r, q, j, after, s, k, b);
    }
    OldTreeStays(q, PagesOf(img), j.device, j.next, j.layout, j.final);
    forall b: nat | b in AllBlocks(j.l) ensures PageAt(PagesOf(img), b) == PageAt(PagesOf(r), b) {
      PagesKept(img, r, q, j, after, s, k, b);
      OldPagesUnchanged(r, q, j, b);
    }
    OldMapStays(img, r, j);
  }

  lemma ControlsSurvive(
    img: RawDisk, r: RawDisk, q: Pages, j: Job, after: RawDisk, s: (RawDisk, Option<Write>), k: nat,
    readOnly: bool, validate: Validator, m: Mount)
    requires Arranged(r, q, j) && CommitCrash(img, r, q, j, after, s, k)
    requires KnowsSound(validate, j.prev) && KnowsSound(validate, j.next)
    requires MountedBy(Controls(img), j.device, readOnly, validate, m)
    ensures m.Mounted? && m.sb in {j.prev, j.next} && (k >= CommitPoint(j.relocate) ==> m.sb == j.next)
  {
    hide MapIs, Healed, Newest, ReadsClean, MountedBy, KnowsSound, Succeeds, Controls, RawStep, RawSurvives, InStep;
    hide Survives;
    hide NewPlace, SamePlace, TreeDone, PublishWrites, FreshPlace, Recoverable;
    DoneControls(after, r, q, j);
    ControlsCrash(after, JobWrites(j), s, k, img);
    var d := Controls(after);
    if j.relocate {
      RelocationReady(d, j.device, j.prev, j.next);
      RelocationSurvives(d, j.device, readOnly, validate, j.prev, j.next, j.first, (Controls(s.0), s.1), k,
        Controls(img), m);
    } else {
      OrdinaryCommitSurvives(d, j.device, readOnly, validate, j.prev, j.next, j.first, (Controls(s.0), s.1), k,
        Controls(img), m);
    }
  }

  /** A crash among the checkpoint writes mounts the old or the new superblock, the new one
      once it is committed, and either way the map under it is exactly its own. */
  lemma CommitCrashIsRight(
    img: RawDisk, r: RawDisk, q: Pages, j: Job, after: RawDisk, s: (RawDisk, Option<Write>), k: nat,
    readOnly: bool, validate: Validator, m: Mount)
    requires Arranged(r, q, j) && CommitCrash(img, r, q, j, after, s, k)
    requires KnowsSound(validate, j.prev) && KnowsSound(validate, j.next)
    requires MountedBy(Controls(img), j.device, readOnly, validate, m)
    ensures RightMap(img, j, m) && (k >= CommitPoint(j.relocate) ==> m.sb == j.next)
  {
    hide MapIs, Arranged, CommitCrash, MountedBy, KnowsSound, PagesOf, Controls;
    ControlsSurvive(img, r, q, j, after, s, k, readOnly, validate, m);
    BothMaps(img, r, q, j, after, s, k);
  }

  /** Whatever crash image a commit leaves, the mount and the map agree. */
  ghost predicate CrashSafe(r: RawDisk, q: Pages, j: Job, validate: Validator) {
    && (forall img, readOnly, m ::
      TreeCrash(img, r, q) && MountedBy(Controls(img), j.device, readOnly, validate, m) ==>
        RightMap(img, j, m) && m.sb == j.prev)
    && (forall img, after, s, k: nat, readOnly, m ::
      CommitCrash(img, r, q, j, after, s, k) && MountedBy(Controls(img), j.device, readOnly, validate, m) ==>
        RightMap(img, j, m) && (k >= CommitPoint(j.relocate) ==> m.sb == j.next))
  }

  lemma ArrangedIsSafe(r: RawDisk, q: Pages, j: Job, validate: Validator)
    requires Arranged(r, q, j) && KnowsSound(validate, j.prev) && KnowsSound(validate, j.next)
    ensures CrashSafe(r, q, j, validate)
  {
    hide Arranged, TreeCrash, CommitCrash, MountedBy, MapIs, PagesOf, KnowsSound, Controls;
    forall img, readOnly, m | TreeCrash(img, r, q) && MountedBy(Controls(img), j.device, readOnly, validate, m)
      ensures RightMap(img, j, m) && m.sb == j.prev
    {
      TreeCrashIsRight(img, r, q, j, readOnly, validate, m);
    }
    forall img, after, s, k: nat, readOnly, m
      | CommitCrash(img, r, q, j, after, s, k) && MountedBy(Controls(img), j.device, readOnly, validate, m)
      ensures RightMap(img, j, m) && (k >= CommitPoint(j.relocate) ==> m.sb == j.next)
    {
      CommitCrashIsRight(img, r, q, j, after, s, k, readOnly, validate, m);
    }
  }

  // Commits that are ready.

  /** The state a mounted volume is in between commits. */
  ghost predicate Settled(r: RawDisk, device: nat, sb: Superblock, l: Layout, bits: seq<bool>) {
    && device >= MIN_VOLUME && ReadsClean(Controls(r)) && Healed(Controls(r), device, sb)
    && Newest(Controls(r), sb) && Committed(PagesOf(r), device, sb, l, bits)
  }

  /** The disk once every write of the commit is durable. */
  function Completed(after: RawDisk, j: Job): RawDisk { RawApply(after, JobWrites(j)) }

  /** A commit that runs to its end settles the volume on the next superblock and its map, so
      that the next commit can start. */
  lemma ArrangedSettles(r: RawDisk, q: Pages, j: Job, after: RawDisk)
    requires Arranged(r, q, j) && TreeDone(after, r, q)
    ensures Settled(Completed(after, j), j.device, j.next, j.layout, j.final)
  {
    hide MapIs, PagesOf, Controls, Newest, ReadsClean, TreeDone, PublishWrites, Healed, CommittedBits;
    var d, ws, end := Controls(after), JobWrites(j), Completed(after, j);
    DoneControls(after, r, q, j);
    ControlsApply(after, ws);
    SettlesControls(d, j);
    assert ws[..|ws|] == ws;
    assert RawStep((end, None), after, ws, |ws|) && RawSurvives(end, (end, None));
    BothMaps(end, r, q, j, after, (end, None), |ws|);
    SettlesPages(PagesOf(end), j);
  }

  lemma SettlesControls(d: Disk, j: Job)
    requires j.device >= MIN_VOLUME && Healed(d, j.device, j.prev) && Newest(d, j.prev) && ReadsClean(d)
    requires Succeeds(j.next, j.prev, j.device)
    requires if j.relocate then NewPlace(j.next, j.prev) else SamePlace(j.prev, j.next)
    ensures Healed(Apply(d, JobWrites(j)), j.device, j.next) && Newest(Apply(d, JobWrites(j)), j.next)
    ensures ReadsClean(Apply(d, JobWrites(j)))
  {
    hide Newest, ReadsClean, Succeeds, PublishWrites;
    assert Recoverable(d, j.device, j.prev);
    hide Healed, Recoverable;
    CommitHeals(d, j.device, j.prev, j.next, j.first, j.relocate);
    CommitKeepsNewest(d, j.device, j.prev, j.next, j.first, j.relocate);
    StaysClean(d, j.next, j.first, j.relocate);
  }

  lemma SettlesPages(p: Pages, j: Job)
    requires MapIs(p, j.device, j.next, j.layout, j.final) && CommittedBits(j.next, j.layout, j.final)
    requires Succeeds(j.next, j.prev, j.device)
    ensures Committed(p, j.device, j.next, j.layout, j.final)
  {
    hide TreeReads, TreeIs, LoadChecks;
  }

  /** What a complete commit of `j` leaves, whatever disk the page writes ended on. */
  ghost predicate Chains(r: RawDisk, q: Pages, j: Job) {
    forall after :: TreeDone(after, r, q) ==> Settled(Completed(after, j), j.device, j.next, j.layout, j.final)
  }

  lemma ArrangedChains(r: RawDisk, q: Pages, j: Job)
    requires Arranged(r, q, j)
    ensures Chains(r, q, j)
  {
    hide Arranged, TreeDone, Settled, Completed;
    forall after | TreeDone(after, r, q)
      ensures Settled(Completed(after, j), j.device, j.next, j.layout, j.final)
    {
      ArrangedSettles(r, q, j, after);
    }
  }

  /** A bitmap that passes the checks of a load and holds the locators. */
  lemma BitsCommitted(sb: Superblock, device: nat, l: Layout, bits: seq<bool>)
    requires BasicValid(sb, device) && sb.total > LOCATOR_B && Shaped(l, sb.total) && |bits| == sb.total
    requires LoadChecks(sb, l, bits) && InUse(bits, LOCATOR_A) && InUse(bits, LOCATOR_B)
    ensures CommittedBits(sb, l, bits)
  {
    hide LoadChecks, Shaped;
  }

  lemma OrdinaryIsArranged(r: RawDisk, q: Pages, j: Job)
    requires Settled(r, j.device, j.prev, j.l, j.bits) && !j.relocate && BasicValid(j.next, j.device)
    requires j.next.generation > j.prev.generation && j.next.total == j.prev.total
    requires j.next.checkpoint == j.prev.checkpoint && j.next.uuid == j.prev.uuid
    requires MapIs(q, j.device, j.next, j.layout, j.final) && CommittedBits(j.next, j.layout, j.final)
    requires forall b: nat :: PageAt(q, b) != PageAt(PagesOf(r), b) ==> b < j.prev.total && !j.bits[b]
    ensures Arranged(r, q, j)
  {
    hide TreeReads, TreeIs, Newest, ReadsClean, PagesOf, Controls;
    assert MapIs(PagesOf(r), j.device, j.prev, j.l, j.bits);
    forall b | Changes(r, q, b) ensures !InUse(j.bits, b) && b !in j.next.checkpoint {
      if b in j.prev.checkpoint { OldInUse(j, PagesOf(r), b); assert false; }
    }
  }

  /** Publication keeps the locator blocks allocated. */
  lemma LocatorsKept(
    tx: Tx, start: seq<bool>, claimed: seq<Range>, deferred: seq<Range>, sb: Superblock, l: Layout, layout: Layout,
    committed: seq<bool>)
    requires CommittedBits(sb, l, committed) && BuildsOn(start, claimed, deferred, l, committed)
    requires Published(tx, l, layout, start, deferred, tx.bitmap)
    ensures |tx.bitmap| == sb.total > LOCATOR_B && InUse(tx.bitmap, LOCATOR_A) && InUse(tx.bitmap, LOCATOR_B)
  {
    hide LoadChecks, Shaped, BasicValid, Covered;
    assert tx.Kept(LOCATOR_A) && tx.Kept(LOCATOR_B);
  }

  /** An ordinary commit: the transaction publishes its allocation map, the pages and then the
      checkpoints are written, and a crash anywhere on the way is safe. */
  method CommitTransaction(
    tx: Tx, r: RawDisk, device: nat, sb: Superblock, l: Layout, template: Superblock, first: nat,
    ghost committed: seq<bool>)
    returns (status: Status, next: Superblock, layout: Layout, q: Pages)
    requires tx.Valid() && tx.total == sb.total && tx.checkpoint == sb.checkpoint
    requires Settled(r, device, sb, l, committed) && BuildsOn(tx.bitmap, tx.claimed, tx.deferred, l, committed)
    requires template.total == sb.total && template.checkpoint == sb.checkpoint
    requires template.uuid == sb.uuid && template.header == sb.header
    requires Pinned(tx.bitmap, tx.deferred, l, template.objectIndex)
    requires Pinned(tx.bitmap, tx.deferred, l, template.rootObject)
    modifies tx
    ensures status == Done || (status == NoSpace && tx.Full())
    ensures status == Done ==>
      var j := Job(device, sb, l, committed, next, layout, tx.bitmap, first, false);
      Arranged(r, q, j) && Chains(r, q, j)
      && forall validate :: KnowsSound(validate, sb) && KnowsSound(validate, next) ==> CrashSafe(r, q, j, validate)
  {
    hide TreeReads, TreeIs, LoadChecks, BuildsOn, Healed, Newest, ReadsClean, KnowsSound, CrashSafe, Arranged, PagesOf;
    hide Controls, Pinned, BasicValid, CommittedBits, Published, Chains;
    status, next, layout, q := AllocationTheorem.Publish(tx, PagesOf(r), device, sb, l, template, committed);
    if status == Done {
      ghost var j := Job(device, sb, l, committed, next, layout, tx.bitmap, first, false);
      LocatorsKept(tx, old(tx.bitmap), old(tx.claimed), old(tx.deferred), sb, l, layout, committed);
      BitsCommitted(next, device, layout, tx.bitmap);
      OrdinaryIsArranged(r, q, j);
      ArrangedChains(r, q, j);
      forall validate | KnowsSound(validate, sb) && KnowsSound(validate, next) ensures CrashSafe(r, q, j, validate) {
        ArrangedIsSafe(r, q, j, validate);
      }
    }
  }

  lemma RelocationIsArranged(r: RawDisk, q: Pages, j: Job, k: Picks)
    requires Settled(r, j.device, j.prev, j.l, j.bits) && j.relocate && j.layout == k.layout
    requires Succeeds(j.next, j.prev, j.device) && NewPlace(j.next, j.prev)
    requires MapIs(q, j.device, j.next, j.layout, j.final) && CommittedBits(j.next, j.layout, j.final)
    requires forall b: nat :: PageAt(q, b) != PageAt(PagesOf(r), b) ==> b in AllBlocks(j.layout) && !InUse(j.bits, b)
    requires j.next.checkpoint == [0, k.second, k.third] && !InUse(j.bits, k.second) && !InUse(j.bits, k.third)
    ensures Arranged(r, q, j)
  {
    hide TreeReads, TreeIs, Newest, ReadsClean, PagesOf, Controls;
    forall b | Changes(r, q, b) ensures !InUse(j.bits, b) && b !in j.next.checkpoint {
      assert PagePlace(j.next, b);
    }
  }

  lemma LocatorsStay(p: Pages, device: nat, sb: Superblock, l: Layout, bits: seq<bool>, k: Picks, after: seq<bool>)
    requires Resizable(p, device, sb, l, bits) && Conserves(sb, l, bits, k, after)
    requires forall b: nat :: Live(sb, l, bits, b) ==> b < |after|
    ensures |after| > LOCATOR_B && InUse(after, LOCATOR_A) && InUse(after, LOCATOR_B)
  {
    hide LoadChecks, Shaped, BasicValid, TreeReads, TreeIs, Moves;
    assert Live(sb, l, bits, LOCATOR_A) && Live(sb, l, bits, LOCATOR_B);
  }

  /** A resize: the new tree and then the relocated checkpoints are written, and a crash
      anywhere on the way is safe. */
  method CommitResize(r: RawDisk, device: nat, sb: Superblock, l: Layout, bits: seq<bool>, bytes: nat, snapshots: nat)
    returns (v: Resize.Verdict, next: Superblock, k: Picks, after: seq<bool>, q: Pages)
    requires Settled(r, device, sb, l, bits) && Resizable(PagesOf(r), device, sb, l, bits)
    ensures v == Resize.Answer(sb, l, bits, device, bytes, snapshots)
    ensures v == Resize.Verdict.Ready ==>
      var j := Job(device, sb, l, bits, next, k.layout, after, 1, true);
      Arranged(r, q, j) && Chains(r, q, j)
      && forall validate :: KnowsSound(validate, sb) && KnowsSound(validate, next) ==> CrashSafe(r, q, j, validate)
  {
    hide TreeReads, TreeIs, LoadChecks, Healed, Newest, ReadsClean, KnowsSound, CrashSafe, PagesOf, Controls;
    hide BasicValid, Settled, Resizable, Used, Chains, CommittedBits, Conserves, Arranged;
    v, next, k, after, q := Resize.Prepare(PagesOf(r), device, sb, l, bits, bytes, snapshots);
    if v == Resize.Verdict.Ready {
      ghost var j := Job(device, sb, l, bits, next, k.layout, after, 1, true);
      LocatorsStay(PagesOf(r), device, sb, l, bits, k, after);
      BitsCommitted(next, device, k.layout, after);
      RelocationIsArranged(r, q, j, k);
      ArrangedChains(r, q, j);
      forall validate | KnowsSound(validate, sb) && KnowsSound(validate, next) ensures CrashSafe(r, q, j, validate) {
        ArrangedIsSafe(r, q, j, validate);
      }
    }
  }
}
