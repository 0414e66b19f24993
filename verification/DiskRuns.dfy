/** Whole histories of a volume on one disk: commits that complete, commits cut short among
    their page writes or among their checkpoint writes, mounts, repairs, and repairs cut short
    in turn. Every mount comes up with a superblock whose allocation map, on the disk as the
    crash left it, is exactly the one that was committed under it. */
module DiskRuns {
  import opened Geometry
  import opened Discovery
  import opened Selection
  import opened Publication
  import opened CrashSafety
  import opened Healing
  import Runs = CrashRuns
  import opened AllocationTree
  import opened AllocationLoad
  import opened AllocationPublish
  import opened AllocationTheorem
  import opened OneDisk

  /** The disk, the superblock in force with the map committed under it, and whether repair
      after the last crash is complete. */
  datatype State = State(disk: RawDisk, current: Superblock, layout: Layout, bits: seq<bool>, repaired: bool)

  /** What a commit aims at; `pages` is what the tree walk will see once it is done. */
  datatype Plan = Plan(pages: Pages, next: Superblock, layout: Layout, final: seq<bool>, first: nat, relocate: bool)

  /** A crash: the device state, how many checkpoint writes were durable, what was left, and
      what the next mount came up with. */
  datatype Crash = Crash(s: (RawDisk, Option<Write>), k: nat, img: RawDisk, readOnly: bool, m: Mount)

  datatype Event =
    | Finish(plan: Plan, after: RawDisk)
    | CutPages(plan: Plan, img: RawDisk, readOnly: bool, m: Mount)
    | CutCommit(plan: Plan, after: RawDisk, crash: Crash)
    | Repair
    | CutRepair(crash: Crash)

  function JobOf(v: State, device: nat, p: Plan): Job {
    Job(device, v.current, v.layout, v.bits, p.next, p.layout, p.final, p.first, p.relocate)
  }

  /** The volume as recovery sees it. */
  function View(v: State): Runs.Volume { Runs.Volume(Controls(v.disk), v.current, v.repaired) }

  function Repairs(v: State, device: nat): seq<Write> { HealWrites(Controls(v.disk), device, v.current, 5) }

  ghost predicate Legal(v: State, device: nat, validate: Validator, p: Plan) {
    v.repaired && Arranged(v.disk, p.pages, JobOf(v, device, p)) && KnowsSound(validate, p.next)
  }

  /** What may happen to a volume, without saying what comes of it. */
  ghost predicate Happens(v: State, device: nat, validate: Validator, e: Event) {
    match e
    case Finish(p, after) => Legal(v, device, validate, p) && TreeDone(after, v.disk, p.pages)
    case CutPages(p, img, readOnly, m) =>
      && Legal(v, device, validate, p) && TreeCrash(img, v.disk, p.pages)
      && MountedBy(Controls(img), device, readOnly, validate, m)
    case CutCommit(p, after, c) =>
      && Legal(v, device, validate, p)
      && CommitCrash(c.img, v.disk, p.pages, JobOf(v, device, p), after, c.s, c.k)
      && MountedBy(Controls(c.img), device, c.readOnly, validate, c.m)
    case Repair => !v.repaired
    case CutRepair(c) =>
      && !v.repaired && RawStep(c.s, v.disk, Repairs(v, device), c.k) && RawSurvives(c.img, c.s)
      && MountedBy(Controls(c.img), device, c.readOnly, validate, c.m)
  }

  /** What the mount found is in force from now on. */
  function Mounts(v: State, p: Plan, img: RawDisk, m: Mount): State {
    if m.Mounted? && m.sb == p.next then State(img, p.next, p.layout, p.final, false)
    else State(img, v.current, v.layout, v.bits, false)
  }

  function After(v: State, device: nat, e: Event): State {
    match e
    case Finish(p, after) => State(Completed(after, JobOf(v, device, p)), p.next, p.layout, p.final, true)
    case CutPages(p, img, _, m) => Mounts(v, p, img, m)
    case CutCommit(p, _, c) => Mounts(v, p, c.img, c.m)
    case Repair => v.(disk := RawApply(v.disk, Repairs(v, device)), repaired := true)
    case CutRepair(c) => v.(disk := c.img, repaired := false)
  }

  /** The mount found a superblock it may find, and the map that belongs to it. */
  ghost predicate FoundRight(v: State, device: nat, e: Event) {
    match e
    case Finish(_, _) => true
    case CutPages(p, img, _, m) => RightMap(img, JobOf(v, device, p), m) && m.sb == v.current
    case CutCommit(p, _, c) =>
      && RightMap(c.img, JobOf(v, device, p), c.m)
      && (c.k >= CommitPoint(p.relocate) ==> c.m.sb == p.next)
    case Repair => true
    case CutRepair(c) =>
      c.m.Mounted? && c.m.sb == v.current && MapIs(PagesOf(c.img), device, v.current, v.layout, v.bits)
  }

  ghost predicate Good(v: State, device: nat, validate: Validator) {
    && Runs.Good(View(v), device, validate)
    && MapIs(PagesOf(v.disk), device, v.current, v.layout, v.bits) && CommittedBits(v.current, v.layout, v.bits)
  }

  // One event.

  lemma SettledIsGood(v: State, device: nat, validate: Validator)
    requires Settled(v.disk, device, v.current, v.layout, v.bits) && v.repaired && KnowsSound(validate, v.current)
    ensures Good(v, device, validate)
  {
    hide Newest, ReadsClean, TreeReads, TreeIs, LoadChecks;
  }

  lemma FinishIsGood(v: State, device: nat, validate: Validator, e: Event)
    requires Happens(v, device, validate, e) && e.Finish?
    ensures Good(After(v, device, e), device, validate)
  {
    hide Arranged, TreeDone, Settled, Completed, Good;
    ArrangedSettles(v.disk, e.plan.pages, JobOf(v, device, e.plan), e.after);
    SettledIsGood(After(v, device, e), device, validate);
  }

  lemma HealedIsRepairable(d: Disk, device: nat, sb: Superblock)
    requires device >= MIN_VOLUME && Healed(d, device, sb)
    ensures Runs.Repairable(d, device, sb)
  {
    assert ReachedBy(d, device, 0, 0, sb);
  }

  lemma CutPagesIsGood(v: State, device: nat, validate: Validator, e: Event)
    requires Good(v, device, validate) && Happens(v, device, validate, e) && e.CutPages?
    ensures FoundRight(v, device, e) && Good(After(v, device, e), device, validate)
  {
    hide Healed, Newest, ReadsClean, MountedBy, KnowsSound, MapIs, PagesOf, Controls, CommittedBits, TreeCrash;
    hide Succeeds, Runs.Repairable;
    var j := JobOf(v, device, e.plan);
    TreeCrashIsRight(e.img, v.disk, e.plan.pages, j, e.readOnly, validate, e.m);
    TreeCrashControls(e.img, v.disk, e.plan.pages, j);
    HealedIsRepairable(Controls(e.img), device, v.current);
    NewerDiffers(j);
  }

  lemma CurrentIsSound(v: State, device: nat, validate: Validator)
    requires Good(v, device, validate)
    ensures KnowsSound(validate, v.current)
  {
    hide MapIs, CommittedBits, KnowsSound;
  }

  lemma CutCommitIsGood(v: State, device: nat, validate: Validator, e: Event)
    requires Good(v, device, validate) && Happens(v, device, validate, e) && e.CutCommit?
    ensures FoundRight(v, device, e) && Good(After(v, device, e), device, validate)
  {
    hide Healed, Newest, ReadsClean, MountedBy, KnowsSound, MapIs, PagesOf, Controls, CommittedBits, Succeeds;
    hide Runs.Good, CommitCrash;
    var p, c := e.plan, e.crash;
    var j := JobOf(v, device, p);
    CurrentIsSound(v, device, validate);
    CommitCrashIsRight(c.img, v.disk, p.pages, j, e.after, c.s, c.k, c.readOnly, validate, c.m);
    CutCommitView(v, device, validate, e);
    NewerDiffers(j);
  }

  /** To recovery it is a commit cut short on the disk that the page writes left. */
  lemma CutCommitView(v: State, device: nat, validate: Validator, e: Event)
    requires Good(v, device, validate) && Happens(v, device, validate, e) && e.CutCommit?
    ensures Runs.Good(Runs.Volume(Controls(e.crash.img), if e.crash.m.Mounted? then e.crash.m.sb else v.current, false),
              device, validate)
  {
    hide Healed, Newest, ReadsClean, MountedBy, KnowsSound, MapIs, PagesOf, Controls, CommittedBits, Succeeds;
    hide InStep, Survives, RawStep, RawSurvives, TreeDone, NewPlace, SamePlace;
    var p, c := e.plan, e.crash;
    var j := JobOf(v, device, p);
    DoneControls(e.after, v.disk, p.pages, j);
    ControlsCrash(e.after, JobWrites(j), c.s, c.k, c.img);
    var w := Runs.Volume(Controls(e.after), v.current, true);
    var cut := Runs.Cut(Runs.Plan(p.next, p.first, p.relocate), (Controls(c.s.0), c.s.1), c.k, Controls(c.img),
                        c.readOnly, c.m);
    assert Runs.Legal(w, device, validate, cut.plan);
    assert Runs.CrashAndMount(w.disk, device, validate, Runs.PlanWrites(cut.plan), cut.s, cut.k, cut.img,
             cut.readOnly, cut.m);
    assert Runs.Good(w, device, validate);
    hide Runs.Good, Runs.Legal, Runs.CrashAndMount;
    Runs.CutIsGood(w, device, validate, cut);
  }

  /** A repair writes no page. */
  lemma RepairsElsewhere(v: State, device: nat, b: nat, i: nat)
    requires Mountable(v.current, device) && LoadChecks(v.current, v.layout, v.bits) && b in AllBlocks(v.layout)
    requires i < |Repairs(v, device)|
    ensures Repairs(v, device)[i].block != b
  {
    hide HealWrites;
    HealOrigin(Controls(v.disk), device, v.current, 5);
    var n :| 0 <= n < 5 && NeedsRepair(Controls(v.disk), device, v.current, n) &&
      Repairs(v, device)[i] == Item(v.current, n);
    assert PagePlace(v.current, b);
    assert n < 3 ==> Item(v.current, n).block == v.current.checkpoint[n];
  }

  lemma RepairableIsMountable(v: State, device: nat, validate: Validator)
    requires Good(v, device, validate)
    ensures Mountable(v.current, device)
  {
    hide Mountable, MapIs, CommittedBits;
  }

  lemma MapSurvivesRepair(
    v: State, device: nat, validate: Validator, s: (RawDisk, Option<Write>), k: nat, img: RawDisk)
    requires Good(v, device, validate) && RawStep(s, v.disk, Repairs(v, device), k) && RawSurvives(img, s)
    ensures MapIs(PagesOf(img), device, v.current, v.layout, v.bits)
  {
    hide TreeReads, TreeIs, LoadChecks, PagesOf, Controls, RawStep, RawSurvives, Runs.Good, Mountable, AllBlocks;
    RepairableIsMountable(v, device, validate);
    forall b: nat | b in AllBlocks(v.layout) ensures PageAt(PagesOf(img), b) == PageAt(PagesOf(v.disk), b) {
      forall i | 0 <= i < |Repairs(v, device)| ensures Repairs(v, device)[i].block != b {
        RepairsElsewhere(v, device, b, i);
      }
      PagesCrash(v.disk, Repairs(v, device), s, k, img, b);
    }
    OldTreeStays(PagesOf(v.disk), PagesOf(img), device, v.current, v.layout, v.bits);
  }

  lemma RepairIsGood(v: State, device: nat, validate: Validator)
    requires Good(v, device, validate) && !v.repaired
    ensures Good(After(v, device, Repair), device, validate)
  {
    hide MapIs, PagesOf, Controls, Runs.Good, HealWrites;
    var ws, end := Repairs(v, device), RawApply(v.disk, Repairs(v, device));
    ControlsApply(v.disk, ws);
    Runs.RepairIsGood(View(v), device, validate);
    assert ws[..|ws|] == ws;
    MapSurvivesRepair(v, device, validate, (end, None), |ws|, end);
  }

  lemma CutRepairIsGood(v: State, device: nat, validate: Validator, e: Event)
    requires Good(v, device, validate) && Happens(v, device, validate, e) && e.CutRepair?
    ensures FoundRight(v, device, e) && Good(After(v, device, e), device, validate)
  {
    hide MapIs, PagesOf, Controls, HealWrites, RawStep, RawSurvives, MountedBy, Runs.Good, InStep, Survives;
    var c := e.crash;
    ControlsCrash(v.disk, Repairs(v, device), c.s, c.k, c.img);
    var cut := Runs.CutRepair((Controls(c.s.0), c.s.1), c.k, Controls(c.img), c.readOnly, c.m);
    Runs.CutRepairIsGood(View(v), device, validate, cut);
    MapSurvivesRepair(v, device, validate, c.s, c.k, c.img);
  }

  lemma EventIsGood(v: State, device: nat, validate: Validator, e: Event)
    requires Good(v, device, validate) && Happens(v, device, validate, e)
    ensures FoundRight(v, device, e) && Good(After(v, device, e), device, validate)
  {
    hide Good, Legal, After, TreeDone, TreeCrash, CommitCrash, MountedBy, RawStep, RawSurvives, MapIs, RightMap;
    match e
    case Finish(_, _) => FinishIsGood(v, device, validate, e);
    case CutPages(_, _, _, _) => CutPagesIsGood(v, device, validate, e);
    case CutCommit(_, _, _) => CutCommitIsGood(v, device, validate, e);
    case Repair => RepairIsGood(v, device, validate);
    case CutRepair(_) => CutRepairIsGood(v, device, validate, e);
  }

  // Histories.

  function AfterAll(v: State, device: nat, es: seq<Event>): State {
    if es == [] then v else After(AfterAll(v, device, es[..|es| - 1]), device, es[|es| - 1])
  }

  ghost predicate History(v: State, device: nat, validate: Validator, es: seq<Event>) {
    forall i :: 0 <= i < |es| ==> Happens(AfterAll(v, device, es[..i]), device, validate, es[i])
  }

  lemma HistoryPrefix(v: State, device: nat, validate: Validator, es: seq<Event>, n: nat)
    requires n <= |es| && History(v, device, validate, es)
    ensures History(v, device, validate, es[..n])
  {
    hide Happens, AfterAll;
    forall i | 0 <= i < n ensures Happens(AfterAll(v, device, es[..n][..i]), device, validate, es[..n][i]) {
      assert es[..n][..i] == es[..i];
      assert Happens(AfterAll(v, device, es[..i]), device, validate, es[i]);
    }
  }

  /** After every history the disk holds the map committed under the superblock in force. */
  lemma {:induction false} EveryHistoryIsGood(v: State, device: nat, validate: Validator, es: seq<Event>)
    requires Good(v, device, validate) && History(v, device, validate, es)
    ensures Good(AfterAll(v, device, es), device, validate)
  {
    if es != [] {
      hide Good, Happens, FoundRight, After;
      var n := |es| - 1;
      HistoryPrefix(v, device, validate, es, n);
      EveryHistoryIsGood(v, device, validate, es[..n]);
      assert Happens(AfterAll(v, device, es[..n]), device, validate, es[n]);
      EventIsGood(AfterAll(v, device, es[..n]), device, validate, es[n]);
    }
  }

  /** Over every history of commits, crashes and repairs, each mount finds the superblock in
      force or the one whose commit was cut short, and under it, on the disk that the crash
      left, exactly the bitmap that was committed with it. */
  lemma EveryMapIsRight(v: State, device: nat, validate: Validator, es: seq<Event>, i: nat)
    requires Good(v, device, validate) && History(v, device, validate, es) && i < |es|
    ensures FoundRight(AfterAll(v, device, es[..i]), device, es[i])
  {
    hide Good, Happens, FoundRight, After;
    HistoryPrefix(v, device, validate, es, i);
    EveryHistoryIsGood(v, device, validate, es[..i]);
    assert Happens(AfterAll(v, device, es[..i]), device, validate, es[i]);
    EventIsGood(AfterAll(v, device, es[..i]), device, validate, es[i]);
  }
}
