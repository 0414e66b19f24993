/** Whole histories of a volume: commits that complete, commits cut short by a crash, mounts,
    repairs, and repairs cut short in turn, in any order and any number. */
module CrashRuns {
  import opened Geometry
  import opened Discovery
  import opened Selection
  import opened Publication
  import opened CrashSafety
  import opened Healing

  datatype Plan = Plan(next: Superblock, first: nat, relocate: bool)

  /** A volume between events: its disk, the superblock in force, and whether repair after the
      last crash is complete. */
  datatype Volume = Volume(disk: Disk, current: Superblock, repaired: bool)

  /** `s` is the state of the device at the crash, `k` of the writes were durable, `img` is
      what the crash made of it and `m` what the next mount, for reading or for writing, came
      up with. */
  datatype Event =
    | Finish(plan: Plan)
    | Cut(plan: Plan, s: (Disk, Option<Write>), k: nat, img: Disk, readOnly: bool, m: Mount)
    | Repair
    | CutRepair(s: (Disk, Option<Write>), k: nat, img: Disk, readOnly: bool, m: Mount)

  ghost predicate Legal(v: Volume, device: nat, validate: Validator, p: Plan) {
    && v.repaired && Succeeds(p.next, v.current, device) && KnowsSound(validate, p.next)
    && if p.relocate then NewPlace(p.next, v.current) else SamePlace(v.current, p.next)
  }

  /** The device was `k` writes into `ws`, crashed, and was mounted again. */
  ghost predicate CrashAndMount(
    d: Disk, device: nat, validate: Validator, ws: seq<Write>, s: (Disk, Option<Write>), k: nat,
    img: Disk, readOnly: bool, m: Mount)
  {
    InStep(s, d, ws, k) && Survives(img, s) && MountedBy(img, device, readOnly, validate, m)
  }

  function PlanWrites(p: Plan): seq<Write> { PublishWrites(p.next, p.first, p.relocate) }

  /** What may happen to a volume, without saying what comes of it. */
  ghost predicate Happens(v: Volume, device: nat, validate: Validator, e: Event) {
    match e
    case Finish(p) => Legal(v, device, validate, p)
    case Cut(p, s, k, img, readOnly, m) =>
      Legal(v, device, validate, p) && CrashAndMount(v.disk, device, validate, PlanWrites(p), s, k, img, readOnly, m)
    case Repair => !v.repaired
    case CutRepair(s, k, img, readOnly, m) =>
      && !v.repaired
      && CrashAndMount(v.disk, device, validate, HealWrites(v.disk, device, v.current, 5), s, k, img, readOnly, m)
  }

  function After(v: Volume, device: nat, e: Event): Volume {
    match e
    case Finish(p) => Volume(Apply(v.disk, PlanWrites(p)), p.next, true)
    case Cut(_, _, _, img, _, m) => Volume(img, if m.Mounted? then m.sb else v.current, false)
    case Repair => Volume(Apply(v.disk, HealWrites(v.disk, device, v.current, 5)), v.current, true)
    case CutRepair(_, _, img, _, m) => Volume(img, if m.Mounted? then m.sb else v.current, false)
  }

  function AfterAll(v: Volume, device: nat, es: seq<Event>): Volume {
    if es == [] then v else After(AfterAll(v, device, es[..|es| - 1]), device, es[|es| - 1])
  }

  /** The volume before event `i`. */
  function Before(v: Volume, device: nat, es: seq<Event>, i: nat): Volume
    requires i <= |es|
  {
    AfterAll(v, device, es[..i])
  }

  ghost predicate History(v: Volume, device: nat, validate: Validator, es: seq<Event>) {
    forall i :: 0 <= i < |es| ==> Happens(Before(v, device, es, i), device, validate, es[i])
  }

  /** The mount after an event found what it must: the superblock in force or the one being
      committed, and the latter once it was durable enough to be reported. */
  ghost predicate FoundRight(v: Volume, e: Event) {
    match e
    case Finish(_) => true
    case Cut(p, _, k, _, _, m) =>
      m.Mounted? && m.sb in {v.current, p.next} && (k >= CommitPoint(p.relocate) ==> m.sb == p.next)
    case Repair => true
    case CutRepair(_, _, _, _, m) => m.Mounted? && m.sb == v.current
  }

  /** A disk that needs repair but from which `sb` is not lost whatever interrupts the repair. */
  ghost predicate Repairable(d: Disk, device: nat, sb: Superblock) {
    Mountable(sb, device) && MapsAgreeOnVolume(d, device) && Discoverable(d, device, sb) && Anchored(d, device, sb)
  }

  ghost predicate Good(v: Volume, device: nat, validate: Validator) {
    && device >= MIN_VOLUME && ReadsClean(v.disk) && Newest(v.disk, v.current) && KnowsSound(validate, v.current)
    && if v.repaired then Healed(v.disk, device, v.current) else Repairable(v.disk, device, v.current)
  }

  // Crashed commits.

  ghost predicate OnDisk(d: Disk, sb: Superblock) { exists b :: Read(d, b) == SuperCopy(sb) }

  /** Every block of an image holds what it held, or what was being written to it, or is torn. */
  lemma ImageContents(d: Disk, ws: seq<Write>, s: (Disk, Option<Write>), k: nat, img: Disk, b: nat)
    requires DistinctBlocks(ws) && InStep(s, d, ws, k) && Survives(img, s)
    ensures Read(img, b) == Read(d, b) || Read(img, b) == Torn
      || exists i :: 0 <= i <= k && i < |ws| && ws[i].block == b && Read(img, b) == ws[i].content
  {
    ImageAt(d, ws, s, k, img);
    if i :| 0 <= i < |ws| && ws[i].block == b {
      assert i < k || i == k || k < i;
    }
  }

  lemma PlanDistinct(p: Plan, device: nat)
    requires Mountable(p.next, device)
    ensures DistinctBlocks(PlanWrites(p))
  {
  }

  /** A commit's copies go where the new superblock says. */
  lemma PlanCopies(p: Plan, i: nat)
    requires i < |PlanWrites(p)| && PlanWrites(p)[i].content.SuperCopy?
    ensures PlanWrites(p)[i].content.sb == p.next && PlanWrites(p)[i].block in p.next.checkpoint
  {
  }

  /** After a crash nothing newer than the new superblock is on the disk; and if the new one
      is not, nothing newer than the old one. */
  lemma ImageNewest(d: Disk, device: nat, prev: Superblock, p: Plan, s: (Disk, Option<Write>), k: nat, img: Disk)
    requires Newest(d, prev) && Succeeds(p.next, prev, device)
    requires InStep(s, d, PlanWrites(p), k) && Survives(img, s)
    ensures Newest(img, p.next) && (!OnDisk(img, p.next) ==> Newest(img, prev))
  {
    hide PlanWrites, InStep, Survives, Mountable;
    PlanDistinct(p, device);
    forall b | Read(img, b).SuperCopy?
      ensures OlderOrOwn(Read(img, b).sb, b, p.next)
      ensures Read(img, b).sb != p.next ==> OlderOrOwn(Read(img, b).sb, b, prev)
    {
      ImageContents(d, PlanWrites(p), s, k, img, b);
      if Read(img, b) == Read(d, b) {
        assert OlderOrOwn(Read(d, b).sb, b, prev);
      } else {
        var i :| 0 <= i <= k && i < |PlanWrites(p)| && PlanWrites(p)[i].block == b &&
          Read(img, b) == PlanWrites(p)[i].content;
        PlanCopies(p, i);
      }
    }
    if !OnDisk(img, p.next) {
      forall b | Read(img, b).SuperCopy? ensures OlderOrOwn(Read(img, b).sb, b, prev) {
        assert Read(img, b) == SuperCopy(Read(img, b).sb);
      }
    }
  }

  /** What recovery needs to know of a crashed commit: only the two superblocks and older ones
      can be found, one of the two can, the new one can wherever it is on the disk, and
      whichever is newest is anchored. */
  ghost predicate Crashed(img: Disk, device: nat, prev: Superblock, next: Superblock) {
    && OnlyThese(img, device, prev, next)
    && (Discoverable(img, device, prev) || Discoverable(img, device, next))
    && (OnDisk(img, next) ==> Discoverable(img, device, next))
    && (Discoverable(img, device, next) ==> Anchored(img, device, next))
    && (!Discoverable(img, device, next) ==> Anchored(img, device, prev))
  }

  /** A block of an image that holds the new superblock is one of its copies. */
  lemma WhereNew(d: Disk, device: nat, prev: Superblock, p: Plan, s: (Disk, Option<Write>), k: nat, img: Disk)
    returns (i: nat)
    requires Newest(d, prev) && Succeeds(p.next, prev, device) && OnDisk(img, p.next)
    requires InStep(s, d, PlanWrites(p), k) && Survives(img, s)
    ensures i <= k && i < |PlanWrites(p)| && PlanWrites(p)[i].content == SuperCopy(p.next)
    ensures Read(img, PlanWrites(p)[i].block) == SuperCopy(p.next)
  {
    hide PlanWrites, InStep, Survives, Mountable;
    var b :| Read(img, b) == SuperCopy(p.next);
    PlanDistinct(p, device);
    ImageContents(d, PlanWrites(p), s, k, img, b);
    assert Read(d, b).SuperCopy? ==> OlderOrOwn(Read(d, b).sb, b, prev);
    i :| 0 <= i <= k && i < |PlanWrites(p)| && PlanWrites(p)[i].block == b && Read(img, b) == PlanWrites(p)[i].content;
  }

  lemma InPlaceCrashed(d: Disk, device: nat, prev: Superblock, p: Plan, s: (Disk, Option<Write>), k: nat, img: Disk)
    requires device >= MIN_VOLUME && Healed(d, device, prev) && Newest(d, prev) && Succeeds(p.next, prev, device)
    requires !p.relocate && SamePlace(prev, p.next) && InStep(s, d, PlanWrites(p), k) && Survives(img, s)
    ensures Crashed(img, device, prev, p.next)
  {
    hide InStep, Survives, Newest, OnlyThese, Discoverable;
    InPlaceContents(d, prev, p.next, p.first, s, k, img);
    InPlaceImage(img, device, prev, p.next, if k >= 1 then p.first % 3 else (p.first + 1) % 3);
    if OnDisk(img, p.next) {
      var i := WhereNew(d, device, prev, p, s, k, img);
      InPlaceImage(img, device, prev, p.next, (p.first + i) % 3);
    }
    assert Agrees(prev, Read(img, LOCATOR_A).loc) && Agrees(p.next, Read(img, LOCATOR_A).loc);
  }

  /** Wherever a relocation has put a new copy, locator A leads to it. */
  lemma NewCopyShows(device: nat, next: Superblock, p: Plan, img: Disk, i: nat)
    requires device >= MIN_VOLUME && Mountable(next, device) && p.next == next && p.relocate
    requires i < |PlanWrites(p)| && PlanWrites(p)[i].content == SuperCopy(next)
    requires Read(img, LOCATOR_A) == LocatorCopy(LocatorOf(next))
    requires Read(img, PlanWrites(p)[i].block) == SuperCopy(next)
    ensures Discoverable(img, device, next)
  {
    var j := if i == 3 then 0 else i;
    assert PlanWrites(p)[i].block == next.checkpoint[j];
    assert ReachedBy(img, device, 0, j, next);
  }

  lemma NewIsAnchored(img: Disk, device: nat, prev: Superblock, next: Superblock)
    requires NewPlace(next, prev) && Read(img, 0) in {SuperCopy(prev), SuperCopy(next), Torn}
    requires Discoverable(img, device, next)
    ensures Anchored(img, device, next)
  {
    var i, j :| 0 <= i < 3 && 0 <= j < 3 && ReachedBy(img, device, i, j, next);
    if i < 2 {
      assert Decodes(Read(img, MapBlock(i)), device) && Agrees(next, Read(img, MapBlock(i)).loc);
    } else {
      assert Read(img, 0).SuperCopy? && Read(img, 0).sb.checkpoint == next.checkpoint;
    }
  }

  lemma RelocationCrashed(
    d: Disk, device: nat, prev: Superblock, p: Plan, s: (Disk, Option<Write>), k: nat, img: Disk)
    requires device >= MIN_VOLUME && Healed(d, device, prev) && Newest(d, prev) && Succeeds(p.next, prev, device)
    requires p.relocate && NewPlace(p.next, prev) && InStep(s, d, PlanWrites(p), k) && Survives(img, s)
    ensures Crashed(img, device, prev, p.next)
  {
    hide InStep, Survives, Newest, Discoverable, OnlyThese, FreshPlace;
    NewestIsFresh(d, p.next, prev, device);
    RelocationContents(d, device, prev, p.next, p.first, s, k, img);
    RelocationImage(img, device, prev, p.next);
    if OnDisk(img, p.next) {
      var i := WhereNew(d, device, prev, p, s, k, img);
      assert i > 0;
      NewCopyShows(device, p.next, p, img, i);
    }
    if Discoverable(img, device, p.next) { NewIsAnchored(img, device, prev, p.next); }
  }

  lemma CrashedEither(d: Disk, device: nat, prev: Superblock, p: Plan, s: (Disk, Option<Write>), k: nat, img: Disk)
    requires device >= MIN_VOLUME && Healed(d, device, prev) && Newest(d, prev) && Succeeds(p.next, prev, device)
    requires if p.relocate then NewPlace(p.next, prev) else SamePlace(prev, p.next)
    requires InStep(s, d, PlanWrites(p), k) && Survives(img, s)
    ensures Crashed(img, device, prev, p.next)
  {
    hide Crashed, Healed, Newest, Succeeds, NewPlace, SamePlace, PlanWrites, InStep, Survives;
    if p.relocate {
      RelocationCrashed(d, device, prev, p, s, k, img);
    } else {
      InPlaceCrashed(d, device, prev, p, s, k, img);
    }
  }

  /** A commit cut short leaves a disk that repair can be cut short on. */
  lemma CutIsGood(v: Volume, device: nat, validate: Validator, e: Event)
    requires Good(v, device, validate) && Happens(v, device, validate, e) && e.Cut?
    ensures FoundRight(v, e) && Good(After(v, device, e), device, validate)
  {
    hide Healed, Newest, Succeeds, NewPlace, SamePlace, InStep, Survives, MountedBy, KnowsSound, PlanWrites, ReadsClean;
    hide Discoverable, OnlyThese, MapsAgreeOnVolume, Anchored, Mountable;
    var prev, next, img := v.current, e.plan.next, e.img;
    CutSurvives(v, device, validate, e);
    CrashedEither(v.disk, device, prev, e.plan, e.s, e.k, img);
    ImageNewest(v.disk, device, prev, e.plan, e.s, e.k, img);
    BothMountable(v, device, validate, e);
    CutStaysClean(v.disk, device, e.plan, e.s, e.k, img);
    CutMount(v, device, validate, e);
    OneVolumeOnly(img, device, prev, next);
  }

  lemma OneVolumeOnly(img: Disk, device: nat, prev: Superblock, next: Superblock)
    requires OnlyThese(img, device, prev, next)
    ensures MapsAgreeOnVolume(img, device)
  {
  }

  lemma CutSurvives(v: Volume, device: nat, validate: Validator, e: Event)
    requires Good(v, device, validate) && Happens(v, device, validate, e) && e.Cut?
    ensures FoundRight(v, e)
  {
    hide Healed, Newest, InStep, Survives, MountedBy, KnowsSound, ReadsClean;
    var p := e.plan;
    if p.relocate {
      assert FreshPlace(v.disk, p.next, v.current) && Recoverable(v.disk, device, v.current) by {
        RelocationReady(v.disk, device, v.current, p.next);
      }
      hide Recoverable, FreshPlace, Succeeds;
      RelocationSurvives(v.disk, device, e.readOnly, validate, v.current, p.next, p.first, e.s, e.k, e.img, e.m);
    } else {
      hide Recoverable, FreshPlace, Succeeds, SamePlace;
      OrdinaryCommitSurvives(v.disk, device, e.readOnly, validate, v.current, p.next, p.first, e.s, e.k, e.img, e.m);
    }
  }

  lemma RelocationReady(d: Disk, device: nat, prev: Superblock, next: Superblock)
    requires Healed(d, device, prev) && Newest(d, prev) && Succeeds(next, prev, device) && NewPlace(next, prev)
    ensures FreshPlace(d, next, prev) && Recoverable(d, device, prev)
  {
    NewestIsFresh(d, next, prev, device);
  }

  lemma BothMountable(v: Volume, device: nat, validate: Validator, e: Event)
    requires Good(v, device, validate) && Happens(v, device, validate, e) && e.Cut?
    ensures Mountable(e.plan.next, device) && Mountable(v.current, device)
  {
    hide Mountable, Newest, CrashAndMount, KnowsSound;
  }

  /** The mount takes the newest of the two that can be found. */
  lemma CutMount(v: Volume, device: nat, validate: Validator, e: Event)
    requires Good(v, device, validate) && Happens(v, device, validate, e) && e.Cut?
    requires Crashed(e.img, device, v.current, e.plan.next) && ReadsClean(e.img)
    ensures e.m.Mounted? && e.m.sb == if Discoverable(e.img, device, e.plan.next) then e.plan.next else v.current
  {
    hide InStep, Survives, MountedBy, Discoverable, OnlyThese, Newest, ReadsClean, Mountable, Anchored;
    MountsNewest(e.img, device, e.readOnly, validate, v.current, e.plan.next, e.m);
  }

  lemma CutStaysClean(d: Disk, device: nat, p: Plan, s: (Disk, Option<Write>), k: nat, img: Disk)
    requires ReadsClean(d) && Mountable(p.next, device) && InStep(s, d, PlanWrites(p), k) && Survives(img, s)
    ensures ReadsClean(img)
  {
    hide InStep, Survives, ReadsClean;
    PlanDistinct(p, device);
    CleanImage(d, PlanWrites(p), s, k, img);
  }

  // Repairs.

  predicate OwnWrite(w: Write, sb: Superblock) {
    !w.content.Unreadable? && (w.content.SuperCopy? ==> OlderOrOwn(w.content.sb, w.block, sb))
  }

  ghost predicate OwnWrites(ws: seq<Write>, sb: Superblock) { forall i :: 0 <= i < |ws| ==> OwnWrite(ws[i], sb) }

  lemma {:induction false} HealsNewest(d: Disk, ws: seq<Write>, sb: Superblock)
    requires Newest(d, sb) && OwnWrites(ws, sb)
    ensures Newest(Apply(d, ws), sb)
  {
    if ws != [] {
      var init, w := ws[..|ws| - 1], ws[|ws| - 1];
      HealsNewest(d, init, sb);
      assert OwnWrite(w, sb);
      forall b | Read(Apply(d, ws), b).SuperCopy? ensures OlderOrOwn(Read(Apply(d, ws), b).sb, b, sb) {
        assert b == w.block || Read(Apply(d, ws), b) == Read(Apply(d, init), b);
      }
    }
  }

  /** Repair writes the selected superblock to its own copy blocks, and locators. */
  lemma HealWritesOwn(d: Disk, device: nat, sb: Superblock)
    requires Mountable(sb, device)
    ensures OwnWrites(HealWrites(d, device, sb, 5), sb)
  {
    hide HealWrites;
    HealOrigin(d, device, sb, 5);
    var ws := HealWrites(d, device, sb, 5);
    forall i | 0 <= i < |ws| ensures OwnWrite(ws[i], sb) {
      var j :| 0 <= j < 5 && NeedsRepair(d, device, sb, j) && ws[i] == Item(sb, j);
    }
  }

  lemma OwnClean(d: Disk, ws: seq<Write>, sb: Superblock)
    requires ReadsClean(d) && OwnWrites(ws, sb)
    ensures ReadsClean(Apply(d, ws))
  {
    forall i | 0 <= i < |ws| ensures !ws[i].content.Unreadable? { assert OwnWrite(ws[i], sb); }
    AppliesClean(d, ws);
  }

  lemma RepairIsGood(v: Volume, device: nat, validate: Validator)
    requires Good(v, device, validate) && !v.repaired
    ensures Good(After(v, device, Repair), device, validate)
  {
    hide HealWrites, Newest, ReadsClean, Healed, Discoverable, Anchored, MapsAgreeOnVolume;
    HealWritesOwn(v.disk, device, v.current);
    HealsNewest(v.disk, HealWrites(v.disk, device, v.current, 5), v.current);
    OwnClean(v.disk, HealWrites(v.disk, device, v.current, 5), v.current);
    HealedAtEnd(v.disk, device, v.current);
  }

  lemma NewestDiscoverable(d: Disk, device: nat, sb: Superblock, t: Superblock)
    requires Newest(d, sb) && Discoverable(d, device, t)
    ensures t == sb || t.generation < sb.generation
  {
    var i, j :| 0 <= i < 3 && 0 <= j < 3 && ReachedBy(d, device, i, j, t);
    var b := MapAt(d, device, i).value.checkpoint[j];
    assert Read(d, b) == SuperCopy(t) && OlderOrOwn(t, b, sb);
  }

  lemma ImageStaysNewest(d: Disk, ws: seq<Write>, s: (Disk, Option<Write>), k: nat, img: Disk, sb: Superblock)
    requires Newest(d, sb) && DistinctBlocks(ws) && InStep(s, d, ws, k) && Survives(img, s)
    requires OwnWrites(ws, sb)
    ensures Newest(img, sb)
  {
    hide InStep, Survives;
    forall b | Read(img, b).SuperCopy? ensures OlderOrOwn(Read(img, b).sb, b, sb) {
      ImageContents(d, ws, s, k, img, b);
      if Read(img, b) == Read(d, b) {
        assert OlderOrOwn(Read(d, b).sb, b, sb);
      } else {
        var i :| 0 <= i <= k && i < |ws| && ws[i].block == b && Read(img, b) == ws[i].content;
        assert OwnWrite(ws[i], sb);
      }
    }
  }

  /** An interrupted repair has not given up its anchor. */
  lemma StillAnchored(img: Disk, d: Disk, device: nat, sb: Superblock)
    requires Mountable(sb, device) && PartlyHealed(img, d, device, sb) && Anchored(d, device, sb)
    ensures Anchored(img, device, sb)
  {
    assert sb.checkpoint[0] == 0;
    if Read(d, 0) == SuperCopy(sb) {
      assert Read(img, sb.checkpoint[0]) == SuperCopy(sb);
    } else if !HoldsCopies(img, sb) {
      var b :| b in {LOCATOR_A, LOCATOR_B} && Decodes(Read(d, b), device) && Agrees(sb, Read(d, b).loc);
      assert Read(img, b) == Read(d, b);
    }
  }

  /** A repair cut short anywhere mounts the same superblock and can be repeated. */
  lemma CutRepairIsGood(v: Volume, device: nat, validate: Validator, e: Event)
    requires Good(v, device, validate) && Happens(v, device, validate, e) && e.CutRepair?
    ensures FoundRight(v, e) && Good(After(v, device, e), device, validate)
  {
    hide HealWrites, Newest, ReadsClean, Discoverable, MapsAgreeOnVolume, InStep, Survives, MountedBy, KnowsSound;
    hide Anchored, PartlyHealed, ImageOf, Mountable;
    var d, sb, ws := v.disk, v.current, HealWrites(v.disk, device, v.current, 5);
    forall t | Discoverable(d, device, t) ensures t == sb || t.generation < sb.generation {
      NewestDiscoverable(d, device, sb, t);
    }
    HealingSurvives(d, device, e.readOnly, validate, sb, e.s, e.k, e.img, e.m);
    HealImage(d, device, sb, e.s, e.k, e.img);
    HealContents(d, device, sb, e.k, e.img);
    StillOneVolume(e.img, d, device, sb);
    StillDiscoverable(e.img, d, device, sb);
    StillAnchored(e.img, d, device, sb);
    HealOrigin(d, device, sb, 5);
    HealWritesOwn(d, device, sb);
    ImageStaysNewest(d, ws, e.s, e.k, e.img, sb);
  }

  lemma FinishIsGood(v: Volume, device: nat, validate: Validator, p: Plan)
    requires Good(v, device, validate) && Legal(v, device, validate, p)
    ensures Good(After(v, device, Finish(p)), device, validate)
  {
    hide Newest, ReadsClean, KnowsSound, SamePlace, NewPlace, Succeeds;
    assert Recoverable(v.disk, device, v.current);
    hide Healed, Recoverable;
    CommitHeals(v.disk, device, v.current, p.next, p.first, p.relocate);
    CommitKeepsNewest(v.disk, device, v.current, p.next, p.first, p.relocate);
    StaysClean(v.disk, p.next, p.first, p.relocate);
  }

  lemma EventIsGood(v: Volume, device: nat, validate: Validator, e: Event)
    requires Good(v, device, validate) && Happens(v, device, validate, e)
    ensures FoundRight(v, e) && Good(After(v, device, e), device, validate)
  {
    hide Good, Legal, CrashAndMount, After;
    match e
    case Finish(p) => FinishIsGood(v, device, validate, p);
    case Cut(_, _, _, _, _, _) => CutIsGood(v, device, validate, e);
    case Repair => RepairIsGood(v, device, validate);
    case CutRepair(_, _, _, _, _) => CutRepairIsGood(v, device, validate, e);
  }

  lemma SameBefore(v: Volume, device: nat, es: seq<Event>, n: nat, i: nat)
    requires i <= n <= |es|
    ensures Before(v, device, es[..n], i) == Before(v, device, es, i)
  {
    assert es[..n][..i] == es[..i];
  }

  lemma HistoryPrefix(v: Volume, device: nat, validate: Validator, es: seq<Event>, n: nat)
    requires n <= |es| && History(v, device, validate, es)
    ensures History(v, device, validate, es[..n])
  {
    hide Happens, AfterAll;
    forall i | 0 <= i < n ensures Happens(Before(v, device, es[..n], i), device, validate, es[..n][i]) {
      assert Happens(Before(v, device, es, i), device, validate, es[i]);
      SameBefore(v, device, es, n, i);
    }
  }

  /** After every history of commits, crashes and repairs the volume is good. */
  lemma {:induction false} EveryHistoryIsGood(v: Volume, device: nat, validate: Validator, es: seq<Event>)
    requires Good(v, device, validate) && History(v, device, validate, es)
    ensures Good(AfterAll(v, device, es), device, validate)
  {
    if es != [] {
      hide Good, Happens, FoundRight, After;
      var n := |es| - 1;
      HistoryPrefix(v, device, validate, es, n);
      EveryHistoryIsGood(v, device, validate, es[..n]);
      assert Happens(Before(v, device, es, n), device, validate, es[n]);
      EventIsGood(AfterAll(v, device, es[..n]), device, validate, es[n]);
    }
  }

  /** Over every history of commits, crashes and repairs, each mount finds the superblock in
      force or the one whose commit was cut short, and the latter once it was committed; a
      crashed repair always comes back to what it was repairing. */
  lemma EveryMountIsRight(v: Volume, device: nat, validate: Validator, es: seq<Event>, i: nat)
    requires Good(v, device, validate) && History(v, device, validate, es) && i < |es|
    ensures FoundRight(Before(v, device, es, i), es[i])
  {
    hide Good, Happens, FoundRight, After;
    HistoryPrefix(v, device, validate, es, i);
    EveryHistoryIsGood(v, device, validate, es[..i]);
    assert Happens(Before(v, device, es, i), device, validate, es[i]);
    EventIsGood(Before(v, device, es, i), device, validate, es[i]);
  }
}
