/** Repair after a mount: rewriting the copies and locators that disagree with the selected
    superblock, and exactly when a crash during that repair can lose it. */
module Healing {
  import opened Geometry
  import opened Discovery
  import opened Selection
  import opened Publication
  import opened CrashSafety

  /** Repair item `n`: the three copies in order, then locators A and B. */
  function Item(sb: Superblock, n: nat): Write
    requires n < 5
  {
    if n < 3 then CopyWrite(sb, n) else LocatorWrite(sb, n - 3)
  }

  predicate NeedsRepair(d: Disk, device: nat, sb: Superblock, n: nat)
    requires n < 5
  {
    var c := Read(d, Item(sb, n).block);
    if n < 3 then c != SuperCopy(sb) else !Locates(c, device, sb)
  }

  /** The writes that the first `n` items of a repair of `d` amount to. */
  function HealWrites(d: Disk, device: nat, sb: Superblock, n: nat): seq<Write>
    requires n <= 5
  {
    if n == 0 then []
    else HealWrites(d, device, sb, n - 1) + if NeedsRepair(d, device, sb, n - 1) then [Item(sb, n - 1)] else []
  }

  lemma HealPrefix(d: Disk, device: nat, sb: Superblock, n: nat)
    requires n <= 5
    ensures HealWrites(d, device, sb, n) <= HealWrites(d, device, sb, 5)
    decreases 5 - n
  {
    if n < 5 { HealPrefix(d, device, sb, n + 1); }
  }

  /** Where each write of a repair comes from. */
  lemma {:induction false} HealOrigin(d: Disk, device: nat, sb: Superblock, n: nat)
    requires n <= 5 && Mountable(sb, device)
    ensures DistinctBlocks(HealWrites(d, device, sb, n))
    ensures forall i :: 0 <= i < |HealWrites(d, device, sb, n)| ==>
      exists j :: 0 <= j < n && NeedsRepair(d, device, sb, j) && HealWrites(d, device, sb, n)[i] == Item(sb, j)
    ensures forall j :: 0 <= j < n && NeedsRepair(d, device, sb, j) ==> Item(sb, j) in HealWrites(d, device, sb, n)
  {
    if n > 0 {
      HealOrigin(d, device, sb, n - 1);
      var ws := HealWrites(d, device, sb, n - 1);
      forall i | 0 <= i < |ws| ensures ws[i].block != Item(sb, n - 1).block {
        var j :| 0 <= j < n - 1 && NeedsRepair(d, device, sb, j) && ws[i] == Item(sb, j);
        ItemsDiffer(sb, device, j, n - 1);
      }
    }
  }

  lemma ItemsDiffer(sb: Superblock, device: nat, i: nat, j: nat)
    requires i < j < 5 && Mountable(sb, device)
    ensures Item(sb, i).block != Item(sb, j).block
  {
  }

  /** One item: read it, and rewrite it durably unless it is already right. */
  method HealItem(dev: Device, sb: Superblock, i: nat, ghost d: Disk) returns (ok: bool)
    requires i < 5 && dev.inDoubt.None? && Mountable(sb, dev.blocks)
    requires dev.media == Apply(d, HealWrites(d, dev.blocks, sb, i))
    modifies dev
    ensures ok ==> dev.inDoubt.None? && dev.media == Apply(d, HealWrites(d, dev.blocks, sb, i + 1))
    ensures !ok ==>
      InStep((dev.media, dev.inDoubt), d, HealWrites(d, dev.blocks, sb, 5), |HealWrites(d, dev.blocks, sb, i)|)
    ensures |dev.history| >= |old(dev.history)| && dev.history[..|old(dev.history)|] == old(dev.history)
    ensures OnTheWay(dev.history, |old(dev.history)|, |dev.history|, d, HealWrites(d, dev.blocks, sb, 5),
              0, |HealWrites(d, dev.blocks, sb, 5)| + 1)
  {
    hide HealWrites, Apply, Mountable;
    ghost var ws, done := HealWrites(d, dev.blocks, sb, 5), |HealWrites(d, dev.blocks, sb, i)|;
    NextItem(d, dev.blocks, sb, i);
    Untouched(d, dev.blocks, sb, i);
    var raw := Read(dev.media, Item(sb, i).block);
    if raw.Unreadable? { return false; }
    if (if i < 3 then raw == SuperCopy(sb) else Locates(raw, dev.blocks, sb)) { return true; }
    ghost var h := |dev.history|;
    ok := Stage(dev, Item(sb, i), d, ws, done);
    Widen(dev.history, h, if ok then |dev.history| - 1 else |dev.history|, d, ws, done, done + 1, 0, |ws| + 1);
    assert Reached((dev.media, dev.inDoubt), d, ws, 0, |ws| + 1);
  }

  lemma NextItem(d: Disk, device: nat, sb: Superblock, i: nat)
    requires i < 5
    ensures var ws, done := HealWrites(d, device, sb, 5), |HealWrites(d, device, sb, i)|;
      && done <= |ws| && ws[..done] == HealWrites(d, device, sb, i)
      && if NeedsRepair(d, device, sb, i)
         then done < |ws| && ws[done] == Item(sb, i) && HealWrites(d, device, sb, i + 1) == ws[..done + 1]
         else HealWrites(d, device, sb, i + 1) == HealWrites(d, device, sb, i)
  {
    HealPrefix(d, device, sb, i);
    HealPrefix(d, device, sb, i + 1);
    var ws, next := HealWrites(d, device, sb, 5), HealWrites(d, device, sb, i + 1);
    assert next == HealWrites(d, device, sb, i) + if NeedsRepair(d, device, sb, i) then [Item(sb, i)] else [];
    assert next == ws[..|next|];
  }

  lemma NothingHealed(d: Disk, device: nat, sb: Superblock)
    ensures Apply(d, HealWrites(d, device, sb, 0)) == d
  {
  }

  lemma AllHealed(d: Disk, ws: seq<Write>)
    ensures InStep((Apply(d, ws), None), d, ws, |ws|)
  {
    assert ws[..|ws|] == ws;
  }

  /** The repair loop. On failure writes are refused until the volume is mounted again. */
  method Heal(dev: Device, sb: Superblock)
    returns (ok: bool, writePoisoned: bool, repairNeeded: bool, ghost done: nat)
    requires dev.inDoubt.None? && Mountable(sb, dev.blocks)
    modifies dev
    ensures InStep((dev.media, dev.inDoubt), old(dev.media), HealWrites(old(dev.media), dev.blocks, sb, 5), done)
    ensures ok ==> dev.inDoubt.None? && Healed(dev.media, dev.blocks, sb)
    ensures writePoisoned == repairNeeded == !ok
    ensures |dev.history| >= |old(dev.history)| && dev.history[..|old(dev.history)|] == old(dev.history)
    ensures OnTheWay(dev.history, |old(dev.history)|, |dev.history|, old(dev.media),
              HealWrites(old(dev.media), dev.blocks, sb, 5), 0, |HealWrites(old(dev.media), dev.blocks, sb, 5)| + 1)
  {
    assert dev.blocks >= MIN_VOLUME;
    hide HealWrites, Apply, Mountable, Healed, InStep, Reached;
    ghost var d, ws, h := dev.media, HealWrites(dev.media, dev.blocks, sb, 5), |dev.history|;
    NothingHealed(d, dev.blocks, sb);
    for i := 0 to 5
      invariant dev.inDoubt.None? && dev.media == Apply(d, HealWrites(d, dev.blocks, sb, i))
      invariant |dev.history| >= h && dev.history[..h] == old(dev.history)
      invariant OnTheWay(dev.history, h, |dev.history|, d, ws, 0, |ws| + 1)
    {
      ghost var before := dev.history;
      ok := HealItem(dev, sb, i, d);
      Join(before, dev.history, h, |dev.history|, d, ws, 0, |ws| + 1);
      if !ok { return false, true, true, |HealWrites(d, dev.blocks, sb, i)|; }
    }
    done := |ws|;
    AllHealed(d, ws);
    HealedAtEnd(d, dev.blocks, sb);
    ok, writePoisoned, repairNeeded := true, false, false;
  }

  /** Items not reached yet are as the mount found them. */
  lemma Untouched(d: Disk, device: nat, sb: Superblock, n: nat)
    requires n < 5 && Mountable(sb, device)
    ensures Read(Apply(d, HealWrites(d, device, sb, n)), Item(sb, n).block) == Read(d, Item(sb, n).block)
  {
    HealOrigin(d, device, sb, n);
    var ws := HealWrites(d, device, sb, n);
    ApplyAt(d, ws);
    forall i | 0 <= i < |ws| ensures ws[i].block != Item(sb, n).block {
      var j :| 0 <= j < n && NeedsRepair(d, device, sb, j) && ws[i] == Item(sb, j);
      ItemsDiffer(sb, device, j, n);
    }
  }

  /** Afterwards an item holds what it should, or what it already held when that was right. */
  lemma ItemAtEnd(d: Disk, device: nat, sb: Superblock, n: nat)
    requires n < 5 && Mountable(sb, device)
    ensures Read(Apply(d, HealWrites(d, device, sb, 5)), Item(sb, n).block) ==
      if NeedsRepair(d, device, sb, n) then Item(sb, n).content else Read(d, Item(sb, n).block)
  {
    HealOrigin(d, device, sb, 5);
    var ws := HealWrites(d, device, sb, 5);
    ApplyAt(d, ws);
    if !NeedsRepair(d, device, sb, n) {
      forall i | 0 <= i < |ws| ensures ws[i].block != Item(sb, n).block {
        var j :| 0 <= j < 5 && NeedsRepair(d, device, sb, j) && ws[i] == Item(sb, j);
        ItemsDiffer(sb, device, if j < n then j else n, if j < n then n else j);
      }
    }
  }

  lemma HealedAtEnd(d: Disk, device: nat, sb: Superblock)
    requires Mountable(sb, device) && device >= MIN_VOLUME
    ensures Healed(Apply(d, HealWrites(d, device, sb, 5)), device, sb)
  {
    forall n | 0 <= n < 5 ensures Read(Apply(d, HealWrites(d, device, sb, 5)), Item(sb, n).block) ==
      if NeedsRepair(d, device, sb, n) then Item(sb, n).content else Read(d, Item(sb, n).block)
    {
      ItemAtEnd(d, device, sb, n);
    }
    assert Item(sb, 3).block == LOCATOR_A && Item(sb, 4).block == LOCATOR_B;
    assert Item(sb, 0).block == sb.checkpoint[0] && Item(sb, 1).block == sb.checkpoint[1];
    assert Item(sb, 2).block == sb.checkpoint[2];
  }

  /** The maps that repair will not touch before every copy is durable. */
  ghost predicate Anchored(d: Disk, device: nat, sb: Superblock) {
    || Read(d, 0) == SuperCopy(sb)
    || (exists b :: b in {LOCATOR_A, LOCATOR_B} && Decodes(Read(d, b), device) && Agrees(sb, Read(d, b).loc))
  }

  /** What a crash during repair may leave, block by block. */
  ghost predicate PartlyHealed(img: Disk, d: Disk, device: nat, sb: Superblock) {
    && (forall j :: 0 <= j < 3 ==> Read(img, sb.checkpoint[j]) in {Read(d, sb.checkpoint[j]), SuperCopy(sb), Torn})
    && (forall j :: 0 <= j < 3 && Read(d, sb.checkpoint[j]) == SuperCopy(sb) ==>
        Read(img, sb.checkpoint[j]) == SuperCopy(sb))
    && (forall b :: b in {LOCATOR_A, LOCATOR_B} ==> Read(img, b) in {Read(d, b), LocatorCopy(LocatorOf(sb)), Torn})
    && (HoldsCopies(img, sb) || forall b :: b in {LOCATOR_A, LOCATOR_B} ==> Read(img, b) == Read(d, b))
    && (forall b :: b !in sb.checkpoint && b !in {LOCATOR_A, LOCATOR_B} ==> Read(img, b) == Read(d, b))
  }

  ghost predicate ImageOf(d: Disk, ws: seq<Write>, k: nat, img: Disk) {
    && k <= |ws|
    && (forall i :: 0 <= i < k ==> Read(img, ws[i].block) == ws[i].content)
    && (forall i :: k < i < |ws| ==> Read(img, ws[i].block) == Read(d, ws[i].block))
    && (k < |ws| ==> Read(img, ws[k].block) in {Read(d, ws[k].block), ws[k].content, Torn})
    && (forall b :: (forall i :: 0 <= i < |ws| ==> ws[i].block != b) ==> Read(img, b) == Read(d, b))
  }

  lemma HealImage(d: Disk, device: nat, sb: Superblock, s: (Disk, Option<Write>), k: nat, img: Disk)
    requires Mountable(sb, device)
    requires InStep(s, d, HealWrites(d, device, sb, 5), k) && Survives(img, s)
    ensures ImageOf(d, HealWrites(d, device, sb, 5), k, img)
    ensures ReadsClean(d) ==> ReadsClean(img)
  {
    var ws := HealWrites(d, device, sb, 5);
    HealOrigin(d, device, sb, 5);
    ImageAt(d, ws, s, k, img);
    forall i | 0 <= i < |ws| ensures !ws[i].content.Unreadable? {
      var j :| 0 <= j < 5 && NeedsRepair(d, device, sb, j) && ws[i] == Item(sb, j);
    }
    if ReadsClean(d) { CleanImage(d, ws, s, k, img); }
  }

  lemma ItemInImage(d: Disk, device: nat, sb: Superblock, k: nat, img: Disk, n: nat)
    requires n < 5 && Mountable(sb, device) && ImageOf(d, HealWrites(d, device, sb, 5), k, img)
    ensures Read(img, Item(sb, n).block) in {Read(d, Item(sb, n).block), Item(sb, n).content, Torn}
    ensures !NeedsRepair(d, device, sb, n) ==> Read(img, Item(sb, n).block) == Read(d, Item(sb, n).block)
  {
    HealOrigin(d, device, sb, 5);
    var ws := HealWrites(d, device, sb, 5);
    if NeedsRepair(d, device, sb, n) {
      var i :| 0 <= i < |ws| && ws[i] == Item(sb, n);
      assert i < k || i == k || k < i;
    } else {
      forall i | 0 <= i < |ws| ensures ws[i].block != Item(sb, n).block {
        var j :| 0 <= j < 5 && NeedsRepair(d, device, sb, j) && ws[i] == Item(sb, j);
        ItemsDiffer(sb, device, if j < n then j else n, if j < n then n else j);
      }
    }
  }

  lemma OthersInImage(d: Disk, device: nat, sb: Superblock, k: nat, img: Disk, b: nat)
    requires Mountable(sb, device) && ImageOf(d, HealWrites(d, device, sb, 5), k, img)
    requires b !in sb.checkpoint && b !in {LOCATOR_A, LOCATOR_B}
    ensures Read(img, b) == Read(d, b)
  {
    HealOrigin(d, device, sb, 5);
    var ws := HealWrites(d, device, sb, 5);
    forall i | 0 <= i < |ws| ensures ws[i].block != b {
      var j :| 0 <= j < 5 && NeedsRepair(d, device, sb, j) && ws[i] == Item(sb, j);
      assert j < 3 ==> Item(sb, j).block == sb.checkpoint[j];
    }
  }

  /** Once the copy writes are done, each copy is in place. */
  lemma CopyDone(d: Disk, device: nat, sb: Superblock, k: nat, img: Disk, j: nat)
    requires j < 3 && Mountable(sb, device) && ImageOf(d, HealWrites(d, device, sb, 5), k, img)
    requires k >= |HealWrites(d, device, sb, 3)|
    ensures Read(img, sb.checkpoint[j]) == SuperCopy(sb)
  {
    ItemInImage(d, device, sb, k, img, j);
    if NeedsRepair(d, device, sb, j) {
      HealOrigin(d, device, sb, 3);
      HealPrefix(d, device, sb, 3);
      var ws, copies := HealWrites(d, device, sb, 5), HealWrites(d, device, sb, 3);
      var i :| 0 <= i < |copies| && copies[i] == Item(sb, j);
      assert ws[i] == Item(sb, j);
    }
  }

  /** Until then, no locator is touched. */
  lemma LocatorWaits(d: Disk, device: nat, sb: Superblock, k: nat, img: Disk, n: nat)
    requires 3 <= n < 5 && Mountable(sb, device) && ImageOf(d, HealWrites(d, device, sb, 5), k, img)
    requires k < |HealWrites(d, device, sb, 3)|
    ensures Read(img, Item(sb, n).block) == Read(d, Item(sb, n).block)
  {
    var ws, copies := HealWrites(d, device, sb, 5), HealWrites(d, device, sb, 3);
    if NeedsRepair(d, device, sb, n) {
      HealOrigin(d, device, sb, 5);
      var i :| 0 <= i < |ws| && ws[i] == Item(sb, n);
      LocatorsLast(d, device, sb, i, n);
    } else {
      ItemInImage(d, device, sb, k, img, n);
    }
  }

  lemma LocatorsLast(d: Disk, device: nat, sb: Superblock, i: nat, n: nat)
    requires 3 <= n < 5 && Mountable(sb, device)
    requires i < |HealWrites(d, device, sb, 5)| && HealWrites(d, device, sb, 5)[i] == Item(sb, n)
    ensures i >= |HealWrites(d, device, sb, 3)|
  {
    var ws, copies := HealWrites(d, device, sb, 5), HealWrites(d, device, sb, 3);
    HealPrefix(d, device, sb, 3);
    HealOrigin(d, device, sb, 3);
    if i < |copies| {
      assert copies[i] == ws[i];
      var j :| 0 <= j < 3 && NeedsRepair(d, device, sb, j) && copies[i] == Item(sb, j);
      ItemsDiffer(sb, device, j, n);
    }
  }

  lemma HealContents(d: Disk, device: nat, sb: Superblock, k: nat, img: Disk)
    requires Mountable(sb, device) && ImageOf(d, HealWrites(d, device, sb, 5), k, img)
    ensures PartlyHealed(img, d, device, sb)
  {
    forall b: nat | b !in sb.checkpoint && b !in {LOCATOR_A, LOCATOR_B} ensures Read(img, b) == Read(d, b) {
      OthersInImage(d, device, sb, k, img, b);
    }
    forall n | 0 <= n < 5
      ensures Read(img, Item(sb, n).block) in {Read(d, Item(sb, n).block), Item(sb, n).content, Torn}
      ensures !NeedsRepair(d, device, sb, n) ==> Read(img, Item(sb, n).block) == Read(d, Item(sb, n).block)
    {
      ItemInImage(d, device, sb, k, img, n);
    }
    assert Item(sb, 3).block == LOCATOR_A && Item(sb, 4).block == LOCATOR_B;
    if k >= |HealWrites(d, device, sb, 3)| {
      CopyDone(d, device, sb, k, img, 0);
      CopyDone(d, device, sb, k, img, 1);
      CopyDone(d, device, sb, k, img, 2);
    } else {
      LocatorWaits(d, device, sb, k, img, 3);
      LocatorWaits(d, device, sb, k, img, 4);
    }
    assert forall j :: 0 <= j < 3 ==> Item(sb, j).block == sb.checkpoint[j];
  }

  /** A map in the image either describes the selected geometry or is as it was. */
  lemma MapInImage(img: Disk, d: Disk, device: nat, sb: Superblock, i: nat)
    requires Mountable(sb, device) && PartlyHealed(img, d, device, sb) && i < 3 && MapAt(img, device, i).Some?
    ensures Agrees(sb, MapAt(img, device, i).value) || MapAt(d, device, i) == MapAt(img, device, i)
  {
    assert MapBlock(i) in {LOCATOR_A, LOCATOR_B} || MapBlock(i) == sb.checkpoint[0];
  }

  lemma CopyInImage(img: Disk, d: Disk, device: nat, sb: Superblock, m: Locator, j: nat)
    requires Mountable(sb, device) && PartlyHealed(img, d, device, sb) && j < 3 && AvoidsLocators(m.checkpoint)
    ensures CopyVia(img, device, m, j) in {CopyVia(d, device, m, j), Some(sb), None}
  {
    var b := m.checkpoint[j];
    if b in sb.checkpoint {
      var l :| 0 <= l < 3 && sb.checkpoint[l] == b;
      assert Read(img, b) in {Read(d, b), SuperCopy(sb), Torn};
    } else {
      assert Read(img, b) == Read(d, b);
    }
  }

  lemma SelectedMap(d: Disk, device: nat, sb: Superblock) returns (i: nat, j: nat)
    requires Discoverable(d, device, sb)
    ensures i < 3 && j < 3 && ReachedBy(d, device, i, j, sb) && Agrees(sb, MapAt(d, device, i).value)
    ensures Read(d, sb.checkpoint[j]) == SuperCopy(sb)
  {
    i, j :| 0 <= i < 3 && 0 <= j < 3 && ReachedBy(d, device, i, j, sb);
  }

  /** Repair brings no superblock to light that the mount did not see. */
  lemma NothingNew(img: Disk, d: Disk, device: nat, sb: Superblock, t: Superblock)
    requires Mountable(sb, device) && PartlyHealed(img, d, device, sb) && Discoverable(d, device, sb)
    requires Discoverable(img, device, t)
    ensures t == sb || Discoverable(d, device, t)
  {
    var i, j :| 0 <= i < 3 && 0 <= j < 3 && ReachedBy(img, device, i, j, t);
    var m := MapAt(img, device, i).value;
    MapInImage(img, d, device, sb, i);
    CopyInImage(img, d, device, sb, m, j);
    if t != sb {
      if Agrees(sb, m) {
        var i0, _ := SelectedMap(d, device, sb);
        SameCopies(d, device, m, MapAt(d, device, i0).value, j);
        assert ReachedBy(d, device, i0, j, t);
      } else {
        assert ReachedBy(d, device, i, j, t);
      }
    }
  }

  lemma StillOneVolume(img: Disk, d: Disk, device: nat, sb: Superblock)
    requires Mountable(sb, device) && PartlyHealed(img, d, device, sb) && Discoverable(d, device, sb)
    requires MapsAgreeOnVolume(d, device)
    ensures MapsAgreeOnVolume(img, device)
  {
    var i0, _ := SelectedMap(d, device, sb);
    forall i | 0 <= i < 3 && MapAt(img, device, i).Some? ensures MapAt(img, device, i).value.uuid == sb.uuid {
      MapInImage(img, d, device, sb, i);
    }
  }

  lemma StillDiscoverable(img: Disk, d: Disk, device: nat, sb: Superblock)
    requires device >= MIN_VOLUME && Mountable(sb, device) && PartlyHealed(img, d, device, sb)
    requires Discoverable(d, device, sb) && Anchored(d, device, sb)
    ensures Discoverable(img, device, sb)
  {
    var _, j := SelectedMap(d, device, sb);
    assert Read(img, sb.checkpoint[j]) == SuperCopy(sb);
    if Read(img, sb.checkpoint[0]) == SuperCopy(sb) {
      assert ReachedBy(img, device, 2, 0, sb);
    } else {
      var b :| b in {LOCATOR_A, LOCATOR_B} && Decodes(Read(d, b), device) && Agrees(sb, Read(d, b).loc);
      assert Read(img, b) == Read(d, b);
      assert ReachedBy(img, device, if b == LOCATOR_A then 0 else 1, j, sb);
    }
  }

  /** If block zero already holds the selected superblock, or a locator describes its
      geometry, a crash anywhere during repair mounts the selected superblock again. */
  lemma HealingSurvives(
    d: Disk, device: nat, readOnly: bool, validate: Validator, sb: Superblock,
    s: (Disk, Option<Write>), k: nat, img: Disk, m: Mount)
    requires device >= MIN_VOLUME && Mountable(sb, device) && (readOnly || ReadsClean(d)) && KnowsSound(validate, sb)
    requires MapsAgreeOnVolume(d, device) && Discoverable(d, device, sb) && Anchored(d, device, sb)
    requires forall t :: Discoverable(d, device, t) ==>
      t == sb || t.generation < sb.generation || validate(t, true) == Damaged
    requires InStep(s, d, HealWrites(d, device, sb, 5), k) && Survives(img, s)
    requires MountedBy(img, device, readOnly, validate, m)
    ensures m.Mounted? && m.sb == sb
  {
    HealImage(d, device, sb, s, k, img);
    HealContents(d, device, sb, k, img);
    StillOneVolume(img, d, device, sb);
    StillDiscoverable(img, d, device, sb);
    forall t | Discoverable(img, device, t)
      ensures t == sb || t.generation < sb.generation || validate(t, true) == Damaged
    {
      NothingNew(img, d, device, sb, t);
    }
    NewestSoundIsMounted(img, device, readOnly, validate, sb, m);
  }

  /** Some crash during the repair of `d` leaves a disk on which `sb` cannot be found. */
  ghost predicate CanBeLost(d: Disk, device: nat, sb: Superblock) {
    exists s, k, img ::
      InStep(s, d, HealWrites(d, device, sb, 5), k) && Survives(img, s) && !Discoverable(img, device, sb)
  }

  /** The condition above is exact: without it, tearing the rewrite of block zero loses the
      only map of the selected geometry. */
  lemma HealingSafeExactlyWhenAnchored(d: Disk, device: nat, sb: Superblock)
    requires device >= MIN_VOLUME && Mountable(sb, device) && Discoverable(d, device, sb)
    ensures !CanBeLost(d, device, sb) <==> Anchored(d, device, sb)
  {
    if Anchored(d, device, sb) {
      forall s, k, img | InStep(s, d, HealWrites(d, device, sb, 5), k) && Survives(img, s)
        ensures Discoverable(img, device, sb)
      {
        HealImage(d, device, sb, s, k, img);
        HealContents(d, device, sb, k, img);
        StillDiscoverable(img, d, device, sb);
      }
    } else {
      var s := (d, Some(CopyWrite(sb, 0)));
      var img := d[0 := Torn];
      FirstIsBlockZero(d, device, sb);
      assert InStep(s, d, HealWrites(d, device, sb, 5), 0) && Survives(img, s);
      forall i, j | 0 <= i < 3 && 0 <= j < 3 ensures !ReachedBy(img, device, i, j, sb) {
        if MapAt(img, device, i).Some? { assert Read(img, MapBlock(i)) == Read(d, MapBlock(i)); }
      }
    }
  }

  lemma FirstIsBlockZero(d: Disk, device: nat, sb: Superblock)
    requires NeedsRepair(d, device, sb, 0)
    ensures var ws := HealWrites(d, device, sb, 5); |ws| > 0 && ws[0] == CopyWrite(sb, 0) && ws[..0] == []
  {
    HealPrefix(d, device, sb, 1);
    assert HealWrites(d, device, sb, 1) == [Item(sb, 0)];
  }

  /** Some crash during the repair of `d` leaves a disk on which no superblock can be found. */
  ghost predicate AllCanBeLost(d: Disk, device: nat, sb: Superblock) {
    exists s, k, img ::
      InStep(s, d, HealWrites(d, device, sb, 5), k) && Survives(img, s) && NothingDiscoverable(img, device)
  }

  /** A locator leads to a superblock that lies outside block zero. */
  ghost predicate FoundBeyondZero(d: Disk, device: nat) {
    exists i, j, t :: 0 <= i < 2 && 1 <= j < 3 && ReachedBy(d, device, i, j, t)
  }

  /** And nothing at all is left exactly when, besides, no locator leads past block zero. */
  lemma NothingLeftExactlyWhen(d: Disk, device: nat, sb: Superblock)
    requires device >= MIN_VOLUME && Mountable(sb, device) && Discoverable(d, device, sb)
    ensures AllCanBeLost(d, device, sb) <==> !Anchored(d, device, sb) && !FoundBeyondZero(d, device)
  {
    hide Mountable, Anchored;
    if !Anchored(d, device, sb) && !FoundBeyondZero(d, device) {
      TearingLosesAll(d, device, sb);
    }
    if AllCanBeLost(d, device, sb) {
      var s, k, img :|
        InStep(s, d, HealWrites(d, device, sb, 5), k) && Survives(img, s) && NothingDiscoverable(img, device);
      HealImage(d, device, sb, s, k, img);
      HealContents(d, device, sb, k, img);
      if Anchored(d, device, sb) {
        StillDiscoverable(img, d, device, sb);
      } else if FoundBeyondZero(d, device) {
        var i, j, t :| 0 <= i < 2 && 1 <= j < 3 && ReachedBy(d, device, i, j, t);
        OneIsLeft(d, device, sb, k, img, i, j, t);
      }
    }
  }

  lemma TearingLosesAll(d: Disk, device: nat, sb: Superblock)
    requires Mountable(sb, device) && !Anchored(d, device, sb) && !FoundBeyondZero(d, device)
    ensures AllCanBeLost(d, device, sb)
  {
    var s := (d, Some(CopyWrite(sb, 0)));
    var img := d[0 := Torn];
    FirstIsBlockZero(d, device, sb);
    assert InStep(s, d, HealWrites(d, device, sb, 5), 0) && Survives(img, s);
    forall i, j, t | 0 <= i < 3 && 0 <= j < 3 ensures !ReachedBy(img, device, i, j, t) {
      if i < 2 && j > 0 && MapAt(img, device, i).Some? { assert !ReachedBy(d, device, i, j, t); }
    }
  }

  /** Before block zero is rewritten the locators and their other copies are as they were;
      afterwards block zero itself leads to the selected superblock. */
  lemma OneIsLeft(d: Disk, device: nat, sb: Superblock, k: nat, img: Disk, i: nat, j: nat, t: Superblock)
    requires device >= MIN_VOLUME && Mountable(sb, device) && !Anchored(d, device, sb)
    requires ImageOf(d, HealWrites(d, device, sb, 5), k, img)
    requires i < 2 && 1 <= j < 3 && ReachedBy(d, device, i, j, t)
    ensures Discoverable(img, device, t) || Discoverable(img, device, sb)
  {
    var ws := HealWrites(d, device, sb, 5);
    FirstIsBlockZero(d, device, sb);
    if k > 0 {
      assert Read(img, 0) == SuperCopy(sb);
      assert ReachedBy(img, device, 2, 0, sb);
    } else {
      HealOrigin(d, device, sb, 5);
      forall b: nat | b > 0 ensures Read(img, b) == Read(d, b) {
        assert (forall l :: 0 <= l < |ws| ==> ws[l].block != b) || exists l :: 0 < l < |ws| && ws[l].block == b;
      }
      assert ReachedBy(img, device, i, j, t);
    }
  }

  /** A volume of 4096 blocks in its `n`-th generation. */
  function Small(n: nat): Superblock {
    Superblock(n, 4096, 0, 3, 1, 4, 5, [0, 2048, 4095], 1, Header(true, 0))
  }

  /** A commit of generation 2 was cut short after one copy had reached the disk, and both
      locators were damaged since. */
  function Damaged2(): Disk {
    map[0 := SuperCopy(Small(1)), 2048 := SuperCopy(Small(2)), LOCATOR_A := Torn, LOCATOR_B := Torn]
  }

  lemma SmallIsMountable(n: nat)
    requires n > 0
    ensures Mountable(Small(n), 4096)
  {
    assert Leaves(4096) == 1;
  }

  lemma OnlyZeroMaps()
    ensures MapAt(Damaged2(), 4096, 0).None? && MapAt(Damaged2(), 4096, 1).None?
    ensures MapAt(Damaged2(), 4096, 2) == Some(LocatorOf(Small(1)))
  {
    hide BasicValid;
    SmallIsMountable(1);
  }

  lemma OnlyTwoCopies(j: nat)
    requires j < 3
    ensures CopyVia(Damaged2(), 4096, LocatorOf(Small(1)), j) ==
      if j == 0 then Some(Small(1)) else if j == 1 then Some(Small(2)) else None
  {
    hide BasicValid;
    SmallIsMountable(1);
    SmallIsMountable(2);
  }

  lemma NotAnchored()
    ensures ReadsClean(Damaged2()) && !Anchored(Damaged2(), 4096, Small(2))
  {
  }

  /** Repair does not always retain what was mounted: generation 2 of the disk above is the
      one recovery selects, and a crash while its repair rewrites block zero leaves nothing that
      can be found, neither generation 2 nor generation 1. */
  lemma RepairCanLose(validate: Validator, m: Mount)
    requires KnowsSound(validate, Small(1)) && KnowsSound(validate, Small(2))
    requires MountedBy(Damaged2(), 4096, false, validate, m)
    ensures m.Mounted? && m.sb == Small(2)
    ensures CanBeLost(Damaged2(), 4096, Small(2)) && AllCanBeLost(Damaged2(), 4096, Small(2))
  {
    hide Damaged2, MapAt, CopyVia, Mountable, MountedBy, CanBeLost, AllCanBeLost, Anchored, ReadsClean;
    var d, sb := Damaged2(), Small(2);
    SmallIsMountable(2);
    OnlyZeroMaps();
    NotAnchored();
    OnlyTwoCopies(1);
    assert ReachedBy(d, 4096, 2, 1, sb);
    forall t | Discoverable(d, 4096, t) ensures t in {Small(1), sb} {
      var i, j :| 0 <= i < 3 && 0 <= j < 3 && ReachedBy(d, 4096, i, j, t);
      OnlyTwoCopies(j);
    }
    NewestSoundIsMounted(d, 4096, false, validate, sb, m);
    HealingSafeExactlyWhenAnchored(d, 4096, sb);
    NothingLeftExactlyWhen(d, 4096, sb);
  }
}
