/** Superblock and recovery-locator validity, and the bounded discovery that reads
    up to three geometry maps and collects the checkpoint copies they lead to. */
module Discovery {
  import opened Geometry

  type Triple = s: seq<nat> | |s| == 3 witness [0, 0, 0]

  /** Fields whose checks are independent of everything else (magic, version, feature
      flags, label) are summarised by `formatOk`; `image` stands for their bytes. */
  datatype Header = Header(formatOk: bool, image: int)

  datatype Superblock = Superblock(
    generation: nat, total: nat, freeBlocks: nat, allocationRoot: nat, leafCount: nat,
    objectIndex: nat, rootObject: nat, checkpoint: Triple, uuid: nat, header: Header)

  datatype Locator = Locator(generation: nat, total: nat, checkpoint: Triple, uuid: nat)

  /** What a block holds. `Torn` fails its checksum; `Unreadable` fails the read itself. */
  datatype Content = SuperCopy(sb: Superblock) | LocatorCopy(loc: Locator) | Other | Torn | Unreadable

  type Disk = map<nat, Content>

  datatype Error = Corrupt | Io

  function Read(d: Disk, b: nat): Content { if b in d then d[b] else Other }

  /** Copy zero is block zero; the three copies are distinct blocks of the volume. */
  predicate PlacesCopies(cp: Triple, total: nat) {
    && cp[0] == 0 && cp[0] < total && cp[1] < total && cp[2] < total
    && cp[0] != cp[1] && cp[0] != cp[2] && cp[1] != cp[2]
  }

  predicate BasicValid(sb: Superblock, device: nat) {
    && sb.header.formatOk && sb.generation != 0
    && 3 <= sb.total <= device && sb.freeBlocks <= sb.total
    && PlacesCopies(sb.checkpoint, sb.total)
    && Fits(sb.total) && sb.leafCount == Leaves(sb.total)
    && 0 < sb.allocationRoot < sb.total
    && sb.objectIndex < sb.total && sb.rootObject < sb.total
    && sb.uuid != 0
  }

  predicate AvoidsLocators(cp: Triple) {
    {cp[0], cp[1], cp[2]} !! {LOCATOR_A, LOCATOR_B}
  }

  predicate ShapeValid(loc: Locator) {
    && loc.generation != 0 && loc.total >= MIN_VOLUME && loc.uuid != 0
    && PlacesCopies(loc.checkpoint, loc.total) && AvoidsLocators(loc.checkpoint)
  }

  function LocatorOf(sb: Superblock): Locator {
    Locator(sb.generation, sb.total, sb.checkpoint, sb.uuid)
  }

  predicate Decodes(c: Content, device: nat) {
    c.LocatorCopy? && device >= MIN_VOLUME && ShapeValid(c.loc) && c.loc.total <= device
  }

  /** A superblock that may serve as a geometry map when found in block zero. */
  predicate MapsFromZero(c: Content, device: nat) {
    && c.SuperCopy? && BasicValid(c.sb, device) && c.sb.total >= MIN_VOLUME
    && AvoidsLocators(c.sb.checkpoint)
  }

  function MapBlock(i: nat): nat {
    if i == 0 then LOCATOR_A else if i == 1 then LOCATOR_B else 0
  }

  /** The i-th geometry map: locator A, locator B, then block zero. */
  function MapAt(d: Disk, device: nat, i: nat): Option<Locator> {
    var c := Read(d, MapBlock(i));
    if i < 2 then
      if Decodes(c, device) then Some(c.loc) else None
    else
      if MapsFromZero(c, device) then Some(LocatorOf(c.sb)) else None
  }

  predicate SameGeometry(a: Locator, b: Locator) {
    a.total == b.total && a.checkpoint == b.checkpoint
  }

  predicate Agrees(sb: Superblock, m: Locator) {
    sb.total == m.total && sb.uuid == m.uuid && sb.checkpoint == m.checkpoint
  }

  /** The j-th copy that map `m` leads to, if it is intact and describes that geometry. */
  function CopyVia(d: Disk, device: nat, m: Locator, j: nat): Option<Superblock>
    requires j < 3
  {
    var c := Read(d, m.checkpoint[j]);
    if c.SuperCopy? && BasicValid(c.sb, device) && Agrees(c.sb, m) then Some(c.sb) else None
  }

  /** `sb` can be reached: some surviving map leads to an intact copy of it. */
  ghost predicate Discoverable(d: Disk, device: nat, sb: Superblock) {
    exists i, j ::
      0 <= i < 3 && 0 <= j < 3 && ReachedBy(d, device, i, j, sb)
  }

  predicate ReachedBy(d: Disk, device: nat, i: nat, j: nat, sb: Superblock)
    requires j < 3
  {
    MapAt(d, device, i).Some? && CopyVia(d, device, MapAt(d, device, i).value, j) == Some(sb)
  }

  ghost predicate NothingDiscoverable(d: Disk, device: nat) { forall sb :: !Discoverable(d, device, sb) }

  ghost predicate MapsAgreeOnVolume(d: Disk, device: nat) {
    forall i, k :: 0 <= i < 3 && 0 <= k < 3 && MapAt(d, device, i).Some? && MapAt(d, device, k).Some? ==>
      MapAt(d, device, i).value.uuid == MapAt(d, device, k).value.uuid
  }

  datatype Outcome = Candidates(slots: seq<Option<Superblock>>) | Failed(error: Error)

  ghost predicate ReadsClean(d: Disk) { forall b :: !Read(d, b).Unreadable? }

  predicate MapsFail(d: Disk) {
    Read(d, LOCATOR_A).Unreadable? || Read(d, LOCATOR_B).Unreadable? || Read(d, 0).Unreadable?
  }

  predicate RowFails(d: Disk, m: Locator) {
    || Read(d, m.checkpoint[0]).Unreadable? || Read(d, m.checkpoint[1]).Unreadable?
    || Read(d, m.checkpoint[2]).Unreadable?
  }

  /** A map is used unless it is the block-zero map and repeats the geometry of a locator. */
  predicate MapUsed(d: Disk, device: nat, i: nat) {
    && MapAt(d, device, i).Some?
    && (i == 2 ==> !RepeatsMap(d, device, 0) && !RepeatsMap(d, device, 1))
  }

  predicate RepeatsMap(d: Disk, device: nat, k: nat) {
    && MapAt(d, device, k).Some? && MapAt(d, device, 2).Some?
    && SameGeometry(MapAt(d, device, k).value, MapAt(d, device, 2).value)
  }

  predicate CopiesFail(d: Disk, device: nat, n: nat)
    requires n <= 3
  {
    exists i :: 0 <= i < n && MapUsed(d, device, i) && RowFails(d, MapAt(d, device, i).value)
  }

  /** Some block that discovery reads cannot be read. */
  predicate ReadFails(d: Disk, device: nat) { MapsFail(d) || CopiesFail(d, device, 3) }

  lemma ReadFailsUnclean(d: Disk, device: nat)
    requires ReadFails(d, device)
    ensures !ReadsClean(d)
  {
  }

  /** Pass one: decode locator A, locator B and the block-zero map. */
  method ReadMaps(d: Disk, device: nat) returns (maps: seq<Option<Locator>>, readError: bool)
    ensures |maps| == 3 && forall k :: 0 <= k < 3 ==> maps[k] == MapAt(d, device, k)
    ensures readError <==> MapsFail(d)
  {
    maps, readError := [None, None, None], false;
    for i := 0 to 3
      invariant |maps| == 3
      invariant forall k :: 0 <= k < i ==> maps[k] == MapAt(d, device, k)
      invariant forall k :: i <= k < 3 ==> maps[k] == None
      invariant readError <==> exists k :: 0 <= k < i && Read(d, MapBlock(k)).Unreadable?
    {
      var raw := Read(d, MapBlock(i));
      if raw.Unreadable? { readError := true; continue; }
      if i < 2 {
        if Decodes(raw, device) { maps := maps[i := Some(raw.loc)]; }
      } else if MapsFromZero(raw, device) {
        maps := maps[i := Some(LocatorOf(raw.sb))];
      }
    }
    assert MapBlock(0) == LOCATOR_A && MapBlock(1) == LOCATOR_B && MapBlock(2) == 0;
  }

  predicate Repeats(maps: seq<Option<Locator>>, k: nat)
    requires |maps| == 3 && k < 3
  {
    maps[k].Some? && maps[2].Some? && SameGeometry(maps[k].value, maps[2].value)
  }

  predicate SameVolume(maps: seq<Option<Locator>>, k: nat, l: nat)
    requires |maps| == 3 && k < 3 && l < 3
  {
    maps[k].Some? && maps[l].Some? ==> maps[k].value.uuid == maps[l].value.uuid
  }

  /** Pass two: refuse maps of two volumes; drop a block-zero map that repeats a locator. */
  method FilterMaps(maps: seq<Option<Locator>>) returns (oneVolume: bool, kept: seq<bool>)
    requires |maps| == 3
    ensures |kept| == 3
    ensures oneVolume <==> forall k, l :: 0 <= k < 3 && 0 <= l < 3 ==> SameVolume(maps, k, l)
    ensures oneVolume ==> kept[0] == maps[0].Some? && kept[1] == maps[1].Some?
    ensures oneVolume ==> kept[2] == (maps[2].Some? && !Repeats(maps, 0) && !Repeats(maps, 1))
  {
    kept := [maps[0].Some?, maps[1].Some?, maps[2].Some?];
    for i := 0 to 3
      invariant kept == [maps[0].Some?, maps[1].Some?, Keeps(maps, i)]
      invariant forall k, l :: 0 <= k < i && k < l < 3 ==> SameVolume(maps, k, l)
    {
      for j := i + 1 to 3
        invariant kept == [maps[0].Some?, maps[1].Some?, Keeps(maps, if j == 3 then i + 1 else i)]
        invariant forall k, l :: 0 <= k < i && k < l < 3 ==> SameVolume(maps, k, l)
        invariant forall l :: i < l < j ==> SameVolume(maps, i, l)
      {
        if kept[i] && kept[j] {
          if maps[i].value.uuid != maps[j].value.uuid {
            assert !SameVolume(maps, i, j);
            return false, kept;
          }
          if j == 2 && SameGeometry(maps[i].value, maps[j].value) { kept := kept[2 := false]; }
        } else if kept[i] && maps[j].Some? {
          // Block zero was dropped for repeating locator A, whose volume was compared already.
          assert i == 1 && SameVolume(maps, 0, 1) && SameVolume(maps, 0, 2);
        }
      }
    }
    forall k, l | 0 <= k < 3 && 0 <= l < 3 ensures SameVolume(maps, k, l) {
      if l < k { assert SameVolume(maps, l, k); }
    }
    oneVolume := true;
  }

  /** The block-zero map survives the comparisons with the first `n` locators. */
  predicate Keeps(maps: seq<Option<Locator>>, n: nat)
    requires |maps| == 3
  {
    maps[2].Some? && (n > 0 ==> !Repeats(maps, 0)) && (n > 1 ==> !Repeats(maps, 1))
  }

  /** The copies of one map, in order. */
  method ReadRow(d: Disk, device: nat, m: Locator) returns (row: seq<Option<Superblock>>, found: nat, readError: bool)
    ensures row == [CopyVia(d, device, m, 0), CopyVia(d, device, m, 1), CopyVia(d, device, m, 2)]
    ensures found == 0 <==> row == [None, None, None]
    ensures readError <==> RowFails(d, m)
  {
    row, found, readError := [], 0, false;
    for j := 0 to 3
      invariant |row| == j && forall k :: 0 <= k < j ==> row[k] == CopyVia(d, device, m, k)
      invariant found == 0 <==> forall k :: 0 <= k < j ==> row[k].None?
      invariant readError <==> exists k :: 0 <= k < j && Read(d, m.checkpoint[k]).Unreadable?
    {
      var raw := Read(d, m.checkpoint[j]);
      if raw.SuperCopy? && BasicValid(raw.sb, device) && Agrees(raw.sb, m) {
        row, found := row + [Some(raw.sb)], found + 1;
        assert row[j].Some?;
      } else {
        row := row + [None];
        if raw.Unreadable? { readError := true; }
      }
    }
  }

  /** The three slots of map `i`: copy `j` of it is slot `3i + j`. */
  function Row(d: Disk, device: nat, i: nat): (row: seq<Option<Superblock>>)
    ensures |row| == 3
  {
    if MapUsed(d, device, i)
    then
      var m := MapAt(d, device, i).value;
      [CopyVia(d, device, m, 0), CopyVia(d, device, m, 1), CopyVia(d, device, m, 2)]
    else [None, None, None]
  }

  function Slots(d: Disk, device: nat): (slots: seq<Option<Superblock>>)
    ensures |slots| == 9
  {
    Row(d, device, 0) + Row(d, device, 1) + Row(d, device, 2)
  }

  /** The slots end with those of the last map used. */
  function SlotCount(d: Disk, device: nat, n: nat): (count: nat)
    ensures count <= 3 * n
  {
    if n == 0 then 0 else if MapUsed(d, device, n - 1) then 3 * n else SlotCount(d, device, n - 1)
  }

  /** Pass three: read the copies named by every map used. */
  method ReadCopies(d: Disk, device: nat, maps: seq<Option<Locator>>, kept: seq<bool>)
    returns (slots: seq<Option<Superblock>>, count: nat, found: nat, readError: bool)
    requires |maps| == 3 && forall k :: 0 <= k < 3 ==> maps[k] == MapAt(d, device, k)
    requires |kept| == 3 && forall k :: 0 <= k < 3 ==> kept[k] == MapUsed(d, device, k)
    ensures slots == Slots(d, device) && count == SlotCount(d, device, 3)
    ensures forall k :: count <= k < 9 ==> slots[k].None?
    ensures found > 0 <==> exists k :: 0 <= k < 9 && slots[k].Some?
    ensures readError <==> CopiesFail(d, device, 3)
  {
    hide CopyVia, MapAt, RepeatsMap, RowFails, EmptyFrom;
    slots, count, found, readError := [], 0, 0, false;
    NothingYet();
    for i := 0 to 3
      invariant slots == Rows(d, device, i) && |slots| == 3 * i && count == SlotCount(d, device, i)
      invariant found == 0 <==> EmptyFrom(slots, 0)
      invariant EmptyFrom(slots, count)
      invariant readError <==> CopiesFail(d, device, i)
    {
      var row, hits, bad := [None, None, None], 0, false;
      if kept[i] { row, hits, bad := ReadRow(d, device, maps[i].value); }
      EmptyRow(row);
      EmptyAppend(slots, row, 0);
      EmptyAppend(slots, row, count);
      slots, found, readError := slots + row, found + hits, readError || bad;
      if kept[i] {
        count := 3 * i + 3;
        EmptyEnd(slots);
      }
    }
    SlotsOf(d, device, slots, count, found);
  }

  ghost function Rows(d: Disk, device: nat, n: nat): seq<Option<Superblock>> {
    if n == 0 then [] else Rows(d, device, n - 1) + Row(d, device, n - 1)
  }

  ghost predicate EmptyFrom(slots: seq<Option<Superblock>>, from: nat) {
    forall k :: from <= k < |slots| ==> slots[k].None?
  }

  lemma NothingYet()
    ensures EmptyFrom([], 0)
  {
  }

  lemma EmptyEnd(slots: seq<Option<Superblock>>)
    ensures EmptyFrom(slots, |slots|)
  {
  }

  lemma EmptyRow(row: seq<Option<Superblock>>)
    requires |row| == 3
    ensures EmptyFrom(row, 0) <==> row == [None, None, None]
  {
  }

  lemma EmptyAppend(a: seq<Option<Superblock>>, b: seq<Option<Superblock>>, from: nat)
    requires from <= |a|
    ensures EmptyFrom(a + b, from) <==> EmptyFrom(a, from) && EmptyFrom(b, 0)
  {
    if EmptyFrom(a + b, from) {
      assert forall k :: from <= k < |a| ==> a[k] == (a + b)[k];
      assert forall k :: 0 <= k < |b| ==> b[k] == (a + b)[|a| + k];
    }
  }

  lemma SlotsOf(d: Disk, device: nat, slots: seq<Option<Superblock>>, count: nat, found: nat)
    requires slots == Rows(d, device, 3) && |slots| == 9 && EmptyFrom(slots, count)
    requires found == 0 <==> EmptyFrom(slots, 0)
    ensures slots == Slots(d, device)
    ensures forall k :: count <= k < 9 ==> slots[k].None?
    ensures found > 0 <==> exists k :: 0 <= k < 9 && slots[k].Some?
  {
    hide Row;
    assert Rows(d, device, 1) == Row(d, device, 0);
  }

  /** The maps may be used together: the device is large enough and they name one volume. */
  ghost predicate MapsUsable(d: Disk, device: nat) { device >= MIN_VOLUME && MapsAgreeOnVolume(d, device) }

  /** Discovery as the mount performs it. It fails with a read error exactly when a block it
      reads is unreadable and the mount may write or finds nothing, it fails for corruption
      exactly when the maps disagree or lead nowhere, and otherwise returns every copy that
      a surviving map leads to, in slot order. */
  method ReadCandidates(d: Disk, device: nat, readOnly: bool) returns (r: Outcome)
    ensures r == Failed(Io) <==>
      MapsUsable(d, device) && ReadFails(d, device) && (!readOnly || NothingDiscoverable(d, device))
    ensures r == Failed(Corrupt) <==>
      !MapsUsable(d, device) || (!ReadFails(d, device) && NothingDiscoverable(d, device))
    ensures r.Candidates? ==> r.slots == Slots(d, device)[..SlotCount(d, device, 3)]
    ensures r.Candidates? ==> forall sb :: Some(sb) in r.slots <==> Discoverable(d, device, sb)
    ensures r.Candidates? ==> exists k :: 0 <= k < |r.slots| && r.slots[k].Some?
  {
    hide MapAt, CopyVia, MapsFail, CopiesFail, Discoverable, SlotCount;
    if device < MIN_VOLUME { return Failed(Corrupt); }
    var maps, readError := ReadMaps(d, device);
    var oneVolume, kept := FilterMaps(maps);
    OneVolume(d, device, maps);
    if !oneVolume { return Failed(Corrupt); }
    var slots, count, found, copyError := ReadCopies(d, device, maps, kept);
    SlotsAreDiscoverable(d, device);
    assert found == 0 <==> NothingDiscoverable(d, device) by { FoundNothing(d, device, slots); }
    if (readError || copyError) && (!readOnly || found == 0) { return Failed(Io); }
    if found == 0 { return Failed(Corrupt); }
    r := Candidates(slots[..count]);
    forall sb ensures Some(sb) in slots[..count] <==> Some(sb) in slots {
      if Some(sb) in slots { var k :| 0 <= k < 9 && slots[k] == Some(sb); assert slots[..count][k] == Some(sb); }
    }
    var k :| 0 <= k < 9 && slots[k].Some?;
    assert r.slots[k].Some?;
  }

  lemma OneVolume(d: Disk, device: nat, maps: seq<Option<Locator>>)
    requires |maps| == 3 && forall k :: 0 <= k < 3 ==> maps[k] == MapAt(d, device, k)
    ensures MapsAgreeOnVolume(d, device) <==> forall k, l :: 0 <= k < 3 && 0 <= l < 3 ==> SameVolume(maps, k, l)
  {
    hide MapAt;
    if forall k, l :: 0 <= k < 3 && 0 <= l < 3 ==> SameVolume(maps, k, l) {
      forall i, k | 0 <= i < 3 && 0 <= k < 3 && MapAt(d, device, i).Some? && MapAt(d, device, k).Some?
        ensures MapAt(d, device, i).value.uuid == MapAt(d, device, k).value.uuid
      {
        assert SameVolume(maps, i, k);
      }
    }
  }

  lemma FoundNothing(d: Disk, device: nat, slots: seq<Option<Superblock>>)
    requires forall sb :: Some(sb) in slots <==> Discoverable(d, device, sb)
    ensures NothingDiscoverable(d, device) <==> forall k :: 0 <= k < |slots| ==> slots[k].None?
  {
    hide Discoverable;
    forall k | 0 <= k < |slots| && slots[k].Some? ensures Discoverable(d, device, slots[k].value) {
      assert slots[k] == Some(slots[k].value);
      assert Some(slots[k].value) in slots;
    }
  }

  /** A map's copies depend only on its geometry and volume. */
  lemma SameCopies(d: Disk, device: nat, m: Locator, n: Locator, j: nat)
    requires j < 3 && SameGeometry(m, n) && m.uuid == n.uuid
    ensures CopyVia(d, device, m, j) == CopyVia(d, device, n, j)
  {
  }

  /** Dropping a repeated map loses no checkpoint. */
  lemma SlotsAreDiscoverable(d: Disk, device: nat)
    requires MapsAgreeOnVolume(d, device)
    ensures forall sb :: Some(sb) in Slots(d, device) <==> Discoverable(d, device, sb)
  {
    forall sb ensures Some(sb) in Slots(d, device) <==> Discoverable(d, device, sb) {
      if Some(sb) in Slots(d, device) { SlotIsReached(d, device, sb); }
      if Discoverable(d, device, sb) {
        var i, j :| 0 <= i < 3 && 0 <= j < 3 && ReachedBy(d, device, i, j, sb);
        ReachedHasSlot(d, device, i, j, sb);
      }
    }
  }

  lemma RowIsReached(d: Disk, device: nat, i: nat, sb: Superblock)
    requires i < 3 && Some(sb) in Row(d, device, i)
    ensures Discoverable(d, device, sb)
  {
    hide MapAt, CopyVia;
    var j :| 0 <= j < 3 && Row(d, device, i)[j] == Some(sb);
    assert ReachedBy(d, device, i, j, sb);
  }

  lemma SlotIsReached(d: Disk, device: nat, sb: Superblock)
    requires Some(sb) in Slots(d, device)
    ensures Discoverable(d, device, sb)
  {
    hide Row;
    var a, b, c := Row(d, device, 0), Row(d, device, 1), Row(d, device, 2);
    assert Slots(d, device) == a + (b + c);
    var i := if Some(sb) in a then 0 else if Some(sb) in b then 1 else 2;
    RowIsReached(d, device, i, sb);
  }

  lemma ReachedHasSlot(d: Disk, device: nat, i: nat, j: nat, sb: Superblock)
    requires i < 3 && j < 3 && ReachedBy(d, device, i, j, sb) && MapsAgreeOnVolume(d, device)
    ensures Some(sb) in Slots(d, device)
  {
    hide MapAt, CopyVia;
    var k := if MapUsed(d, device, i) then i else if RepeatsMap(d, device, 0) then 0 else 1;
    if k != i { SameCopies(d, device, MapAt(d, device, k).value, MapAt(d, device, i).value, j); }
    assert Row(d, device, k)[j] == Some(sb);
    assert Slots(d, device)[3 * k + j] == Row(d, device, k)[j];
  }
}
