/** Choosing the superblock to mount: highest generation first, falling back past every
    candidate whose object graph turns out damaged. */
module Selection {
  import opened Geometry
  import opened Discovery

  /** Result of walking a candidate's graph: intact, corrupt, or stopped by another error. */
  datatype Verdict = Sound | Damaged | Fault

  /** The graph walk, as a function of the candidate and of the deep-validation flag. */
  type Validator = (Superblock, bool) -> Verdict

  datatype Choice = Selected(sb: Superblock, repairNeeded: bool) | NothingSound | Stopped

  /** Replicas that differ in any way make every graph walk a deep one. */
  ghost predicate Differ(slots: seq<Option<Superblock>>) {
    exists i :: 0 <= i < |slots| && (slots[i].None? || slots[0].None? || slots[i] != slots[0])
  }

  /** Slot `j` is tried before slot `i`. */
  predicate Before(slots: seq<Option<Superblock>>, j: nat, i: nat)
  {
    && i < |slots| && j < |slots| && slots[j].Some? && slots[i].Some?
    && (slots[j].value.generation > slots[i].value.generation
        || (slots[j].value.generation == slots[i].value.generation && j < i))
  }

  ghost predicate DamagedBefore(slots: seq<Option<Superblock>>, validate: Validator, i: nat)
    requires i < |slots|
  {
    forall j :: 0 <= j < |slots| && Before(slots, j, i) ==> validate(slots[j].value, Differ(slots)) == Damaged
  }

  /** Slot `i` is the first, in trying order, whose graph is not found damaged. */
  ghost predicate IsFirst(slots: seq<Option<Superblock>>, validate: Validator, i: nat) {
    && i < |slots| && slots[i].Some? && DamagedBefore(slots, validate, i)
    && validate(slots[i].value, Differ(slots)) != Damaged
  }

  /** What a choice among the slots means, without saying how it is found. */
  ghost predicate IsChoice(slots: seq<Option<Superblock>>, validate: Validator, c: Choice) {
    match c
    case Selected(sb, repair) =>
      && (exists i: nat :: IsFirst(slots, validate, i) && slots[i].value == sb)
      && validate(sb, Differ(slots)) == Sound
      && (repair <==> exists i :: 0 <= i < |slots| && slots[i] != Some(sb))
    case NothingSound =>
      forall i :: 0 <= i < |slots| && slots[i].Some? ==> validate(slots[i].value, Differ(slots)) == Damaged
    case Stopped =>
      exists i: nat :: IsFirst(slots, validate, i) && validate(slots[i].value, Differ(slots)) == Fault
  }

  method Deep(slots: seq<Option<Superblock>>) returns (deep: bool)
    ensures deep == Differ(slots)
  {
    for i := 0 to |slots|
      invariant forall k :: 0 <= k < i ==> slots[k].Some? && slots[0].Some? && slots[k] == slots[0]
    {
      if slots[i].None? || slots[0].None? || slots[i] != slots[0] { return true; }
    }
    deep := false;
  }

  /** The untried candidate of highest generation, the first of them on a tie. */
  method Best(slots: seq<Option<Superblock>>, tried: set<nat>) returns (best: Option<nat>)
    ensures best.Some? ==> best.value < |slots| && slots[best.value].Some? && best.value !in tried
    ensures best.Some? ==> forall j :: 0 <= j < |slots| && Before(slots, j, best.value) ==> j in tried
    ensures best.None? ==> forall j :: 0 <= j < |slots| && slots[j].Some? ==> j in tried
  {
    best := None;
    for i := 0 to |slots|
      invariant best.Some? ==> best.value < i && slots[best.value].Some? && best.value !in tried
      invariant best.Some? ==> forall j :: 0 <= j < i && Before(slots, j, best.value) ==> j in tried
      invariant best.None? ==> forall j :: 0 <= j < i && slots[j].Some? ==> j in tried
    {
      if slots[i].None? || i in tried { continue; }
      if best.None? || slots[i].value.generation > slots[best.value].value.generation { best := Some(i); }
    }
  }

  method SelectCheckpoint(slots: seq<Option<Superblock>>, validate: Validator) returns (c: Choice)
    ensures IsChoice(slots, validate, c)
  {
    var deep := Deep(slots);
    var tried: set<nat> := {};
    for attempt := 0 to |slots|
      invariant |tried| == attempt && forall j :: j in tried ==> j < |slots|
      invariant forall j :: j in tried && slots[j].Some? ==> validate(slots[j].value, deep) == Damaged
    {
      var best := Best(slots, tried);
      if best.None? { return NothingSound; }
      assert DamagedBefore(slots, validate, best.value);
      tried := tried + {best.value};
      var verdict := validate(slots[best.value].value, deep);
      if verdict == Sound {
        var sb := slots[best.value].value;
        var repair := false;
        for i := 0 to |slots|
          invariant repair <==> exists k :: 0 <= k < i && slots[k] != Some(sb)
        {
          if slots[i] != Some(sb) { repair := true; break; }
        }
        return Selected(sb, repair);
      }
      if verdict == Fault { return Stopped; }
    }
    Exhausted(|slots|, tried);
    c := NothingSound;
  }

  /** `n` distinct numbers below `n` are all of them. */
  lemma Exhausted(n: nat, s: set<nat>)
    requires |s| == n && forall j :: j in s ==> j < n
    ensures forall j: nat :: j < n ==> j in s
  {
    if n > 0 {
      if n - 1 in s {
        var t := s - {n - 1};
        Exhausted(n - 1, t);
        forall j: nat | j < n ensures j in s { assert j == n - 1 || j in t; }
      } else {
        Bounded(n - 1, s);
      }
    }
  }

  lemma Bounded(n: nat, s: set<nat>)
    requires forall j :: j in s ==> j < n
    ensures |s| <= n
  {
    if n > 0 { Bounded(n - 1, s - {n - 1}); } else { assert s == {}; }
  }

  lemma FirstIsUnique(slots: seq<Option<Superblock>>, validate: Validator, i: nat, k: nat)
    requires IsFirst(slots, validate, i) && IsFirst(slots, validate, k)
    ensures i == k
  {
    assert i == k || Before(slots, i, k) || Before(slots, k, i);
  }

  /** The slots determine the choice: it is the verdict of the first slot not damaged. */
  lemma ChoiceAt(slots: seq<Option<Superblock>>, validate: Validator, i: nat, c: Choice)
    requires IsFirst(slots, validate, i) && IsChoice(slots, validate, c)
    ensures validate(slots[i].value, Differ(slots)) == Fault ==> c == Stopped
    ensures validate(slots[i].value, Differ(slots)) == Sound ==> c.Selected? && c.sb == slots[i].value
  {
    match c {
      case Selected(sb, _) =>
        var k: nat :| IsFirst(slots, validate, k) && slots[k].value == sb;
        FirstIsUnique(slots, validate, i, k);
      case Stopped =>
        var k: nat :| IsFirst(slots, validate, k) && validate(slots[k].value, Differ(slots)) == Fault;
        FirstIsUnique(slots, validate, i, k);
      case NothingSound =>
    }
  }

  /** A sound candidate wins when every other one is older or damaged. */
  lemma TopWins(slots: seq<Option<Superblock>>, validate: Validator, sb: Superblock, c: Choice)
    requires Some(sb) in slots && validate(sb, Differ(slots)) == Sound
    requires forall t :: Some(t) in slots ==>
      t == sb || t.generation < sb.generation || validate(t, Differ(slots)) == Damaged
    requires IsChoice(slots, validate, c)
    ensures c.Selected? && c.sb == sb
  {
    var i :| 0 <= i < |slots| && slots[i] == Some(sb);
    while exists k :: 0 <= k < i && slots[k] == Some(sb)
      invariant 0 <= i < |slots| && slots[i] == Some(sb)
      decreases i
    {
      var k :| 0 <= k < i && slots[k] == Some(sb);
      i := k;
    }
    assert forall j :: 0 <= j < |slots| && Before(slots, j, i) ==>
      Some(slots[j].value) in slots && slots[j].value != sb;
    assert DamagedBefore(slots, validate, i);
    ChoiceAt(slots, validate, i, c);
  }

  /** The whole of recovery: what a mount of disk `d` may come up with. */
  datatype Mount = Mounted(sb: Superblock, repairNeeded: bool) | Refused(error: Error)

  /** The slots of a mount that gets as far as choosing. */
  function Found(d: Disk, device: nat): seq<Option<Superblock>> { Slots(d, device)[..SlotCount(d, device, 3)] }

  method Recover(d: Disk, device: nat, readOnly: bool, validate: Validator) returns (m: Mount)
    ensures MountedBy(d, device, readOnly, validate, m)
  {
    hide IsChoice, MapsUsable, NothingDiscoverable, ReadFails, Slots, SlotCount, Discoverable;
    var r := ReadCandidates(d, device, readOnly);
    if r.Failed? {
      match r.error
      case Corrupt => return Refused(Corrupt);
      case Io => return Refused(Io);
    }
    var c := SelectCheckpoint(r.slots, validate);
    m := Verdicted(c);
  }

  function Verdicted(c: Choice): Mount {
    match c
    case Selected(sb, repair) => Mounted(sb, repair)
    case NothingSound => Refused(Corrupt)
    case Stopped => Refused(Io)
  }

  /** What recovery makes of a disk. */
  ghost predicate MountedBy(d: Disk, device: nat, readOnly: bool, validate: Validator, m: Mount) {
    var nothing, fails := NothingDiscoverable(d, device), ReadFails(d, device);
    if !MapsUsable(d, device) then m == Refused(Corrupt)
    else if fails && (!readOnly || nothing) then m == Refused(Io)
    else if nothing then m == Refused(Corrupt)
    else exists c :: IsChoice(Found(d, device), validate, c) && m == Verdicted(c)
  }

  lemma {:induction false} SlotsEnd(d: Disk, device: nat, n: nat)
    requires n <= 3
    ensures forall k :: SlotCount(d, device, n) <= k < 3 * n ==> Slots(d, device)[k].None?
  {
    if n > 0 {
      SlotsEnd(d, device, n - 1);
      hide MapAt, CopyVia, RepeatsMap;
      var i := n - 1;
      assert Slots(d, device)[3 * i] == Row(d, device, i)[0] && Slots(d, device)[3 * i + 1] == Row(d, device, i)[1];
      assert Slots(d, device)[3 * i + 2] == Row(d, device, i)[2];
    }
  }

  lemma FoundAll(d: Disk, device: nat)
    requires MapsAgreeOnVolume(d, device)
    ensures forall sb :: Some(sb) in Found(d, device) <==> Discoverable(d, device, sb)
  {
    hide Slots, SlotCount, Discoverable;
    SlotsAreDiscoverable(d, device);
    SlotsEnd(d, device, 3);
    var slots, count := Slots(d, device), SlotCount(d, device, 3);
    forall sb ensures Some(sb) in Found(d, device) <==> Some(sb) in slots {
      if Some(sb) in slots { var k :| 0 <= k < 9 && slots[k] == Some(sb); assert Found(d, device)[k] == Some(sb); }
    }
  }

  /** A sound discoverable superblock is mounted when every other discoverable one is older,
      or is found damaged by the deep walk. */
  lemma NewestSoundIsMounted(d: Disk, device: nat, readOnly: bool, validate: Validator, sb: Superblock, m: Mount)
    requires device >= MIN_VOLUME && MapsAgreeOnVolume(d, device) && Discoverable(d, device, sb)
    requires readOnly || ReadsClean(d)
    requires validate(sb, true) == validate(sb, false) == Sound
    requires forall t :: Discoverable(d, device, t) ==>
      t == sb || t.generation < sb.generation || validate(t, true) == Damaged
    requires MountedBy(d, device, readOnly, validate, m)
    ensures m.Mounted? && m.sb == sb
  {
    hide IsChoice, Slots, SlotCount, Found;
    FoundAll(d, device);
    if ReadFails(d, device) { ReadFailsUnclean(d, device); }
    var slots := Found(d, device);
    var c :| IsChoice(slots, validate, c) && m == Verdicted(c);
    forall t | Some(t) in slots && t != sb ensures Differ(slots) { DifferWhen(slots, t, sb); }
    TopWins(slots, validate, sb, c);
  }

  lemma DifferWhen(slots: seq<Option<Superblock>>, t: Superblock, sb: Superblock)
    requires Some(t) in slots && Some(sb) in slots && t != sb
    ensures Differ(slots)
  {
    var i :| 0 <= i < |slots| && slots[i] == Some(t);
    var k :| 0 <= k < |slots| && slots[k] == Some(sb);
    assert slots[i] != slots[0] || slots[k] != slots[0];
  }
}
