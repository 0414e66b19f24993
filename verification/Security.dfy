/** Portable access control: evaluating and inheriting access control entries. */
module Security {

  /** Principals are 128-bit numbers: zero is none, 1 to 31 are reserved. */
  const OWNER: nat := 1
  const GROUP: nat := 2
  const EVERYONE: nat := 3
  const CREATOR_OWNER: nat := 4
  const CREATOR_GROUP: nat := 5
  const RESERVED_MAX: nat := 31
  const RIGHTS: nat := 17

  predicate Reserved(id: nat) { 0 < id <= RESERVED_MAX }
  predicate WellKnown(id: nat) { OWNER <= id <= CREATOR_GROUP }
  predicate Creator(id: nat) { id == CREATOR_OWNER || id == CREATOR_GROUP }

  datatype Disposition = Allow | Deny | Unknown

  /** The flag bits of an entry; `other` stands for any bit that is not defined. */
  datatype Flags = Flags(file: bool, directory: bool, only: bool, once: bool, inherited: bool, other: bool)

  datatype Ace = Ace(principal: nat, rights: set<nat>, disposition: Disposition, flags: Flags)

  datatype Descriptor = Descriptor(
    owner: nat, group: nat, present: bool, autoInherit: bool, other: bool, aces: seq<Ace>)

  predicate KnownRights(r: set<nat>) { forall x :: x in r ==> x < RIGHTS }

  predicate AceValid(a: Ace) {
    && a.principal != 0 && a.rights != {} && KnownRights(a.rights)
    && (a.disposition == Allow || a.disposition == Deny) && !a.flags.other
    && (Reserved(a.principal) ==> WellKnown(a.principal))
    && (Creator(a.principal) ==> (a.flags.file || a.flags.directory) && a.flags.only)
  }

  predicate DescriptorValid(d: Descriptor) {
    && d.owner != 0 && d.group != 0 && !Reserved(d.owner) && !Reserved(d.group) && !d.other && d.present
    && forall i :: 0 <= i < |d.aces| ==> AceValid(d.aces[i])
  }

  predicate Applies(d: Descriptor, subject: seq<nat>, id: nat) {
    if id == EVERYONE then true
    else if id == OWNER then d.owner in subject
    else if id == GROUP then d.group in subject
    else if Creator(id) || (Reserved(id) && !WellKnown(id)) then false
    else id in subject
  }

  /** An entry that takes part in the decision about right `r`. */
  predicate Names(d: Descriptor, subject: seq<nat>, a: Ace, r: nat) {
    !a.flags.only && Applies(d, subject, a.principal) && r in a.rights
  }

  /** The first entry that names the right decides; without one it is denied. */
  ghost predicate Granted(d: Descriptor, subject: seq<nat>, r: nat) {
    exists i :: 0 <= i < |d.aces| && FirstNaming(d, subject, r, i) && d.aces[i].disposition == Allow
  }

  ghost predicate FirstNaming(d: Descriptor, subject: seq<nat>, r: nat, i: nat) {
    && i < |d.aces| && Names(d, subject, d.aces[i], r)
    && forall k :: 0 <= k < i ==> !Names(d, subject, d.aces[k], r)
  }

  /** One pass over the entries, dropping the rights that are decided. Access is granted
      exactly when every requested right is. */
  method AccessAllowed(d: Descriptor, subject: seq<nat>, requested: set<nat>) returns (allowed: bool)
    ensures allowed <==> DescriptorValid(d) && KnownRights(requested) && forall r :: r in requested ==>
      Granted(d, subject, r)
  {
    if !DescriptorValid(d) || !KnownRights(requested) { return false; }
    if requested == {} { return true; }
    var remaining := requested;
    for i := 0 to |d.aces|
      invariant remaining != {} && remaining <= requested
      invariant forall r :: r in requested && r !in remaining ==> Granted(d, subject, r)
      invariant forall r, k :: r in remaining && 0 <= k < i ==> !Names(d, subject, d.aces[k], r)
    {
      var ace := d.aces[i];
      if ace.flags.only || !Applies(d, subject, ace.principal) { continue; }
      var hit := remaining * ace.rights;
      if hit == {} {
        assert forall r :: r in remaining ==> r !in hit;
        continue;
      }
      forall r | r in hit ensures FirstNaming(d, subject, r, i) { }
      if ace.disposition == Deny {
        var r :| r in hit;
        DeniedByFirst(d, subject, r, i);
        return false;
      }
      assert AceValid(ace);
      forall r | r in hit ensures Granted(d, subject, r) { assert FirstNaming(d, subject, r, i); }
      ghost var was := remaining;
      remaining := remaining - hit;
      forall r | r in requested && r !in remaining ensures Granted(d, subject, r) { assert r in was ==> r in hit; }
      if remaining == {} { return true; }
    }
    ghost var r :| r in remaining;
    assert !Granted(d, subject, r);
    allowed := false;
  }

  lemma DeniedByFirst(d: Descriptor, subject: seq<nat>, r: nat, i: nat)
    requires FirstNaming(d, subject, r, i) && d.aces[i].disposition == Deny
    ensures !Granted(d, subject, r)
  {
    forall j: nat | FirstNaming(d, subject, r, j) ensures j == i { }
  }

  /** Entries that a new file or directory takes over. */
  predicate Inherits(f: Flags, directory: bool) {
    if directory then (f.file || f.directory) && !(f.file && !f.directory && f.once) else f.file
  }

  /** An entry as the child gets it. */
  function Passed(a: Ace, directory: bool, owner: nat, group: nat): Ace {
    var f := a.flags.(inherited := true);
    var principal :=
      if a.principal == CREATOR_OWNER then owner
      else if a.principal == CREATOR_GROUP then group
      else a.principal;
    if !directory then
      a.(principal := principal, flags := f.(file := false, directory := false, only := false, once := false))
    else
      var g := f.(only := !a.flags.directory);
      a.(principal := principal,
         flags := if a.flags.once then g.(file := false, directory := false, once := false) else g)
  }

  /** An entry passed on is valid, and it is in force or will be inherited further. */
  lemma PassedIsUseful(a: Ace, directory: bool, owner: nat, group: nat)
    requires AceValid(a) && Inherits(a.flags, directory) && owner != 0 && group != 0 && !Reserved(owner)
    requires !Reserved(group)
    ensures var b := Passed(a, directory, owner, group);
      && AceValid(b) && b.flags.inherited && !Creator(b.principal)
      && b.rights == a.rights && b.disposition == a.disposition
      && (!b.flags.only || b.flags.file || b.flags.directory)
      && (!directory ==> !b.flags.only && !b.flags.file && !b.flags.directory)
      && (directory && !b.flags.only <==> directory && a.flags.directory)
  {
  }

  function Count(aces: seq<Ace>, directory: bool): nat {
    if aces == [] then 0
    else Count(aces[..|aces| - 1], directory) + if Inherits(aces[|aces| - 1].flags, directory) then 1 else 0
  }

  /** All entries that are passed on, in order. */
  function All(aces: seq<Ace>, directory: bool, owner: nat, group: nat): seq<Ace> {
    if aces == [] then []
    else
      var last := aces[|aces| - 1];
      All(aces[..|aces| - 1], directory, owner, group)
      + if Inherits(last.flags, directory) then [Passed(last, directory, owner, group)] else []
  }

  lemma {:induction false} CountIsLength(aces: seq<Ace>, directory: bool, owner: nat, group: nat)
    ensures |All(aces, directory, owner, group)| == Count(aces, directory)
  {
    if aces != [] { CountIsLength(aces[..|aces| - 1], directory, owner, group); }
  }

  lemma {:induction false} AllValid(aces: seq<Ace>, directory: bool, owner: nat, group: nat)
    requires (forall i :: 0 <= i < |aces| ==> AceValid(aces[i])) && owner != 0 && group != 0 && !Reserved(owner)
    requires !Reserved(group)
    ensures forall b :: b in All(aces, directory, owner, group) ==>
      AceValid(b) && b.flags.inherited && (!b.flags.only || b.flags.file || b.flags.directory)
  {
    if aces != [] {
      AllValid(aces[..|aces| - 1], directory, owner, group);
      var last := aces[|aces| - 1];
      if Inherits(last.flags, directory) { PassedIsUseful(last, directory, owner, group); }
    }
  }

  lemma {:induction false} CountMonotone(aces: seq<Ace>, directory: bool, n: nat)
    requires n <= |aces|
    ensures Count(aces[..n], directory) <= Count(aces, directory)
    decreases |aces| - n
  {
    if n == |aces| {
      assert aces[..n] == aces;
    } else {
      CountMonotone(aces, directory, n + 1);
      assert aces[..n + 1][..n] == aces[..n];
    }
  }

  /** Two passes: the first counts, the second fills an array of exactly that size. */
  method Inherit(parent: Descriptor, directory: bool, owner: nat, group: nat) returns (ok: bool, child: Descriptor)
    ensures ok <==> DescriptorValid(parent) && owner != 0 && group != 0 && !Reserved(owner) && !Reserved(group)
    ensures ok ==> DescriptorValid(child) && child.owner == owner && child.group == group
    ensures ok ==> child.autoInherit == parent.autoInherit
    ensures ok ==> child.aces == All(parent.aces, directory, owner, group)
    ensures ok ==> forall i :: 0 <= i < |child.aces| ==>
      child.aces[i].flags.inherited &&
        (!child.aces[i].flags.only || child.aces[i].flags.file || child.aces[i].flags.directory)
  {
    hide Count, All, AceValid, Passed, Inherits;
    child := Descriptor(owner, group, true, parent.autoInherit, false, []);
    if !DescriptorValid(parent) || owner == 0 || group == 0 || Reserved(owner) || Reserved(group) {
      return false, child;
    }
    ok := true;
    var n := |parent.aces|;
    var count := 0;
    NoneYet(parent.aces, directory, owner, group);
    for i := 0 to n
      invariant count == Count(parent.aces[..i], directory)
    {
      OneMore(parent.aces, directory, owner, group, i);
      if Inherits(parent.aces[i].flags, directory) { count := count + 1; }
    }
    assert parent.aces[..n] == parent.aces;
    CountIsLength(parent.aces, directory, owner, group);
    AllValid(parent.aces, directory, owner, group);
    if count == 0 { return; }
    var blank := Ace(0, {}, Unknown, Flags(false, false, false, false, false, false));
    var aces := new Ace[count](_ => blank);
    var out := 0;
    for i := 0 to n
      invariant out == Count(parent.aces[..i], directory) <= count
      invariant aces[..out] == All(parent.aces[..i], directory, owner, group)
    {
      OneMore(parent.aces, directory, owner, group, i);
      CountMonotone(parent.aces, directory, i + 1);
      if Inherits(parent.aces[i].flags, directory) {
        aces[out] := Passed(parent.aces[i], directory, owner, group);
        out := out + 1;
        assert aces[..out] == aces[..out - 1] + [aces[out - 1]];
      }
    }
    child := child.(aces := aces[..out]);
  }

  lemma NoneYet(aces: seq<Ace>, directory: bool, owner: nat, group: nat)
    ensures Count(aces[..0], directory) == 0 && All(aces[..0], directory, owner, group) == []
  {
  }

  lemma OneMore(aces: seq<Ace>, directory: bool, owner: nat, group: nat, i: nat)
    requires i < |aces|
    ensures Count(aces[..i + 1], directory)
      == Count(aces[..i], directory) + if Inherits(aces[i].flags, directory) then 1 else 0
    ensures All(aces[..i + 1], directory, owner, group) ==
      All(aces[..i], directory, owner, group)
      + if Inherits(aces[i].flags, directory) then [Passed(aces[i], directory, owner, group)] else []
  {
    assert aces[..i + 1][..i] == aces[..i];
  }
}
