/** The open-addressed hash set with which walks over metadata detect a repeated block. */
module VisitSet {
  import opened Counting

  const U64_MAX: nat := 0xFFFF_FFFF_FFFF_FFFF

  /** Position `d` places after `h`, around the end of the table, and the way back. */
  function Wrap(h: nat, d: nat, size: nat): nat { if h + d < size then h + d else h + d - size }
  function Distance(h: nat, i: nat, size: nat): int { if h <= i then i - h else i + size - h }

  function Home(hash: nat -> nat, key: nat, size: nat): nat
    requires size > 0
  {
    hash(key) % size
  }

  /** No empty place between a key's home and place `i`. */
  ghost predicate PathFull(slots: seq<nat>, hash: nat -> nat, key: nat, i: nat)
    requires |slots| > 0
  {
    i < |slots| && forall d: nat :: d < Distance(Home(hash, key, |slots|), i, |slots|) ==>
      Occupied(slots, Wrap(Home(hash, key, |slots|), d, |slots|))
  }

  predicate Occupied(slots: seq<nat>, i: nat) { i < |slots| && slots[i] != 0 }

  /** Keys are all different and can be found from their homes. */
  ghost predicate Table(slots: seq<nat>, hash: nat -> nat) {
    && |slots| > 0
    && (forall i, j :: 0 <= i < j < |slots| && slots[i] != 0 ==> slots[i] != slots[j])
    && (forall i: nat :: i < |slots| && slots[i] != 0 ==> PathFull(slots, hash, slots[i], i))
  }

  /** Linear probing: ends at the key or at the empty place where it belongs. */
  method Probe(slots: array<nat>, hash: nat -> nat, key: nat) returns (slot: nat)
    requires Table(slots[..], hash) && NonZero(slots[..]) < slots.Length && key > 0
    ensures slot < slots.Length && (slots[slot] == 0 || slots[slot] == key)
    ensures slots[slot] == key <==> key in slots[..]
    ensures slots[slot] == 0 ==> PathFull(slots[..], hash, key, slot)
  {
    hide Table, PathFull;
    var h := Home(hash, key, slots.Length);
    slot := h;
    ghost var d := 0;
    while slots[slot] != 0
      invariant d < slots.Length && slot == Wrap(h, d, slots.Length) && slot < slots.Length
      invariant forall e: nat :: e < d ==> Passed(slots[..], h, e, key)
      decreases slots.Length - d
    {
      if slots[slot] == key {
        assert slots[..][slot] == key;
        return;
      }
      assert Passed(slots[..], h, d, key);
      RoomAhead(slots[..], h, key, d);
      slot := if slot + 1 == slots.Length then 0 else slot + 1;
      d := d + 1;
    }
    NotThere(slots[..], hash, key, d);
  }

  ghost predicate Passed(slots: seq<nat>, h: nat, d: nat, key: nat) {
    var i := Wrap(h, d, |slots|); i < |slots| && slots[i] != 0 && slots[i] != key
  }

  /** As long as some place is empty, the probe has not gone around. */
  lemma RoomAhead(slots: seq<nat>, h: nat, key: nat, d: nat)
    requires h < |slots| && d < |slots| && NonZero(slots) < |slots|
    requires forall e: nat :: e <= d ==> Passed(slots, h, e, key)
    ensures d + 1 < |slots|
  {
    NonZeroAll(slots);
    var i :| 0 <= i < |slots| && slots[i] == 0;
    var e := Distance(h, i, |slots|);
    assert Wrap(h, e, |slots|) == i;
    assert e <= d ==> Passed(slots, h, e, key);
  }

  lemma NotAt(slots: seq<nat>, hash: nat -> nat, key: nat, d: nat, i: nat)
    requires Table(slots, hash) && key > 0 && d < |slots| && i < |slots|
    requires var h := Home(hash, key, |slots|);
      slots[Wrap(h, d, |slots|)] == 0 && forall e: nat :: e < d ==> Passed(slots, h, e, key)
    ensures slots[i] != key
  {
    var h := Home(hash, key, |slots|);
    var e := Distance(h, i, |slots|);
    assert Wrap(h, e, |slots|) == i;
    assert slots[i] == key ==> PathFull(slots, hash, key, i);
    assert e < d ==> Passed(slots, h, e, key);
    assert slots[i] == key && d < e ==> Occupied(slots, Wrap(h, d, |slots|));
  }

  /** A key that was not met before the first empty place is nowhere in the table. */
  lemma NotThere(slots: seq<nat>, hash: nat -> nat, key: nat, d: nat)
    requires Table(slots, hash) && key > 0 && d < |slots|
    requires var h := Home(hash, key, |slots|);
      slots[Wrap(h, d, |slots|)] == 0 && forall e: nat :: e < d ==> Passed(slots, h, e, key)
    ensures key !in slots && PathFull(slots, hash, key, Wrap(Home(hash, key, |slots|), d, |slots|))
  {
    hide Table;
    var h := Home(hash, key, |slots|);
    forall i: nat | i < |slots| ensures slots[i] != key { NotAt(slots, hash, key, d, i); }
    forall e: nat | e < Distance(h, Wrap(h, d, |slots|), |slots|) ensures Occupied(slots, Wrap(h, e, |slots|)) {
      assert Passed(slots, h, e, key);
    }
  }

  /** A key put in its place keeps the table good. */
  lemma Placed(slots: seq<nat>, hash: nat -> nat, key: nat, slot: nat)
    requires Table(slots, hash) && key > 0 && slot < |slots| && slots[slot] == 0 && key !in slots
    requires PathFull(slots, hash, key, slot)
    ensures Table(slots[slot := key], hash) && NonZero(slots[slot := key]) == NonZero(slots) + 1
  {
    var r := slots[slot := key];
    NonZeroUpdate(slots, slot, key);
    forall i: nat | i < |r| && r[i] != 0 ensures PathFull(r, hash, r[i], i) {
      assert PathFull(slots, hash, r[i], i);
      forall d: nat | d < Distance(Home(hash, r[i], |r|), i, |r|)
        ensures Occupied(r, Wrap(Home(hash, r[i], |r|), d, |r|))
      {
        assert Occupied(slots, Wrap(Home(hash, r[i], |r|), d, |r|));
      }
    }
  }

  /** An empty table. */
  lemma Empty(size: nat, hash: nat -> nat)
    requires size > 0
    ensures Table(seq(size, (_: nat) => 0), hash) && NonZero(seq(size, (_: nat) => 0)) == 0
  {
    NonZeroNone(seq(size, (_: nat) => 0));
  }

  ghost function Members(slots: seq<nat>): set<nat> { set i: nat | i < |slots| && slots[i] != 0 :: slots[i] - 1 }

  lemma MemberIff(slots: seq<nat>, b: nat)
    ensures b in Members(slots) <==> b + 1 in slots
  {
  }

  class Set {
    const hash: nat -> nat
    var slots: array<nat>
    var count: nat

    ghost predicate Valid()
      reads this, slots
    {
      && count == NonZero(slots[..]) && count <= slots.Length / 2
      && (slots.Length > 0 ==> Table(slots[..], hash))
    }

    ghost function Blocks(): set<nat>
      reads this, slots
    {
      Members(slots[..])
    }

    constructor (hash: nat -> nat)
      ensures Valid() && Blocks() == {} && fresh(slots) && this.hash == hash
    {
      this.hash, count := hash, 0;
      slots := new nat[0];
    }

    /** Doubles the table and puts every key into its new place. */
    method Grow()
      requires Valid()
      modifies this
      ensures Valid() && fresh(slots) && Blocks() == old(Blocks()) && count < slots.Length / 2
    {
      hide Table, NonZero, Members;
      NonZeroAll(slots[..]);
      var size := if slots.Length > 0 then slots.Length * 2 else 64;
      var grown := new nat[size](_ => 0);
      Empty(size, hash);
      NonZeroNone(slots[..0]);
      assert grown[..] == seq(size, (_: nat) => 0);
      for i := 0 to slots.Length
        invariant fresh(grown) && grown.Length == size && slots == old(slots) && slots[..] == old(slots[..])
        invariant count == old(count)
        invariant Table(grown[..], hash) && NonZero(grown[..]) == NonZero(slots[..i])
        invariant forall k :: k > 0 ==> (k in grown[..] <==> k in slots[..i])
      {
        assert slots[..i + 1] == slots[..i] + [slots[i]] && slots[..i + 1][..i] == slots[..i];
        var key := slots[i];
        CountNext(slots[..], i);
        if key == 0 { continue; }
        NotYet(slots[..], hash, i);
        NonZeroAll(slots[..i]);
        var slot := Probe(grown, hash, key);
        Placed(grown[..], hash, key, slot);
        ghost var was := grown[..];
        grown[slot] := key;
        assert grown[..] == was[slot := key];
        InUpdated(was, slot, key);
      }
      assert slots[..slots.Length] == slots[..];
      assert NonZero(grown[..]) == count;
      ghost var before := slots[..];
      slots := grown;
      SameKeys(before, slots[..]);
    }

    /** Adds a block, which must not be there yet. */
    method Claim(block: nat) returns (ok: bool)
      requires Valid()
      modifies this, slots
      ensures Valid() && (slots == old(slots) || fresh(slots))
      ensures ok <==> block != U64_MAX && block !in old(Blocks())
      ensures Blocks() == old(Blocks()) + if ok then {block} else {}
    {
      hide Table, NonZero, Members;
      if block == U64_MAX { return false; }
      if slots.Length == 0 || count >= slots.Length / 2 { Grow(); }
      ghost var was := slots[..];
      var key: nat := block + 1;
      MemberIff(was, block);
      NonZeroAll(was);
      var slot := Probe(slots, hash, key);
      ok := slots[slot] == 0;
      if ok {
        Placed(was, hash, key, slot);
        slots[slot] := key;
        assert slots[..] == was[slot := key];
        InUpdated(was, slot, key);
        count := count + 1;
        AddedMember(was, slots[..], block);
      }
    }

    method Contains(block: nat) returns (found: bool)
      requires Valid()
      ensures found <==> block != U64_MAX && block in Blocks()
    {
      if slots.Length == 0 || block == U64_MAX { return false; }
      MemberIff(slots[..], block);
      NonZeroAll(slots[..]);
      var slot := Probe(slots, hash, block + 1);
      found := slots[slot] != 0;
    }
  }

  lemma CountNext(slots: seq<nat>, i: nat)
    requires i < |slots|
    ensures NonZero(slots[..i + 1]) == NonZero(slots[..i]) + if slots[i] != 0 then 1 else 0
  {
    assert slots[..i + 1][..i] == slots[..i];
  }

  lemma NotYet(slots: seq<nat>, hash: nat -> nat, i: nat)
    requires i < |slots| && slots[i] != 0 && Table(slots, hash)
    ensures slots[i] !in slots[..i]
  {
  }

  lemma InUpdated(slots: seq<nat>, slot: nat, key: nat)
    requires slot < |slots| && slots[slot] == 0
    ensures forall k :: k > 0 ==> (k in slots[slot := key] <==> k in slots || k == key)
  {
    var r := slots[slot := key];
    forall k | k > 0 ensures k in r <==> k in slots || k == key {
      if k in slots {
        var i :| 0 <= i < |slots| && slots[i] == k;
        assert r[i] == k;
      }
      if k == key { assert r[slot] == k; }
      if k in r {
        var i :| 0 <= i < |r| && r[i] == k;
        assert i != slot ==> slots[i] == k;
      }
    }
  }

  lemma SameKeys(a: seq<nat>, b: seq<nat>)
    requires forall k :: k > 0 ==> (k in a <==> k in b)
    ensures Members(a) == Members(b)
  {
    forall x ensures x in Members(a) <==> x in Members(b) {
      MemberIff(a, x);
      MemberIff(b, x);
    }
  }

  lemma AddedMember(a: seq<nat>, b: seq<nat>, block: nat)
    requires forall k :: k > 0 ==> (k in b <==> k in a || k == block + 1)
    ensures Members(b) == Members(a) + {block}
  {
    forall x ensures x in Members(b) <==> x in Members(a) || x == block {
      MemberIff(a, x);
      MemberIff(b, x);
    }
  }
}
