/** Synchronous replication over several storage members. */
module Mirror {
  import opened Geometry
  import opened Counting

  const CHUNK: nat := 65536

  datatype Status = Ok | IoError | Corrupt | Unsupported

  /** What a caller asks for: a number of copies (zero means all), beginning at the member
      that the object's hash names. */
  datatype Policy = Policy(copies: nat, hash: nat)

  function Copies(count: nat, p: Option<Policy>): nat {
    if p.None? || p.value.copies == 0 then count else p.value.copies
  }

  function Start(count: nat, p: Option<Policy>): nat { if p.None? || count == 0 then 0 else p.value.hash % count }

  predicate Selected(count: nat, p: Option<Policy>, i: nat) {
    || Copies(count, p) == count
    || (if i >= Start(count, p) then i - Start(count, p) else count - Start(count, p) + i) < Copies(count, p)
  }

  ghost function Chosen(count: nat, p: Option<Policy>): set<nat> { set i: nat | i < count && Selected(count, p, i) }

  /** Whatever the start, exactly the requested number of members is selected. */
  lemma ExactlyThatMany(count: nat, p: Option<Policy>)
    requires Copies(count, p) <= count
    ensures |Chosen(count, p)| == Copies(count, p)
  {
    var k, s := Copies(count, p), Start(count, p);
    if k == count {
      AllChosen(count, p);
      IntervalCount(0, count);
    } else if s + k <= count {
      InARow(count, p);
      IntervalCount(s, s + k);
    } else {
      AroundTheEnd(count, p);
      IntervalCount(s, count);
      IntervalCount(0, s + k - count);
    }
  }

  lemma AllChosen(count: nat, p: Option<Policy>)
    requires Copies(count, p) == count
    ensures Chosen(count, p) == Interval(0, count)
  {
  }

  lemma InARow(count: nat, p: Option<Policy>)
    requires Copies(count, p) < count && Start(count, p) + Copies(count, p) <= count
    ensures Chosen(count, p) == Interval(Start(count, p), Start(count, p) + Copies(count, p))
  {
    hide Start, Copies;
  }

  lemma AroundTheEnd(count: nat, p: Option<Policy>)
    requires Copies(count, p) < count < Start(count, p) + Copies(count, p) && Start(count, p) < count
    ensures Chosen(count, p)
      == Interval(Start(count, p), count) + Interval(0, Start(count, p) + Copies(count, p) - count)
    ensures Interval(Start(count, p), count) !! Interval(0, Start(count, p) + Copies(count, p) - count)
  {
    hide Start, Copies;
  }

  type Bytes = seq<nat>

  function Patch(c: Bytes, offset: nat, data: Bytes): Bytes
    requires offset + |data| <= |c|
  {
    c[..offset] + data + c[offset + |data|..]
  }

  /** What the devices do during one operation: the outcome at each member (and, for a
      read, of each of its parts), and what a failed write leaves behind. */
  datatype World = World(outcome: nat -> Status, part: (nat, nat) -> Status, wreck: nat -> Bytes)

  /** Members fail with I/O errors only. */
  ghost predicate OnlyIoErrors(w: World, count: nat) {
    && (forall i: nat :: i < count ==> w.outcome(i) == Ok || w.outcome(i) == IoError)
    && (forall i: nat, at: nat :: i < count ==> w.part(i, at) == Ok || w.part(i, at) == IoError)
  }

  /** The members' contents and which members are in use. */
  datatype Group = Group(members: seq<Bytes>, healthy: seq<bool>)

  ghost predicate Shaped(g: Group, size: nat) {
    |g.members| == |g.healthy| && forall i :: 0 <= i < |g.members| ==> |g.members[i]| == size
  }

  predicate Active(g: Group, p: Option<Policy>, i: nat) {
    i < |g.healthy| && g.healthy[i] && Selected(|g.healthy|, p, i)
  }

  /** All healthy members of the policy hold the same bytes. */
  ghost predicate Coherent(g: Group, p: Option<Policy>)
    requires |g.members| == |g.healthy|
  {
    forall i: nat, j: nat :: Active(g, p, i) && Active(g, p, j) ==> g.members[i] == g.members[j]
  }

  /** All healthy members of the policy hold these bytes. */
  ghost predicate Holds(g: Group, p: Option<Policy>, c: Bytes)
    requires |g.members| == |g.healthy|
  {
    forall i: nat :: Active(g, p, i) ==> g.members[i] == c
  }

  /** No member of the policy was ever set aside. */
  ghost predicate Intact(g: Group, p: Option<Policy>) {
    forall i: nat :: i < |g.healthy| && Selected(|g.healthy|, p, i) ==> Active(g, p, i)
  }

  /** What one write does to member `k`. */
  ghost predicate WroteTo(g: Group, h: Group, p: Option<Policy>, offset: nat, data: Bytes, w: World, k: nat) {
    && |h.members| == |h.healthy| == |g.healthy| == |g.members| && k < |g.members| && offset + |data| <= |g.members[k]|
    && if !Active(g, p, k) then h.members[k] == g.members[k] && h.healthy[k] == g.healthy[k]
       else if w.outcome(k) == Ok then h.members[k] == Patch(g.members[k], offset, data) && h.healthy[k]
       else h.healthy[k] == (w.outcome(k) != IoError)
  }

  ghost predicate Attempted(g: Group, p: Option<Policy>, n: nat) { exists k: nat :: k < n && Active(g, p, k) }

  predicate Lacks(g: Group, p: Option<Policy>, w: World, k: nat) {
    k < |g.healthy| && Selected(|g.healthy|, p, k) && (!g.healthy[k] || w.outcome(k) != Ok)
  }

  ghost predicate Degraded(g: Group, p: Option<Policy>, w: World, n: nat) {
    exists k: nat :: k < n && Lacks(g, p, w, k)
  }

  lemma NextMember(g: Group, p: Option<Policy>, w: World, n: nat)
    ensures Attempted(g, p, n + 1) <==> Attempted(g, p, n) || Active(g, p, n)
    ensures Degraded(g, p, w, n + 1) <==> Degraded(g, p, w, n) || Lacks(g, p, w, n)
  {
  }

  /** What a complete write achieves. */
  lemma AfterWrite(g: Group, h: Group, p: Option<Policy>, offset: nat, data: Bytes, w: World)
    requires |h.members| == |h.healthy| == |g.healthy| == |g.members|
    requires forall k: nat :: k < |g.members| ==> WroteTo(g, h, p, offset, data, w, k)
    ensures Coherent(g, p) && OnlyIoErrors(w, |g.members|) ==> Coherent(h, p)
    ensures !Degraded(g, p, w, |g.members|) ==> Intact(h, p)
    ensures !Degraded(g, p, w, |g.members|) ==>
              forall k: nat :: Active(h, p, k) ==>
                offset + |data| <= |g.members[k]| && h.members[k] == Patch(g.members[k], offset, data)
    ensures OnlyIoErrors(w, |g.members|) ==> forall k: nat :: Active(h, p, k) ==>
              && Active(g, p, k) && offset + |data| <= |g.members[k]|
              && h.members[k] == Patch(g.members[k], offset, data)
    ensures !Intact(g, p) ==> Degraded(g, p, w, |g.members|) && !Intact(h, p)
    ensures OnlyIoErrors(w, |g.members|) && Degraded(g, p, w, |g.members|) ==> !Intact(h, p)
  {
    hide Selected, Patch;
    if Coherent(g, p) && OnlyIoErrors(w, |g.members|) {
      forall i: nat, j: nat | Active(h, p, i) && Active(h, p, j) ensures h.members[i] == h.members[j] {
        assert WroteTo(g, h, p, offset, data, w, i) && WroteTo(g, h, p, offset, data, w, j);
        assert Active(g, p, i) && Active(g, p, j);
      }
    }
    if OnlyIoErrors(w, |g.members|) {
      forall k: nat | Active(h, p, k)
        ensures Active(g, p, k) && offset + |data| <= |g.members[k]|
        ensures h.members[k] == Patch(g.members[k], offset, data)
      {
        assert WroteTo(g, h, p, offset, data, w, k);
      }
    }
    if !Degraded(g, p, w, |g.members|) {
      forall k: nat | k < |g.members| && Selected(|g.healthy|, p, k)
        ensures Active(h, p, k) && offset + |data| <= |g.members[k]|
        ensures h.members[k] == Patch(g.members[k], offset, data)
      {
        assert WroteTo(g, h, p, offset, data, w, k) && !Lacks(g, p, w, k);
      }
    }
    if k: nat :| k < |g.healthy| && Selected(|g.healthy|, p, k) && !Active(g, p, k) {
      assert WroteTo(g, h, p, offset, data, w, k) && Lacks(g, p, w, k);
      assert !Active(h, p, k);
    }
    if OnlyIoErrors(w, |g.members|) && Degraded(g, p, w, |g.members|) {
      var k: nat :| k < |g.members| && Lacks(g, p, w, k);
      assert WroteTo(g, h, p, offset, data, w, k);
      assert !Active(h, p, k);
    }
  }

  lemma NobodyYet(g: Group, p: Option<Policy>, w: World)
    ensures !Attempted(g, p, 0) && !Degraded(g, p, w, 0)
  {
  }

  lemma NobodyThere(g: Group, p: Option<Policy>)
    ensures Chosen(|g.healthy|, p) != {} && !Attempted(g, p, |g.healthy|) ==> !Intact(g, p)
  {
    if Chosen(|g.healthy|, p) != {} && !Attempted(g, p, |g.healthy|) {
      var k :| k in Chosen(|g.healthy|, p);
      assert !Active(g, p, k);
    }
  }

  lemma SubSlice(c: Bytes, offset: nat, n: nat, a: nat, b: nat)
    requires offset + n <= |c| && a <= b <= n
    ensures c[offset..offset + n][a..b] == c[offset + a..offset + b]
  {
    var x, y := c[offset..offset + n][a..b], c[offset + a..offset + b];
    forall i | 0 <= i < b - a ensures x[i] == y[i] { }
  }

  /** Byte `x` of member `i` is read and differs from what was read before. */
  ghost predicate Differs(g: Group, w: World, i: nat, offset: nat, buffer: Bytes, x: nat) {
    && i < |g.members| && x < |buffer| && offset + |buffer| <= |g.members[i]|
    && g.members[i][offset + x] != buffer[x]
    && forall at: nat :: at <= x && at % CHUNK == 0 ==> w.part(i, at) == Ok
  }

  ghost predicate Disputes(g: Group, w: World, i: nat, offset: nat, buffer: Bytes) {
    exists x: nat :: Differs(g, w, i, offset, buffer, x)
  }

  /** Member `k` is the first of the policy to answer. */
  ghost predicate AnswersFirst(g: Group, p: Option<Policy>, w: World, k: nat) {
    && Active(g, p, k) && w.outcome(k) == Ok
    && forall i: nat :: i < k && Active(g, p, i) ==> w.outcome(i) != Ok
  }

  /** A member after the first one to answer disputes what that one said. */
  ghost predicate Disputed(g: Group, p: Option<Policy>, w: World, offset: nat, length: nat) {
    exists k: nat, i: nat ::
      && k < i && AnswersFirst(g, p, w, k) && Active(g, p, i)
      && k < |g.members| && offset + length <= |g.members[k]|
      && Disputes(g, w, i, offset, g.members[k][offset..offset + length])
  }

  lemma NotDisputed(g: Group, p: Option<Policy>, w: World, offset: nat, length: nat)
    requires |g.members| == |g.healthy| && Coherent(g, p)
    ensures !Disputed(g, p, w, offset, length)
  {
    hide Selected;
  }

  lemma IsDisputed(g: Group, p: Option<Policy>, w: World, offset: nat, length: nat, k: nat, i: nat)
    requires |g.members| == |g.healthy| && k < i && AnswersFirst(g, p, w, k) && Active(g, p, i)
    requires offset + length <= |g.members[k]|
    requires Disputes(g, w, i, offset, g.members[k][offset..offset + length])
    ensures Disputed(g, p, w, offset, length)
  {
  }

  lemma NobodyAnswers(g: Group, p: Option<Policy>, w: World, offset: nat, length: nat)
    requires forall k: nat :: Active(g, p, k) ==> w.outcome(k) != Ok
    ensures !Disputed(g, p, w, offset, length)
  {
  }

  /** Everyone after the first to answer has been asked. */
  lemma AllAsked(g: Group, p: Option<Policy>, w: World, offset: nat, length: nat, k: nat)
    requires |g.members| == |g.healthy| && k < |g.members| && offset + length <= |g.members[k]|
    requires AnswersFirst(g, p, w, k)
    requires forall i: nat :: k < i && Active(g, p, i) ==>
      !Disputes(g, w, i, offset, g.members[k][offset..offset + length])
    ensures !Disputed(g, p, w, offset, length)
  {
    hide Selected, Disputes;
    forall k': nat | AnswersFirst(g, p, w, k') ensures k' == k { }
  }

  lemma SameChunk(c: Bytes, offset: nat, buffer: Bytes, checked: nat, chunk: nat)
    requires checked + chunk <= |buffer| && offset + |buffer| <= |c|
    requires buffer[checked..checked + chunk] == c[offset + checked..offset + checked + chunk]
    ensures forall x: nat :: checked <= x < checked + chunk ==> buffer[x] == c[offset + x]
  {
    forall x: nat | checked <= x < checked + chunk ensures buffer[x] == c[offset + x] {
      assert buffer[checked..checked + chunk][x - checked] == buffer[x];
      assert c[offset + checked..offset + checked + chunk][x - checked] == c[offset + x];
    }
  }

  lemma FirstDifference(c: Bytes, offset: nat, buffer: Bytes, checked: nat, chunk: nat) returns (x: nat)
    requires checked + chunk <= |buffer| && offset + |buffer| <= |c|
    requires buffer[checked..checked + chunk] != c[offset + checked..offset + checked + chunk]
    ensures checked <= x < checked + chunk && buffer[x] != c[offset + x]
  {
    var a, b := buffer[checked..checked + chunk], c[offset + checked..offset + checked + chunk];
    var y :| 0 <= y < chunk && a[y] != b[y];
    x := checked + y;
  }

  class Set {
    const count: nat
    const size: nat
    var group: Group

    ghost predicate Valid() reads this { Shaped(group, size) && |group.members| == count }

    constructor (members: seq<Bytes>, size: nat)
      requires forall i :: 0 <= i < |members| ==> |members[i]| == size
      ensures Valid() && group.members == members && count == |members| && this.size == size
      ensures forall p :: Intact(group, p)
    {
      this.count, this.size := |members|, size;
      this.group := Group(members, seq(|members|, _ => true));
    }

    /** Writes to every healthy member of the policy; a member that fails is set aside. It
        reports success exactly when every member of the policy took the data. */
    method Write(p: Option<Policy>, offset: nat, data: Bytes, w: World) returns (s: Status)
      requires Valid() && offset + |data| <= size && forall i: nat :: |w.wreck(i)| == size
      modifies this
      ensures Valid()
      ensures Coherent(old(group), p) && OnlyIoErrors(w, count) ==> Coherent(group, p)
      ensures OnlyIoErrors(w, count) && Copies(count, p) <= count ==> s == Ok || s == IoError
      ensures OnlyIoErrors(w, count) && Copies(count, p) <= count && Chosen(count, p) != {} && s != Ok ==>
        !Intact(group, p)
      ensures s == Ok ==> Intact(group, p) && forall k: nat :: Active(group, p, k) ==>
        group.members[k] == Patch(old(group).members[k], offset, data)
      ensures OnlyIoErrors(w, count) && Copies(count, p) <= count ==> forall k: nat :: Active(group, p, k) ==>
        Active(old(group), p, k) && group.members[k] == Patch(old(group).members[k], offset, data)
      ensures s == Ok <==>
        Copies(count, p) <= count && Attempted(old(group), p, count) && !Degraded(old(group), p, w, count)
      ensures !Intact(old(group), p) ==> s != Ok && !Intact(group, p)
    {
      hide Coherent, Intact, Attempted, Degraded, Selected, Chosen;
      if Copies(count, p) > count { return Unsupported; }
      ghost var g := group;
      NobodyYet(g, p, w);
      var result, attempted, degraded := Ok, false, false;
      for i := 0 to count
        invariant Valid() && forall k: nat :: k < i ==> WroteTo(g, group, p, offset, data, w, k)
        invariant forall k: nat :: i <= k < count ==>
          group.members[k] == g.members[k] && group.healthy[k] == g.healthy[k]
        invariant (attempted <==> Attempted(g, p, i)) && (degraded <==> Degraded(g, p, w, i))
        invariant result != Ok ==> degraded
        invariant OnlyIoErrors(w, count) ==> result == Ok || result == IoError
      {
        NextMember(g, p, w, i);
        ghost var h := group;
        if !Selected(count, p, i) { continue; }
        if !group.healthy[i] { degraded := true; continue; }
        attempted := true;
        var status := w.outcome(i);
        if status == Ok {
          group := group.(members := group.members[i := Patch(group.members[i], offset, data)]);
        } else {
          group := group.(members := group.members[i := w.wreck(i)]);
          if status == IoError { group := group.(healthy := group.healthy[i := false]); }
          degraded := true;
          if result == Ok { result := status; }
        }
        forall k: nat | k < i
          ensures WroteTo(g, group, p, offset, data, w, k)
        {
          assert WroteTo(g, h, p, offset, data, w, k);
        }
      }
      AfterWrite(g, group, p, offset, data, w);
      NobodyThere(g, p);
      s := if !attempted then IoError else if result != Ok then result else if degraded then IoError else Ok;
    }

    /** Compares one more healthy member with what was read, part by part. */
    method Compare(i: nat, offset: nat, buffer: Bytes, w: World) returns (s: Status)
      requires Valid() && i < count && offset + |buffer| <= size
      ensures
        && group.members[i][offset..offset + |buffer|] == buffer
        && (forall at: nat :: w.part(i, at) == Ok || w.part(i, at) == IoError)
        ==> s == Ok
      ensures OnlyIoErrors(w, count) ==> s == if Disputes(group, w, i, offset, buffer) then Corrupt else Ok
    {
      var checked := 0;
      while checked < |buffer|
        invariant checked <= |buffer| && (checked % CHUNK == 0 || checked == |buffer|)
        invariant forall x: nat :: x < checked ==> buffer[x] == group.members[i][offset + x]
        invariant forall at: nat :: at < checked && at % CHUNK == 0 ==> w.part(i, at) == Ok
        decreases |buffer| - checked
      {
        var chunk := Min(|buffer| - checked, CHUNK);
        var status := w.part(i, checked);
        if status != Ok {
          if status != IoError { return status; }
          assert forall x: nat :: checked <= x ==> !Differs(group, w, i, offset, buffer, x);
          return Ok;
        }
        SubSlice(group.members[i], offset, |buffer|, checked, checked + chunk);
        if buffer[checked..checked + chunk] != group.members[i][offset + checked..offset + checked + chunk] {
          ghost var x: nat := FirstDifference(group.members[i], offset, buffer, checked, chunk);
          assert Differs(group, w, i, offset, buffer, x);
          return Corrupt;
        }
        SameChunk(group.members[i], offset, buffer, checked, chunk);
        checked := checked + chunk;
      }
      s := Ok;
    }

    /** Reads from the first healthy member of the policy that answers and compares all
        further ones with it. */
    method Read(p: Option<Policy>, offset: nat, length: nat, w: World) returns (s: Status, buffer: Bytes)
      requires Valid() && offset + length <= size
      ensures s == Ok ==> exists k: nat :: Active(group, p, k) && buffer == group.members[k][offset..offset + length]
      ensures Coherent(group, p) && OnlyIoErrors(w, count) && Copies(count, p) <= count ==> s == Ok || s == IoError
      ensures Coherent(group, p) && OnlyIoErrors(w, count) && Copies(count, p) <= count ==>
                (s == Ok <==> exists k: nat :: Active(group, p, k) && w.outcome(k) == Ok)
      ensures OnlyIoErrors(w, count) && Copies(count, p) <= count ==>
                && (s == IoError <==> forall k: nat :: Active(group, p, k) ==> w.outcome(k) != Ok)
                && (s == Corrupt <==> Disputed(group, p, w, offset, length)) && s != Unsupported
    {
      hide Coherent, Disputed, Disputes;
      buffer := [];
      if Copies(count, p) > count { return Unsupported, buffer; }
      if Coherent(group, p) { NotDisputed(group, p, w, offset, length); }
      var have := false;
      ghost var source: nat := 0;
      for i := 0 to count
        invariant have ==> source < i && AnswersFirst(group, p, w, source)
        invariant have && OnlyIoErrors(w, count) ==> forall k: nat :: source < k < i && Active(group, p, k) ==>
          !Disputes(group, w, k, offset, buffer)
        invariant have ==> buffer == group.members[source][offset..offset + length]
        invariant !have ==> forall k: nat :: k < i && Active(group, p, k) ==> w.outcome(k) != Ok
      {
        if !Selected(count, p, i) || !group.healthy[i] { continue; }
        if !have {
          var status := w.outcome(i);
          if status != Ok {
            if status != IoError { return status, buffer; }
            continue;
          }
          buffer, have, source := group.members[i][offset..offset + length], true, i;
          continue;
        }
        var status := Compare(i, offset, buffer, w);
        if status != Ok {
          if status == Corrupt && OnlyIoErrors(w, count) { IsDisputed(group, p, w, offset, length, source, i); }
          return status, buffer;
        }
      }
      if have && OnlyIoErrors(w, count) { AllAsked(group, p, w, offset, length, source); }
      if !have { NobodyAnswers(group, p, w, offset, length); }
      s := if have then Ok else IoError;
    }

    /** A flush of every healthy member. */
    method Flush(w: World) returns (s: Status)
      requires Valid()
      modifies this
      ensures Valid() && group.members == old(group).members
      ensures forall i: nat :: i < count ==> group.healthy[i] == (old(group).healthy[i] && w.outcome(i) != IoError)
      ensures forall p :: Intact(group, p) <==> Intact(old(group), p) && !LosesMember(w, p, count)
      ensures s == Ok <==> Attempted(old(group), None, count) && !Degraded(old(group), None, w, count)
      ensures OnlyIoErrors(w, count) ==> s == Ok || s == IoError
      ensures forall p :: Coherent(old(group), p) ==> Coherent(group, p)
    {
      ghost var g := group;
      var result, attempted, degraded := Ok, false, false;
      for i := 0 to count
        invariant Valid() && group.members == g.members && (result != Ok ==> degraded)
        invariant forall k: nat :: k < count ==>
          group.healthy[k] == (g.healthy[k] && (k < i ==> w.outcome(k) != IoError))
        invariant (attempted <==> Attempted(g, None, i)) && (degraded <==> Degraded(g, None, w, i))
        invariant OnlyIoErrors(w, count) ==> result == Ok || result == IoError
      {
        NextMember(g, None, w, i);
        if !group.healthy[i] { degraded := true; continue; }
        attempted := true;
        var status := w.outcome(i);
        if status != Ok {
          if status == IoError { group := group.(healthy := group.healthy[i := false]); }
          degraded := true;
          if result == Ok { result := status; }
        }
      }
      FewerActive(g, group, w);
      s := if !attempted then IoError else if result != Ok then result else if degraded then IoError else Ok;
    }
  }

  /** A member of the policy fails with an I/O error. */
  ghost predicate LosesMember(w: World, p: Option<Policy>, count: nat) {
    exists k: nat :: k < count && Selected(count, p, k) && w.outcome(k) == IoError
  }

  lemma FewerActive(g: Group, h: Group, w: World)
    requires |g.members| == |g.healthy| == |h.healthy| && h.members == g.members
    requires forall k: nat :: k < |g.healthy| ==> h.healthy[k] == (g.healthy[k] && w.outcome(k) != IoError)
    ensures forall p :: Coherent(g, p) ==> Coherent(h, p)
    ensures forall p :: Intact(h, p) <==> Intact(g, p) && !LosesMember(w, p, |g.healthy|)
  {
    forall p | Coherent(g, p) ensures Coherent(h, p) {
      forall i: nat, j: nat | Active(h, p, i) && Active(h, p, j) ensures h.members[i] == h.members[j] {
        assert Active(g, p, i) && Active(g, p, j);
      }
    }
    forall p ensures Intact(h, p) <==> Intact(g, p) && !LosesMember(w, p, |g.healthy|) {
      forall i: nat | i < |g.healthy| && Selected(|g.healthy|, p, i)
        ensures Active(h, p, i) <==> Active(g, p, i) && w.outcome(i) != IoError
      {
      }
    }
  }

  /** The bytes that a run of operations leaves on a single faultless disk. */
  function After(c: Bytes, ops: seq<Op>): (r: Bytes)
    ensures |r| == |c|
  {
    if ops == [] then c else Next(After(c, ops[..|ops| - 1]), ops[|ops| - 1])
  }

  function Next(c: Bytes, op: Op): (r: Bytes)
    ensures |r| == |c|
  {
    match op
    case DoWrite(offset, data, _) => if offset + |data| <= |c| then Patch(c, offset, data) else c
    case DoRead(_, _, _) => c
    case DoFlush(_) => c
  }

  /** A read that succeeds returns these bytes. */
  predicate Answers(c: Bytes, op: Op, r: Reply) {
    op.DoRead? && r.status == Ok ==>
      op.offset + op.length <= |c| && r.bytes == c[op.offset..op.offset + op.length]
  }

  /** A read that succeeds returns what all writes before it, complete or not, leave on one disk. */
  ghost predicate ReadsBack(c: Bytes, ops: seq<Op>, r: Reply, i: nat)
    requires i < |ops|
  {
    Answers(After(c, ops[..i]), ops[i], r)
  }

  datatype Reply = Reply(status: Status, bytes: Bytes)

  /** One operation of a run under a fixed policy. */
  datatype Op =
    | DoWrite(offset: nat, data: Bytes, world: World)
    | DoRead(offset: nat, length: nat, world: World)
    | DoFlush(world: World)

  ghost predicate OpOk(op: Op, count: nat, size: nat) {
    && OnlyIoErrors(op.world, count)
    && match op
       case DoWrite(offset, data, w) => offset + |data| <= size && forall i: nat :: |w.wreck(i)| == size
       case DoRead(offset, length, _) => offset + length <= size
       case DoFlush(_) => true
  }

  /** From this operation on a copy is missing. */
  ghost predicate Breaks(op: Op, s: Status, p: Option<Policy>, count: nat) {
    match op
    case DoWrite(_, _, _) => s != Ok
    case DoRead(_, _, _) => false
    case DoFlush(w) => LosesMember(w, p, count)
  }

  /** Any run in which members fail with I/O errors only: no operation reports corruption,
      every read that succeeds returns what one faultless disk would, and once a write was not
      complete, or a flush lost a member of the policy, no later write reports success. */
  method Run(m: Set, p: Option<Policy>, ops: seq<Op>, ghost c: Bytes) returns (replies: seq<Reply>)
    requires m.Valid() && |c| == m.size && Holds(m.group, p, c)
    requires Copies(m.count, p) <= m.count && Chosen(m.count, p) != {}
    requires forall i :: 0 <= i < |ops| ==> OpOk(ops[i], m.count, m.size)
    modifies m
    ensures m.Valid() && Holds(m.group, p, After(c, ops)) && |replies| == |ops|
    ensures forall i :: 0 <= i < |ops| ==> replies[i].status == Ok || replies[i].status == IoError
    ensures forall i :: 0 <= i < |ops| ==> ReadsBack(c, ops, replies[i], i)
    ensures forall i, j :: 0 <= i < j < |ops| && ops[j].DoWrite? && replies[j].status == Ok ==>
      !Breaks(ops[i], replies[i].status, p, m.count)
  {
    hide Coherent, Intact, Copies, Chosen, OnlyIoErrors, LosesMember, After, Holds, ReadsBack, Disputed;
    replies := [];
    assert ops[..0] == [] && After(c, []) == c by { StartsAt(c); }
    for n := 0 to |ops|
      invariant m.Valid() && Holds(m.group, p, After(c, ops[..n])) && |replies| == n
      invariant forall i :: 0 <= i < n ==> replies[i].status == Ok || replies[i].status == IoError
      invariant forall i :: 0 <= i < n ==> ReadsBack(c, ops, replies[i], i)
      invariant forall i, j :: 0 <= i < j < n && ops[j].DoWrite? && replies[j].status == Ok ==>
        !Breaks(ops[i], replies[i].status, p, m.count)
      invariant forall i :: 0 <= i < n && Breaks(ops[i], replies[i].status, p, m.count) ==> !Intact(m.group, p)
    {
      var r := Perform(m, p, ops[n], After(c, ops[..n]));
      OneMore(c, ops, n);
      Answered(c, ops, n, r);
      replies := replies + [r];
    }
    assert ops[..|ops|] == ops;
  }

  lemma StartsAt(c: Bytes)
    ensures After(c, []) == c
  {
  }

  lemma OneMore(c: Bytes, ops: seq<Op>, n: nat)
    requires n < |ops|
    ensures After(c, ops[..n + 1]) == Next(After(c, ops[..n]), ops[n])
  {
    assert ops[..n + 1][..n] == ops[..n];
  }

  lemma Answered(c: Bytes, ops: seq<Op>, n: nat, r: Reply)
    requires n < |ops| && Answers(After(c, ops[..n]), ops[n], r)
    ensures ReadsBack(c, ops, r, n)
  {
  }

  /** One operation of such a run. */
  method Perform(m: Set, p: Option<Policy>, op: Op, ghost c: Bytes) returns (r: Reply)
    requires m.Valid() && |c| == m.size && Holds(m.group, p, c)
    requires Copies(m.count, p) <= m.count && Chosen(m.count, p) != {} && OpOk(op, m.count, m.size)
    modifies m
    ensures m.Valid() && Holds(m.group, p, Next(c, op)) && Answers(c, op, r)
    ensures r.status == Ok || r.status == IoError
    ensures !Intact(old(m.group), p) ==> !Intact(m.group, p) && (op.DoWrite? ==> r.status != Ok)
    ensures Breaks(op, r.status, p, m.count) ==> !Intact(m.group, p)
  {
    hide Intact, Copies, Chosen, OnlyIoErrors, LosesMember, Disputed, Selected, Patch;
    match op {
      case DoWrite(offset, data, w) =>
        var s := m.Write(p, offset, data, w);
        r := Reply(s, []);
      case DoRead(offset, length, w) =>
        var s, buffer := m.Read(p, offset, length, w);
        r := Reply(s, buffer);
      case DoFlush(w) =>
        var s := m.Flush(w);
        r := Reply(s, []);
    }
  }
}
