/** What every step of writers and transaction keeps: each lock is held by whom the program
    says, searches in progress stay true because nobody else works in their arena, and every
    reservation bit belongs to exactly one writer. */
module ReservationInvariant {
  import opened Geometry
  import opened Counting
  import opened Arenas
  import opened Reservations

  /** The reservation bits that a writer accounts for. */
  ghost function Bits(w: Writer): set<nat> {
    match w
    case Setting(run, _, next) => Interval(run.start, next)
    case Took(run, _) => Interval(run.start, End(run))
    case Holding(run, _) => Interval(run.start, End(run))
    case Handed(run, _, next) => Interval(next, End(run))
    case Releasing(run, _, next) => Interval(next, End(run))
    case _ => {}
  }

  ghost function Charges(ws: seq<Writer>): nat {
    if ws == [] then 0 else Charges(ws[..|ws| - 1]) + Wanted(ws[|ws| - 1])
  }

  predicate Holds(s: State, who: Who, k: nat) { k in s.owner && s.owner[k] == who }

  predicate Needs(s: State, i: nat, k: nat) { i < |s.writers| && Lock(s.writers[i]) == Some(k) }

  predicate Reading(s: State, i: nat) { i < |s.writers| && Reads(s.writers[i]) }

  /** Locks are held exactly as the places in the program demand. */
  ghost predicate LocksHeld(s: State) {
    && (forall i, k :: Holds(s, W(i), k) <==> Needs(s, i, k))
    && (forall k :: Holds(s, T, k) <==> TxLocks(s.total, s.tx, k))
    && (forall i :: i in s.readers <==> Reading(s, i))
    && s.writing == Writes(s.tx) && (s.writing ==> s.readers == {})
  }

  predicate Placed(total: nat, w: Writer) {
    && (w.Idle? || Wanted(w) > 0)
    && match w
    case Testing(run, shard, next) => InShard(total, shard, run) && run.start <= next <= End(run)
    case Setting(run, shard, next) => InShard(total, shard, run) && run.start <= next <= End(run)
    case Took(run, shard) => InShard(total, shard, run)
    case Holding(run, shard) => InShard(total, shard, run)
    case Handed(run, shard, next) => InShard(total, shard, run) && run.start <= next <= End(run)
    case Releasing(run, shard, next) => InShard(total, shard, run) && run.start <= next <= End(run)
    case _ => true
  }

  ghost predicate Clear(s: State, from: nat, end: nat) { forall b :: from <= b < end ==> !Busy(s, b) }

  /** What a search has established so far is still true. */
  ghost predicate Sound(s: State, w: Writer) {
    && Placed(s.total, w)
    && (w.Testing? ==> Clear(s, w.run.start, w.next))
    && (w.Setting? ==> Clear(s, w.next, End(w.run)))
  }

  ghost predicate AllSound(s: State) { forall i :: 0 <= i < |s.writers| ==> Sound(s, s.writers[i]) }

  /** Each reservation bit belongs to one writer, and no block is both reserved and allocated. */
  ghost predicate Owned(s: State) {
    && (forall i, j :: 0 <= i < j < |s.writers| ==> Bits(s.writers[i]) !! Bits(s.writers[j]))
    && (forall b :: b in s.reserved <==> exists i :: 0 <= i < |s.writers| && b in Bits(s.writers[i]))
    && s.reserved !! s.claimed
  }

  function Marked(tx: Tx): int { if tx.Marking? then tx.next - tx.job.run.start else 0 }

  ghost predicate Counted(s: State) {
    && (forall b :: b in s.claimed ==> b < s.total)
    && s.charged == Charges(s.writers)
    && s.free + |s.claimed| == s.total + Marked(s.tx)
  }

  /** The reservation a claim consumes is handed over, consumed up to block `at`. */
  predicate JobOk(s: State, job: Job, at: nat) {
    && 1 <= job.run.start && End(job.run) <= s.total && job.run.start <= at <= End(job.run)
    && (job.writer.Some? ==>
      && job.writer.value < |s.writers| && s.writers[job.writer.value].Handed?
      && s.writers[job.writer.value].run == job.run && s.writers[job.writer.value].next == at)
  }

  ghost predicate Unallocated(s: State, from: nat, end: nat) { forall b :: from <= b < end ==> b !in s.claimed }

  ghost predicate Unreserved(s: State, from: nat, end: nat) { forall b :: from <= b < end ==> b !in s.reserved }

  ghost predicate TxOk(s: State) {
    match s.tx
    case Quiet => true
    case Freeing => true
    case Locking(job, next) => JobOk(s, job, job.run.start) && First(s.total, job) <= next <= Last(s.total, job) + 1
    case Scanning(job, next) =>
      && JobOk(s, job, job.run.start) && job.run.start <= next <= End(job.run)
      && Unallocated(s, job.run.start, next) && (job.writer.None? ==> Unreserved(s, job.run.start, next))
    case Marking(job, next) =>
      && JobOk(s, job, next)
      && Unallocated(s, next, End(job.run)) && (job.writer.None? ==> Unreserved(s, job.run.start, End(job.run)))
    case Unlocking(job, ok, _) => JobOk(s, job, if ok then End(job.run) else job.run.start)
  }

  predicate Serves(tx: Tx, i: nat) { !tx.Quiet? && !tx.Freeing? && tx.job.writer == Some(i) }

  ghost predicate HandedOver(s: State) {
    forall i :: 0 <= i < |s.writers| && s.writers[i].Handed? ==> Serves(s.tx, i)
  }

  ghost predicate Inv(s: State) {
    s.total > 0 && LocksHeld(s) && AllSound(s) && Owned(s) && Counted(s) && TxOk(s) && HandedOver(s)
  }

  // What a step of a writer changes.

  /** Only writer `i`, the reservation bits, the charge and the locks change. */
  predicate OnlyWriter(s: State, t: State, i: nat) {
    && i < |s.writers| && |t.writers| == |s.writers|
    && t == s.(writers := s.writers[i := t.writers[i]], reserved := t.reserved,
               charged := t.charged, owner := t.owner, readers := t.readers)
    && !s.writers[i].Handed? && !t.writers[i].Handed?
    && t.charged + Wanted(s.writers[i]) == s.charged + Wanted(t.writers[i])
  }

  lemma WriterOnly(s: State, t: State, i: nat, step: Step)
    requires WriterCan(s, i, step) && t == WriterDoes(s, i, step)
    ensures OnlyWriter(s, t, i)
  {
    hide InShard, Busy;
  }

  predicate LockMoves(s: State, t: State, i: nat)
    requires OnlyWriter(s, t, i)
  {
    var was, now := Lock(s.writers[i]), Lock(t.writers[i]);
    if was == now then t.owner == s.owner
    else if was.None? then now.value !in s.owner && t.owner == s.owner[now.value := W(i)]
    else now.None? && t.owner == s.owner - {was.value}
  }

  lemma WriterLockMoves(s: State, t: State, i: nat, step: Step)
    requires WriterCan(s, i, step) && t == WriterDoes(s, i, step) && OnlyWriter(s, t, i)
    ensures LockMoves(s, t, i)
  {
    hide InShard, Busy, OnlyWriter;
  }

  predicate ReadMoves(s: State, t: State, i: nat)
    requires OnlyWriter(s, t, i)
  {
    var was, now := Reads(s.writers[i]), Reads(t.writers[i]);
    if was == now then t.readers == s.readers
    else if now then !s.writing && t.readers == s.readers + {i}
    else t.readers == s.readers - {i}
  }

  lemma WriterReadMoves(s: State, t: State, i: nat, step: Step)
    requires WriterCan(s, i, step) && t == WriterDoes(s, i, step) && OnlyWriter(s, t, i)
    ensures ReadMoves(s, t, i)
  {
    hide InShard, Busy, OnlyWriter;
  }

  predicate BitMoves(s: State, t: State, i: nat)
    requires OnlyWriter(s, t, i)
  {
    || t.reserved <= s.reserved
    || (s.writers[i].Setting? && t.reserved == s.reserved + {s.writers[i].next})
  }

  lemma WriterBitMoves(s: State, t: State, i: nat, step: Step)
    requires WriterCan(s, i, step) && t == WriterDoes(s, i, step) && OnlyWriter(s, t, i)
    ensures BitMoves(s, t, i)
  {
    hide InShard, Busy, OnlyWriter;
  }

  // Locks.

  lemma WriterLocks(s: State, t: State, i: nat)
    requires LocksHeld(s) && OnlyWriter(s, t, i) && LockMoves(s, t, i) && ReadMoves(s, t, i)
    ensures LocksHeld(t)
  {
    hide TxLocks, Lock, Reads, Wanted;
    var mine := Lock(s.writers[i]);
    assert mine.Some? ==> Needs(s, i, mine.value) && Holds(s, W(i), mine.value);
    forall j, k ensures Holds(t, W(j), k) <==> Needs(t, j, k) {
      assert Holds(s, W(j), k) <==> Needs(s, j, k);
    }
    forall k ensures Holds(t, T, k) <==> TxLocks(t.total, t.tx, k) {
      assert Holds(s, T, k) <==> TxLocks(s.total, s.tx, k);
    }
    forall j ensures j in t.readers <==> Reading(t, j) {
      assert j in s.readers <==> Reading(s, j);
    }
  }

  /** Steps of the transaction that lock or unlock something. */
  predicate Locky(step: Step) {
    || step.LockNext? || step.LockBitmap? || step.ScanFail? || step.MarkDone? || step.UnlockNext?
    || step.BeginFree? || step.EndFree?
  }

  /** Steps of the transaction that involve a writer's reservation. */
  predicate Handy(step: Step) { step.Claim? || step.MarkBit? || step.EndClaim? }

  lemma TxLocksMove(s: State, t: State, i: nat, step: Step)
    requires LocksHeld(s) && TxOk(s) && TxCan(s, i, step) && t == TxDoes(s, i, step) && Locky(step)
    ensures LocksHeld(t)
  {
    hide Unfit, ShardFor, Lock, Reads;
    forall j, k ensures Holds(t, W(j), k) <==> Needs(t, j, k) {
      assert Holds(s, W(j), k) <==> Needs(s, j, k);
      assert Holds(s, T, k) <==> TxLocks(s.total, s.tx, k);
    }
    forall k ensures Holds(t, T, k) <==> TxLocks(t.total, t.tx, k) {
      assert Holds(s, T, k) <==> TxLocks(s.total, s.tx, k);
    }
    forall j ensures j in t.readers <==> Reading(t, j) {
      assert j in s.readers <==> Reading(s, j);
    }
  }

  /** Nothing about locks changes. */
  ghost predicate SameLocks(s: State, t: State) {
    && t.total == s.total && t.owner == s.owner && t.readers == s.readers && t.writing == s.writing
    && |t.writers| == |s.writers|
    && (forall j :: 0 <= j < |s.writers| ==>
      Lock(t.writers[j]) == Lock(s.writers[j]) && Reads(t.writers[j]) == Reads(s.writers[j]))
    && (forall k :: TxLocks(t.total, t.tx, k) == TxLocks(s.total, s.tx, k)) && Writes(t.tx) == Writes(s.tx)
  }

  lemma TxLocksRest(s: State, t: State, i: nat, step: Step)
    requires TxCan(s, i, step) && t == TxDoes(s, i, step) && !Locky(step) && !Handy(step)
    ensures SameLocks(s, t)
  {
    hide Unfit, ShardFor, Lock, Reads;
  }

  lemma TxLocksHand(s: State, t: State, i: nat, step: Step)
    requires TxOk(s) && TxCan(s, i, step) && t == TxDoes(s, i, step) && Handy(step)
    ensures forall k :: TxLocks(t.total, t.tx, k) == TxLocks(s.total, s.tx, k)
    ensures Writes(t.tx) == Writes(s.tx)
  {
    hide ShardFor, JobOk, Unallocated, Unreserved;
  }

  /** A step on behalf of a writer changes that writer only, and it holds no lock. */
  lemma Served(s: State, t: State, i: nat, step: Step) returns (k: nat)
    requires TxOk(s) && TxCan(s, i, step) && t == TxDoes(s, i, step) && Handy(step)
    ensures t.writers != s.writers ==> k < |s.writers| && t.writers == s.writers[k := t.writers[k]]
    ensures t.writers != s.writers ==> t.charged + Wanted(s.writers[k]) == s.charged + Wanted(t.writers[k])
    ensures t.writers != s.writers ==> NoLocks(s.writers[k]) && NoLocks(t.writers[k])
    ensures t.writers == s.writers ==> t.charged == s.charged
    ensures t.total == s.total && |t.writers| == |s.writers|
    ensures t.owner == s.owner && t.readers == s.readers && t.writing == s.writing
  {
    hide First, Last, Unallocated, Unreserved;
    k := if step.Claim? then i else if s.tx.job.writer.Some? then s.tx.job.writer.value else 0;
  }

  lemma SameButOne(s: State, t: State, k: nat)
    requires t.total == s.total && t.owner == s.owner && t.readers == s.readers && t.writing == s.writing
    requires |t.writers| == |s.writers|
    requires t.writers == s.writers
      || (k < |s.writers| && t.writers == s.writers[k := t.writers[k]]
          && NoLocks(s.writers[k]) && NoLocks(t.writers[k]))
    requires (forall l :: TxLocks(t.total, t.tx, l) == TxLocks(s.total, s.tx, l)) && Writes(t.tx) == Writes(s.tx)
    ensures SameLocks(s, t)
  {
    hide Lock, Reads, TxLocks, Writes;
  }

  predicate NoLocks(w: Writer) { Lock(w) == None && !Reads(w) }

  lemma SameLocksHeld(s: State, t: State)
    requires LocksHeld(s) && SameLocks(s, t)
    ensures LocksHeld(t)
  {
    hide Lock, Reads, TxLocks, Writes;
    forall j, k ensures Holds(t, W(j), k) <==> Needs(t, j, k) {
      assert Holds(s, W(j), k) <==> Needs(s, j, k);
    }
    forall k ensures Holds(t, T, k) <==> TxLocks(t.total, t.tx, k) {
      assert Holds(s, T, k) <==> TxLocks(s.total, s.tx, k);
    }
    forall j ensures j in t.readers <==> Reading(t, j) {
      assert j in s.readers <==> Reading(s, j);
    }
  }

  lemma TxLocksKept(s: State, t: State, i: nat, step: Step)
    requires LocksHeld(s) && TxOk(s) && TxCan(s, i, step) && t == TxDoes(s, i, step)
    ensures LocksHeld(t)
  {
    hide LocksHeld, SameLocks, TxOk, TxCan, TxDoes;
    if Locky(step) {
      TxLocksMove(s, t, i, step);
    } else {
      if Handy(step) {
        TxLocksHand(s, t, i, step);
        var k := Served(s, t, i, step);
        SameButOne(s, t, k);
      } else {
        TxLocksRest(s, t, i, step);
      }
      SameLocksHeld(s, t);
    }
  }

  // Searches.

  /** A writer at work in an arena is alone there: no other writer's run meets its blocks. */
  lemma AloneInArena(s: State, i: nat, j: nat, b: nat)
    requires LocksHeld(s) && AllSound(s) && i < |s.writers| && j < |s.writers| && i != j
    requires s.writers[i].Testing? || s.writers[i].Setting?
    requires s.writers[i].run.start <= b < End(s.writers[i].run)
    requires s.writers[j].Testing? || s.writers[j].Setting?
    ensures !(s.writers[j].run.start <= b < End(s.writers[j].run))
  {
    var v, w := s.writers[i], s.writers[j];
    assert Needs(s, i, v.shard) && Needs(s, j, w.shard);
    assert Holds(s, W(i), v.shard) && Holds(s, W(j), w.shard);
    assert Sound(s, v) && Sound(s, w);
    if w.run.start <= b < End(w.run) { SameArena(s.total, v.shard, w.shard, b); }
  }

  ghost predicate NoBusier(s: State, t: State, w: Writer) {
    && t.total == s.total
    && (w.Testing? || w.Setting? ==> forall b :: w.run.start <= b < End(w.run) && Busy(t, b) ==> Busy(s, b))
  }

  lemma StillSound(s: State, t: State, w: Writer)
    requires Sound(s, w) && NoBusier(s, t, w)
    ensures Sound(t, w)
  {
    hide InShard;
    if w.Testing? {
      forall b | w.run.start <= b < w.next ensures !Busy(t, b) { assert !Busy(s, b); }
    } else if w.Setting? {
      forall b | w.next <= b < End(w.run) ensures !Busy(t, b) { assert !Busy(s, b); }
    }
  }

  lemma OthersSound(s: State, t: State, i: nat)
    requires AllSound(s) && |t.writers| == |s.writers| && i < |s.writers| && Sound(t, t.writers[i])
    requires forall j :: 0 <= j < |s.writers| && j != i ==> t.writers[j] == s.writers[j] && NoBusier(s, t, s.writers[j])
    ensures AllSound(t)
  {
    hide NoBusier, Sound;
    forall j | 0 <= j < |t.writers| && j != i ensures Sound(t, t.writers[j]) { StillSound(s, t, s.writers[j]); }
  }

  lemma SetBitSound(s: State, t: State, i: nat)
    requires LocksHeld(s) && AllSound(s) && WriterCan(s, i, SetBit) && t == WriterDoes(s, i, SetBit)
    ensures AllSound(t)
  {
    var w := s.writers[i];
    assert Sound(s, w);
    forall j | 0 <= j < |s.writers| && j != i ensures NoBusier(s, t, s.writers[j]) {
      hide LocksHeld, Sound;
      if s.writers[j].Testing? || s.writers[j].Setting? { AloneInArena(s, i, j, w.next); }
    }
    forall b | w.next + 1 <= b < End(w.run) ensures !Busy(t, b) { assert !Busy(s, b); }
    OthersSound(s, t, i);
  }

  lemma OwnSound(s: State, t: State, i: nat, step: Step)
    requires AllSound(s) && WriterCan(s, i, step) && t == WriterDoes(s, i, step) && !step.SetBit?
    ensures Sound(t, t.writers[i])
  {
    hide InShard;
    var w := s.writers[i];
    assert Sound(s, w);
    if step.TestBit? {
      forall b | w.run.start <= b < w.next + 1 ensures !Busy(t, b) { assert !Busy(s, b); }
    } else if step.Found? {
      forall b | w.run.start <= b < End(w.run) ensures !Busy(t, b) { assert !Busy(s, b); }
    }
  }

  lemma WriterSound(s: State, t: State, i: nat, step: Step)
    requires LocksHeld(s) && AllSound(s) && WriterCan(s, i, step) && t == WriterDoes(s, i, step)
    ensures AllSound(t)
  {
    if step.SetBit? {
      SetBitSound(s, t, i);
    } else {
      OwnSound(s, t, i, step);
      hide LocksHeld, InShard, Sound;
      OthersSound(s, t, i);
    }
  }

  /** While the transaction writes the bitmap nobody is testing it. */
  lemma NobodyTests(s: State, i: nat)
    requires LocksHeld(s) && Writes(s.tx) && i < |s.writers|
    ensures !s.writers[i].Testing? && !s.writers[i].Setting?
  {
    assert i in s.readers <==> Reading(s, i);
  }

  lemma TxSoundRest(s: State, t: State, i: nat, step: Step)
    requires AllSound(s) && TxCan(s, i, step) && t == TxDoes(s, i, step) && !Handy(step)
    ensures AllSound(t)
  {
    hide Sound, First, Last, Unfit;
    forall j | 0 <= j < |t.writers| ensures Sound(t, t.writers[j]) {
      StillSound(s, t, s.writers[j]);
    }
  }

  lemma MarkBitSound(s: State, t: State, i: nat)
    requires LocksHeld(s) && AllSound(s) && TxOk(s) && TxCan(s, i, MarkBit) && t == TxDoes(s, i, MarkBit)
    ensures AllSound(t)
  {
    hide LocksHeld, InShard, First, Last, Unallocated, Unreserved;
    forall j | 0 <= j < |t.writers| ensures Sound(t, t.writers[j]) {
      assert Sound(s, s.writers[j]);
      NobodyTests(s, j);
    }
  }

  lemma HandedSound(s: State, t: State, i: nat, step: Step, k: nat)
    requires AllSound(s) && TxOk(s) && TxCan(s, i, step) && t == TxDoes(s, i, step)
    requires step.Claim? || step.EndClaim?
    requires k < |s.writers| && t.writers == s.writers[k := t.writers[k]] && t.writers[k] != s.writers[k]
    ensures Sound(t, t.writers[k]) && t.claimed == s.claimed && t.reserved == s.reserved && t.total == s.total
  {
    hide InShard, First, Last;
    assert Sound(s, s.writers[k]);
  }

  lemma HandSound(s: State, t: State, i: nat, step: Step)
    requires AllSound(s) && TxOk(s) && TxCan(s, i, step) && t == TxDoes(s, i, step)
    requires step.Claim? || step.EndClaim?
    ensures AllSound(t)
  {
    hide Sound, InShard, First, Last;
    var k := Served(s, t, i, step);
    if t.writers == s.writers {
      forall j | 0 <= j < |t.writers| ensures Sound(t, t.writers[j]) { StillSound(s, t, s.writers[j]); }
    } else {
      HandedSound(s, t, i, step, k);
      OthersSound(s, t, k);
    }
  }

  lemma TxSound(s: State, t: State, i: nat, step: Step)
    requires LocksHeld(s) && AllSound(s) && TxOk(s) && TxCan(s, i, step) && t == TxDoes(s, i, step)
    ensures AllSound(t)
  {
    hide LocksHeld, AllSound, TxOk, TxCan, TxDoes;
    if step.MarkBit? {
      MarkBitSound(s, t, i);
    } else if Handy(step) {
      HandSound(s, t, i, step);
    } else {
      TxSoundRest(s, t, i, step);
    }
  }

  // Reservation bits.

  /** Writer `i` accounts for `Bits(w)` from now on, and the reservation bits moved with it. */
  ghost predicate Moved(s: State, t: State, i: nat, w: Writer) {
    && i < |s.writers| && t.writers == s.writers[i := w]
    && (forall b :: b in t.reserved <==> (b in s.reserved && b !in Bits(s.writers[i])) || b in Bits(w))
    && (forall b :: b in Bits(w) ==> b in Bits(s.writers[i]) || b !in s.reserved)
  }

  lemma Apart(s: State, t: State, i: nat, w: Writer, j: nat)
    requires Owned(s) && Moved(s, t, i, w) && j < |s.writers|
    ensures j != i ==> Bits(t.writers[j]) !! Bits(w) && Bits(t.writers[j]) == Bits(s.writers[j]) <= s.reserved
    ensures j != i ==> Bits(s.writers[j]) !! Bits(s.writers[i])
  {
    hide Bits;
    if j < i { assert Bits(s.writers[j]) !! Bits(s.writers[i]); }
    if i < j { assert Bits(s.writers[i]) !! Bits(s.writers[j]); }
  }

  lemma MovedOwned(s: State, t: State, i: nat, w: Writer)
    requires Owned(s) && Moved(s, t, i, w) && t.reserved !! t.claimed
    ensures Owned(t)
  {
    hide Bits;
    forall j, k | 0 <= j < k < |t.writers| ensures Bits(t.writers[j]) !! Bits(t.writers[k]) {
      Apart(s, t, i, w, j);
      Apart(s, t, i, w, k);
    }
    forall b ensures b in t.reserved <==> exists j :: 0 <= j < |t.writers| && b in Bits(t.writers[j]) {
      if b in t.reserved {
        if b in Bits(w) {
          assert b in Bits(t.writers[i]);
        } else {
          var j :| 0 <= j < |s.writers| && b in Bits(s.writers[j]);
          assert b in Bits(t.writers[j]);
        }
      } else if j :| 0 <= j < |t.writers| && b in Bits(t.writers[j]) {
        Apart(s, t, i, w, j);
      }
    }
  }

  lemma BitsReserved(s: State, i: nat)
    requires Owned(s) && i < |s.writers|
    ensures Bits(s.writers[i]) <= s.reserved
  {
  }

  lemma SameBits(s: State, t: State, i: nat, step: Step)
    requires AllSound(s) && WriterCan(s, i, step) && t == WriterDoes(s, i, step) && !step.SetBit? && !step.ClearBit?
    ensures t.reserved == s.reserved && Bits(t.writers[i]) == Bits(s.writers[i])
  {
    hide InShard, Clear;
    assert Sound(s, s.writers[i]);
  }

  lemma OneBitMoves(s: State, t: State, i: nat, step: Step)
    requires AllSound(s) && Owned(s) && WriterCan(s, i, step) && t == WriterDoes(s, i, step)
    requires step.SetBit? || step.ClearBit?
    ensures Moved(s, t, i, t.writers[i]) && t.reserved !! t.claimed
  {
    hide InShard, Owned;
    assert Sound(s, s.writers[i]);
    BitsReserved(s, i);
    Separate(s);
    assert step.SetBit? ==> !Busy(s, s.writers[i].next);
  }

  lemma WriterOwned(s: State, t: State, i: nat, step: Step)
    requires AllSound(s) && Owned(s) && WriterCan(s, i, step) && t == WriterDoes(s, i, step) && OnlyWriter(s, t, i)
    ensures Owned(t)
  {
    hide AllSound, Owned, WriterCan, WriterDoes, Bits, Wanted;
    if step.SetBit? || step.ClearBit? {
      OneBitMoves(s, t, i, step);
    } else {
      SameBits(s, t, i, step);
      BitsReserved(s, i);
      Separate(s);
    }
    MovedOwned(s, t, i, t.writers[i]);
  }

  lemma Separate(s: State)
    requires Owned(s)
    ensures s.reserved !! s.claimed
  {
  }

  lemma SameOwned(s: State, t: State)
    requires Owned(s) && t.writers == s.writers && t.reserved == s.reserved && t.reserved !! t.claimed
    ensures Owned(t)
  {
    hide Bits;
  }

  lemma OneBitLess(from: nat, end: nat)
    requires from < end
    ensures Interval(from, end) - {from} == Interval(from + 1, end) && from in Interval(from, end)
  {
  }

  /** A claim of free blocks marks one that nobody has reserved. */
  lemma MarkFree(s: State, t: State, i: nat)
    requires Owned(s) && TxOk(s) && TxCan(s, i, MarkBit) && t == TxDoes(s, i, MarkBit) && s.tx.job.writer.None?
    ensures Owned(t)
  {
    hide Owned, First, Last, Bits;
    Separate(s);
    assert s.tx.next !in s.reserved;
    SameOwned(s, t);
  }

  /** A claim of a reservation marks one block and gives up its reservation bit. */
  lemma MarkReserved(s: State, t: State, i: nat)
    requires Owned(s) && TxOk(s) && TxCan(s, i, MarkBit) && t == TxDoes(s, i, MarkBit) && s.tx.job.writer.Some?
    ensures Owned(t)
  {
    hide Owned, First, Last, Interval, Unallocated, Unreserved;
    var k, at, end := s.tx.job.writer.value, s.tx.next, End(s.tx.job.run);
    BitsReserved(s, k);
    Separate(s);
    OneBitLess(at, end);
    MovedOwned(s, t, k, t.writers[k]);
  }

  lemma TxOwnedRest(s: State, t: State, i: nat, step: Step)
    requires Owned(s) && TxCan(s, i, step) && t == TxDoes(s, i, step) && !Handy(step)
    ensures Owned(t)
  {
    hide Owned, Bits, First, Last, Unfit;
    Separate(s);
    SameOwned(s, t);
  }

  /** Handing a reservation over, or taking it back, moves no bits. */
  lemma TxOwnedHand(s: State, t: State, i: nat, step: Step)
    requires AllSound(s) && Owned(s) && TxOk(s) && TxCan(s, i, step) && t == TxDoes(s, i, step)
    requires step.Claim? || step.EndClaim?
    ensures Owned(t)
  {
    hide Owned, First, Last, InShard;
    Separate(s);
    var k := Served(s, t, i, step);
    if t.writers == s.writers {
      SameOwned(s, t);
    } else {
      BitsReserved(s, k);
      MovedOwned(s, t, k, t.writers[k]);
    }
  }

  lemma TxOwned(s: State, t: State, i: nat, step: Step)
    requires AllSound(s) && Owned(s) && TxOk(s) && TxCan(s, i, step) && t == TxDoes(s, i, step)
    ensures Owned(t)
  {
    if !Handy(step) {
      TxOwnedRest(s, t, i, step);
    } else if !step.MarkBit? {
      TxOwnedHand(s, t, i, step);
    } else if s.tx.job.writer.None? {
      MarkFree(s, t, i);
    } else {
      MarkReserved(s, t, i);
    }
  }

  // Counters.

  lemma {:induction false} ChargesUpdate(ws: seq<Writer>, i: nat, w: Writer)
    requires i < |ws|
    ensures Charges(ws[i := w]) + Wanted(ws[i]) == Charges(ws) + Wanted(w)
  {
    if i < |ws| - 1 {
      ChargesUpdate(ws[..|ws| - 1], i, w);
      assert ws[i := w][..|ws| - 1] == ws[..|ws| - 1][i := w];
    } else {
      assert ws[i := w][..|ws| - 1] == ws[..|ws| - 1];
    }
  }

  lemma WriterCounted(s: State, t: State, i: nat)
    requires Counted(s) && OnlyWriter(s, t, i)
    ensures Counted(t)
  {
    hide Charges, Wanted;
    ChargesUpdate(s.writers, i, t.writers[i]);
  }

  lemma TxCountedBits(s: State, t: State, i: nat, step: Step)
    requires Counted(s) && TxOk(s) && TxCan(s, i, step) && t == TxDoes(s, i, step) && !Handy(step)
    ensures Counted(t)
  {
    hide First, Last, Unfit, Charges;
  }

  ghost predicate FreeCounted(s: State) {
    (forall b :: b in s.claimed ==> b < s.total) && s.free + |s.claimed| == s.total + Marked(s.tx)
  }

  lemma MarkCounts(s: State, t: State, i: nat)
    requires FreeCounted(s) && TxOk(s) && TxCan(s, i, MarkBit) && t == TxDoes(s, i, MarkBit)
    ensures FreeCounted(t)
  {
    hide First, Last, Unreserved;
    assert |t.claimed| == |s.claimed| + 1;
  }

  lemma HandCounts(s: State, t: State, i: nat, step: Step)
    requires FreeCounted(s) && TxCan(s, i, step) && t == TxDoes(s, i, step) && (step.Claim? || step.EndClaim?)
    ensures FreeCounted(t)
  {
    hide First, Last;
  }

  lemma TxCounted(s: State, t: State, i: nat, step: Step)
    requires Counted(s) && TxOk(s) && TxCan(s, i, step) && t == TxDoes(s, i, step)
    ensures Counted(t)
  {
    hide TxOk, TxCan, TxDoes, Wanted, Charges;
    if Handy(step) {
      var k := Served(s, t, i, step);
      if step.MarkBit? { MarkCounts(s, t, i); } else { HandCounts(s, t, i, step); }
      if t.writers != s.writers { ChargesUpdate(s.writers, k, t.writers[k]); }
    } else {
      TxCountedBits(s, t, i, step);
    }
  }

  // The transaction.

  lemma WriterTx(s: State, t: State, i: nat)
    requires LocksHeld(s) && TxOk(s) && HandedOver(s) && OnlyWriter(s, t, i) && BitMoves(s, t, i)
    ensures TxOk(t) && HandedOver(t)
  {
    hide First, Last, Wanted;
    assert i in s.readers <==> Reading(s, i);
  }

  lemma TxTxLocks(s: State, t: State, i: nat, step: Step)
    requires TxOk(s) && HandedOver(s) && TxCan(s, i, step) && t == TxDoes(s, i, step) && Locky(step)
    ensures TxOk(t) && HandedOver(t)
  {
    hide ShardFor;
    assert forall j: nat :: Serves(t.tx, j) == Serves(s.tx, j);
  }

  lemma TxTxRest(s: State, t: State, i: nat, step: Step)
    requires TxOk(s) && HandedOver(s) && TxCan(s, i, step) && t == TxDoes(s, i, step) && !Locky(step) && !Handy(step)
    ensures TxOk(t) && HandedOver(t)
  {
    hide ShardFor;
    assert forall j: nat :: Serves(t.tx, j) == Serves(s.tx, j);
  }

  lemma TxTxMark(s: State, t: State, i: nat)
    requires TxOk(s) && HandedOver(s) && TxCan(s, i, MarkBit) && t == TxDoes(s, i, MarkBit)
    ensures TxOk(t) && HandedOver(t)
  {
    hide ShardFor;
    assert forall j: nat :: Serves(t.tx, j) == Serves(s.tx, j);
  }

  lemma TxTxHand(s: State, t: State, i: nat, step: Step)
    requires TxOk(s) && HandedOver(s) && TxCan(s, i, step) && t == TxDoes(s, i, step) && (step.Claim? || step.EndClaim?)
    ensures TxOk(t) && HandedOver(t)
  {
    hide ShardFor, Unallocated, Unreserved;
    if step.Claim? { ShardsInOrder(s.total, step.run.start, End(step.run) - 1); }
  }

  lemma TxTx(s: State, t: State, i: nat, step: Step)
    requires TxOk(s) && HandedOver(s) && TxCan(s, i, step) && t == TxDoes(s, i, step)
    ensures TxOk(t) && HandedOver(t)
  {
    hide TxOk, HandedOver, TxCan, TxDoes;
    if step.MarkBit? { TxTxMark(s, t, i); }
    else if Handy(step) { TxTxHand(s, t, i, step); }
    else if Locky(step) { TxTxLocks(s, t, i, step); }
    else { TxTxRest(s, t, i, step); }
  }

  /** Every step of every writer and of the transaction keeps the invariant. */
  lemma StepKeepsInv(s: State, t: State, i: nat, step: Step)
    requires Inv(s) && Next(s, t, i, step)
    ensures Inv(t)
  {
    hide WriterCan, WriterDoes, TxCan, TxDoes, LocksHeld, AllSound, Owned, Counted, TxOk, HandedOver;
    hide LockMoves, ReadMoves, BitMoves;
    if WriterCan(s, i, step) && t == WriterDoes(s, i, step) {
      WriterOnly(s, t, i, step);
      WriterLockMoves(s, t, i, step);
      WriterReadMoves(s, t, i, step);
      WriterBitMoves(s, t, i, step);
      WriterLocks(s, t, i);
      WriterSound(s, t, i, step);
      WriterOwned(s, t, i, step);
      WriterCounted(s, t, i);
      WriterTx(s, t, i);
    } else {
      TxLocksKept(s, t, i, step);
      TxSound(s, t, i, step);
      TxOwned(s, t, i, step);
      TxCounted(s, t, i, step);
      TxTx(s, t, i, step);
      TxTotal(s, t, i, step);
    }
  }

  lemma TxTotal(s: State, t: State, i: nat, step: Step)
    requires TxCan(s, i, step) && t == TxDoes(s, i, step)
    ensures t.total == s.total && |t.writers| == |s.writers|
  {
    hide First, Last, Unfit;
  }
}
