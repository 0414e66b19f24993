/** What the reservation protocol guarantees over whole runs, in every interleaving. */
module ReservationRuns {
  import opened Counting
  import opened Arenas
  import opened Reservations
  import opened ReservationInvariant

  /** A run of the system: who took which step. */
  ghost predicate Run(states: seq<State>, moves: seq<(nat, Step)>) {
    && |states| == |moves| + 1
    && forall k :: 0 <= k < |moves| ==> Moves(states, moves, k)
  }

  predicate Moves(states: seq<State>, moves: seq<(nat, Step)>, k: nat)
    requires k < |moves| && |states| == |moves| + 1
  {
    Next(states[k], states[k + 1], moves[k].0, moves[k].1)
  }

  /** A mounted volume before the first reservation. */
  ghost predicate Fresh(s: State) {
    && s.total > 0 && s.reserved == {} && s.charged == 0 && s.owner == map[] && s.readers == {} && !s.writing
    && s.tx.Quiet? && (forall b :: b in s.claimed ==> b < s.total)
    && s.free + |s.claimed| == s.total && s.durable == s.claimed
    && forall i :: 0 <= i < |s.writers| ==> s.writers[i].Idle?
  }

  lemma {:induction false} NothingCharged(ws: seq<Writer>)
    requires forall i :: 0 <= i < |ws| ==> ws[i].Idle?
    ensures Charges(ws) == 0
  {
    if ws != [] { NothingCharged(ws[..|ws| - 1]); }
  }

  lemma FreshInv(s: State)
    requires Fresh(s)
    ensures Inv(s)
  {
    NothingCharged(s.writers);
  }

  /** The invariant holds throughout every run. */
  lemma {:induction false} RunKeepsInv(states: seq<State>, moves: seq<(nat, Step)>, k: nat)
    requires Run(states, moves) && Fresh(states[0]) && k < |states|
    ensures Inv(states[k])
  {
    hide Inv, Fresh, Next;
    if k == 0 {
      FreshInv(states[0]);
    } else {
      RunKeepsInv(states, moves, k - 1);
      assert Moves(states, moves, k - 1);
      StepKeepsInv(states[k - 1], states[k], moves[k - 1].0, moves[k - 1].1);
    }
  }

  /** Two writers never account for the same reservation bit, and no reserved block is allocated. */
  lemma ReservationsAreApart(states: seq<State>, moves: seq<(nat, Step)>, k: nat, i: nat, j: nat)
    requires Run(states, moves) && Fresh(states[0]) && k < |states|
    requires i < |states[k].writers| && j < |states[k].writers| && i != j
    ensures Bits(states[k].writers[i]) !! Bits(states[k].writers[j]) && Bits(states[k].writers[i]) !! states[k].claimed
  {
    hide Bits, LocksHeld, AllSound, Counted, TxOk, HandedOver, Fresh, Run;
    RunKeepsInv(states, moves, k);
    BitsReserved(states[k], i);
    if j < i { assert Bits(states[k].writers[j]) !! Bits(states[k].writers[i]); }
  }

  /** Two searches at work at the same time, in whatever order their single tests and sets
      interleave, have disjoint runs. */
  lemma SearchesAreApart(states: seq<State>, moves: seq<(nat, Step)>, k: nat, i: nat, j: nat, b: nat)
    requires Run(states, moves) && Fresh(states[0]) && k < |states|
    requires i < |states[k].writers| && j < |states[k].writers| && i != j
    requires states[k].writers[i].Testing? || states[k].writers[i].Setting?
    requires states[k].writers[j].Testing? || states[k].writers[j].Setting?
    ensures !(states[k].writers[i].run.start <= b < End(states[k].writers[i].run)
      && states[k].writers[j].run.start <= b < End(states[k].writers[j].run))
  {
    hide Owned, Counted, TxOk, HandedOver, Fresh, Run;
    RunKeepsInv(states, moves, k);
    var s := states[k];
    hide LocksHeld, AllSound;
    if s.writers[i].run.start <= b < End(s.writers[i].run) { AloneInArena(s, i, j, b); }
  }

  ghost function AllBits(ws: seq<Writer>): set<nat> {
    if ws == [] then {} else AllBits(ws[..|ws| - 1]) + Bits(ws[|ws| - 1])
  }

  lemma {:induction false} AllBitsHas(ws: seq<Writer>, b: nat)
    ensures b in AllBits(ws) <==> exists i :: 0 <= i < |ws| && b in Bits(ws[i])
  {
    if ws != [] {
      var init := ws[..|ws| - 1];
      AllBitsHas(init, b);
      assert forall i :: 0 <= i < |init| ==> init[i] == ws[i];
    }
  }

  lemma BitsCount(total: nat, w: Writer)
    requires Placed(total, w)
    ensures |Bits(w)| <= Wanted(w) && (w.Idle? || w.Holding? ==> |Bits(w)| == Wanted(w))
  {
    hide InShard;
    match w
    case Setting(run, _, next) => IntervalCount(run.start, next);
    case Took(run, _) => IntervalCount(run.start, End(run));
    case Holding(run, _) => IntervalCount(run.start, End(run));
    case Handed(run, _, next) => IntervalCount(next, End(run));
    case Releasing(run, _, next) => IntervalCount(next, End(run));
    case _ =>
  }

  /** Disjoint reservations: as many bits as the writers account for. */
  lemma {:induction false} CountBits(total: nat, ws: seq<Writer>)
    requires forall i :: 0 <= i < |ws| ==> Placed(total, ws[i])
    requires forall i, j :: 0 <= i < j < |ws| ==> Bits(ws[i]) !! Bits(ws[j])
    ensures |AllBits(ws)| <= Charges(ws)
    ensures (forall i :: 0 <= i < |ws| ==> ws[i].Idle? || ws[i].Holding?) ==> |AllBits(ws)| == Charges(ws)
  {
    if ws != [] {
      hide Bits, Placed;
      var init, last := ws[..|ws| - 1], ws[|ws| - 1];
      CountBits(total, init);
      BitsCount(total, last);
      forall b | b in AllBits(init) ensures b !in Bits(last) {
        AllBitsHas(init, b);
        var i :| 0 <= i < |init| && b in Bits(init[i]);
        assert Bits(ws[i]) !! Bits(ws[|ws| - 1]);
      }
      assert |AllBits(ws)| == |AllBits(init)| + |Bits(last)|;
    }
  }

  /** No writer is inside a call: each is idle or holds a reservation. */
  predicate Still(s: State) { forall i :: 0 <= i < |s.writers| ==> s.writers[i].Idle? || s.writers[i].Holding? }

  lemma AllReserved(s: State)
    requires Owned(s)
    ensures s.reserved == AllBits(s.writers)
  {
    hide Bits, AllBits;
    forall b ensures b in s.reserved <==> b in AllBits(s.writers) { AllBitsHas(s.writers, b); }
  }

  /** The counter covers the reserved bits in every reachable state, and is exact whenever no
      call is in progress. */
  lemma ChargeCoversBits(states: seq<State>, moves: seq<(nat, Step)>, k: nat)
    requires Run(states, moves) && Fresh(states[0]) && k < |states|
    ensures |states[k].reserved| <= states[k].charged
    ensures Still(states[k]) ==> |states[k].reserved| == states[k].charged
  {
    hide Bits, LocksHeld, TxOk, HandedOver, Fresh, Run;
    var s := states[k];
    RunKeepsInv(states, moves, k);
    forall i | 0 <= i < |s.writers| ensures Placed(s.total, s.writers[i]) { assert Sound(s, s.writers[i]); }
    CountBits(s.total, s.writers);
    AllReserved(s);
  }

  lemma Smaller(a: set<nat>, b: set<nat>)
    requires a <= b
    ensures |a| <= |b|
  {
    if a != {} {
      var x :| x in a;
      Smaller(a - {x}, b - {x});
    }
  }

  lemma RoomFor(s: State, run: Span)
    requires Counted(s) && s.tx.Quiet? && End(run) <= s.total && Interval(run.start, End(run)) !! s.claimed
    ensures run.count <= s.free
  {
    var blocks := Interval(run.start, End(run));
    IntervalCount(run.start, End(run));
    IntervalCount(0, s.total);
    Smaller(blocks + s.claimed, Interval(0, s.total));
    assert |blocks + s.claimed| == |blocks| + |s.claimed|;
  }

  /** An active reservation can always be claimed: the claim's first checks let it in, and its
      scan never finds a block of it unfit. */
  lemma HeldRunIsConsumable(states: seq<State>, moves: seq<(nat, Step)>, k: nat, i: nat)
    requires Run(states, moves) && Fresh(states[0]) && k < |states|
    ensures
      var s := states[k];
      s.tx.Quiet? && i < |s.writers| && s.writers[i].Holding?
      ==> TxCan(s, i, Claim(s.writers[i].run, true))
    ensures states[k].tx.Scanning? && states[k].tx.job.writer.Some? ==> !TxCan(states[k], i, ScanFail)
  {
    hide Fresh, Run, LocksHeld;
    var s := states[k];
    RunKeepsInv(states, moves, k);
    if s.tx.Quiet? && i < |s.writers| && s.writers[i].Holding? {
      hide TxOk, HandedOver;
      BitsReserved(s, i);
      var run, shard := s.writers[i].run, s.writers[i].shard;
      assert Sound(s, s.writers[i]);
      ArenasCover(s.total);
      RoomFor(s, run);
    }
    if s.tx.Scanning? && s.tx.job.writer.Some? {
      BitsReserved(s, s.tx.job.writer.value);
    }
  }

  // No deadlock.

  /** A step that a process which is inside a lock, or on its way through several, can take. */
  predicate Proceeds(s: State, i: nat, step: Step) {
    || (i < |s.writers| && Lock(s.writers[i]).Some? && WriterCan(s, i, step))
    || (!s.tx.Quiet? && TxCan(s, i, step))
  }

  lemma WriterProceeds(s: State, i: nat) returns (step: Step)
    requires i < |s.writers| && Lock(s.writers[i]).Some? && !s.writing
    ensures Proceeds(s, i, step)
  {
    hide InShard, Busy, TxCan;
    var w := s.writers[i];
    match w
    case Waiting(_, _) => step := ReadLock;
    case Searching(_, _) => step := CloseNone;
    case Testing(run, _, next) =>
      step := if next >= End(run) then Found else if Busy(s, next) then CloseNone else TestBit;
    case Setting(run, _, next) => step := if next < End(run) then SetBit else CloseFound;
    case Missed(_, _) => step := UnlockNone;
    case Took(_, _) => step := UnlockFound;
    case Releasing(run, _, next) => step := if next < End(run) then ClearBit else UnlockRelease;
  }

  /** Once it holds all its spin locks the transaction waits for nobody but readers. */
  lemma TxProceeds(s: State) returns (step: Step)
    requires TxOk(s) && !s.tx.Quiet? && !s.tx.Locking?
    ensures Proceeds(s, 0, step)
  {
    hide WriterCan, First, Last, Unfit;
    match s.tx
    case Scanning(job, next) =>
      step := if next >= End(job.run) then ScanDone else if Unfit(s, job, next) then ScanFail else ScanBit;
    case Marking(job, next) => step := if next < End(job.run) then MarkBit else MarkDone;
    case Unlocking(job, _, next) => step := if next > First(s.total, job) then UnlockNext else EndClaim;
    case Freeing => step := EndFree;
  }

  lemma LockHasHolder(s: State, k: nat)
    requires LocksHeld(s) && k in s.owner
    ensures if s.owner[k].W? then Needs(s, s.owner[k].i, k) else TxLocks(s.total, s.tx, k)
  {
    assert Holds(s, s.owner[k], k);
  }

  lemma LockingProceeds(s: State) returns (step: Step)
    requires LocksHeld(s) && TxOk(s) && s.tx.Locking?
    requires forall i :: 0 <= i < |s.writers| ==> Lock(s.writers[i]).None?
    ensures Proceeds(s, 0, step)
  {
    hide WriterCan, ShardFor, Unfit;
    forall i ensures i !in s.readers { assert i in s.readers <==> Reading(s, i); }
    var next := s.tx.next;
    if next <= Last(s.total, s.tx.job) {
      if next in s.owner {
        LockHasHolder(s, next);
        assert false;
      }
      step := LockNext;
    } else {
      step := LockBitmap;
    }
  }

  /** No reachable state is a deadlock: as long as any lock is held, some process that holds
      one, or is collecting them, can go on. */
  lemma NeverStuck(states: seq<State>, moves: seq<(nat, Step)>, k: nat) returns (i: nat, step: Step)
    requires Run(states, moves) && Fresh(states[0]) && k < |states|
    requires states[k].owner != map[] || states[k].readers != {} || states[k].writing
    ensures Proceeds(states[k], i, step)
  {
    hide Fresh, Run, AllSound, Owned, Counted, HandedOver, Proceeds, TxOk;
    var s := states[k];
    RunKeepsInv(states, moves, k);
    i := 0;
    if !s.tx.Quiet? && !s.tx.Locking? {
      step := TxProceeds(s);
    } else if j :| 0 <= j < |s.writers| && Lock(s.writers[j]).Some? {
      i := j;
      step := WriterProceeds(s, i);
    } else if s.tx.Locking? {
      step := LockingProceeds(s);
    } else {
      NothingHeld(s);
    }
  }

  lemma NothingHeld(s: State)
    requires LocksHeld(s) && s.tx.Quiet? && forall i :: 0 <= i < |s.writers| ==> Lock(s.writers[i]).None?
    ensures s.owner == map[] && s.readers == {} && !s.writing
  {
    forall i ensures i !in s.readers { assert i in s.readers <==> Reading(s, i); }
    forall k ensures k !in s.owner {
      if k in s.owner {
        LockHasHolder(s, k);
        assert false;
      }
    }
  }

  // Blocks of the last durable checkpoint.

  /** Blocks the transaction has freed although the last durable checkpoint uses them. */
  ghost function Freed(s: State): set<nat> { s.durable - s.claimed }

  /** No block of the last durable checkpoint is handed out. */
  ghost predicate Kept(s: State) { s.reserved !! s.durable }

  /** The step does not set the reservation bit of a freed block. */
  ghost predicate Careful(s: State, i: nat, step: Step) {
    step.SetBit? && WriterCan(s, i, SetBit) ==> s.writers[i].next !in Freed(s)
  }

  lemma CarefulWriter(s: State, t: State, i: nat, step: Step)
    requires AllSound(s) && Kept(s) && WriterCan(s, i, step) && t == WriterDoes(s, i, step) && Careful(s, i, step)
    ensures Kept(t)
  {
    WriterOnly(s, t, i, step);
    if step.SetBit? {
      assert Sound(s, s.writers[i]);
      assert !Busy(s, s.writers[i].next);
    } else {
      SameBitsOrLess(s, t, i, step);
      hide WriterCan, WriterDoes, Wanted;
    }
  }

  lemma SameBitsOrLess(s: State, t: State, i: nat, step: Step)
    requires WriterCan(s, i, step) && t == WriterDoes(s, i, step) && !step.SetBit?
    ensures t.reserved <= s.reserved
  {
    hide InShard, Busy;
  }

  lemma CarefulTx(s: State, t: State, i: nat, step: Step)
    requires Owned(s) && Kept(s) && TxCan(s, i, step) && t == TxDoes(s, i, step)
    ensures Kept(t)
  {
    hide First, Last, Unfit, Owned;
    Separate(s);
  }

  lemma CarefulStep(s: State, t: State, i: nat, step: Step)
    requires AllSound(s) && Owned(s) && Kept(s) && Next(s, t, i, step) && Careful(s, i, step)
    ensures Kept(t)
  {
    hide Kept, Owned, AllSound, WriterCan, WriterDoes, TxCan, TxDoes, Careful;
    if WriterCan(s, i, step) && t == WriterDoes(s, i, step) {
      CarefulWriter(s, t, i, step);
    } else {
      CarefulTx(s, t, i, step);
    }
  }

  lemma CarelessStep(s: State, t: State, i: nat, step: Step)
    requires Next(s, t, i, step) && !Careful(s, i, step)
    ensures !Kept(t)
  {
    hide InShard, First, Last, Unfit, TxCan, TxDoes;
    assert t == WriterDoes(s, i, SetBit) by { hide WriterDoes; OnlyWriterSets(s, i); }
    assert s.writers[i].next in t.reserved && s.writers[i].next in t.durable;
  }

  lemma OnlyWriterSets(s: State, i: nat)
    ensures !TxCan(s, i, SetBit)
  {
  }

  lemma {:induction false} CarefulRun(states: seq<State>, moves: seq<(nat, Step)>, k: nat)
    requires Run(states, moves) && Fresh(states[0]) && k < |states|
    requires forall m :: 0 <= m < |moves| ==> Careful(states[m], moves[m].0, moves[m].1)
    ensures Kept(states[k])
  {
    if k > 0 {
      hide Inv, Careful, Next, Kept, Fresh;
      CarefulRun(states, moves, k - 1);
      assert Moves(states, moves, k - 1);
      RunKeepsInv(states, moves, k - 1);
      InvParts(states[k - 1]);
      CarefulStep(states[k - 1], states[k], moves[k - 1].0, moves[k - 1].1);
    }
  }

  lemma InvParts(s: State)
    requires Inv(s)
    ensures Owned(s) && AllSound(s)
  {
  }

  /** No block of the last durable checkpoint is ever handed out exactly when no search picks
      a block freed by a publication that is not durable yet. */
  lemma KeptExactlyWhenCareful(states: seq<State>, moves: seq<(nat, Step)>)
    requires Run(states, moves) && Fresh(states[0])
    ensures (forall k :: 0 <= k < |states| ==> Kept(states[k]))
      <==> (forall m :: 0 <= m < |moves| ==> Careful(states[m], moves[m].0, moves[m].1))
  {
    hide Fresh, Kept, Careful, Next;
    if forall m :: 0 <= m < |moves| ==> Careful(states[m], moves[m].0, moves[m].1) {
      forall k | 0 <= k < |states| ensures Kept(states[k]) { CarefulRun(states, moves, k); }
    } else {
      var m :| 0 <= m < |moves| && !Careful(states[m], moves[m].0, moves[m].1);
      assert Moves(states, moves, m);
      CarelessStep(states[m], states[m + 1], moves[m].0, moves[m].1);
    }
  }

  // A test that would be enough: the search looks at freed blocks as well.

  ghost predicate CarefulTest(s: State, i: nat, step: Step) {
    step.TestBit? && WriterCan(s, i, TestBit) ==> s.writers[i].next !in Freed(s)
  }

  ghost predicate Unfreed(s: State, from: nat, end: nat) { forall b :: from <= b < end ==> b !in Freed(s) }

  ghost predicate Passed(s: State, w: Writer) {
    && (w.Testing? ==> Unfreed(s, w.run.start, w.next))
    && (w.Setting? ==> Unfreed(s, w.next, End(w.run)))
  }

  ghost predicate AllPassed(s: State) { forall i :: 0 <= i < |s.writers| ==> Passed(s, s.writers[i]) }

  lemma StillPassed(s: State, t: State, w: Writer)
    requires Passed(s, w) && (w.Testing? || w.Setting? ==> Freed(t) <= Freed(s))
    ensures Passed(t, w)
  {
  }

  lemma WriterPassed(s: State, t: State, i: nat, step: Step)
    requires AllSound(s) && AllPassed(s) && WriterCan(s, i, step) && t == WriterDoes(s, i, step) && OnlyWriter(s, t, i)
    requires CarefulTest(s, i, step)
    ensures AllPassed(t)
  {
    assert Freed(t) == Freed(s);
    assert Sound(s, s.writers[i]);
    OwnPassed(s, t, i, step);
    hide WriterCan, WriterDoes, Passed, Sound, Wanted;
    forall j | 0 <= j < |t.writers| && j != i ensures Passed(t, t.writers[j]) { StillPassed(s, t, s.writers[j]); }
  }

  lemma OwnPassed(s: State, t: State, i: nat, step: Step)
    requires WriterCan(s, i, step) && t == WriterDoes(s, i, step) && CarefulTest(s, i, step)
    requires Sound(s, s.writers[i]) && Passed(s, s.writers[i]) && Freed(t) == Freed(s)
    ensures Passed(t, t.writers[i])
  {
    hide InShard, Busy, Freed, Clear;
  }

  lemma TxFreed(s: State, t: State, i: nat, step: Step)
    requires TxCan(s, i, step) && t == TxDoes(s, i, step)
    ensures s.tx.Freeing? || Freed(t) <= Freed(s)
    ensures |t.writers| == |s.writers|
    ensures forall j :: 0 <= j < |s.writers| && (t.writers[j].Testing? || t.writers[j].Setting?) ==>
      t.writers[j] == s.writers[j]
  {
    hide First, Last, Unfit;
  }

  lemma TxPassed(s: State, t: State, i: nat, step: Step)
    requires LocksHeld(s) && AllPassed(s) && TxCan(s, i, step) && t == TxDoes(s, i, step)
    ensures AllPassed(t)
  {
    TxFreed(s, t, i, step);
    hide LocksHeld, TxCan, TxDoes, Freed;
    forall j | 0 <= j < |t.writers| ensures Passed(t, t.writers[j]) {
      assert Passed(s, s.writers[j]);
      if s.tx.Freeing? { NobodyTests(s, j); }
      if t.writers[j] == s.writers[j] { StillPassed(s, t, s.writers[j]); }
    }
  }

  lemma {:induction false} TestsPass(states: seq<State>, moves: seq<(nat, Step)>, k: nat)
    requires Run(states, moves) && Fresh(states[0]) && k < |states|
    requires forall m :: 0 <= m < |moves| ==> CarefulTest(states[m], moves[m].0, moves[m].1)
    ensures AllPassed(states[k])
  {
    if k > 0 {
      hide AllPassed, CarefulTest, WriterCan, WriterDoes, TxCan, TxDoes, Fresh, OnlyWriter, LocksHeld, AllSound;
      hide Owned, Counted, TxOk, HandedOver;
      TestsPass(states, moves, k - 1);
      assert Moves(states, moves, k - 1);
      RunKeepsInv(states, moves, k - 1);
      var s, t, i, step := states[k - 1], states[k], moves[k - 1].0, moves[k - 1].1;
      if WriterCan(s, i, step) && t == WriterDoes(s, i, step) {
        WriterOnly(s, t, i, step);
        WriterPassed(s, t, i, step);
      } else {
        TxPassed(s, t, i, step);
      }
    }
  }

  /** If every test a search passes also rejects freed blocks, then in every run no block of
      the last durable checkpoint is handed out, whatever happens between test and set. */
  lemma TestingFreedSuffices(states: seq<State>, moves: seq<(nat, Step)>, k: nat)
    requires Run(states, moves) && Fresh(states[0]) && k < |states|
    requires forall m :: 0 <= m < |moves| ==> CarefulTest(states[m], moves[m].0, moves[m].1)
    ensures Kept(states[k])
  {
    hide CarefulTest, Kept, Fresh, Next;
    forall m | 0 <= m < |moves| ensures Careful(states[m], moves[m].0, moves[m].1) {
      TestsPass(states, moves, m);
      PassedIsCareful(states[m], moves[m].0, moves[m].1);
    }
    CarefulRun(states, moves, k);
  }

  lemma PassedIsCareful(s: State, i: nat, step: Step)
    requires AllPassed(s)
    ensures Careful(s, i, step)
  {
    if step.SetBit? && WriterCan(s, i, SetBit) { assert Passed(s, s.writers[i]); }
  }

  /** A run on a volume with one block in use: the transaction frees it, and before the next
      checkpoint a writer searches for one block in the first arena. */
  function EarlyFree(k: nat): State {
    var s := State(65, {1}, {}, 0, 64, {1}, map[], {}, false, [Idle], Quiet);
    if k == 0 then s
    else if k == 1 then s.(tx := Freeing, writing := true)
    else if k == 2 then s.(tx := Freeing, writing := true, claimed := {}, free := 65)
    else s.(claimed := {}, free := 65)
  }

  function EarlyTake(k: nat): State {
    var run := Span(1, 1);
    var s := EarlyFree(3).(charged := 1, owner := map[0 := W(0)], readers := {0});
    if k == 4 then s.(writers := [Charged(1)], owner := map[], readers := {})
    else if k == 5 then s.(writers := [Waiting(1, 0)], readers := {})
    else if k == 6 then s.(writers := [Searching(1, 0)])
    else if k == 7 then s.(writers := [Testing(run, 0, 1)])
    else if k == 8 then s.(writers := [Testing(run, 0, 2)])
    else if k == 9 then s.(writers := [Setting(run, 0, 1)])
    else s.(writers := [Setting(run, 0, 2)], reserved := {1})
  }

  function Early(k: nat): State { if k < 4 then EarlyFree(k) else EarlyTake(k) }

  function EarlyMove(k: nat): Step {
    if k == 0 then BeginFree else if k == 1 then FreeBit(1) else if k == 2 then EndFree
    else if k == 3 then Reserve(1) else if k == 4 then LockShard(0) else if k == 5 then ReadLock
    else if k == 6 then Try(1) else if k == 7 then TestBit else if k == 8 then Found else SetBit
  }

  lemma EarlyFrees(k: nat)
    requires k < 3
    ensures TxCan(Early(k), 0, EarlyMove(k)) && Early(k + 1) == TxDoes(Early(k), 0, EarlyMove(k))
  {
  }

  lemma EarlyLocks(k: nat)
    requires 3 <= k < 6
    ensures WriterCan(Early(k), 0, EarlyMove(k)) && Early(k + 1) == WriterDoes(Early(k), 0, EarlyMove(k))
  {
  }

  lemma EarlyTakes(k: nat)
    requires 6 <= k < 10
    ensures WriterCan(Early(k), 0, EarlyMove(k)) && Early(k + 1) == WriterDoes(Early(k), 0, EarlyMove(k))
  {
    assert ArenaStart(65, 0) == 1 && ArenaStart(65, 1) == 2;
  }

  /** It does not hold of the code: a block freed during publication is reserved by a writer
      while the last durable checkpoint still uses it. */
  lemma HandedOutEarly() returns (states: seq<State>, moves: seq<(nat, Step)>)
    ensures Run(states, moves) && Fresh(states[0]) && |states| == 11 && !Kept(states[10])
  {
    hide WriterCan, WriterDoes, TxCan, TxDoes, EarlyMove;
    states := seq(11, k requires 0 <= k => Early(k));
    moves := seq(10, k requires 0 <= k => (0, EarlyMove(k)));
    assert 1 in states[10].reserved && 1 in states[10].durable;
    hide EarlyFree, EarlyTake, Early;
    forall k | 0 <= k < |moves| ensures Moves(states, moves, k) {
      if k < 3 { EarlyFrees(k); } else if k < 6 { EarlyLocks(k); } else { EarlyTakes(k); }
    }
  }
}
