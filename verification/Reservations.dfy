/** Concurrent reservations. A step is one lock operation, one look at a block in both
    bitmaps, or one change of a bit. Any number of writers reserve and release runs of blocks;
    a transaction claims runs, claims reservations, and frees blocks. A writer searches under
    the spin lock of one arena and a shared lock on the bitmap, a release takes only the spin
    lock, and the transaction takes the spin locks it computes for a run and the bitmap lock
    exclusively. */
module Reservations {
  import opened Geometry
  import opened Arenas

  datatype Span = Span(start: nat, count: nat)

  function End(run: Span): nat { run.start + run.count }

  /** Where a writer stands; `next` is the block of its run it looks at next. */
  datatype Writer =
    | Idle
    | Charged(count: nat)
    | Waiting(count: nat, shard: nat)
    | Searching(count: nat, shard: nat)
    | Testing(run: Span, shard: nat, next: nat)
    | Setting(run: Span, shard: nat, next: nat)
    | Missed(count: nat, shard: nat)
    | Took(run: Span, shard: nat)
    | Holding(run: Span, shard: nat)
    | Handed(run: Span, shard: nat, next: nat)
    | Releasing(run: Span, shard: nat, next: nat)
    | Uncharging(count: nat)

  /** What the transaction is asked to claim: a free run, or the reservation of a writer. */
  datatype Job = Job(run: Span, writer: Option<nat>)

  /** Where the transaction stands. While it locks or unlocks, `next` is the shard after the
      last one it holds. */
  datatype Tx =
    | Quiet
    | Locking(job: Job, next: nat)
    | Scanning(job: Job, next: nat)
    | Marking(job: Job, next: nat)
    | Unlocking(job: Job, ok: bool, next: nat)
    | Freeing

  datatype Who = W(i: nat) | T

  /** `owner` says who holds which spin lock; `readers` and `writing` are the bitmap lock;
      `free` is the transaction's count of free blocks, and `durable` the blocks in use by the
      last checkpoint that reached the disk. */
  datatype State = State(
    total: nat, claimed: set<nat>, reserved: set<nat>, charged: int, free: int, durable: set<nat>,
    owner: map<nat, Who>, readers: set<nat>, writing: bool, writers: seq<Writer>, tx: Tx)

  datatype Step =
    | Reserve(count: nat)
    | LockShard(shard: nat)
    | ReadLock
    | Try(start: nat)
    | TestBit
    | Found
    | SetBit
    | CloseFound
    | UnlockFound
    | CloseNone
    | UnlockNone
    | GiveUp
    | LockRelease
    | ClearBit
    | UnlockRelease
    | Uncharge
    | Claim(run: Span, consume: bool)
    | LockNext
    | LockBitmap
    | ScanBit
    | ScanFail
    | ScanDone
    | MarkBit
    | MarkDone
    | UnlockNext
    | EndClaim
    | BeginFree
    | FreeBit(block: nat)
    | EndFree
    | Publish

  /** The spin locks and the bitmap lock that go with a place in the program. */
  function Lock(w: Writer): Option<nat> {
    match w
    case Waiting(_, shard) => Some(shard)
    case Searching(_, shard) => Some(shard)
    case Testing(_, shard, _) => Some(shard)
    case Setting(_, shard, _) => Some(shard)
    case Missed(_, shard) => Some(shard)
    case Took(_, shard) => Some(shard)
    case Releasing(_, shard, _) => Some(shard)
    case _ => None
  }

  predicate Reads(w: Writer) { w.Searching? || w.Testing? || w.Setting? }

  predicate Writes(tx: Tx) { tx.Scanning? || tx.Marking? || tx.Freeing? }

  function First(total: nat, job: Job): nat { ShardFor(total, job.run.start) }

  function Last(total: nat, job: Job): nat {
    ShardFor(total, if End(job.run) == 0 then 0 else End(job.run) - 1)
  }

  predicate TxLocks(total: nat, tx: Tx, shard: nat) {
    match tx
    case Quiet => false
    case Freeing => false
    case Locking(job, next) => First(total, job) <= shard < next
    case Scanning(job, _) => First(total, job) <= shard <= Last(total, job)
    case Marking(job, _) => First(total, job) <= shard <= Last(total, job)
    case Unlocking(job, _, next) => First(total, job) <= shard < next
  }

  predicate InShard(total: nat, shard: nat, run: Span) {
    && total > 0 && shard < SHARDS
    && ArenaStart(total, shard) <= run.start && End(run) <= ArenaStart(total, shard + 1)
  }

  predicate Busy(s: State, b: nat) { b in s.claimed || b in s.reserved }

  /** What the transaction's scan finds wrong with a block: allocated, or reserved without
      being asked for, or asked for and not reserved. */
  predicate Unfit(s: State, job: Job, b: nat) { b in s.claimed || (b in s.reserved) != job.writer.Some? }

  function Put(s: State, i: nat, w: Writer): State
    requires i < |s.writers|
  {
    s.(writers := s.writers[i := w])
  }

  predicate WriterCan(s: State, i: nat, step: Step) {
    && i < |s.writers|
    && var w := s.writers[i];
    match step
    case Reserve(count) => w.Idle? && count > 0
    case LockShard(shard) => w.Charged? && shard < SHARDS && shard !in s.owner
    case ReadLock => w.Waiting? && !s.writing
    case Try(start) =>
      && (w.Searching? || (w.Testing? && w.next < End(w.run) && Busy(s, w.next)))
      && InShard(s.total, w.shard, Span(start, Wanted(w)))
    case TestBit => w.Testing? && w.next < End(w.run) && !Busy(s, w.next)
    case Found => w.Testing? && w.next >= End(w.run)
    case SetBit => w.Setting? && w.next < End(w.run)
    case CloseFound => w.Setting? && w.next >= End(w.run)
    case UnlockFound => w.Took?
    case CloseNone => w.Searching? || (w.Testing? && w.next < End(w.run) && Busy(s, w.next))
    case UnlockNone => w.Missed?
    case GiveUp => w.Charged?
    case LockRelease => w.Holding? && w.shard !in s.owner
    case ClearBit => w.Releasing? && w.next < End(w.run)
    case UnlockRelease => w.Releasing? && w.next >= End(w.run)
    case Uncharge => w.Uncharging?
    case _ => false
  }

  /** How many blocks a writer has charged. */
  function Wanted(w: Writer): nat {
    match w
    case Idle => 0
    case Charged(count) => count
    case Waiting(count, _) => count
    case Searching(count, _) => count
    case Missed(count, _) => count
    case Uncharging(count) => count
    case Testing(run, _, _) => run.count
    case Setting(run, _, _) => run.count
    case Took(run, _) => run.count
    case Holding(run, _) => run.count
    case Handed(run, _, _) => run.count
    case Releasing(run, _, _) => run.count
  }

  function WriterDoes(s: State, i: nat, step: Step): State
    requires WriterCan(s, i, step)
  {
    var w := s.writers[i];
    match step
    case Reserve(count) => Put(s, i, Charged(count)).(charged := s.charged + count)
    case LockShard(shard) => Put(s, i, Waiting(w.count, shard)).(owner := s.owner[shard := W(i)])
    case ReadLock => Put(s, i, Searching(w.count, w.shard)).(readers := s.readers + {i})
    case Try(start) => Put(s, i, Testing(Span(start, Wanted(w)), w.shard, start))
    case TestBit => Put(s, i, Testing(w.run, w.shard, w.next + 1))
    case Found => Put(s, i, Setting(w.run, w.shard, w.run.start))
    case SetBit => Put(s, i, Setting(w.run, w.shard, w.next + 1)).(reserved := s.reserved + {w.next})
    case CloseFound => Put(s, i, Took(w.run, w.shard)).(readers := s.readers - {i})
    case UnlockFound => Put(s, i, Holding(w.run, w.shard)).(owner := s.owner - {w.shard})
    case CloseNone => Put(s, i, Missed(Wanted(w), w.shard)).(readers := s.readers - {i})
    case UnlockNone => Put(s, i, Charged(w.count)).(owner := s.owner - {w.shard})
    case GiveUp => Put(s, i, Idle).(charged := s.charged - w.count)
    case LockRelease => Put(s, i, Releasing(w.run, w.shard, w.run.start)).(owner := s.owner[w.shard := W(i)])
    case ClearBit => Put(s, i, Releasing(w.run, w.shard, w.next + 1)).(reserved := s.reserved - {w.next})
    case UnlockRelease => Put(s, i, Uncharging(w.run.count)).(owner := s.owner - {w.shard})
    case Uncharge => Put(s, i, Idle).(charged := s.charged - w.count)
  }

  /** Steps of the transaction; a claim that consumes takes the reservation of writer `i`. */
  predicate TxCan(s: State, i: nat, step: Step) {
    match step
    case Claim(run, consume) =>
      && s.tx.Quiet? && run.count > 0 && 1 <= run.start && End(run) <= s.total && run.count <= s.free
      && (consume ==> i < |s.writers| && s.writers[i].Holding? && s.writers[i].run == run)
    case LockNext => s.tx.Locking? && s.tx.next <= Last(s.total, s.tx.job) && s.tx.next !in s.owner
    case LockBitmap => s.tx.Locking? && s.tx.next > Last(s.total, s.tx.job) && !s.writing && s.readers == {}
    case ScanBit => s.tx.Scanning? && s.tx.next < End(s.tx.job.run) && !Unfit(s, s.tx.job, s.tx.next)
    case ScanFail => s.tx.Scanning? && s.tx.next < End(s.tx.job.run) && Unfit(s, s.tx.job, s.tx.next)
    case ScanDone => s.tx.Scanning? && s.tx.next >= End(s.tx.job.run)
    case MarkBit =>
      && s.tx.Marking? && s.tx.next < End(s.tx.job.run)
      && (s.tx.job.writer.Some? ==> s.tx.job.writer.value < |s.writers| && s.writers[s.tx.job.writer.value].Handed?)
    case MarkDone => s.tx.Marking? && s.tx.next >= End(s.tx.job.run)
    case UnlockNext => s.tx.Unlocking? && s.tx.next > First(s.total, s.tx.job)
    case EndClaim =>
      && s.tx.Unlocking? && s.tx.next <= First(s.total, s.tx.job)
      && (s.tx.job.writer.Some? ==> s.tx.job.writer.value < |s.writers| && s.writers[s.tx.job.writer.value].Handed?)
    case BeginFree => s.tx.Quiet? && !s.writing && s.readers == {}
    case FreeBit(block) => s.tx.Freeing? && block in s.claimed
    case EndFree => s.tx.Freeing?
    case Publish => s.tx.Quiet?
    case _ => false
  }

  function TxDoes(s: State, i: nat, step: Step): State
    requires TxCan(s, i, step)
  {
    match step
    case Claim(run, consume) =>
      var job := Job(run, if consume then Some(i) else None);
      var t := s.(tx := Locking(job, First(s.total, job)));
      if consume then Put(t, i, Handed(run, s.writers[i].shard, run.start)) else t
    case LockNext => s.(tx := Locking(s.tx.job, s.tx.next + 1), owner := s.owner[s.tx.next := T])
    case LockBitmap => s.(tx := Scanning(s.tx.job, s.tx.job.run.start), writing := true)
    case ScanBit => s.(tx := Scanning(s.tx.job, s.tx.next + 1))
    case ScanFail => s.(tx := Unlocking(s.tx.job, false, Last(s.total, s.tx.job) + 1), writing := false)
    case ScanDone => s.(tx := Marking(s.tx.job, s.tx.job.run.start))
    case MarkBit =>
      var t := s.(tx := Marking(s.tx.job, s.tx.next + 1), claimed := s.claimed + {s.tx.next});
      if s.tx.job.writer.None? then t
      else
        var w := s.writers[s.tx.job.writer.value];
        Put(t.(reserved := s.reserved - {s.tx.next}), s.tx.job.writer.value, Handed(w.run, w.shard, w.next + 1))
    case MarkDone =>
      s.(tx := Unlocking(s.tx.job, true, Last(s.total, s.tx.job) + 1), writing := false,
         free := s.free - s.tx.job.run.count)
    case UnlockNext => s.(tx := Unlocking(s.tx.job, s.tx.ok, s.tx.next - 1), owner := s.owner - {s.tx.next - 1})
    case EndClaim =>
      var t := s.(tx := Quiet);
      if s.tx.job.writer.None? then t
      else
        var w := s.writers[s.tx.job.writer.value];
        if s.tx.ok then Put(t.(charged := s.charged - w.run.count), s.tx.job.writer.value, Idle)
        else Put(t, s.tx.job.writer.value, Holding(w.run, w.shard))
    case BeginFree => s.(tx := Freeing, writing := true)
    case FreeBit(block) => s.(claimed := s.claimed - {block}, free := s.free + 1)
    case EndFree => s.(tx := Quiet, writing := false)
    case Publish => s.(durable := s.claimed)
  }

  /** One step of the system: writer `i`, or the transaction (on behalf of writer `i`). */
  predicate Next(s: State, t: State, i: nat, step: Step) {
    || (WriterCan(s, i, step) && t == WriterDoes(s, i, step))
    || (TxCan(s, i, step) && t == TxDoes(s, i, step))
  }
}
