/** The asynchronous reader: a worker thread that prefetches one block for its client.
    Each critical section is one step, except the worker's read, which keeps the lock over two. */
module AsyncReader {

  /** The worker: about to take the lock, asleep on read_requested, reading under the lock, or returned. */
  datatype WorkerPc = Ready | Waiting | Reading | Gone

  /** The client (LineReader): owes a start_read, free to work, asleep in finish_read, woken in it,
      copying the third block, its buffer deleted, destroying before and after its notify, done. */
  datatype ClientPc = MustStart | Free | Asleep | Woken | Copying | Deleted | Terminating | Joining | Done

  datatype State = State(
    worker: WorkerPc,
    client: ClientPc,
    desired: int,
    readCount: int,
    termination: bool,
    remaining: nat,
    total: nat,
    blockLen: nat,
    counts: seq<nat>,    // history: what each read returned
    returned: seq<nat>   // history: what each finish_read returned
  )

  datatype Step =
    | WorkerCheck | WorkerReadDone | WorkerSpurious
    | StartRead | FinishRead | FinishWake | ClientSpurious
    | CopyDone | DeleteBuffer | Destroy | NotifyWorker | Join

  predicate IsSpurious(step: Step) { step.WorkerSpurious? || step.ClientSpurious? }

  function Min(a: nat, b: nat): nat { if a < b then a else b }

  function Init(blockLen: nat, total: nat): State {
    State(Ready, MustStart, -1, -1, false, total, total, blockLen, [], [])
  }

  /** The lock is free unless the worker is inside the source's read. */
  predicate LockFree(s: State) { !s.worker.Reading? }

  /** The line reader asks for no result after an empty one: LineReader.FinishRead requires this. */
  predicate MayFinish(returned: seq<nat>) { returned == [] || returned[|returned| - 1] != 0 }

  predicate Enabled(s: State, step: Step) {
    match step
    case WorkerCheck => s.worker.Ready?
    case WorkerReadDone => s.worker.Reading?
    case WorkerSpurious => s.worker.Waiting?
    case StartRead => s.client.MustStart? && LockFree(s)
    case FinishRead => s.client.Free? && MayFinish(s.returned) && LockFree(s)
    case FinishWake => s.client.Woken? && LockFree(s)
    case ClientSpurious => s.client.Asleep?
    case CopyDone => s.client.Copying?
    case DeleteBuffer => s.client.MustStart? || s.client.Free?
    case Destroy => s.client.Deleted? && LockFree(s)
    case NotifyWorker => s.client.Terminating?
    case Join => s.client.Joining? && s.worker.Gone?
  }

  function WakeWorker(w: WorkerPc): WorkerPc { if w.Waiting? then Ready else w }

  function WakeClient(c: ClientPc): ClientPc { if c.Asleep? then Woken else c }

  /** The predicate loop of finish_read. */
  function TryFinish(s: State): State {
    if s.readCount != -1
    then s.(client := Copying, returned := s.returned + [if s.readCount < 0 then 0 else s.readCount])
    else s.(client := Asleep)
  }

  function Apply(s: State, step: Step): State
    requires Enabled(s, step)
  {
    match step
    case WorkerCheck =>
      if s.termination then s.(worker := Gone)
      else if s.desired != -1 then s.(worker := Reading)
      else s.(worker := Waiting)
    case WorkerReadDone =>
      var count := Min(if s.desired < 0 then 0 else s.desired, s.remaining);
      s.(remaining := s.remaining - count, readCount := count, desired := -1, counts := s.counts + [count],
         client := WakeClient(s.client),
         worker := if count == 0 || s.termination then Gone else Waiting)
    case WorkerSpurious => s.(worker := Ready)
    case StartRead => s.(client := Free, desired := s.blockLen, readCount := -1, worker := WakeWorker(s.worker))
    case FinishRead => TryFinish(s)
    case FinishWake => TryFinish(s)
    case ClientSpurious => s.(client := Woken)
    case CopyDone => s.(client := MustStart)
    case DeleteBuffer => s.(client := Deleted)
    case Destroy => s.(client := Terminating, termination := true)
    case NotifyWorker => s.(client := Joining, worker := WakeWorker(s.worker))
    case Join => s.(client := Done)
  }

  predicate InFinish(c: ClientPc) { c.Asleep? || c.Woken? }

  /** A read is requested or running, and its result is not there yet. */
  predicate InFlight(s: State) { s.desired != -1 }

  /** The synchronous reader: what is left after n reads of one block, and what the n-th read returns. */
  function LeftAfter(total: nat, blockLen: nat, n: nat): nat {
    if n == 0 then total
    else
      var left := LeftAfter(total, blockLen, n - 1);
      left - Min(blockLen, left)
  }

  function SyncRead(total: nat, blockLen: nat, n: nat): nat {
    Min(blockLen, LeftAfter(total, blockLen, n))
  }

  predicate LastIsEmpty(xs: seq<nat>) { xs != [] && xs[|xs| - 1] == 0 }

  predicate Inv(s: State) {
    && s.blockLen > 0
    && s.readCount >= -1
    && (s.desired == -1 || s.desired == s.blockLen)
    && (s.worker.Reading? ==> InFlight(s))
    // Reads happen as the synchronous reader would do them, and each finish_read takes its own.
    && s.remaining == LeftAfter(s.total, s.blockLen, |s.counts|)
    && (forall i :: 0 <= i < |s.counts| ==> s.counts[i] == SyncRead(s.total, s.blockLen, i))
    && |s.returned| <= |s.counts| <= |s.returned| + 1
    && s.returned == s.counts[..|s.returned|]
    && (InFlight(s) ==> |s.counts| == |s.returned|)
    && (s.client.Copying? || s.client.MustStart? ==> !InFlight(s) && |s.counts| == |s.returned|)
    && (s.client.Free? || InFinish(s.client) ==>
          if s.readCount == -1 then |s.counts| == |s.returned| && InFlight(s)
          else !InFlight(s) && |s.counts| == |s.returned| + 1 && s.readCount == s.counts[|s.counts| - 1])
    && (s.client.Asleep? ==> s.readCount == -1)
    && (InFinish(s.client) ==> MayFinish(s.returned))
    // The worker returns exactly on termination or after an empty read, and sleeps only when idle.
    && (s.worker.Gone? && !s.termination ==> LastIsEmpty(s.counts))
    && (!s.worker.Gone? ==> !LastIsEmpty(s.counts))
    && (s.worker.Waiting? && !s.client.Terminating? ==> !InFlight(s) && !s.termination)
    && (s.termination <==> s.client.Terminating? || s.client.Joining? || s.client.Done?)
    && (s.client.Done? ==> s.worker.Gone?)
  }

  lemma InvInit(blockLen: nat, total: nat)
    requires blockLen > 0
    ensures Inv(Init(blockLen, total))
  {
  }

  lemma InvStep(s: State, step: Step)
    requires Inv(s) && Enabled(s, step)
    ensures Inv(Apply(s, step))
  {
    match step
    case WorkerReadDone => InvReadDone(s);
    case FinishRead => InvTryFinish(s);
    case FinishWake => InvTryFinish(s);
    case _ =>
  }

  lemma InvReadDone(s: State)
    requires Inv(s) && s.worker.Reading?
    ensures Inv(Apply(s, WorkerReadDone))
  {
    var n, t := |s.counts|, Apply(s, WorkerReadDone);
    assert t.counts[n] == SyncRead(s.total, s.blockLen, n) && t.counts[..n] == s.counts;
  }

  lemma InvTryFinish(s: State)
    requires Inv(s) && (s.client.Free? || s.client.Woken?) && MayFinish(s.returned)
    ensures Inv(TryFinish(s))
  {
  }

  /** A schedule is legal when each of its steps is enabled in turn. */
  ghost predicate Legal(s: State, steps: seq<Step>)
    decreases |steps|
  {
    steps != [] ==> Enabled(s, steps[0]) && Legal(Apply(s, steps[0]), steps[1..])
  }

  ghost function Exec(s: State, steps: seq<Step>): State
    requires Legal(s, steps)
    decreases |steps|
  {
    if steps == [] then s else Exec(Apply(s, steps[0]), steps[1..])
  }

  lemma {:induction false} InvExec(s: State, steps: seq<Step>)
    requires Inv(s) && Legal(s, steps)
    ensures Inv(Exec(s, steps))
    decreases |steps|
  {
    if steps != [] {
      InvStep(s, steps[0]);
      InvExec(Apply(s, steps[0]), steps[1..]);
    }
  }

  /** Under every schedule: results come in order and are the synchronous reader's; the third block is
      copied only while no read into it is asked for or running; a client that waits for a result has a
      worker that still runs or a result that is there already. */
  lemma ReaderIsSynchronous(blockLen: nat, total: nat, steps: seq<Step>)
    requires blockLen > 0 && Legal(Init(blockLen, total), steps)
    ensures var s := Exec(Init(blockLen, total), steps);
            && (forall i :: 0 <= i < |s.returned| ==> s.returned[i] == SyncRead(total, blockLen, i))
            && (s.client.Copying? ==> !InFlight(s) && !s.worker.Reading?)
            && (InFinish(s.client) && s.worker.Gone? ==> s.readCount != -1)
  {
    InvInit(blockLen, total);
    InvExec(Init(blockLen, total), steps);
    KeepsSetup(Init(blockLen, total), steps);
  }

  lemma {:induction false} KeepsSetup(s: State, steps: seq<Step>)
    requires Legal(s, steps)
    ensures Exec(s, steps).total == s.total && Exec(s, steps).blockLen == s.blockLen
    decreases |steps|
  {
    if steps != [] { KeepsSetup(Apply(s, steps[0]), steps[1..]); }
  }

  /** The client is blocked: in finish_read, or in the destructor. */
  predicate Blocked(s: State) {
    InFinish(s.client) || s.client.Deleted? || s.client.Terminating? || s.client.Joining?
  }

  /** Bounds the steps until a blocked client goes on. */
  function Rank(s: State): nat {
    var w := if s.worker.Ready? then 2 else if s.worker.Reading? then 1 else 0;
    match s.client
    case Asleep => 3 + w
    case Woken => if s.readCount == -1 then 5 + w else 1 + w
    case Deleted => 5 + w
    case Terminating => 4 + w
    case Joining => 1 + w
    case _ => 0
  }

  /** Nobody waits for ever: while the client is blocked some thread can move without a spurious
      wake-up, and every such move brings the client closer to going on. */
  lemma BlockedProgress(s: State)
    requires Inv(s) && Blocked(s)
    ensures exists step :: Enabled(s, step) && !IsSpurious(step)
    ensures forall step | Enabled(s, step) && !IsSpurious(step) :: Rank(Apply(s, step)) < Rank(s) <= 8
  {
    var step :=
      if s.worker.Ready? then WorkerCheck
      else if s.worker.Reading? then WorkerReadDone
      else if s.client.Woken? then FinishWake
      else if s.client.Deleted? then Destroy
      else if s.client.Terminating? then NotifyWorker
      else Join;
    assert Enabled(s, step);
  }

  /** So eight steps always suffice for next_line's finish_read, and for the destructor's join. */
  lemma {:induction false} NoHang(s: State, steps: seq<Step>)
    requires Inv(s) && Legal(s, steps)
    requires forall i :: 0 <= i < |steps| ==> !IsSpurious(steps[i])
    requires forall k :: 0 <= k <= |steps| ==> Legal(s, steps[..k]) && Blocked(Exec(s, steps[..k]))
    ensures |steps| < Rank(s) <= 8
    decreases |steps|
  {
    assert steps[..0] == [];
    BlockedProgress(s);
    if steps != [] {
      var t, rest := Apply(s, steps[0]), steps[1..];
      assert Rank(t) < Rank(s);
      InvStep(s, steps[0]);
      forall k | 0 <= k <= |rest| ensures Legal(t, rest[..k]) && Blocked(Exec(t, rest[..k])) {
        assert steps[..k + 1][0] == steps[0] && steps[..k + 1][1..] == rest[..k];
      }
      NoHang(t, rest);
    }
  }

  /** The line reader's buffer is gone: its destructor deletes it before its reader is destroyed. */
  predicate Freed(s: State) { s.client.Deleted? || s.client.Terminating? || s.client.Joining? || s.client.Done? }

  /** The worker will not touch the buffer again. */
  predicate Idle(s: State) { Freed(s) && !s.worker.Reading? && (!InFlight(s) || s.worker.Gone?) }

  ghost predicate ReadsAfter(s: State, steps: seq<Step>) { Legal(s, steps) && Exec(s, steps).worker.Reading? }

  lemma {:induction false} StaysIdle(s: State, steps: seq<Step>)
    requires Inv(s) && Idle(s) && Legal(s, steps)
    ensures Idle(Exec(s, steps))
    decreases |steps|
  {
    if steps != [] {
      InvStep(s, steps[0]);
      StaysIdle(Apply(s, steps[0]), steps[1..]);
    }
  }

  /** Deleting the buffer lets the worker read into freed memory, on some schedule, exactly when a read is asked
      for or running and the worker has not returned. After a complete run it has. */
  lemma FreedUnderReaderIff(s: State)
    requires Inv(s) && Enabled(s, DeleteBuffer)
    ensures var t := Apply(s, DeleteBuffer);
            (exists steps :: ReadsAfter(t, steps)) <==> InFlight(s) && !s.worker.Gone?
  {
    var t := Apply(s, DeleteBuffer);
    InvStep(s, DeleteBuffer);
    if InFlight(s) && !s.worker.Gone? {
      if s.worker.Reading? {
        assert ReadsAfter(t, []);
      } else {
        var u := Apply(t, WorkerCheck);
        assert [WorkerCheck][1..] == [] && u.worker.Reading? && Legal(u, []) && Exec(u, []) == u;
        assert ReadsAfter(t, [WorkerCheck]);
      }
    } else {
      forall steps | Legal(t, steps) ensures !ReadsAfter(t, steps) { StaysIdle(t, steps); }
    }
  }
}
