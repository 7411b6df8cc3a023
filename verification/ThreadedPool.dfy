/** The shared connection pool: threads running the redirection protocol over monitors with one condition
    variable per pool. Each critical section is one step; a wait splits its section in two. */
module ThreadedPool {
  import opened Wrappers

  const POOL_SIZE: nat := 10

  datatype PoolKey = SlotPool(first: nat, last: nat) | HostPool(name: string)

  /** A connection is known by the pool that opened it and its number there. */
  datatype Conn = Conn(home: PoolKey, number: nat)

  /** A command takes a slot connection first and, when redirected, a host connection. */
  datatype Stage = First | Second

  datatype Pc =
    | Start(key: PoolKey, stage: Stage)              // about to take the lock
    | Waiting(key: PoolKey, stage: Stage)            // asleep on the pool's condition variable
    | Woken(key: PoolKey, stage: Stage)              // notified, about to check the queue again
    | Holding(key: PoolKey, con: Conn, stage: Stage)
    | Notifying(key: PoolKey, stage: Stage)          // pushed and unlocked, not yet notified
    | Finished
    | Threw(key: PoolKey, con: Conn)                 // left without releasing

  datatype State = State(pools: map<PoolKey, seq<Conn>>, threads: seq<Pc>)

  datatype Step =
    | Acquire(t: nat)
    | Recheck(t: nat)
    | Release(t: nat)
    | Notify(t: nat, woken: Option<nat>, redirect: Option<string>)
    | Throw(t: nat)
    | Spurious(t: nat)

  // ----- steps

  function Fill(key: PoolKey, n: nat): seq<Conn> {
    seq(n, i requires 0 <= i => Conn(key, i))
  }

  /** Host pools are opened on their first use. */
  function Opened(pools: map<PoolKey, seq<Conn>>, key: PoolKey): (r: map<PoolKey, seq<Conn>>)
    ensures key in r
  {
    if key in pools then pools else pools[key := Fill(key, POOL_SIZE)]
  }

  function Pull(s: State, t: nat, key: PoolKey, stage: Stage): State
    requires t < |s.threads| && key in s.pools
  {
    var queue := s.pools[key];
    if queue == [] then s.(threads := s.threads[t := Waiting(key, stage)])
    else State(s.pools[key := queue[1..]], s.threads[t := Holding(key, queue[0], stage)])
  }

  predicate WaitsOn(pc: Pc, key: PoolKey) { pc.Waiting? && pc.key == key }

  predicate AnyWaiting(threads: seq<Pc>, key: PoolKey) {
    exists t :: 0 <= t < |threads| && WaitsOn(threads[t], key)
  }

  predicate Enabled(s: State, step: Step) {
    step.t < |s.threads| &&
    var pc := s.threads[step.t];
    match step
    case Acquire(_) => pc.Start? && (pc.key.SlotPool? ==> pc.key in s.pools)
    case Recheck(_) => pc.Woken? && pc.key in s.pools
    case Release(_) => pc.Holding? && pc.key in s.pools
    case Notify(_, woken, redirect) =>
      && pc.Notifying?
      && (redirect.Some? ==> pc.stage == First)
      && (if woken.Some? then woken.value < |s.threads| && WaitsOn(s.threads[woken.value], pc.key)
          else !AnyWaiting(s.threads, pc.key))
    case Throw(_) => pc.Holding? && pc.stage == Second
    case Spurious(_) => pc.Waiting?
  }

  function Wake(pc: Pc): Pc
    requires pc.Waiting?
  {
    Woken(pc.key, pc.stage)
  }

  function AfterNotify(redirect: Option<string>): Pc {
    match redirect
    case None => Finished
    case Some(name) => Start(HostPool(name), Second)
  }

  function Apply(s: State, step: Step): State
    requires Enabled(s, step)
  {
    var t, pc := step.t, s.threads[step.t];
    match step
    case Acquire(_) => Pull(s.(pools := Opened(s.pools, pc.key)), t, pc.key, pc.stage)
    case Recheck(_) => Pull(s, t, pc.key, pc.stage)
    case Release(_) =>
      State(s.pools[pc.key := s.pools[pc.key] + [pc.con]], s.threads[t := Notifying(pc.key, pc.stage)])
    case Notify(_, woken, redirect) =>
      var threads := if woken.Some? then s.threads[woken.value := Wake(s.threads[woken.value])] else s.threads;
      s.(threads := threads[t := AfterNotify(redirect)])
    case Throw(_) => s.(threads := s.threads[t := Threw(pc.key, pc.con)])
    case Spurious(_) => s.(threads := s.threads[t := Wake(pc)])
  }

  // ----- sums over threads

  function Total(threads: seq<Pc>, f: Pc -> nat): nat {
    if threads == [] then 0 else f(threads[0]) + Total(threads[1..], f)
  }

  lemma {:induction false} TotalUpdate(threads: seq<Pc>, t: nat, pc: Pc, f: Pc -> nat)
    requires t < |threads|
    ensures Total(threads[t := pc], f) + f(threads[t]) == Total(threads, f) + f(pc)
  {
    if t == 0 {
      assert threads[0 := pc][1..] == threads[1..];
    } else {
      TotalUpdate(threads[1..], t - 1, pc, f);
      assert threads[t := pc][1..] == threads[1..][t - 1 := pc];
    }
  }

  predicate Keeps(pc: Pc, key: PoolKey) { (pc.Holding? || pc.Threw?) && pc.key == key }

  function KeepsOf(key: PoolKey): Pc -> nat { (pc: Pc) => if Keeps(pc, key) then 1 else 0 }

  function ThrewOf(key: PoolKey): Pc -> nat { (pc: Pc) => if pc.Threw? && pc.key == key then 1 else 0 }

  /** Wake-ups on their way: a pending notify, or a notified thread that has not run yet. */
  function WakeupsOf(key: PoolKey): Pc -> nat {
    (pc: Pc) => if (pc.Notifying? || pc.Woken?) && pc.key == key then 1 else 0
  }

  // ----- the invariant

  predicate HasConn(pc: Pc) { pc.Holding? || pc.Threw? }

  predicate OwnConn(c: Conn, key: PoolKey) { c.home == key && c.number < POOL_SIZE }

  /** Connections stay with the pool they came from, and nobody shares one. */
  ghost predicate Exclusive(s: State) {
    && (forall k, i | k in s.pools && 0 <= i < |s.pools[k]| :: OwnConn(s.pools[k][i], k))
    && (forall k, i, j | k in s.pools && 0 <= i < j < |s.pools[k]| :: s.pools[k][i] != s.pools[k][j])
    && (forall t | 0 <= t < |s.threads| && HasConn(s.threads[t]) ::
          s.threads[t].key in s.pools && OwnConn(s.threads[t].con, s.threads[t].key)
          && s.threads[t].con !in s.pools[s.threads[t].key])
    && (forall t, u | 0 <= t < u < |s.threads| && HasConn(s.threads[t]) && HasConn(s.threads[u]) ::
          s.threads[t].con != s.threads[u].con)
  }

  ghost predicate Conserved(s: State) {
    forall k | k in s.pools :: |s.pools[k]| + Total(s.threads, KeepsOf(k)) == POOL_SIZE
  }

  ghost predicate NoLostWakeup(s: State) {
    forall k | k in s.pools && AnyWaiting(s.threads, k) :: |s.pools[k]| <= Total(s.threads, WakeupsOf(k))
  }

  ghost predicate Known(s: State) {
    forall t | 0 <= t < |s.threads| ::
      var pc := s.threads[t];
      && (pc.Start? ==> pc.key in s.pools || pc.key.HostPool?)
      && (pc.Waiting? || pc.Woken? || pc.Notifying? ==> pc.key in s.pools)
  }

  ghost predicate Inv(s: State) {
    Known(s) && Exclusive(s) && Conserved(s) && NoLostWakeup(s)
  }

  // ----- every step keeps it

  lemma {:induction false} TotalZero(threads: seq<Pc>, f: Pc -> nat)
    requires forall t :: 0 <= t < |threads| ==> f(threads[t]) == 0
    ensures Total(threads, f) == 0
  {
    if threads != [] {
      forall t | 0 <= t < |threads| - 1 ensures f(threads[1..][t]) == 0 { assert threads[1..][t] == threads[t + 1]; }
      TotalZero(threads[1..], f);
    }
  }

  lemma InvOpen(s: State, key: PoolKey)
    requires Inv(s)
    ensures Inv(s.(pools := Opened(s.pools, key)))
  {
    if key !in s.pools { TotalZero(s.threads, KeepsOf(key)); }
  }

  /** What one thread's move does to the counts of a pool. */
  lemma Counts(threads: seq<Pc>, t: nat, pc: Pc, k: PoolKey)
    requires t < |threads|
    ensures Total(threads[t := pc], KeepsOf(k)) + KeepsOf(k)(threads[t]) == Total(threads, KeepsOf(k)) + KeepsOf(k)(pc)
    ensures Total(threads[t := pc], WakeupsOf(k)) + WakeupsOf(k)(threads[t]) == Total(threads, WakeupsOf(k)) + WakeupsOf(k)(pc)
    ensures AnyWaiting(threads[t := pc], k) && !WaitsOn(pc, k) ==> AnyWaiting(threads, k)
  {
    TotalUpdate(threads, t, pc, KeepsOf(k));
    TotalUpdate(threads, t, pc, WakeupsOf(k));
    hide Total;
    var now := threads[t := pc];
    if !WaitsOn(pc, k) {
      if u :| 0 <= u < |now| && WaitsOn(now[u], k) { assert WaitsOn(threads[u], k); }
    }
  }

  /** A thread moves without touching any queue, keeping whatever it holds and going neither to sleep
      nor off a wake-up that a sleeper still needs. */
  lemma InvMove(s: State, t: nat, pc: Pc)
    requires Inv(s) && t < |s.threads| && Known(State(s.pools, [pc]))
    requires HasConn(s.threads[t]) <==> HasConn(pc)
    requires HasConn(pc) ==> pc.key == s.threads[t].key && pc.con == s.threads[t].con
    requires !pc.Waiting?
    requires forall k :: WakeupsOf(k)(pc) < WakeupsOf(k)(s.threads[t]) ==> !AnyWaiting(s.threads, k)
    ensures Inv(s.(threads := s.threads[t := pc]))
  {
    MoveKnown(s, t, pc);
    hide Known, Exclusive, Total, AnyWaiting;
    var threads := s.threads[t := pc];
    forall k | k in s.pools
      ensures Total(threads, KeepsOf(k)) == Total(s.threads, KeepsOf(k))
      ensures AnyWaiting(threads, k) ==> |s.pools[k]| <= Total(threads, WakeupsOf(k))
    {
      Counts(s.threads, t, pc, k);
    }
  }

  lemma MoveKnown(s: State, t: nat, pc: Pc)
    requires Known(s) && Exclusive(s) && t < |s.threads| && Known(State(s.pools, [pc]))
    requires HasConn(s.threads[t]) <==> HasConn(pc)
    requires HasConn(pc) ==> pc.key == s.threads[t].key && pc.con == s.threads[t].con
    ensures var r := s.(threads := s.threads[t := pc]); Known(r) && Exclusive(r)
  {
    assert [pc][0] == pc;
  }

  /** An empty queue needs no wake-up, so a thread may go to sleep on it. */
  lemma InvSleep(s: State, t: nat, key: PoolKey, stage: Stage)
    requires Inv(s) && t < |s.threads| && key in s.pools && s.pools[key] == []
    requires s.threads[t] == Start(key, stage) || s.threads[t] == Woken(key, stage)
    ensures Inv(s.(threads := s.threads[t := Waiting(key, stage)]))
  {
    MoveKnown(s, t, Waiting(key, stage));
    hide Known, Exclusive, Total, AnyWaiting;
    var threads := s.threads[t := Waiting(key, stage)];
    forall k | k in s.pools
      ensures Total(threads, KeepsOf(k)) == Total(s.threads, KeepsOf(k))
      ensures AnyWaiting(threads, k) ==> |s.pools[k]| <= Total(threads, WakeupsOf(k))
    {
      Counts(s.threads, t, threads[t], k);
    }
  }

  lemma InvPop(s: State, t: nat, key: PoolKey, stage: Stage)
    requires Inv(s) && t < |s.threads| && key in s.pools && s.pools[key] != []
    requires s.threads[t] == Start(key, stage) || s.threads[t] == Woken(key, stage)
    ensures Inv(Pull(s, t, key, stage))
  {
    PopKnown(s, t, key, stage);
    hide Known, Exclusive, Total, AnyWaiting;
    var r := Pull(s, t, key, stage);
    forall k | k in r.pools
      ensures |r.pools[k]| + Total(r.threads, KeepsOf(k)) == POOL_SIZE
      ensures AnyWaiting(r.threads, k) ==> |r.pools[k]| <= Total(r.threads, WakeupsOf(k))
    {
      Counts(s.threads, t, r.threads[t], k);
    }
  }

  lemma PopKnown(s: State, t: nat, key: PoolKey, stage: Stage)
    requires Known(s) && Exclusive(s) && t < |s.threads| && key in s.pools && s.pools[key] != []
    requires s.threads[t] == Start(key, stage) || s.threads[t] == Woken(key, stage)
    ensures Known(Pull(s, t, key, stage)) && Exclusive(Pull(s, t, key, stage))
  {
    assert s.pools[key][0] !in s.pools[key][1..];
  }

  lemma InvRelease(s: State, t: nat)
    requires Inv(s) && Enabled(s, Release(t))
    ensures Inv(Apply(s, Release(t)))
  {
    ReleaseKnown(s, t);
    hide Known, Exclusive, Total, AnyWaiting;
    var r := Apply(s, Release(t));
    forall k | k in r.pools
      ensures |r.pools[k]| + Total(r.threads, KeepsOf(k)) == POOL_SIZE
      ensures AnyWaiting(r.threads, k) ==> |r.pools[k]| <= Total(r.threads, WakeupsOf(k))
    {
      Counts(s.threads, t, r.threads[t], k);
    }
  }

  lemma ReleaseKnown(s: State, t: nat)
    requires Known(s) && Exclusive(s) && Enabled(s, Release(t))
    ensures Known(Apply(s, Release(t))) && Exclusive(Apply(s, Release(t)))
  {
  }

  lemma HandOverKnown(s: State, t: nat, u: nat, next: Pc)
    requires Known(s) && Exclusive(s) && t < |s.threads| && u < |s.threads| && s.threads[t].Notifying?
    requires WaitsOn(s.threads[u], s.threads[t].key) && (next.Finished? || (next.Start? && next.key.HostPool?))
    ensures var r := s.(threads := s.threads[u := Wake(s.threads[u])][t := next]); Known(r) && Exclusive(r)
  {
  }

  lemma HandOverCounts(threads: seq<Pc>, t: nat, u: nat, next: Pc, k: PoolKey)
    requires t < |threads| && u < |threads| && threads[t].Notifying? && WaitsOn(threads[u], threads[t].key)
    requires next.Finished? || (next.Start? && next.key.HostPool?)
    ensures var now := threads[u := Wake(threads[u])][t := next];
            && Total(now, KeepsOf(k)) == Total(threads, KeepsOf(k)) && Total(now, WakeupsOf(k)) == Total(threads, WakeupsOf(k))
            && (AnyWaiting(now, k) ==> AnyWaiting(threads, k))
  {
    hide Total, AnyWaiting;
    Counts(threads, u, Wake(threads[u]), k);
    Counts(threads[u := Wake(threads[u])], t, next, k);
  }

  /** Waking a sleeper and dropping the notify keeps the number of wake-ups. */
  lemma InvHandOver(s: State, t: nat, u: nat, next: Pc)
    requires Inv(s) && t < |s.threads| && u < |s.threads| && s.threads[t].Notifying?
    requires WaitsOn(s.threads[u], s.threads[t].key) && (next.Finished? || (next.Start? && next.key.HostPool?))
    ensures Inv(s.(threads := s.threads[u := Wake(s.threads[u])][t := next]))
  {
    HandOverKnown(s, t, u, next);
    forall k | k in s.pools
      ensures var now := s.threads[u := Wake(s.threads[u])][t := next];
              && Total(now, KeepsOf(k)) == Total(s.threads, KeepsOf(k))
              && Total(now, WakeupsOf(k)) == Total(s.threads, WakeupsOf(k))
              && (AnyWaiting(now, k) ==> AnyWaiting(s.threads, k))
    {
      HandOverCounts(s.threads, t, u, next, k);
    }
    hide Known, Exclusive, Total, AnyWaiting;
  }

  lemma InvPull(s: State, t: nat, key: PoolKey, stage: Stage)
    requires Inv(s) && t < |s.threads| && key in s.pools
    requires s.threads[t] == Start(key, stage) || s.threads[t] == Woken(key, stage)
    ensures Inv(Pull(s, t, key, stage))
  {
    if s.pools[key] == [] { InvSleep(s, t, key, stage); } else { InvPop(s, t, key, stage); }
  }

  lemma InvStep(s: State, step: Step)
    requires Inv(s) && Enabled(s, step)
    ensures Inv(Apply(s, step))
  {
    var t, pc := step.t, s.threads[step.t];
    match step
    case Acquire(_) =>
      InvOpen(s, pc.key);
      InvPull(s.(pools := Opened(s.pools, pc.key)), t, pc.key, pc.stage);
    case Recheck(_) => InvPull(s, t, pc.key, pc.stage);
    case Release(_) => InvRelease(s, t);
    case Notify(_, woken, redirect) =>
      if woken.None? { InvMove(s, t, AfterNotify(redirect)); }
      else { InvHandOver(s, t, woken.value, AfterNotify(redirect)); }
    case Throw(_) => InvMove(s, t, Threw(pc.key, pc.con));
    case Spurious(_) => InvMove(s, t, Wake(pc));
  }

  // ----- runs

  ghost predicate Legal(s: State, steps: seq<Step>)
    decreases |steps|
  {
    steps != [] ==> Enabled(s, steps[0]) && Legal(Apply(s, steps[0]), steps[1..])
  }

  ghost function Exec(s: State, steps: seq<Step>): State
    requires Legal(s, steps)
    decreases |steps|
  {
    if steps == [] then s else Exec(Apply(s, steps[0]), steps[1..])
  }

  lemma {:induction false} InvExec(s: State, steps: seq<Step>)
    requires Inv(s) && Legal(s, steps)
    ensures Inv(Exec(s, steps))
    decreases |steps|
  {
    if steps != [] {
      InvStep(s, steps[0]);
      InvExec(Apply(s, steps[0]), steps[1..]);
    }
  }

  /** The cluster has opened a full pool for each slot range; every thread is about to run one command. */
  ghost predicate Init(s: State) {
    && (forall k | k in s.pools :: s.pools[k] == Fill(k, POOL_SIZE))
    && (forall t | 0 <= t < |s.threads| :: s.threads[t].Start? && s.threads[t].stage == First && s.threads[t].key in s.pools)
  }

  lemma InvInit(s: State)
    requires Init(s)
    ensures Inv(s)
  {
    forall k | k in s.pools ensures Total(s.threads, KeepsOf(k)) == 0 {
      TotalZero(s.threads, KeepsOf(k));
    }
    forall k | k in s.pools ensures !AnyWaiting(s.threads, k) {}
  }

  /** Under every schedule of every number of threads: no connection is held twice or held and queued,
      each sits in or was taken from the pool that opened it, each pool accounts for all ten, and threads
      sleep on a pool only while its queue is covered by wake-ups on their way. */
  lemma PoolSafety(s: State, steps: seq<Step>)
    requires Init(s) && Legal(s, steps)
    ensures var r := Exec(s, steps); Exclusive(r) && Conserved(r) && NoLostWakeup(r)
  {
    InvInit(s);
    InvExec(s, steps);
  }

  // ----- no deadlock, and termination

  predicate Done(pc: Pc) { pc.Finished? || pc.Threw? }

  ghost predicate CanMove(s: State) {
    exists step :: Enabled(s, step) && !step.Spurious?
  }

  /** Everything a pool opened was lost by threads that threw. */
  ghost predicate Drained(s: State, key: PoolKey) {
    Total(s.threads, ThrewOf(key)) == POOL_SIZE
  }

  /** A thread that neither sleeps nor is done can always move. */
  lemma MoveOf(s: State, t: nat)
    requires Inv(s) && t < |s.threads| && !Done(s.threads[t]) && !s.threads[t].Waiting?
    ensures CanMove(s)
  {
    var pc := s.threads[t];
    match pc
    case Start(_, _) => assert Enabled(s, Acquire(t));
    case Woken(_, _) => assert Enabled(s, Recheck(t));
    case Holding(_, _, _) => assert Enabled(s, Release(t));
    case Notifying(key, _) =>
      if AnyWaiting(s.threads, key) {
        var u :| 0 <= u < |s.threads| && WaitsOn(s.threads[u], key);
        assert Enabled(s, Notify(t, Some(u), None));
      } else {
        assert Enabled(s, Notify(t, None, None));
      }
  }

  lemma {:induction false} TotalSame(threads: seq<Pc>, f: Pc -> nat, g: Pc -> nat)
    requires forall t :: 0 <= t < |threads| ==> f(threads[t]) == g(threads[t])
    ensures Total(threads, f) == Total(threads, g)
  {
    if threads != [] {
      forall t | 0 <= t < |threads| - 1 ensures f(threads[1..][t]) == g(threads[1..][t]) {
        assert threads[1..][t] == threads[t + 1];
      }
      TotalSame(threads[1..], f, g);
    }
  }

  /** The system is stuck with work left exactly when every unfinished thread sleeps on a pool that
      throwing threads have emptied for good. */
  lemma StuckIffDrained(s: State)
    requires Inv(s)
    ensures !CanMove(s) <==>
            forall t | 0 <= t < |s.threads| && !Done(s.threads[t]) ::
              s.threads[t].Waiting? && Drained(s, s.threads[t].key)
  {
    if !CanMove(s) {
      forall t | 0 <= t < |s.threads| && !Done(s.threads[t])
        ensures s.threads[t].Waiting? && Drained(s, s.threads[t].key)
      {
        if !s.threads[t].Waiting? { MoveOf(s, t); }
        forall u | 0 <= u < |s.threads| && !Done(s.threads[u]) ensures s.threads[u].Waiting? {
          if !s.threads[u].Waiting? { MoveOf(s, u); }
        }
        var key := s.threads[t].key;
        assert WaitsOn(s.threads[t], key);
        TotalZero(s.threads, WakeupsOf(key));
        TotalSame(s.threads, KeepsOf(key), ThrewOf(key));
      }
    }
  }


  /** Work left: every step but a spurious wake-up uses some of it up. */
  function Work(pc: Pc): nat {
    match pc
    case Start(_, stage) => if stage == First then 12 else 6
    case Woken(_, stage) => if stage == First then 11 else 5
    case Waiting(_, stage) => if stage == First then 10 else 4
    case Holding(_, _, stage) => if stage == First then 9 else 3
    case Notifying(_, stage) => if stage == First then 8 else 2
    case Finished => 0
    case Threw(_, _) => 0
  }

  lemma StepUsesWork(s: State, step: Step)
    requires Enabled(s, step) && !step.Spurious?
    ensures Total(Apply(s, step).threads, Work) < Total(s.threads, Work)
  {
    var t, r := step.t, Apply(s, step);
    if step.Notify? && step.woken.Some? {
      var u := step.woken.value;
      TotalUpdate(s.threads, u, Wake(s.threads[u]), Work);
      TotalUpdate(s.threads[u := Wake(s.threads[u])], t, r.threads[t], Work);
    } else {
      TotalUpdate(s.threads, t, r.threads[t], Work);
    }
  }

  predicate Calm(steps: seq<Step>) {
    forall i :: 0 <= i < |steps| ==> !steps[i].Spurious?
  }

  lemma {:induction false} CalmRunsEnd(s: State, steps: seq<Step>)
    requires Legal(s, steps) && Calm(steps)
    ensures |steps| + Total(Exec(s, steps).threads, Work) <= Total(s.threads, Work)
    decreases |steps|
  {
    if steps != [] {
      StepUsesWork(s, steps[0]);
      CalmRunsEnd(Apply(s, steps[0]), steps[1..]);
    }
  }

  lemma {:induction false} TotalBound(threads: seq<Pc>, f: Pc -> nat, bound: nat)
    requires forall t :: 0 <= t < |threads| ==> f(threads[t]) <= bound
    ensures Total(threads, f) <= bound * |threads|
  {
    if threads != [] {
      forall t | 0 <= t < |threads| - 1 ensures f(threads[1..][t]) <= bound { assert threads[1..][t] == threads[t + 1]; }
      TotalBound(threads[1..], f, bound);
    }
  }

  lemma {:induction false} NoThrowNoLoss(s: State, steps: seq<Step>)
    requires Legal(s, steps) && forall i :: 0 <= i < |steps| ==> !steps[i].Throw?
    requires forall t :: 0 <= t < |s.threads| ==> !s.threads[t].Threw?
    ensures forall t :: 0 <= t < |Exec(s, steps).threads| ==> !Exec(s, steps).threads[t].Threw?
    decreases |steps|
  {
    if steps != [] { NoThrowNoLoss(Apply(s, steps[0]), steps[1..]); }
  }

  /** Commands that do not throw while redirected never deadlock: a run without spurious wake-ups has at
      most twelve steps a thread, and where it cannot go on every thread has finished and every pool is full. */
  lemma AllFinish(s: State, steps: seq<Step>)
    requires Init(s) && Legal(s, steps) && Calm(steps)
    requires forall i :: 0 <= i < |steps| ==> !steps[i].Throw?
    ensures |steps| <= 12 * |s.threads|
    ensures var r := Exec(s, steps);
            !CanMove(r) ==>
              && (forall t :: 0 <= t < |r.threads| ==> r.threads[t].Finished?)
              && (forall k :: k in r.pools ==> |r.pools[k]| == POOL_SIZE)
  {
    var r := Exec(s, steps);
    InvInit(s);
    InvExec(s, steps);
    CalmRunsEnd(s, steps);
    TotalBound(s.threads, Work, 12);
    NoThrowNoLoss(s, steps);
    StuckIffDrained(r);
    forall k ensures Total(r.threads, ThrewOf(k)) == 0 { TotalZero(r.threads, ThrewOf(k)); }
    if !CanMove(r) {
      forall k | k in r.pools ensures |r.pools[k]| == POOL_SIZE { TotalZero(r.threads, KeepsOf(k)); }
    }
  }

  // ----- the deadlock that throwing while redirected leads to

  lemma {:induction false} ExecAppend(s: State, a: seq<Step>, b: seq<Step>)
    requires Legal(s, a) && Legal(Exec(s, a), b)
    ensures Legal(s, a + b) && Exec(s, a + b) == Exec(Exec(s, a), b)
    decreases |a|
  {
    if a == [] {
      assert a + b == b;
    } else {
      assert (a + b)[0] == a[0] && (a + b)[1..] == a[1..] + b;
      ExecAppend(Apply(s, a[0]), a[1..], b);
    }
  }

  lemma ExecOne(s: State, step: Step)
    requires Enabled(s, step)
    ensures Legal(s, [step]) && Exec(s, [step]) == Apply(s, step)
  {
    assert [step][1..] == [];
  }

  lemma ExecPush(s: State, steps: seq<Step>, step: Step)
    requires Legal(s, steps) && Enabled(Exec(s, steps), step)
    ensures Legal(s, steps + [step]) && Exec(s, steps + [step]) == Apply(Exec(s, steps), step)
  {
    ExecOne(Exec(s, steps), step);
    ExecAppend(s, steps, [step]);
  }

  const SLOTS: PoolKey := SlotPool(0, 16383)
  const NODE: PoolKey := HostPool("node")

  /** Threads from n on are still to start, none sleeps, and the n before have emptied the node's pool by n. */
  ghost predicate Draining(s: State, n: nat) {
    && |s.threads| == POOL_SIZE + 1 && n <= POOL_SIZE
    && (forall t :: 0 <= t < |s.threads| ==> if t < n then s.threads[t].Threw? else s.threads[t] == Start(SLOTS, First))
    && SLOTS in s.pools && |s.pools[SLOTS]| == POOL_SIZE
    && (if n == 0 then NODE !in s.pools else NODE in s.pools && |s.pools[NODE]| == POOL_SIZE - n)
  }

  /** Thread n takes a slot connection, gives it back, and is redirected. */
  lemma Redirected(s: State, n: nat) returns (steps: seq<Step>, r: State)
    requires Draining(s, n)
    ensures Legal(s, steps) && Calm(steps) && r == Exec(s, steps) && r.threads == s.threads[n := Start(NODE, Second)]
    ensures SLOTS in r.pools && |r.pools[SLOTS]| == POOL_SIZE && (NODE in r.pools <==> NODE in s.pools)
    ensures NODE in s.pools ==> r.pools[NODE] == s.pools[NODE]
  {
    ExecOne(s, Acquire(n));
    var a := Apply(s, Acquire(n));
    ExecPush(s, [Acquire(n)], Release(n));
    var b := Apply(a, Release(n));
    assert forall t :: 0 <= t < |b.threads| ==> !b.threads[t].Waiting?;
    ExecPush(s, [Acquire(n)] + [Release(n)], Notify(n, None, Some("node")));
    r := Apply(b, Notify(n, None, Some("node")));
    steps := [Acquire(n)] + [Release(n)] + [Notify(n, None, Some("node"))];
  }

  /** One thread more takes a connection of the node's pool and throws with it. */
  lemma DrainOne(s: State, n: nat) returns (steps: seq<Step>, r: State)
    requires Draining(s, n) && n < POOL_SIZE
    ensures Legal(s, steps) && Calm(steps) && r == Exec(s, steps) && Draining(r, n + 1)
  {
    var moved, m := Redirected(s, n);
    ExecPush(s, moved, Acquire(n));
    ExecPush(s, moved + [Acquire(n)], Throw(n));
    hide Legal, Exec;
    steps := moved + [Acquire(n)] + [Throw(n)];
    r := Exec(s, steps);
  }

  lemma {:induction false} Drain(s: State, n: nat) returns (steps: seq<Step>, r: State)
    requires Draining(s, 0) && n <= POOL_SIZE
    ensures Legal(s, steps) && Calm(steps) && r == Exec(s, steps) && Draining(r, n)
    decreases n
  {
    if n == 0 {
      steps, r := [], s;
    } else {
      var before, mid := Drain(s, n - 1);
      var last;
      last, r := DrainOne(mid, n - 1);
      ExecAppend(s, before, last);
      hide Legal, Exec, Draining;
      steps := before + last;
    }
  }

  lemma LastWaits(s: State) returns (steps: seq<Step>, r: State)
    requires Draining(s, POOL_SIZE)
    ensures Legal(s, steps) && Calm(steps) && r == Exec(s, steps) && Deadlocked(r)
  {
    var moved, m := Redirected(s, POOL_SIZE);
    ExecPush(s, moved, Acquire(POOL_SIZE));
    steps := moved + [Acquire(POOL_SIZE)];
    r := Exec(s, steps);
    assert r.threads[POOL_SIZE].Waiting?;
    assert forall step :: Enabled(r, step) ==> step.Spurious?;
  }

  ghost predicate Deadlocked(s: State) {
    !CanMove(s) && exists t :: 0 <= t < |s.threads| && s.threads[t].Waiting?
  }

  lemma Eleven() returns (s: State)
    ensures Init(s) && Draining(s, 0)
  {
    s := State(map[SLOTS := Fill(SLOTS, POOL_SIZE)], seq(POOL_SIZE + 1, _ => Start(SLOTS, First)));
  }

  /** Eleven commands redirected to one node, ten of which throw there: the last one waits for ever. */
  lemma ThrowingDeadlocks()
    ensures exists s, steps :: Init(s) && Legal(s, steps) && Calm(steps) && Deadlocked(Exec(s, steps))
  {
    var s := Eleven();
    hide Draining, Legal, Exec, Init;
    var before, mid := Drain(s, POOL_SIZE);
    var last, r := LastWaits(mid);
    ExecAppend(s, before, last);
    assert Calm(before + last);
  }
}
