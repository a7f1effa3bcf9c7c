/** The scheduler of thread/thread.c and the semaphores and re-entrant locks of thread/sync.c,
    as a step relation over any number of threads and any number of locks.

    One step is one statement of the running thread, or one block that the source runs with
    interrupts off.  Between two steps at which interrupts are on, a timer or device interrupt
    may come.  An ASSERT that fails, or a list_pop on an empty list, sets `panic`. */
module Threads {
  import opened Options

  type Tid = nat       // address of a PCB
  type LockId = nat    // address of a struct lock

  datatype Status = Running | Ready | Blocked | Waiting | Hanging

  /** Where a thread will continue when it next runs. */
  datatype Pc =
    | Client                      // outside the two files, or about to return to it
    | Parked                      // inside a thread_block that no semaphore asked for
    | AcquireTest(lock: LockId)   // lock_acquire, the test of the holder
    | AcquireAgain(lock: LockId)  // holder_repeat_nr++
    | Down(lock: LockId)          // sema_down, before intr_disable
    | Retest(lock: LockId)        // inside the loop of sema_down, after thread_block
    | SetHolder(lock: LockId)     // semaphore taken, holder not yet written, interrupts on
    | CheckCount(lock: LockId)    // ASSERT(holder_repeat_nr == 0)
    | SetCount(lock: LockId)      // holder_repeat_nr = 1
    | ReleaseTest(lock: LockId)   // lock_release, ASSERT on the holder and test of the count
    | ReleaseAgain(lock: LockId)  // holder_repeat_nr--
    | CheckOnce(lock: LockId)     // ASSERT(holder_repeat_nr == 1)
    | ClearHolder(lock: LockId)   // holder = NULL
    | ClearCount(lock: LockId)    // holder_repeat_nr = 0
    | Up(lock: LockId)            // sema_up

  /** `depth` is a history variable: lock_acquire calls completed less lock_release calls completed. */
  datatype Thread = Thread(status: Status, pc: Pc, depth: map<LockId, nat>) {
    function Depth(l: LockId): nat {
      if l in depth then depth[l] else 0
    }

    function Deeper(l: LockId): Thread {
      this.(depth := depth[l := Depth(l) + 1])
    }

    function Shallower(l: LockId): Thread {
      this.(depth := depth[l := if Depth(l) > 0 then Depth(l) - 1 else 0])
    }
  }

  datatype Lock = Lock(holder: Option<Tid>, repeat: nat, value: nat, waiters: seq<Tid>)

  datatype State = State(
    threads: map<Tid, Thread>,
    running: Tid,
    ready: seq<Tid>,
    locks: map<LockId, Lock>,
    idle: Tid,
    panic: bool)
  {
    predicate WellFormed() {
      running in threads && idle in threads &&
      AllKnown(ready) &&
      (forall l <- locks :: AllKnown(locks[l].waiters)) &&
      (forall t <- threads :: KnownLock(threads[t].pc))
    }

    predicate AllKnown(q: seq<Tid>) {
      forall i :: 0 <= i < |q| ==> q[i] in threads
    }

    predicate KnownLock(pc: Pc) {
      pc.Client? || pc.Parked? || pc.lock in locks
    }

    function Me(): Thread
      requires running in threads
    {
      threads[running]
    }

    function WithThread(th: Thread): State {
      this.(threads := threads[running := th])
    }

    function WithPc(pc: Pc): State
      requires running in threads
    {
      WithThread(Me().(pc := pc))
    }

    function WithStatus(t: Tid, status: Status): State
      requires t in threads
    {
      this.(threads := threads[t := threads[t].(status := status)])
    }

    function WithLock(l: LockId, lock: Lock): State {
      this.(locks := locks[l := lock])
    }

    function Check(ok: bool): State {
      this.(panic := panic || !ok)
    }
  }

  predicate IsBlocked(status: Status) {
    status == Blocked || status == Waiting || status == Hanging
  }

  // ---------------------------------------------------------------- thread/thread.c

  function ThreadUnblock(s: State, t: Tid): State
    requires t in s.threads
  {
    if !IsBlocked(s.threads[t].status) then s.Check(false)
    else s.Check(t !in s.ready).WithStatus(t, Ready).(ready := [t] + s.ready)
  }

  /** The running thread goes to the end of the ready list. */
  function Requeue(s: State): State
    requires s.running in s.threads
  {
    s.Check(s.running !in s.ready).WithStatus(s.running, Ready).(ready := s.ready + [s.running])
  }

  /** list_pop on the ready list, and switch_to. */
  function Dispatch(s: State): State
    requires s.WellFormed()
  {
    if s.ready == [] then s.Check(false)
    else s.(ready := s.ready[1..], running := s.ready[0]).WithStatus(s.ready[0], Running)
  }

  function Schedule(s: State): State
    requires s.WellFormed()
  {
    var s1 := if s.Me().status == Running then Requeue(s) else s;
    Dispatch(if s1.ready == [] then ThreadUnblock(s1, s1.idle) else s1)
  }

  function ThreadBlock(s: State, status: Status, pc: Pc): State
    requires s.WellFormed() && s.KnownLock(pc)
  {
    Schedule(s.Check(IsBlocked(status)).WithPc(pc).WithStatus(s.running, status))
  }

  function ThreadYield(s: State): State
    requires s.WellFormed()
  {
    Schedule(Requeue(s))
  }

  function ThreadStart(s: State, t: Tid): State {
    s.Check(t !in s.ready).(threads := s.threads[t := Thread(Ready, Client, map[])], ready := s.ready + [t])
  }

  // ---------------------------------------------------------------- thread/sync.c

  /** One turn of the loop of sema_down, from the test of `value` to thread_block or to the end. */
  function SemaDown(s: State, l: LockId): State
    requires s.WellFormed() && l in s.locks
  {
    var lock := s.locks[l];
    if lock.value == 0 then
      ThreadBlock(s.Check(s.running !in lock.waiters)
                   .WithLock(l, lock.(waiters := lock.waiters + [s.running])), Blocked, Retest(l))
    else
      s.WithLock(l, lock.(value := lock.value - 1)).Check(lock.value - 1 == 0).WithPc(SetHolder(l))
  }

  function SemaUp(s: State, l: LockId): State
    requires s.WellFormed() && l in s.locks
  {
    var lock := s.locks[l];
    var s1 := s.Check(lock.value == 0);
    var s2 :=
      if lock.waiters == [] then s1
      else ThreadUnblock(s1.WithLock(l, lock.(waiters := lock.waiters[1..])), lock.waiters[0]);
    s2.WithLock(l, s2.locks[l].(value := lock.value + 1)).Check(lock.value + 1 == 1)
  }

  /** A statement of lock_acquire or lock_release outside the semaphore: the thread, the lock, and
      whether the assertions on the way hold. */
  datatype Effect = Effect(thread: Thread, lock: Lock, ok: bool)

  function LockStatement(me: Tid, th: Thread, lock: Lock): Effect
    requires PlainStep(th.pc)
  {
    var l := th.pc.lock;
    match th.pc
    case AcquireTest(_) => Effect(th.(pc := if lock.holder != Some(me) then Down(l) else AcquireAgain(l)), lock, true)
    case AcquireAgain(_) => Effect(th.Deeper(l).(pc := Client), lock.(repeat := lock.repeat + 1), true)
    case SetHolder(_) => Effect(th.(pc := CheckCount(l)), lock.(holder := Some(me)), true)
    case CheckCount(_) => Effect(th.(pc := SetCount(l)), lock, lock.repeat == 0)
    case SetCount(_) => Effect(th.Deeper(l).(pc := Client), lock.(repeat := 1), true)
    case ReleaseTest(_) =>
      Effect(th.(pc := if lock.repeat > 1 then ReleaseAgain(l) else CheckOnce(l)), lock, lock.holder == Some(me))
    case ReleaseAgain(_) =>
      Effect(th.Shallower(l).(pc := Client),
             lock.(repeat := if lock.repeat > 0 then lock.repeat - 1 else 0xffff_ffff), true)
    case CheckOnce(_) => Effect(th.(pc := ClearHolder(l)), lock, lock.repeat == 1)
    case ClearHolder(_) => Effect(th.(pc := ClearCount(l)), lock.(holder := None), true)
    case ClearCount(_) => Effect(th.(pc := Up(l)), lock.(repeat := 0), true)
  }

  predicate PlainStep(pc: Pc) {
    !pc.Client? && !pc.Parked? && !pc.Down? && !pc.Retest? && !pc.Up?
  }

  /** The running thread's next statement. */
  function Advance(s: State): State
    requires s.WellFormed()
  {
    match s.Me().pc
    case Client => s
    case Parked => s.WithPc(Client)
    case Down(l) => SemaDown(s, l)
    case Retest(l) => SemaDown(s, l)
    case Up(l) => SemaUp(s.WithThread(s.Me().Shallower(l).(pc := Client)), l)
    case pc =>
      var e := LockStatement(s.running, s.Me(), s.locks[pc.lock]);
      s.Check(e.ok).WithThread(e.thread).WithLock(pc.lock, e.lock)
  }

  // ---------------------------------------------------------------- the step relation

  datatype Action =
    | Go                      // the running thread's next statement
    | Acquire(lock: LockId)   // the client calls lock_acquire
    | Release(lock: LockId)   // the client calls lock_release, whether it holds the lock or not
    | Tick                    // the timer interrupt ends the time slice
    | Yield
    | Park(status: Status)    // thread_block on something that is not a semaphore
    | Unpark(tid: Tid)        // thread_unblock by a device interrupt or by the running thread
    | Start(tid: Tid)         // thread_start

  predicate InterruptsOn(pc: Pc) {
    !pc.Retest? && !pc.Parked?
  }

  /** The idle thread only blocks itself and halts.  Nobody but schedule unblocks it. */
  predicate Enabled(s: State, a: Action) {
    s.WellFormed() && !s.panic &&
    var pc := s.Me().pc;
    match a
    case Go => !pc.Client?
    case Acquire(l) => pc.Client? && l in s.locks && s.running != s.idle
    case Release(l) => pc.Client? && l in s.locks && s.running != s.idle
    case Tick => InterruptsOn(pc)
    case Yield => pc.Client? && s.running != s.idle
    case Park(status) => pc.Client? && IsBlocked(status) && (s.running == s.idle ==> status == Blocked)
    case Unpark(t) =>
      InterruptsOn(pc) && t in s.threads && t != s.idle && s.threads[t].pc.Parked? && IsBlocked(s.threads[t].status)
    case Start(t) => pc.Client? && s.running != s.idle && t !in s.threads
  }

  function Next(s: State, a: Action): State
    requires Enabled(s, a)
  {
    match a
    case Go => Advance(s)
    case Acquire(l) => s.WithPc(AcquireTest(l))
    case Release(l) => s.WithPc(ReleaseTest(l))
    case Tick => Schedule(s)
    case Yield => ThreadYield(s)
    case Park(status) => ThreadBlock(s, status, Parked)
    case Unpark(t) => ThreadUnblock(s, t)
    case Start(t) => ThreadStart(s, t)
  }

  /** The state thread_init leaves: main runs, idle is ready, every lock is as lock_init made it. */
  predicate Init(s: State) {
    s.running != s.idle && s.ready == [s.idle] && !s.panic &&
    s.threads == map[s.running := Thread(Running, Client, map[]), s.idle := Thread(Ready, Client, map[])] &&
    forall l <- s.locks :: s.locks[l] == Lock(None, 0, 1, [])
  }

  /** Step i leads from one state to the next. */
  ghost predicate StepAt(run: seq<State>, acts: seq<Action>, i: nat)
    requires |run| == |acts| + 1 && i < |acts|
  {
    Enabled(run[i], acts[i]) && run[i + 1] == Next(run[i], acts[i])
  }

  /** A run: the states it goes through and the actions between them. */
  ghost predicate IsRun(run: seq<State>, acts: seq<Action>) {
    && |run| == |acts| + 1 && Init(run[0])
    && forall i: nat {:trigger StepAt(run, acts, i)} :: i < |acts| ==> StepAt(run, acts, i)
  }
}
