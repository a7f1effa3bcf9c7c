/** What every run of the scheduler and of the locks keeps. */
module ThreadSafety {
  import opened Options
  import opened Threads

  ghost predicate Distinct(q: seq<Tid>) {
    forall i, j :: 0 <= i < j < |q| ==> q[i] != q[j]
  }

  ghost predicate Entering(pc: Pc, l: LockId) {
    pc == SetHolder(l) || pc == CheckCount(l) || pc == SetCount(l)
  }

  ghost predicate Inside(th: Thread, l: LockId) {
    th.Depth(l) > 0 || Entering(th.pc, l)
  }

  /** t is between taking the semaphore of l and giving it back. */
  ghost predicate Owns(s: State, t: Tid, l: LockId) {
    t in s.threads && Inside(s.threads[t], l)
  }

  /** t was popped from the waiters of l, and will test its value again when it runs. */
  ghost predicate WillRetest(s: State, t: Tid, l: LockId) {
    t in s.threads && s.threads[t].pc == Retest(l) && !IsBlocked(s.threads[t].status)
  }

  // ---------------------------------------------------------------- the inductive invariant

  /** Status and position of t say which queue it is in. */
  ghost predicate Placed(s: State, t: Tid)
    requires t in s.threads
  {
    var th := s.threads[t];
    && (th.status == Running ==> t == s.running)
    && (th.status == Ready <==> t in s.ready)
    && (IsBlocked(th.status) ==> !InterruptsOn(th.pc))
  }

  ghost predicate Waits(s: State, t: Tid, l: LockId)
    requires t in s.threads && l in s.locks
  {
    t in s.locks[l].waiters <==> s.threads[t].pc == Retest(l) && IsBlocked(s.threads[t].status)
  }

  ghost predicate Queued(s: State) {
    && s.WellFormed()
    && Distinct(s.ready)
    && (forall l <- s.locks :: Distinct(s.locks[l].waiters))
    && (forall t {:trigger Placed(s, t)} :: t in s.threads ==> Placed(s, t))
    && (forall t, l {:trigger Waits(s, t, l)} :: t in s.threads && l in s.locks ==> Waits(s, t, l))
    && (s.threads[s.idle].pc.Client? || s.threads[s.idle].pc.Parked?)
  }

  ghost predicate Scheduled(s: State) {
    Queued(s) && s.Me().status == Running
  }

  /** What a thread's position says about its own nesting depth. */
  ghost predicate PcOk(th: Thread) {
    match th.pc
    case Down(l) => th.Depth(l) == 0
    case Retest(l) => th.Depth(l) == 0
    case SetHolder(l) => th.Depth(l) == 0
    case CheckCount(l) => th.Depth(l) == 0
    case SetCount(l) => th.Depth(l) == 0
    case AcquireAgain(l) => th.Depth(l) >= 1
    case ReleaseAgain(l) => th.Depth(l) >= 2
    case CheckOnce(l) => th.Depth(l) == 1
    case ClearHolder(l) => th.Depth(l) == 1
    case ClearCount(l) => th.Depth(l) == 1
    case Up(l) => th.Depth(l) == 1
    case _ => true
  }

  /** The holder field lags behind ownership at both ends. */
  ghost predicate HolderShows(pc: Pc, l: LockId) {
    pc != SetHolder(l) && pc != ClearCount(l) && pc != Up(l)
  }

  ghost function CountAt(th: Thread, l: LockId): nat {
    if Entering(th.pc, l) || th.pc == Up(l) then 0 else th.Depth(l)
  }

  ghost predicate LockOk(s: State, l: LockId)
    requires l in s.locks
  {
    var lock := s.locks[l];
    && lock.value <= 1
    && (lock.value == 1 ==> lock.repeat == 0)
    && (forall t :: lock.holder == Some(t) <==> Owns(s, t, l) && HolderShows(s.threads[t].pc, l))
    && (forall t :: Owns(s, t, l) ==> lock.value == 0 && lock.repeat == CountAt(s.threads[t], l))
    && (forall t, u :: Owns(s, t, l) && Owns(s, u, l) ==> t == u)
  }

  /** No lock and no wake-up is lost. */
  ghost predicate LockLive(s: State, l: LockId)
    requires l in s.locks
  {
    && (s.locks[l].value == 0 ==> exists t :: Owns(s, t, l))
    && (s.locks[l].value == 1 && s.locks[l].waiters != [] ==> exists t :: WillRetest(s, t, l))
  }

  ghost predicate Locked(s: State) {
    && (forall t <- s.threads :: PcOk(s.threads[t]))
    && (forall l {:trigger LockOk(s, l)} {:trigger LockLive(s, l)} :: l in s.locks ==> LockOk(s, l) && LockLive(s, l))
  }

  ghost predicate Inv(s: State) {
    Scheduled(s) && Locked(s)
  }

  /** The only way to fail an assertion: lock_release by a thread that does not hold the lock. */
  ghost predicate Misuse(s: State, a: Action)
    requires s.WellFormed()
  {
    a.Go? && s.Me().pc.ReleaseTest? && s.Me().Depth(s.Me().pc.lock) == 0
  }

  // ---------------------------------------------------------------- scheduling keeps it

  /** s2 differs from s1 in queues and status words only, and blocks nobody. */
  ghost predicate OnlyMoves(s1: State, s2: State) {
    && s2.threads.Keys == s1.threads.Keys && s2.locks == s1.locks && s2.idle == s1.idle
    && (forall t <- s1.threads ::
          && s2.threads[t].pc == s1.threads[t].pc && s2.threads[t].depth == s1.threads[t].depth
          && (IsBlocked(s2.threads[t].status) ==> IsBlocked(s1.threads[t].status)))
  }

  lemma Appended(q: seq<Tid>, t: Tid)
    requires Distinct(q) && t !in q
    ensures Distinct(q + [t]) && forall u :: u in q + [t] <==> u in q || u == t
  {
  }

  lemma Pushed(q: seq<Tid>, t: Tid)
    requires Distinct(q) && t !in q
    ensures Distinct([t] + q) && forall u :: u in [t] + q <==> u in q || u == t
  {
  }

  lemma Popped(q: seq<Tid>)
    requires Distinct(q) && q != []
    ensures Distinct(q[1..]) && forall u :: u in q[1..] <==> u in q && u != q[0]
  {
  }

  /** Only t changes status, only t enters or leaves the ready list, the semaphores' queues stay. */
  ghost predicate Moves(s: State, s': State, t: Tid) {
    && OnlyMoves(s, s') && t in s.threads && s'.running in s.threads
    && (forall u <- s.threads :: u != t ==> s'.threads[u] == s.threads[u])
    && (forall u :: u != t ==> (u in s'.ready <==> u in s.ready))
  }

  lemma MoveKeepsQueues(s: State, s': State, t: Tid)
    requires Queued(s) && Moves(s, s', t) && Distinct(s'.ready) && Placed(s', t)
    requires s'.running == s.running || s.Me().status != Running
    requires IsBlocked(s'.threads[t].status) || s.threads[t].pc.Parked? || !IsBlocked(s.threads[t].status)
    ensures Queued(s')
  {
    forall u <- s'.threads ensures Placed(s', u) {
      assert Placed(s, u);
    }
    forall i | 0 <= i < |s'.ready| ensures s'.ready[i] in s'.threads {
      assert s'.ready[i] == t || s'.ready[i] in s.ready;
    }
    forall u <- s'.threads, l <- s'.locks ensures Waits(s', u, l) {
      assert Waits(s, u, l);
    }
  }

  lemma UnblockMoves(s: State, t: Tid)
    requires Queued(s) && !s.panic && t in s.threads && s.threads[t].pc.Parked? && IsBlocked(s.threads[t].status)
    ensures var s' := ThreadUnblock(s, t); !s'.panic && Queued(s') && OnlyMoves(s, s') && s'.ready != []
  {
    assert Placed(s, t);
    Pushed(s.ready, t);
    MoveKeepsQueues(s, ThreadUnblock(s, t), t);
  }

  lemma RequeueMoves(s: State)
    requires Scheduled(s) && !s.panic
    ensures var s' := Requeue(s); !s'.panic && Queued(s') && OnlyMoves(s, s')
  {
    assert Placed(s, s.running);
    Appended(s.ready, s.running);
    MoveKeepsQueues(s, Requeue(s), s.running);
  }

  lemma DispatchMoves(s: State)
    requires Queued(s) && s.ready != [] && s.Me().status != Running
    ensures var s' := Dispatch(s); s'.panic == s.panic && Scheduled(s') && OnlyMoves(s, s')
  {
    var t := s.ready[0];
    var s' := Dispatch(s);
    assert s'.threads == s.threads[t := s.threads[t].(status := Running)] && s'.running == t;
    assert Placed(s, t);
    assert Moves(s, s', t) && Distinct(s'.ready) && Placed(s', t) by {
      Popped(s.ready);
    }
    MoveKeepsQueues(s, s', t);
  }

  /** Lock k looks the same to both states, and nobody stopped being about to test it. */
  ghost predicate SameLock(s: State, s': State, k: LockId) {
    && k in s.locks && k in s'.locks && s'.locks[k] == s.locks[k]
    && (forall t :: Owns(s', t, k) <==> Owns(s, t, k))
    && (forall t :: Owns(s, t, k) ==> SameView(s.threads[t], s'.threads[t], k))
    && (forall t :: WillRetest(s, t, k) ==> WillRetest(s', t, k))
  }

  ghost predicate SameView(th: Thread, th': Thread, k: LockId) {
    CountAt(th', k) == CountAt(th, k) && HolderShows(th'.pc, k) == HolderShows(th.pc, k)
  }

  lemma LockKept(s: State, s': State, k: LockId)
    requires SameLock(s, s', k) && LockOk(s, k) && LockLive(s, k)
    ensures LockOk(s', k) && LockLive(s', k)
  {
  }

  lemma MoveSameLock(s: State, s': State, k: LockId)
    requires OnlyMoves(s, s') && k in s.locks
    ensures SameLock(s, s', k)
  {
  }

  lemma MovesKeepLocks(s: State, s': State)
    requires Locked(s) && OnlyMoves(s, s')
    ensures Locked(s')
  {
    forall l <- s'.locks ensures LockOk(s', l) && LockLive(s', l) {
      MoveSameLock(s, s', l);
      LockKept(s, s', l);
    }
  }

  /** schedule finds a thread to run: when the ready list is empty the idle thread is blocked. */
  lemma ScheduleMoves(s: State)
    requires Queued(s) && !s.panic
    ensures var s' := Schedule(s); !s'.panic && Scheduled(s') && OnlyMoves(s, s')
  {
    assert Placed(s, s.running);
    var s1 := s;
    if s.Me().status == Running {
      RequeueMoves(s);
      s1 := Requeue(s);
    }
    var s2 := s1;
    if s1.ready == [] {
      assert Placed(s1, s1.idle);
      UnblockMoves(s1, s1.idle);
      s2 := ThreadUnblock(s1, s1.idle);
    }
    DispatchMoves(s2);
  }

  // ---------------------------------------------------------------- lock steps keep it

  ghost predicate At(pc: Pc, l: LockId) {
    pc.Client? || (!pc.Parked? && pc.lock == l)
  }

  /** The running thread takes a step on lock l that leaves every queue alone. */
  ghost predicate LockStep(s: State, s': State, l: LockId)
    requires s.running in s.threads
  {
    && s'.running == s.running && s'.ready == s.ready && s'.idle == s.idle
    && s'.threads.Keys == s.threads.Keys && s'.locks.Keys == s.locks.Keys && l in s.locks
    && (forall t <- s.threads :: t != s.running ==> s'.threads[t] == s.threads[t])
    && (forall k <- s.locks :: k != l ==> s'.locks[k] == s.locks[k])
    && s'.locks[l].waiters == s.locks[l].waiters
    && s'.Me().status == s.Me().status && At(s.Me().pc, l) && At(s'.Me().pc, l)
    && (forall k :: k != l ==> s'.Me().Depth(k) == s.Me().Depth(k))
  }

  lemma LockStepQueues(s: State, s': State, l: LockId)
    requires Scheduled(s) && LockStep(s, s', l) && s.running != s.idle
    ensures Scheduled(s')
  {
    forall u <- s'.threads ensures Placed(s', u) {
      assert Placed(s, u);
    }
    forall u <- s'.threads, k <- s'.locks ensures Waits(s', u, k) {
      assert Waits(s, u, k);
    }
  }

  lemma LockStepOthers(s: State, s': State, l: LockId)
    requires s.running in s.threads && LockStep(s, s', l)
    ensures forall k <- s.locks :: k != l ==> SameLock(s, s', k)
  {
  }

  /** l alone may look different. */
  lemma LocksKept(s: State, s': State, l: LockId)
    requires Locked(s) && s'.locks.Keys == s.locks.Keys && l in s.locks
    requires forall k <- s.locks :: k != l ==> SameLock(s, s', k)
    requires forall t <- s'.threads :: PcOk(s'.threads[t])
    requires LockOk(s', l) && LockLive(s', l)
    ensures Locked(s')
  {
    forall k <- s'.locks ensures LockOk(s', k) && LockLive(s', k) {
      if k != l {
        LockKept(s, s', k);
      }
    }
  }

  lemma AllLocksKept(s: State, s': State)
    requires Locked(s) && s'.locks.Keys == s.locks.Keys
    requires forall k <- s.locks :: SameLock(s, s', k)
    requires forall t <- s'.threads :: PcOk(s'.threads[t])
    ensures Locked(s')
  {
    forall k <- s'.locks ensures LockOk(s', k) && LockLive(s', k) {
      LockKept(s, s', k);
    }
  }

  /** Lock l as thread me, at th, must find it. */
  ghost predicate LocalView(me: Tid, th: Thread, lock: Lock, l: LockId) {
    && PcOk(th)
    && (Inside(th, l) ==>
          lock.repeat == CountAt(th, l) && lock.holder == if HolderShows(th.pc, l) then Some(me) else None)
    && (!Inside(th, l) ==> lock.holder != Some(me))
  }

  lemma StatementKeepsView(me: Tid, th: Thread, lock: Lock)
    requires PlainStep(th.pc) && LocalView(me, th, lock, th.pc.lock)
    ensures var l, e := th.pc.lock, LockStatement(me, th, lock);
            && (e.ok <==> !(th.pc.ReleaseTest? && th.Depth(l) == 0))
            && (e.ok ==> LocalView(me, e.thread, e.lock, l))
            && (e.ok ==> (Inside(e.thread, l) <==> Inside(th, l)))
            && (!Inside(th, l) ==> e.lock == lock)
            && e.lock.value == lock.value && e.lock.waiters == lock.waiters
            && e.thread.status == th.status && At(e.thread.pc, l)
            && forall k :: k != l ==> e.thread.Depth(k) == th.Depth(k)
  {
  }

  lemma LockGivesView(s: State, l: LockId)
    requires s.running in s.threads && l in s.locks && LockOk(s, l) && PcOk(s.Me())
    ensures LocalView(s.running, s.Me(), s.locks[l], l)
  {
    assert Owns(s, s.running, l) <==> Inside(s.Me(), l);
    if s.locks[l].holder.Some? {
      assert Owns(s, s.locks[l].holder.value, l);
    }
  }

  lemma ViewGivesLock(s: State, s': State, l: LockId)
    requires s.running in s.threads && LockStep(s, s', l) && LockOk(s, l) && LockLive(s, l)
    requires LocalView(s.running, s'.Me(), s'.locks[l], l) && !s.Me().pc.Retest?
    requires s'.locks[l].value == s.locks[l].value
    requires Inside(s'.Me(), l) <==> Inside(s.Me(), l)
    requires !Inside(s.Me(), l) ==> s'.locks[l] == s.locks[l]
    ensures LockOk(s', l) && LockLive(s', l)
  {
    assert forall t :: Owns(s', t, l) <==> Owns(s, t, l);
    assert forall t :: WillRetest(s, t, l) ==> WillRetest(s', t, l);
    if Inside(s.Me(), l) {
      assert Owns(s, s.running, l);
    }
  }

  lemma LockStepKeeps(s: State, s': State, l: LockId)
    requires Inv(s) && LockStep(s, s', l) && s.running != s.idle
    requires PcOk(s'.Me()) && LockOk(s', l) && LockLive(s', l)
    ensures Inv(s')
  {
    LockStepQueues(s, s', l);
    LockStepOthers(s, s', l);
    LocksKept(s, s', l);
  }

  lemma EffectIsLockStep(s: State, l: LockId, e: Effect)
    requires s.WellFormed() && l in s.locks && At(s.Me().pc, l) && At(e.thread.pc, l)
    requires e.thread.status == s.Me().status && e.lock.waiters == s.locks[l].waiters
    requires forall k :: k != l ==> e.thread.Depth(k) == s.Me().Depth(k)
    ensures LockStep(s, s.Check(e.ok).WithThread(e.thread).WithLock(l, e.lock), l)
  {
  }

  lemma PlainStepKeeps(s: State)
    requires Inv(s) && !s.panic && PlainStep(s.Me().pc)
    ensures var s' := Advance(s); s'.panic == Misuse(s, Go) && (!s'.panic ==> Inv(s'))
  {
    var l, s' := s.Me().pc.lock, Advance(s);
    var e := LockStatement(s.running, s.Me(), s.locks[l]);
    LockGivesView(s, l);
    StatementKeepsView(s.running, s.Me(), s.locks[l]);
    EffectIsLockStep(s, l, e);
    if e.ok {
      ViewGivesLock(s, s', l);
      LockStepKeeps(s, s', l);
    }
  }

  // ---------------------------------------------------------------- the semaphore keeps it

  lemma TakeLock(s: State, s': State, l: LockId)
    requires s.running in s.threads && LockStep(s, s', l) && LockOk(s, l)
    requires s.locks[l].value != 0 && s'.locks[l] == s.locks[l].(value := s.locks[l].value - 1)
    requires s'.Me() == s.Me().(pc := SetHolder(l))
    ensures s'.locks[l].value == 0 && LockOk(s', l) && LockLive(s', l)
  {
    assert forall t :: !Owns(s, t, l);
    assert forall t :: Owns(s', t, l) <==> t == s.running;
  }

  lemma TakeKeeps(s: State, l: LockId)
    requires Inv(s) && !s.panic && l in s.locks && s.locks[l].value != 0
    requires s.Me().pc == Down(l) || s.Me().pc == Retest(l)
    ensures var s' := SemaDown(s, l); !s'.panic && Inv(s')
  {
    var s' := SemaDown(s, l);
    var lock := s.locks[l];
    var e := Effect(s.Me().(pc := SetHolder(l)), lock.(value := lock.value - 1), lock.value - 1 == 0);
    EffectIsLockStep(s, l, e);
    assert s' == s.Check(e.ok).WithThread(e.thread).WithLock(l, e.lock);
    TakeLock(s, s', l);
    LockStepKeeps(s, s', l);
  }

  /** A thread that finds the value zero, before schedule switches away from it. */
  ghost function Enqueued(s: State, l: LockId): State
    requires s.running in s.threads && l in s.locks
  {
    s.WithLock(l, s.locks[l].(waiters := s.locks[l].waiters + [s.running]))
     .WithThread(s.Me().(pc := Retest(l), status := Blocked))
  }

  lemma EnqueueQueues(s: State, l: LockId)
    requires Scheduled(s) && l in s.locks && s.running != s.idle
    ensures s.running !in s.locks[l].waiters && Queued(Enqueued(s, l))
  {
    var me, s' := s.running, Enqueued(s, l);
    assert Waits(s, me, l) && Placed(s, me);
    Appended(s.locks[l].waiters, me);
    forall u <- s'.threads ensures Placed(s', u) {
      assert Placed(s, u);
    }
    forall u <- s'.threads, k <- s'.locks ensures Waits(s', u, k) {
      assert Waits(s, u, k);
    }
  }

  lemma EnqueueLock(s: State, l: LockId)
    requires s.running in s.threads && l in s.locks && s.locks[l].value == 0
    requires s.Me().pc == Down(l) || s.Me().pc == Retest(l)
    requires LockOk(s, l) && LockLive(s, l)
    ensures LockOk(Enqueued(s, l), l) && LockLive(Enqueued(s, l), l)
  {
    assert forall t :: Owns(Enqueued(s, l), t, l) <==> Owns(s, t, l);
  }

  lemma EnqueueOthers(s: State, l: LockId, k: LockId)
    requires s.running in s.threads && l in s.locks && k in s.locks && k != l
    requires s.Me().pc == Down(l) || s.Me().pc == Retest(l)
    ensures SameLock(s, Enqueued(s, l), k)
  {
  }

  lemma EnqueueLocks(s: State, l: LockId)
    requires s.running in s.threads && Locked(s) && l in s.locks && s.locks[l].value == 0
    requires s.Me().pc == Down(l) || s.Me().pc == Retest(l)
    ensures Locked(Enqueued(s, l))
  {
    EnqueueLock(s, l);
    forall k <- s.locks | k != l ensures SameLock(s, Enqueued(s, l), k) {
      EnqueueOthers(s, l, k);
    }
    assert PcOk(s.Me());
    LocksKept(s, Enqueued(s, l), l);
  }

  lemma SemaDownBlocks(s: State, l: LockId)
    requires s.WellFormed() && l in s.locks && s.locks[l].value == 0
    requires s.running !in s.locks[l].waiters && Enqueued(s, l).WellFormed()
    ensures SemaDown(s, l) == Schedule(Enqueued(s, l))
  {
    var lock := s.locks[l];
    var s1 := s.Check(s.running !in lock.waiters).WithLock(l, lock.(waiters := lock.waiters + [s.running]));
    assert s1.Check(true).WithPc(Retest(l)).WithStatus(s.running, Blocked) == Enqueued(s, l);
  }

  lemma BlockKeeps(s: State, l: LockId)
    requires Inv(s) && !s.panic && l in s.locks && s.locks[l].value == 0
    requires s.Me().pc == Down(l) || s.Me().pc == Retest(l)
    ensures var s' := SemaDown(s, l); !s'.panic && Inv(s')
  {
    EnqueueQueues(s, l);
    EnqueueLocks(s, l);
    SemaDownBlocks(s, l);
    ScheduleMoves(Enqueued(s, l));
    MovesKeepLocks(Enqueued(s, l), Schedule(Enqueued(s, l)));
  }

  /** sema_up after it has popped and unblocked the first waiter. */
  ghost function Woken(s: State, l: LockId): State
    requires s.WellFormed() && l in s.locks && s.locks[l].waiters != []
  {
    var w := s.locks[l].waiters[0];
    s.WithLock(l, s.locks[l].(waiters := s.locks[l].waiters[1..]))
     .(threads := s.threads[w := s.threads[w].(status := Ready)], ready := [w] + s.ready)
  }

  lemma WakeQueues(s: State, l: LockId)
    requires Scheduled(s) && l in s.locks && s.locks[l].waiters != []
    ensures var w := s.locks[l].waiters[0];
            && w !in s.ready && IsBlocked(s.threads[w].status) && s.threads[w].pc == Retest(l)
            && Scheduled(Woken(s, l))
  {
    var w, s' := s.locks[l].waiters[0], Woken(s, l);
    assert w in s.locks[l].waiters;
    assert Waits(s, w, l) && Placed(s, w) && Placed(s, s.running);
    Popped(s.locks[l].waiters);
    Pushed(s.ready, w);
    forall u <- s'.threads ensures Placed(s', u) {
      assert Placed(s, u);
    }
    forall u <- s'.threads, k <- s'.locks ensures Waits(s', u, k) {
      assert Waits(s, u, k);
    }
  }

  lemma WakeLock(s: State, l: LockId, k: LockId)
    requires s.WellFormed() && l in s.locks && k in s.locks && s.locks[l].waiters != [] && s.locks[l].value == 0
    requires LockOk(s, k) && LockLive(s, k)
    ensures LockOk(Woken(s, l), k) && LockLive(Woken(s, l), k)
  {
    var s' := Woken(s, l);
    forall t ensures (Owns(s', t, k) <==> Owns(s, t, k)) && (WillRetest(s, t, k) ==> WillRetest(s', t, k)) {
      WakeThread(s, l, t);
    }
    forall t | t in s.threads
      ensures t in s'.threads && s'.threads[t].pc == s.threads[t].pc
              && CountAt(s'.threads[t], k) == CountAt(s.threads[t], k) {
      WakeThread(s, l, t);
    }
  }

  /** To wake a thread is to change its status. */
  lemma WakeThread(s: State, l: LockId, t: Tid)
    requires s.WellFormed() && l in s.locks && s.locks[l].waiters != []
    ensures t in s.threads <==> t in Woken(s, l).threads
    ensures t in s.threads ==>
              var th, th' := s.threads[t], Woken(s, l).threads[t]; th' == th || th' == th.(status := Ready)
  {
  }

  lemma WakeLocks(s: State, l: LockId)
    requires s.WellFormed() && Locked(s) && l in s.locks && s.locks[l].waiters != [] && s.locks[l].value == 0
    ensures Locked(Woken(s, l))
  {
    forall t <- Woken(s, l).threads ensures PcOk(Woken(s, l).threads[t]) {
      WakeThread(s, l, t);
      assert PcOk(s.threads[t]);
    }
    forall k <- s.locks ensures LockOk(Woken(s, l), k) && LockLive(Woken(s, l), k) {
      assert LockOk(s, k);
      WakeLock(s, l, k);
    }
  }

  lemma WakeKeeps(s: State, l: LockId)
    requires Inv(s) && l in s.locks && s.locks[l].waiters != [] && s.locks[l].value == 0
    ensures Inv(Woken(s, l)) && WillRetest(Woken(s, l), s.locks[l].waiters[0], l)
  {
    WakeQueues(s, l);
    WakeLocks(s, l);
  }

  lemma GiveLock(s: State, s': State, l: LockId)
    requires s.running in s.threads && LockStep(s, s', l) && LockOk(s, l)
    requires s.Me().pc == Up(l) && s.Me().Depth(l) == 1
    requires s'.locks[l] == s.locks[l].(value := 1) && s'.Me() == s.Me().Shallower(l).(pc := Client)
    requires s.locks[l].waiters != [] ==> exists t :: WillRetest(s, t, l)
    ensures LockOk(s', l) && LockLive(s', l)
  {
    assert Owns(s, s.running, l);
    forall t ensures !Owns(s', t, l) {
      if t != s.running {
        assert Owns(s', t, l) ==> Owns(s, t, l);
      }
    }
    assert forall t :: WillRetest(s, t, l) ==> WillRetest(s', t, l);
  }

  lemma GiveKeeps(s: State, l: LockId)
    requires Inv(s) && l in s.locks && s.Me().pc == Up(l)
    requires s.locks[l].waiters != [] ==> exists t :: WillRetest(s, t, l)
    ensures Inv(s.WithThread(s.Me().Shallower(l).(pc := Client)).WithLock(l, s.locks[l].(value := 1)))
  {
    var e := Effect(s.Me().Shallower(l).(pc := Client), s.locks[l].(value := 1), true);
    var s' := s.WithThread(e.thread).WithLock(l, e.lock);
    EffectIsLockStep(s, l, e);
    assert s' == s.Check(true).WithThread(e.thread).WithLock(l, e.lock);
    assert PcOk(s.Me());
    GiveLock(s, s', l);
    LockStepKeeps(s, s', l);
  }

  lemma UpKeeps(s: State, l: LockId)
    requires Inv(s) && !s.panic && s.Me().pc == Up(l)
    ensures var s' := Advance(s); !s'.panic && Inv(s')
  {
    assert LockOk(s, l) && Owns(s, s.running, l);
    var s1 := s;
    if s.locks[l].waiters != [] {
      WakeQueues(s, l);
      WakeKeeps(s, l);
      s1 := Woken(s, l);
    }
    GiveKeeps(s1, l);
    SemaUpIs(s, l);
  }

  lemma SemaUpIs(s: State, l: LockId)
    requires s.WellFormed() && !s.panic && s.Me().pc == Up(l) && l in s.locks && s.locks[l].value == 0
    requires s.locks[l].waiters != [] ==>
               var w := s.locks[l].waiters[0]; w != s.running && w !in s.ready && IsBlocked(s.threads[w].status)
    ensures var s1 := if s.locks[l].waiters != [] then Woken(s, l) else s;
            Advance(s) == s1.WithThread(s.Me().Shallower(l).(pc := Client)).WithLock(l, s1.locks[l].(value := 1))
  {
    var th := s.Me().Shallower(l).(pc := Client);
    if s.locks[l].waiters != [] {
      UpWakes(s, th, l);
    }
  }

  /** The running thread and the first waiter are two threads, so the order of the two changes does not matter. */
  lemma UpWakes(s: State, th: Thread, l: LockId)
    requires s.WellFormed() && !s.panic && l in s.locks && s.locks[l].value == 0 && s.locks[l].waiters != []
    requires s.WithThread(th).WellFormed()
    requires var w := s.locks[l].waiters[0]; w != s.running && w !in s.ready && IsBlocked(s.threads[w].status)
    ensures SemaUp(s.WithThread(th), l) == Woken(s, l).WithThread(th).WithLock(l, Woken(s, l).locks[l].(value := 1))
  {
    var w, lock := s.locks[l].waiters[0], s.locks[l];
    var lock1 := lock.(waiters := lock.waiters[1..]);
    var s0 := s.WithThread(th);
    var s2 := ThreadUnblock(s0.WithLock(l, lock1), w);
    var woken := s.threads[w].(status := Ready);
    assert s2.threads == s.threads[s.running := th][w := woken] == s.threads[w := woken][s.running := th];
    assert s2 == Woken(s, l).WithThread(th);
  }

  // ---------------------------------------------------------------- the other actions keep it

  /** The running thread goes between the client and thread_block, outside any lock's code. */
  ghost function Repositioned(s: State, status: Status, pc: Pc): State
    requires s.running in s.threads
  {
    s.WithThread(s.Me().(pc := pc, status := status))
  }

  ghost predicate Outside(pc: Pc) {
    pc.Client? || pc.Parked?
  }

  lemma RepositionQueues(s: State, status: Status, pc: Pc)
    requires Scheduled(s) && Outside(s.Me().pc)
    requires if status == Running then pc.Client? else IsBlocked(status) && pc.Parked?
    ensures Queued(Repositioned(s, status, pc))
  {
    var s' := Repositioned(s, status, pc);
    assert Placed(s, s.running);
    forall u <- s'.threads ensures Placed(s', u) {
      assert Placed(s, u);
    }
    forall u <- s'.threads, k <- s'.locks ensures Waits(s', u, k) {
      assert Waits(s, u, k);
    }
  }

  lemma RepositionSameLock(s: State, status: Status, pc: Pc, l: LockId)
    requires s.running in s.threads && l in s.locks && Outside(s.Me().pc) && Outside(pc)
    ensures SameLock(s, Repositioned(s, status, pc), l)
  {
  }

  lemma RepositionLocks(s: State, status: Status, pc: Pc)
    requires s.running in s.threads && Locked(s) && Outside(s.Me().pc) && Outside(pc)
    ensures Locked(Repositioned(s, status, pc))
  {
    forall l <- s.locks ensures SameLock(s, Repositioned(s, status, pc), l) {
      RepositionSameLock(s, status, pc, l);
    }
    AllLocksKept(s, Repositioned(s, status, pc));
  }

  lemma StartQueues(s: State, t: Tid)
    requires Scheduled(s) && !s.panic && t !in s.threads
    ensures var s' := ThreadStart(s, t); !s'.panic && Scheduled(s')
  {
    var s' := ThreadStart(s, t);
    assert t !in s.ready;
    Appended(s.ready, t);
    forall u <- s'.threads ensures Placed(s', u) {
      assert u != t ==> Placed(s, u);
    }
    forall u <- s'.threads, k <- s'.locks ensures Waits(s', u, k) {
      assert u != t ==> Waits(s, u, k);
    }
  }

  lemma StartSameLock(s: State, t: Tid, l: LockId)
    requires t !in s.threads && l in s.locks
    ensures SameLock(s, ThreadStart(s, t), l)
  {
  }

  lemma StartKeeps(s: State, t: Tid)
    requires Inv(s) && !s.panic && t !in s.threads
    ensures var s' := ThreadStart(s, t); !s'.panic && Inv(s')
  {
    StartQueues(s, t);
    forall l <- s.locks ensures SameLock(s, ThreadStart(s, t), l) {
      StartSameLock(s, t, l);
    }
    AllLocksKept(s, ThreadStart(s, t));
  }

  lemma ScheduleKeeps(s: State)
    requires Queued(s) && Locked(s) && !s.panic
    ensures !Schedule(s).panic && Inv(Schedule(s))
  {
    ScheduleMoves(s);
    MovesKeepLocks(s, Schedule(s));
  }

  lemma YieldKeeps(s: State)
    requires Inv(s) && !s.panic
    ensures !ThreadYield(s).panic && Inv(ThreadYield(s))
  {
    RequeueMoves(s);
    MovesKeepLocks(s, Requeue(s));
    ScheduleKeeps(Requeue(s));
  }

  lemma ParkKeeps(s: State, status: Status)
    requires Inv(s) && !s.panic && s.Me().pc.Client? && IsBlocked(status)
    ensures var s' := ThreadBlock(s, status, Parked); !s'.panic && Inv(s')
  {
    RepositionQueues(s, status, Parked);
    RepositionLocks(s, status, Parked);
    assert s.Check(IsBlocked(status)).WithPc(Parked).WithStatus(s.running, status) == Repositioned(s, status, Parked);
    ScheduleKeeps(Repositioned(s, status, Parked));
  }

  lemma ResumeKeeps(s: State)
    requires Inv(s) && s.Me().pc.Parked?
    ensures Inv(s.WithPc(Client)) && s.WithPc(Client).panic == s.panic
  {
    RepositionQueues(s, Running, Client);
    RepositionLocks(s, Running, Client);
    assert s.WithPc(Client) == Repositioned(s, Running, Client);
  }

  lemma UnparkKeeps(s: State, t: Tid)
    requires Inv(s) && Enabled(s, Unpark(t))
    ensures var s' := ThreadUnblock(s, t); !s'.panic && Inv(s')
  {
    UnblockMoves(s, t);
    MovesKeepLocks(s, ThreadUnblock(s, t));
  }

  lemma CallKeepsView(me: Tid, th: Thread, lock: Lock, l: LockId, pc: Pc)
    requires LocalView(me, th, lock, l) && th.pc.Client? && (pc == AcquireTest(l) || pc == ReleaseTest(l))
    ensures LocalView(me, th.(pc := pc), lock, l) && Inside(th.(pc := pc), l) == Inside(th, l)
  {
  }

  lemma CallLocks(s: State, s': State, l: LockId, pc: Pc)
    requires s.WellFormed() && Locked(s) && s.Me().pc.Client? && l in s.locks
    requires pc == AcquireTest(l) || pc == ReleaseTest(l)
    requires LockStep(s, s', l) && s'.Me() == s.Me().(pc := pc) && s'.locks[l] == s.locks[l]
    ensures PcOk(s'.Me()) && LockOk(s', l) && LockLive(s', l)
  {
    LockGivesView(s, l);
    CallKeepsView(s.running, s.Me(), s.locks[l], l, pc);
    ViewGivesLock(s, s', l);
  }

  lemma CallKeeps(s: State, l: LockId, pc: Pc)
    requires Inv(s) && s.Me().pc.Client? && l in s.locks && s.running != s.idle
    requires pc == AcquireTest(l) || pc == ReleaseTest(l)
    ensures Inv(s.WithPc(pc))
  {
    var s' := s.Check(true).WithThread(s.Me().(pc := pc)).WithLock(l, s.locks[l]);
    EffectIsLockStep(s, l, Effect(s.Me().(pc := pc), s.locks[l], true));
    CallLocks(s, s', l, pc);
    LockStepKeeps(s, s', l);
    SameStateAfterCall(s, pc, l);
  }

  lemma SameStateAfterCall(s: State, pc: Pc, l: LockId)
    requires s.running in s.threads && l in s.locks
    ensures s.Check(true).WithThread(s.Me().(pc := pc)).WithLock(l, s.locks[l]) == s.WithPc(pc)
  {
    assert s.locks[l := s.locks[l]] == s.locks;
  }

  // ---------------------------------------------------------------- the theorems

  lemma SemaDownKeeps(s: State, l: LockId)
    requires Inv(s) && !s.panic && (s.Me().pc == Down(l) || s.Me().pc == Retest(l))
    ensures var s' := SemaDown(s, l); !s'.panic && Inv(s')
  {
    if s.locks[l].value == 0 {
      BlockKeeps(s, l);
    } else {
      TakeKeeps(s, l);
    }
  }

  /** One step of any thread: the invariant is kept, and an assertion of thread.c or sync.c fails
      exactly when lock_release is called by a thread that does not hold the lock. */
  lemma StepKeeps(s: State, a: Action)
    requires Inv(s) && Enabled(s, a)
    ensures Next(s, a).panic <==> Misuse(s, a)
    ensures !Misuse(s, a) ==> Inv(Next(s, a))
  {
    match a
    case Go =>
      match s.Me().pc {
        case Parked => ResumeKeeps(s);
        case Down(l) => SemaDownKeeps(s, l);
        case Retest(l) => SemaDownKeeps(s, l);
        case Up(l) => UpKeeps(s, l);
        case _ => PlainStepKeeps(s);
      }
    case Acquire(l) => CallKeeps(s, l, AcquireTest(l));
    case Release(l) => CallKeeps(s, l, ReleaseTest(l));
    case Tick => ScheduleKeeps(s);
    case Yield => YieldKeeps(s);
    case Park(status) => ParkKeeps(s, status);
    case Unpark(t) => UnparkKeeps(s, t);
    case Start(t) => StartKeeps(s, t);
  }

  lemma InitInv(s: State)
    requires Init(s)
    ensures Inv(s)
  {
    assert s.ready[0] == s.idle;
    forall l <- s.locks ensures LockOk(s, l) && LockLive(s, l) {
      assert forall t :: !Owns(s, t, l);
    }
  }

  /** In every run, each state up to a misuse keeps the invariant; there is no other panic. */
  lemma {:induction false} RunKeeps(run: seq<State>, acts: seq<Action>, n: nat)
    requires IsRun(run, acts) && n < |run|
    ensures run[n].panic ==> n > 0 && Inv(run[n - 1]) && Misuse(run[n - 1], acts[n - 1])
    ensures !run[n].panic ==> Inv(run[n])
  {
    if n == 0 {
      InitInv(run[0]);
    } else {
      RunKeeps(run, acts, n - 1);
      assert StepAt(run, acts, n - 1);
      StepKeeps(run[n - 1], acts[n - 1]);
    }
  }

  /** The places a thread can be in, with its index in the queue. */
  datatype Place = OnCpu | InReady(index: nat) | InWaiters(lock: LockId, index: nat) | Elsewhere

  ghost predicate IsAt(s: State, t: Tid, place: Place)
    requires t in s.threads
  {
    match place
    case OnCpu => t == s.running
    case InReady(i) => i < |s.ready| && s.ready[i] == t
    case InWaiters(l, i) => l in s.locks && i < |s.locks[l].waiters| && s.locks[l].waiters[i] == t
    case Elsewhere => s.threads[t].pc.Parked? && IsBlocked(s.threads[t].status)
  }

  lemma ExactlyOnePlace(s: State, t: Tid)
    requires Inv(s) && t in s.threads
    ensures exists place :: IsAt(s, t, place)
    ensures forall p, q :: IsAt(s, t, p) && IsAt(s, t, q) ==> p == q
  {
    assert Placed(s, t) && Placed(s, s.running);
    PlaceExists(s, t);
    forall p, q | IsAt(s, t, p) && IsAt(s, t, q) ensures p == q {
      if p.InWaiters? { assert Waits(s, t, p.lock); }
      if q.InWaiters? { assert Waits(s, t, q.lock); }
    }
  }

  lemma PlaceExists(s: State, t: Tid)
    requires Scheduled(s) && t in s.threads
    ensures exists place :: IsAt(s, t, place)
  {
    var th := s.threads[t];
    assert Placed(s, t);
    if th.status == Running {
      assert IsAt(s, t, OnCpu);
    } else if th.status == Ready {
      var i :| 0 <= i < |s.ready| && s.ready[i] == t;
      assert IsAt(s, t, InReady(i));
    } else if th.pc.Parked? {
      assert IsAt(s, t, Elsewhere);
    } else {
      var l := th.pc.lock;
      assert Waits(s, t, l);
      var i :| 0 <= i < |s.locks[l].waiters| && s.locks[l].waiters[i] == t;
      assert IsAt(s, t, InWaiters(l, i));
    }
  }

  /** Not in the code that takes or gives lock l: in the client, parked, or at another lock. */
  predicate Away(pc: Pc, l: LockId) {
    pc.Client? || pc.Parked? || pc.lock != l
  }

  /** Mutual exclusion, the re-entrancy count and the semaphore, as a caller sees them. */
  ghost predicate LockSafe(s: State, l: LockId)
    requires l in s.locks
  {
    var lock := s.locks[l];
    && (lock.value == 0 || lock.value == 1)
    && (forall t, u :: Owns(s, t, l) && Owns(s, u, l) ==> t == u)
    && (lock.value == 1 <==> forall t :: !Owns(s, t, l))
    && (forall t <- s.threads :: s.threads[t].Depth(l) > 0 && Away(s.threads[t].pc, l) ==>
          lock.holder == Some(t) && lock.repeat == s.threads[t].Depth(l))
    && (lock.value == 1 ==> lock.holder == None && lock.repeat == 0)
    && (lock.value == 1 && lock.waiters != [] ==> exists t :: WillRetest(s, t, l))
  }

  /** The two theorems about all interleavings. */
  lemma RunSafe(run: seq<State>, acts: seq<Action>, n: nat)
    requires IsRun(run, acts) && n < |run| && !run[n].panic
    ensures forall l <- run[n].locks :: LockSafe(run[n], l)
    ensures forall t <- run[n].threads :: exists place :: IsAt(run[n], t, place)
    ensures forall t <- run[n].threads, p, q :: IsAt(run[n], t, p) && IsAt(run[n], t, q) ==> p == q
    ensures var s := run[n];
            s.idle in s.threads && (s.ready == [] && s.running != s.idle ==> IsBlocked(s.threads[s.idle].status))
  {
    var s := run[n];
    RunKeeps(run, acts, n);
    forall l <- s.locks ensures LockSafe(s, l) {
      assert LockOk(s, l) && LockLive(s, l);
      forall t <- s.threads | s.threads[t].Depth(l) > 0 && Away(s.threads[t].pc, l)
        ensures s.locks[l].holder == Some(t) && s.locks[l].repeat == s.threads[t].Depth(l)
      {
        assert Owns(s, t, l);
      }
    }
    forall t <- s.threads
      ensures exists place :: IsAt(s, t, place)
      ensures forall p, q :: IsAt(s, t, p) && IsAt(s, t, q) ==> p == q
    {
      ExactlyOnePlace(s, t);
    }
    assert Placed(s, s.idle);
  }

  /** No assertion fails in a run whose clients release only what they hold. */
  lemma NoPanic(run: seq<State>, acts: seq<Action>)
    requires IsRun(run, acts)
    requires forall i: nat :: i < |acts| && StepAt(run, acts, i) ==> !Misuse(run[i], acts[i])
    ensures forall i :: 0 <= i < |run| ==> !run[i].panic
  {
    forall i | 0 <= i < |run| ensures !run[i].panic {
      assert i > 0 ==> StepAt(run, acts, i - 1);
      RunKeeps(run, acts, i);
    }
  }
}
