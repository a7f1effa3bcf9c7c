/** thread/sync.c: what lock_acquire and lock_release do from their call to their return, or to the wait. */
module LockCalls {
  import opened Options
  import opened Threads
  import opened ThreadSafety
  import Fairness

  // ---------------------------------------------------------------- one statement after the other

  /** One step leads from a to b. */
  ghost predicate Leads(a: State, act: Action, b: State) {
    Enabled(a, act) && Next(a, act) == b
  }

  /** n statements of the running thread, and no other step between, lead from a to b. */
  ghost predicate Goes(a: State, n: nat, b: State)
    decreases n
  {
    if n == 0 then a == b else Enabled(a, Go) && Goes(Next(a, Go), n - 1, b)
  }

  /** The running thread gets from a to b alone. */
  ghost predicate Reaches(a: State, b: State) {
    exists n: nat :: Goes(a, n, b)
  }

  lemma There(a: State)
    ensures Reaches(a, a)
  {
    assert Goes(a, 0, a);
  }

  lemma Step(a: State, c: State, b: State)
    requires Leads(a, Go, c) && Reaches(c, b)
    ensures Reaches(a, b)
  {
    var n: nat :| Goes(c, n, b);
    assert Goes(a, n + 1, b);
  }

  /** The client's call, and statements of the thread alone, lead from a to b. */
  ghost predicate Calls(a: State, call: Action, b: State) {
    Enabled(a, call) && Reaches(Next(a, call), b)
  }

  // ---------------------------------------------------------------- in the middle of a call

  /** The running thread is at pc, with this lock. */
  ghost function Amid(s: State, l: LockId, th: Thread, lock: Lock): State {
    s.(threads := s.threads[s.running := th], locks := s.locks[l := lock])
  }

  lemma AmidKnown(s: State, l: LockId, th: Thread, lock: Lock)
    requires s.WellFormed() && l in s.locks && s.AllKnown(lock.waiters)
             && (th.pc.Client? || th.pc.Parked? || th.pc.lock == l)
    ensures Amid(s, l, th, lock).WellFormed()
  {
  }

  /** A statement outside the semaphore. */
  lemma AmidPlain(s: State, l: LockId, th: Thread, lock: Lock)
    requires s.WellFormed() && !s.panic && l in s.locks && PlainStep(th.pc) && th.pc.lock == l
    requires s.AllKnown(lock.waiters) && LockStatement(s.running, th, lock).ok
    ensures var e := LockStatement(s.running, th, lock); Leads(Amid(s, l, th, lock), Go, Amid(s, l, e.thread, e.lock))
  {
    var a := Amid(s, l, th, lock);
    var e := LockStatement(s.running, th, lock);
    AmidKnown(s, l, th, lock);
    assert a.threads[s.running := e.thread] == s.threads[s.running := e.thread];
    assert a.locks[l := e.lock] == s.locks[l := e.lock];
  }

  /** sema_down on a semaphore that is free. */
  lemma AmidDown(s: State, l: LockId, th: Thread, lock: Lock)
    requires s.WellFormed() && !s.panic && l in s.locks && s.AllKnown(lock.waiters) && lock.value == 1
    requires th.pc == Down(l)
    ensures Leads(Amid(s, l, th, lock), Go, Amid(s, l, th.(pc := SetHolder(l)), lock.(value := 0)))
  {
    var a, b := Amid(s, l, th, lock), Amid(s, l, th.(pc := SetHolder(l)), lock.(value := 0));
    AmidKnown(s, l, th, lock);
    var c := Next(a, Go);
    assert c.threads == b.threads && c.locks == b.locks;
  }

  lemma Called(s: State, a: Action, l: LockId, pc: Pc)
    requires Enabled(s, a)
    requires (a == Acquire(l) && pc == AcquireTest(l)) || (a == Release(l) && pc == ReleaseTest(l))
    ensures Leads(s, a, Amid(s, l, s.Me().(pc := pc), s.locks[l]))
  {
    assert s.locks[l := s.locks[l]] == s.locks;
  }

  // ---------------------------------------------------------------- lock_acquire

  /** The rest of lock_acquire once the semaphore was taken. */
  lemma Enters(s: State, l: LockId, th: Thread, lock: Lock)
    requires s.WellFormed() && !s.panic && l in s.locks && s.AllKnown(lock.waiters) && lock.repeat == 0
    requires th.pc == SetHolder(l)
    ensures Reaches(Amid(s, l, th, lock),
                    Amid(s, l, th.Deeper(l).(pc := Client), lock.(holder := Some(s.running), repeat := 1)))
  {
    var held := lock.(holder := Some(s.running));
    var th1, th2, th3 := th.(pc := CheckCount(l)), th.(pc := SetCount(l)), th.Deeper(l).(pc := Client);
    AmidPlain(s, l, th, lock);
    AmidPlain(s, l, th1, held);
    AmidPlain(s, l, th2, held);
    There(Amid(s, l, th3, held.(repeat := 1)));
    Step(Amid(s, l, th2, held), Amid(s, l, th3, held.(repeat := 1)), Amid(s, l, th3, held.(repeat := 1)));
    Step(Amid(s, l, th1, held), Amid(s, l, th2, held), Amid(s, l, th3, held.(repeat := 1)));
    Step(Amid(s, l, th, lock), Amid(s, l, th1, held), Amid(s, l, th3, held.(repeat := 1)));
  }

  /** What the invariant says of a lock to the running thread, outside the two calls. */
  lemma SeenByClient(s: State, l: LockId)
    requires Inv(s) && l in s.locks && s.Me().pc.Client?
    ensures s.WellFormed() && s.AllKnown(s.locks[l].waiters) && s.Me().status == Running
    ensures s.locks[l].value <= 1 && (s.locks[l].value == 1 ==> s.locks[l].repeat == 0 && s.Me().Depth(l) == 0)
    ensures s.Me().Depth(l) > 0 <==> s.locks[l].holder == Some(s.running)
    ensures s.Me().Depth(l) > 0 ==> s.locks[l].repeat == s.Me().Depth(l) && s.locks[l].value == 0
  {
    assert LockOk(s, l) && (Owns(s, s.running, l) <==> s.Me().Depth(l) > 0);
  }

  /** lock_acquire of a lock that another thread holds, or none: up to the semaphore. */
  lemma ToDown(s: State, l: LockId, th: Thread, lock: Lock)
    requires Enabled(s, Acquire(l)) && th == s.Me() && lock == s.locks[l] && lock.holder != Some(s.running)
    ensures var a0, a1 := Amid(s, l, th.(pc := AcquireTest(l)), lock), Amid(s, l, th.(pc := Down(l)), lock);
            Leads(s, Acquire(l), a0) && Leads(a0, Go, a1)
  {
    Called(s, Acquire(l), l, AcquireTest(l));
    AmidPlain(s, l, th.(pc := AcquireTest(l)), lock);
  }

  lemma AcquirePath(s: State, l: LockId, th: Thread, lock: Lock)
    requires Enabled(s, Acquire(l)) && th == s.Me() && lock == s.locks[l]
    requires lock.value == 1 && lock.repeat == 0 && lock.holder != Some(s.running)
    ensures Calls(s, Acquire(l), Amid(s, l, th.Deeper(l), Lock(Some(s.running), 1, 0, lock.waiters)))
  {
    var th0, th1, th2 := th.(pc := AcquireTest(l)), th.(pc := Down(l)), th.(pc := SetHolder(l));
    ToDown(s, l, th, lock);
    AmidDown(s, l, th1, lock);
    Enters(s, l, th2, lock.(value := 0));
    var end := Amid(s, l, th.Deeper(l), Lock(Some(s.running), 1, 0, lock.waiters));
    Step(Amid(s, l, th1, lock), Amid(s, l, th2, lock.(value := 0)), end);
    Step(Amid(s, l, th0, lock), Amid(s, l, th1, lock), end);
  }

  /** lock_acquire of a free lock takes it. */
  lemma AcquireFree(s: State, l: LockId)
    requires Inv(s) && Enabled(s, Acquire(l)) && s.locks[l].value == 1
    ensures Calls(s, Acquire(l), Amid(s, l, s.Me().Deeper(l), Lock(Some(s.running), 1, 0, s.locks[l].waiters)))
  {
    SeenByClient(s, l);
    AcquirePath(s, l, s.Me(), s.locks[l]);
  }

  lemma AgainPath(s: State, l: LockId, th: Thread, lock: Lock)
    requires Enabled(s, Acquire(l)) && th == s.Me() && lock == s.locks[l]
    requires lock.holder == Some(s.running)
    ensures Calls(s, Acquire(l), Amid(s, l, th.Deeper(l), lock.(repeat := lock.repeat + 1)))
  {
    var th0, th1 := th.(pc := AcquireTest(l)), th.(pc := AcquireAgain(l));
    Called(s, Acquire(l), l, AcquireTest(l));
    AmidPlain(s, l, th0, lock);
    AmidPlain(s, l, th1, lock);
    var end := Amid(s, l, th.Deeper(l), lock.(repeat := lock.repeat + 1));
    There(end);
    Step(Amid(s, l, th1, lock), end, end);
    Step(Amid(s, l, th0, lock), Amid(s, l, th1, lock), end);
  }

  /** lock_acquire of a lock that the thread holds counts one more. */
  lemma AcquireHeld(s: State, l: LockId)
    requires Inv(s) && Enabled(s, Acquire(l)) && s.Me().Depth(l) > 0
    ensures Calls(s, Acquire(l), Amid(s, l, s.Me().Deeper(l), s.locks[l].(repeat := s.Me().Depth(l) + 1)))
  {
    SeenByClient(s, l);
    AgainPath(s, l, s.Me(), s.locks[l]);
  }

  lemma StillInv(s: State, a: Action, s': State)
    requires Inv(s) && Leads(s, a, s') && !Misuse(s, a)
    ensures Inv(s')
  {
    StepKeeps(s, a);
  }

  /** lock_acquire of a lock that another thread holds: the thread waits, behind all others that do, and the first
      ready thread runs. */
  lemma AcquireTaken(s: State, l: LockId) returns (s': State)
    requires Inv(s) && Enabled(s, Acquire(l)) && s.locks[l].value == 0 && s.Me().Depth(l) == 0
    ensures Calls(s, Acquire(l), s')
    ensures s'.locks == s.locks[l := s.locks[l].(waiters := s.locks[l].waiters + [s.running])]
    ensures s.running in s'.threads && s'.threads[s.running] == s.Me().(status := Blocked, pc := Retest(l))
    ensures if s.ready == [] then s'.running == s.idle && s'.ready == []
            else s'.running == s.ready[0] && s'.ready == s.ready[1..]
  {
    SeenByClient(s, l);
    var th, lock := s.Me(), s.locks[l];
    var a0, a1 := Amid(s, l, th.(pc := AcquireTest(l)), lock), Amid(s, l, th.(pc := Down(l)), lock);
    ToDown(s, l, th, lock);
    StillInv(s, Acquire(l), a0);
    StillInv(a0, Go, a1);
    s' := Next(a1, Go);
    There(s');
    Step(a1, s', s');
    Step(a0, a1, s');
    Fairness.StepTurn(a1, Go);
    WaitsNow(a1, l);
    assert a1.locks == s.locks;
  }

  /** The thread that finds the semaphore taken. */
  lemma WaitsNow(s: State, l: LockId)
    requires Inv(s) && Enabled(s, Go) && s.Me().pc == Down(l) && s.locks[l].value == 0
    ensures var s' := Next(s, Go);
            && s'.locks == s.locks[l := s.locks[l].(waiters := s.locks[l].waiters + [s.running])]
            && s.running in s'.threads && s'.threads[s.running] == s.Me().(status := Blocked, pc := Retest(l))
  {
    assert Placed(s, s.running);
  }

  /** A thread that was woken from thread_block goes on. */
  lemma Resumes(s: State)
    requires Inv(s) && !s.panic && s.Me().pc.Parked?
    ensures Leads(s, Go, s.WithPc(Client))
  {
  }

  // ---------------------------------------------------------------- lock_release

  lemma InnerPath(s: State, l: LockId, th: Thread, lock: Lock)
    requires Enabled(s, Release(l)) && th == s.Me() && lock == s.locks[l]
    requires lock.holder == Some(s.running) && lock.repeat > 1
    ensures Calls(s, Release(l), Amid(s, l, th.Shallower(l), lock.(repeat := lock.repeat - 1)))
  {
    var th0, th1 := th.(pc := ReleaseTest(l)), th.(pc := ReleaseAgain(l));
    Called(s, Release(l), l, ReleaseTest(l));
    AmidPlain(s, l, th0, lock);
    AmidPlain(s, l, th1, lock);
    var end := Amid(s, l, th.Shallower(l), lock.(repeat := lock.repeat - 1));
    There(end);
    Step(Amid(s, l, th1, lock), end, end);
    Step(Amid(s, l, th0, lock), Amid(s, l, th1, lock), end);
  }

  /** lock_release of a lock that was taken more than once counts one less. */
  lemma ReleaseInner(s: State, l: LockId)
    requires Inv(s) && Enabled(s, Release(l)) && s.Me().Depth(l) > 1
    ensures Calls(s, Release(l), Amid(s, l, s.Me().Shallower(l), s.locks[l].(repeat := s.Me().Depth(l) - 1)))
  {
    SeenByClient(s, l);
    InnerPath(s, l, s.Me(), s.locks[l]);
  }

  /** sema_up: the lock is free, and the first that waits is ready, in front of all others. */
  ghost function Freed(s: State, l: LockId, th: Thread, waiters: seq<Tid>): State
    requires waiters != [] ==> waiters[0] in s.threads
  {
    if waiters == [] then Amid(s, l, th, Lock(None, 0, 1, []))
    else
      var w := waiters[0];
      Amid(s, l, th, Lock(None, 0, 1, waiters[1..])).(
        threads := s.threads[w := s.threads[w].(status := Ready)][s.running := th], ready := [w] + s.ready)
  }

  lemma AmidUpWakes(s: State, l: LockId, th: Thread, lock: Lock, w: Tid)
    requires s.WellFormed() && !s.panic && l in s.locks && s.AllKnown(lock.waiters) && th.pc == Up(l)
    requires lock == Lock(None, 0, 0, lock.waiters) && lock.waiters != [] && w == lock.waiters[0]
    requires w != s.running && w !in s.ready && IsBlocked(s.threads[w].status)
    ensures Leads(Amid(s, l, th, lock), Go, Freed(s, l, th.Shallower(l).(pc := Client), lock.waiters))
  {
    var a, me := Amid(s, l, th, lock), th.Shallower(l).(pc := Client);
    AmidKnown(s, l, th, lock);
    var b, c := Freed(s, l, me, lock.waiters), Next(a, Go);
    assert c.threads == b.threads;
    assert c.locks == b.locks;
  }

  lemma AmidUpAlone(s: State, l: LockId, th: Thread)
    requires s.WellFormed() && !s.panic && l in s.locks && th.pc == Up(l)
    ensures Leads(Amid(s, l, th, Lock(None, 0, 0, [])), Go, Freed(s, l, th.Shallower(l).(pc := Client), []))
  {
    var a := Amid(s, l, th, Lock(None, 0, 0, []));
    AmidKnown(s, l, th, Lock(None, 0, 0, []));
    var b, c := Freed(s, l, th.Shallower(l).(pc := Client), []), Next(a, Go);
    assert c.threads == b.threads && c.locks == b.locks;
  }

  /** lock_release of a lock that was taken once, from the second assertion on. */
  lemma Leaves(s: State, l: LockId, th: Thread, lock: Lock, end: State)
    requires s.WellFormed() && !s.panic && l in s.locks && s.AllKnown(lock.waiters)
    requires th.pc == CheckOnce(l) && lock.repeat == 1
    requires Reaches(Amid(s, l, th.(pc := Up(l)), lock.(holder := None, repeat := 0)), end)
    ensures Reaches(Amid(s, l, th, lock), end)
  {
    var th1, th2, th3 := th.(pc := ClearHolder(l)), th.(pc := ClearCount(l)), th.(pc := Up(l));
    var open := lock.(holder := None);
    AmidPlain(s, l, th, lock);
    AmidPlain(s, l, th1, lock);
    AmidPlain(s, l, th2, open);
    Step(Amid(s, l, th2, open), Amid(s, l, th3, open.(repeat := 0)), end);
    Step(Amid(s, l, th1, lock), Amid(s, l, th2, open), end);
    Step(Amid(s, l, th, lock), Amid(s, l, th1, lock), end);
  }

  lemma LastPath(s: State, l: LockId, th: Thread, lock: Lock)
    requires Enabled(s, Release(l)) && th == s.Me() && lock == s.locks[l]
    requires lock.holder == Some(s.running) && lock.repeat == 1 && lock.value == 0
    requires lock.waiters != [] ==>
               var w := lock.waiters[0];
               w != s.running && w !in s.ready && IsBlocked(s.threads[w].status)
    ensures Calls(s, Release(l), Freed(s, l, th.Shallower(l), lock.waiters))
  {
    var th0, th1, up := th.(pc := ReleaseTest(l)), th.(pc := CheckOnce(l)), th.(pc := Up(l));
    var end := Freed(s, l, th.Shallower(l), lock.waiters);
    Called(s, Release(l), l, ReleaseTest(l));
    AmidPlain(s, l, th0, lock);
    if lock.waiters == [] {
      AmidUpAlone(s, l, up);
    } else {
      AmidUpWakes(s, l, up, Lock(None, 0, 0, lock.waiters), lock.waiters[0]);
    }
    There(end);
    Step(Amid(s, l, up, Lock(None, 0, 0, lock.waiters)), end, end);
    Leaves(s, l, th1, lock, end);
    Step(Amid(s, l, th0, lock), Amid(s, l, th1, lock), end);
  }

  /** Who waits is blocked, and not the running thread. */
  lemma FirstWaits(s: State, l: LockId)
    requires Inv(s) && l in s.locks && s.locks[l].waiters != []
    ensures var w := s.locks[l].waiters[0];
            w in s.threads && w != s.running && w !in s.ready && IsBlocked(s.threads[w].status)
  {
    var w := s.locks[l].waiters[0];
    assert w in s.threads && Waits(s, w, l) && Placed(s, w);
  }

  /** lock_release of a lock that was taken once frees it and wakes the first that waits for it. */
  lemma ReleaseLast(s: State, l: LockId)
    requires Inv(s) && Enabled(s, Release(l)) && s.Me().Depth(l) == 1
    ensures s.locks[l].waiters != [] ==> s.locks[l].waiters[0] in s.threads
    ensures Calls(s, Release(l), Freed(s, l, s.Me().Shallower(l), s.locks[l].waiters))
  {
    SeenByClient(s, l);
    if s.locks[l].waiters != [] {
      FirstWaits(s, l);
    }
    LastPath(s, l, s.Me(), s.locks[l]);
  }
}
