/** thread/thread.c and thread/sync.c: who runs next.  The ready list is served in order, a thread that gives up the
    processor goes to its end, and a thread that is woken goes to its head. */
module Fairness {
  import opened Options
  import opened Threads
  import opened ThreadSafety

  // ---------------------------------------------------------------- what a step does to the ready list

  /** The running thread gives up the processor: its time is up, it yields, or it blocks. */
  predicate Switches(s: State, a: Action)
    requires Enabled(s, a)
  {
    match a
    case Tick => true
    case Yield => true
    case Park(_) => true
    case Go => (s.Me().pc.Down? || s.Me().pc.Retest?) && s.locks[s.Me().pc.lock].value == 0
    case _ => false
  }

  /** Then it is ready again, or blocked. */
  predicate StaysReady(a: Action) {
    a.Tick? || a.Yield?
  }

  /** The thread that the step wakes, if any. */
  function Wakes(s: State, a: Action): Option<Tid>
    requires Enabled(s, a)
  {
    match a
    case Unpark(t) => Some(t)
    case Go =>
      if s.Me().pc.Up? && s.locks[s.Me().pc.lock].waiters != [] then Some(s.locks[s.Me().pc.lock].waiters[0]) else None
    case _ => None
  }

  /** What the scheduler does with the ready list and the processor. */
  ghost predicate Turn(s: State, a: Action, s': State)
    requires Enabled(s, a)
  {
    if Switches(s, a) then
      var queue := if StaysReady(a) then s.ready + [s.running] else s.ready;
      if queue == [] then s'.running == s.idle && s'.ready == []
      else s'.running == queue[0] && s'.ready == queue[1..]
    else
      && s'.running == s.running
      && s'.ready == match a
                     case Start(t) => s.ready + [t]
                     case _ => if Wakes(s, a).Some? then [Wakes(s, a).value] + s.ready else s.ready
  }

  lemma TickTurn(s: State)
    requires Inv(s) && Enabled(s, Tick)
    ensures Turn(s, Tick, Next(s, Tick))
  {
    assert Placed(s, s.running);
    var s1 := Requeue(s);
    assert s1.ready == s.ready + [s.running] && s1.ready != [];
  }

  lemma YieldTurn(s: State)
    requires Inv(s) && Enabled(s, Yield)
    ensures Turn(s, Yield, Next(s, Yield))
  {
    assert Placed(s, s.running);
    var s1 := Requeue(s);
    assert s1.ready == s.ready + [s.running] && s1.Me().status == Ready;
  }

  /** schedule by a thread that is blocked. */
  lemma BlockedTurn(s: State)
    requires Queued(s) && s.Me().status != Running
    ensures var s' := Schedule(s);
            if s.ready == [] then s'.running == s.idle && s'.ready == []
            else s'.running == s.ready[0] && s'.ready == s.ready[1..]
  {
    if s.ready == [] {
      assert Placed(s, s.idle);
      var s2 := ThreadUnblock(s, s.idle);
      assert s2.ready == [s.idle] && s2.ready[1..] == [];
    }
  }

  lemma ParkTurn(s: State, status: Status)
    requires Inv(s) && Enabled(s, Park(status))
    ensures Turn(s, Park(status), Next(s, Park(status)))
  {
    RepositionQueues(s, status, Parked);
    assert s.Check(IsBlocked(status)).WithPc(Parked).WithStatus(s.running, status) == Repositioned(s, status, Parked);
    BlockedTurn(Repositioned(s, status, Parked));
  }

  lemma DownTurn(s: State, l: LockId)
    requires Inv(s) && Enabled(s, Go) && (s.Me().pc == Down(l) || s.Me().pc == Retest(l))
    ensures Turn(s, Go, Next(s, Go))
  {
    if s.locks[l].value == 0 {
      EnqueueQueues(s, l);
      SemaDownBlocks(s, l);
      BlockedTurn(Enqueued(s, l));
    }
  }

  lemma UpTurn(s: State, l: LockId)
    requires Inv(s) && Enabled(s, Go) && s.Me().pc == Up(l)
    ensures Turn(s, Go, Next(s, Go))
  {
    assert LockOk(s, l) && Owns(s, s.running, l);
    if s.locks[l].waiters != [] {
      WakeQueues(s, l);
    }
    SemaUpIs(s, l);
  }

  /** Every step treats the ready list so. */
  lemma StepTurn(s: State, a: Action)
    requires Inv(s) && Enabled(s, a)
    ensures Turn(s, a, Next(s, a))
  {
    match a
    case Go =>
      match s.Me().pc {
        case Down(l) => DownTurn(s, l);
        case Retest(l) => DownTurn(s, l);
        case Up(l) => UpTurn(s, l);
        case _ =>
      }
    case Tick => TickTurn(s);
    case Yield => YieldTurn(s);
    case Park(status) => ParkTurn(s, status);
    case Unpark(t) => assert Placed(s, t);
    case _ =>
  }

  /** A tick or a yield gives the processor to the first ready thread and puts the running one at the end. */
  lemma NextInLine(s: State, a: Action)
    requires Inv(s) && Enabled(s, a) && (a.Tick? || a.Yield?) && s.ready != []
    ensures Next(s, a).running == s.ready[0] && Next(s, a).ready == s.ready[1..] + [s.running]
  {
    StepTurn(s, a);
    assert (s.ready + [s.running])[1..] == s.ready[1..] + [s.running];
  }

  /** A thread that sema_up or an interrupt wakes is the first to run. */
  lemma WokenFirst(s: State, a: Action)
    requires Inv(s) && Enabled(s, a) && Wakes(s, a).Some?
    ensures Next(s, a).ready == [Wakes(s, a).value] + s.ready && Next(s, a).running == s.running
  {
    StepTurn(s, a);
  }

  // ---------------------------------------------------------------- the thread at index k runs after k + 1 switches

  /** Thread t waits at index k of the ready list. */
  ghost predicate ReadyAt(s: State, t: Tid, k: nat) {
    k < |s.ready| && s.ready[k] == t
  }

  /** A switch brings it one place nearer, or lets it run; a thread that is woken is put in front of it; nothing else
      moves it. */
  lemma StepShifts(s: State, a: Action, t: Tid, k: nat)
    requires Inv(s) && Enabled(s, a) && ReadyAt(s, t, k)
    ensures var s' := Next(s, a);
            if Switches(s, a) then (if k == 0 then s'.running == t else ReadyAt(s', t, k - 1))
            else if Wakes(s, a).Some? then ReadyAt(s', t, k + 1)
            else ReadyAt(s', t, k)
  {
    StepTurn(s, a);
  }

  /** Step j of a run is a switch. */
  ghost predicate SwitchAt(run: seq<State>, acts: seq<Action>, j: nat)
    requires |run| == |acts| + 1 && j < |acts|
  {
    Enabled(run[j], acts[j]) && Switches(run[j], acts[j])
  }

  /** Step j of a run wakes a thread. */
  ghost predicate WakeAt(run: seq<State>, acts: seq<Action>, j: nat)
    requires |run| == |acts| + 1 && j < |acts|
  {
    Enabled(run[j], acts[j]) && Wakes(run[j], acts[j]).Some?
  }

  /** The switches among n steps from step i on, and the threads woken. */
  ghost function SwitchCount(run: seq<State>, acts: seq<Action>, i: nat, n: nat): nat
    requires |run| == |acts| + 1 && i + n <= |acts|
  {
    if n == 0 then 0 else SwitchCount(run, acts, i, n - 1) + if SwitchAt(run, acts, i + n - 1) then 1 else 0
  }

  ghost function WakeCount(run: seq<State>, acts: seq<Action>, i: nat, n: nat): nat
    requires |run| == |acts| + 1 && i + n <= |acts|
  {
    if n == 0 then 0 else WakeCount(run, acts, i, n - 1) + if WakeAt(run, acts, i + n - 1) then 1 else 0
  }

  /** One step of a run. */
  lemma RunShifts(run: seq<State>, acts: seq<Action>, j: nat, t: Tid, k: nat)
    requires IsRun(run, acts) && j < |acts| && ReadyAt(run[j], t, k)
    ensures !(SwitchAt(run, acts, j) && WakeAt(run, acts, j))
    ensures if SwitchAt(run, acts, j) then (if k == 0 then run[j + 1].running == t else ReadyAt(run[j + 1], t, k - 1))
            else ReadyAt(run[j + 1], t, if WakeAt(run, acts, j) then k + 1 else k)
  {
    assert StepAt(run, acts, j);
    RunKeeps(run, acts, j);
    StepShifts(run[j], acts[j], t, k);
  }

  /** As long as the thread has not run, its index is the one it had, less the switches, and the threads that were woken
      more.  So it runs before there have been more switches than that, in every run. */
  lemma {:induction false} WaitsBounded(run: seq<State>, acts: seq<Action>, i: nat, n: nat, t: Tid, k: nat)
    requires IsRun(run, acts) && i + n <= |acts| && ReadyAt(run[i], t, k)
    requires forall j :: i <= j <= i + n ==> run[j].running != t
    ensures SwitchCount(run, acts, i, n) <= k + WakeCount(run, acts, i, n)
    ensures ReadyAt(run[i + n], t, k + WakeCount(run, acts, i, n) - SwitchCount(run, acts, i, n))
  {
    if n > 0 {
      WaitsBounded(run, acts, i, n - 1, t, k);
      RunShifts(run, acts, i + n - 1, t, k + WakeCount(run, acts, i, n - 1) - SwitchCount(run, acts, i, n - 1));
    }
  }

  /** With nothing but switches, the thread at index k runs after k + 1 of them. */
  lemma {:induction false} TurnComes(run: seq<State>, acts: seq<Action>, i: nat, t: Tid, k: nat)
    requires IsRun(run, acts) && i + k < |acts| && ReadyAt(run[i], t, k)
    requires forall j :: i <= j <= i + k ==> SwitchAt(run, acts, j)
    ensures run[i + k + 1].running == t
    decreases k
  {
    RunShifts(run, acts, i, t, k);
    if k > 0 {
      TurnComes(run, acts, i + 1, t, k - 1);
    }
  }

  // ---------------------------------------------------------------- first come, first served at a semaphore

  /** What a step does to the waiters of lock l. */
  ghost predicate Queue(s: State, a: Action, s': State, l: LockId)
    requires Enabled(s, a) && l in s.locks && l in s'.locks
  {
    var pc := s.Me().pc;
    s'.locks[l].waiters ==
      if a.Go? && (pc == Down(l) || pc == Retest(l)) && s.locks[l].value == 0 then s.locks[l].waiters + [s.running]
      else if a.Go? && pc == Up(l) && s.locks[l].waiters != [] then s.locks[l].waiters[1..]
      else s.locks[l].waiters
  }

  /** Every step treats the waiters so: who blocks goes to the end, and sema_up takes the first. */
  lemma StepQueue(s: State, a: Action, l: LockId)
    requires Inv(s) && Enabled(s, a) && l in s.locks
    ensures var s' := Next(s, a); l in s'.locks && Queue(s, a, s', l)
  {
    match a
    case Go =>
      match s.Me().pc {
        case Down(k) => DownQueue(s, k, l);
        case Retest(k) => DownQueue(s, k, l);
        case Up(k) => UpQueue(s, k, l);
        case _ =>
      }
    case Tick => ScheduleMoves(s);
    case Yield =>
      RequeueMoves(s);
      ScheduleMoves(Requeue(s));
    case Park(status) =>
      RepositionQueues(s, status, Parked);
      assert s.Check(IsBlocked(status)).WithPc(Parked).WithStatus(s.running, status) == Repositioned(s, status, Parked);
      ScheduleMoves(Repositioned(s, status, Parked));
    case _ =>
  }

  lemma DownQueue(s: State, k: LockId, l: LockId)
    requires Inv(s) && Enabled(s, Go) && l in s.locks && (s.Me().pc == Down(k) || s.Me().pc == Retest(k))
    ensures var s' := Next(s, Go); l in s'.locks && Queue(s, Go, s', l)
  {
    if s.locks[k].value == 0 {
      EnqueueQueues(s, k);
      SemaDownBlocks(s, k);
      ScheduleMoves(Enqueued(s, k));
    }
  }

  lemma UpQueue(s: State, k: LockId, l: LockId)
    requires Inv(s) && Enabled(s, Go) && l in s.locks && s.Me().pc == Up(k)
    ensures var s' := Next(s, Go); l in s'.locks && Queue(s, Go, s', l)
  {
    assert LockOk(s, k) && Owns(s, s.running, k);
    if s.locks[k].waiters != [] {
      WakeQueues(s, k);
    }
    SemaUpIs(s, k);
  }

  /** Of two threads that wait, the one that came first is woken first: the other is not taken before it. */
  lemma FirstServed(s: State, a: Action, l: LockId, i: nat, j: nat)
    requires Inv(s) && Enabled(s, a) && l in s.locks && i < j < |s.locks[l].waiters|
    ensures l in Next(s, a).locks && InOrder(s.locks[l].waiters, Next(s, a).locks[l].waiters, i, j)
  {
    StepQueue(s, a, l);
    KeepsOrder(s.locks[l].waiters, Next(s, a).locks[l].waiters, s.running, i, j);
  }

  /** The first of the queue was taken, and i and j have moved up, or they are where they were. */
  ghost predicate InOrder(q: seq<Tid>, q': seq<Tid>, i: nat, j: nat)
    requires i < j < |q|
  {
    if |q'| < |q| then j - 1 < |q'| && q'[j - 1] == q[j] && (i == 0 || q'[i - 1] == q[i])
    else j < |q'| && q'[i] == q[i] && q'[j] == q[j]
  }

  lemma KeepsOrder(q: seq<Tid>, q': seq<Tid>, t: Tid, i: nat, j: nat)
    requires i < j < |q| && (q' == q || q' == q + [t] || q' == q[1..])
    ensures InOrder(q, q', i, j)
  {
  }
}
