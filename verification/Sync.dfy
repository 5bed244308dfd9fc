/**
 Counting semaphores over wait queues (osdev/kernel/sync/semaphore.c,
 osdev/kernel/sync/wait_queue.c) and what holds of them in every run, together
 with the scheduler commands that reach into the wait queues.
 */
module Sync {
  import opened Threads
  import opened ProcessSpec
  import opened ProcExit
  import opened Gate
  import opened Basics

  /** value: the count of each semaphore; its waiters are the wait queue of the same name. */
  datatype Sems = Sems(k: State, value: map<Wq, int>)

  ghost predicate SemsWf(x: Sems) {
    Wf(x.k) && x.value.Keys <= x.k.queues.Keys
  }

  function Wait(x: Sems, q: Wq): Sems
    requires SemsWf(x)
  {
    if q !in x.value then x
    else
      var v := x.value[q] - 1;
      Sems(if v < 0 then Sleep(x.k, q) else x.k, x.value[q := v])
  }

  function Signal(x: Sems, q: Wq): Sems
    requires SemsWf(x)
  {
    if q !in x.value then x
    else
      var v := x.value[q] + 1;
      Sems(if v <= 0 then WakeOne(x.k, q) else x.k, x.value[q := v])
  }

  /** A semaphore or a bare queue (a mailbox's waiters) comes into being. */
  function Open(x: Sems, q: Wq, init: int): Sems {
    Sems(x.k.(queues := x.k.queues[q := []]), x.value[q := init])
  }

  function Destroy(x: Sems, q: Wq): Sems
    requires SemsWf(x)
  {
    if q !in x.value || x.k.queues[q] != [] then x
    else Sems(x.k.(queues := x.k.queues - {q}), x.value - {q})
  }

  /** wait_queue_wake_by_tid. */
  function WakeTid(s: State, q: Wq, t: Tid): State
    requires q in s.queues
  {
    if t in s.queues[q] && t in s.tcb && s.tcb[t].on == Some(q)
    then Unblock(s.(queues := s.queues[q := Without(s.queues[q], t)], tcb := s.tcb[t := s.tcb[t].(on := None)]), t)
    else s
  }

  /** One gate: everything that can touch a wait queue. */
  datatype Event =
    | WaitEv(q: Wq)
    | SignalEv(q: Wq)
    | OpenEv(q: Wq, init: int)
    | DestroyEv(q: Wq)
    | WakeTidEv(q: Wq, t: Tid)
    | KernelEv(c: Cmd)

  ghost predicate Can(x: Sems, e: Event) {
    && SemsWf(x) && Resting(x.k)
    && (e.OpenEv? ==> e.q !in x.k.queues && e.init >= 0)
    && (e.WakeTidEv? ==> e.q in x.k.queues)
    && (e.KernelEv? ==> Enabled(x.k, e.c) && Exec(x.k, e.c).Some? && (e.c.SleepCmd? ==> e.c.q !in x.value))
  }

  /** The event and the commit of the switch it requested. */
  function Step(x: Sems, e: Event): Sems
    requires Can(x, e)
  {
    var y := match e
      case WaitEv(q) => Wait(x, q)
      case SignalEv(q) => Signal(x, q)
      case OpenEv(q, init) => Open(x, q, init)
      case DestroyEv(q) => Destroy(x, q)
      case WakeTidEv(q, t) => x.(k := WakeTid(x.k, q, t))
      case KernelEv(c) => x.(k := Exec(x.k, c).value);
    y.(k := Commit(y.k))
  }

  function Max(a: int, b: int): int { if a > b then a else b }

  /** At most as many threads are queued as the count is negative. */
  ghost predicate Bounded(x: Sems) {
    SemsWf(x) && forall q :: q in x.value ==> |x.k.queues[q]| <= Max(0, -x.value[q])
  }

  ghost predicate Exact(x: Sems) {
    SemsWf(x) && forall q :: q in x.value ==> |x.k.queues[q]| == Max(0, -x.value[q])
  }

  /** Events under which no waiter is taken off behind the semaphore's back and nobody waits while queued. */
  predicate Disciplined(x: Sems, e: Event)
    requires x.k.run in x.k.tcb
  {
    match e
    case WaitEv(q) => x.k.tcb[x.k.run].on.None?
    case WakeTidEv(q, t) => q !in x.value
    case KernelEv(c) => !c.DeleteCmd? && !c.ExitCmd? && (c.WakeCmd? ==> c.q !in x.value)
    case _ => true
  }

  // ---- wait queues under scheduler commands ----

  /** No queue grows, and with `same` none shrinks. */
  ghost predicate Shrunk(s: State, s': State, same: bool) {
    && s'.queues.Keys == s.queues.Keys
    && (forall q :: q in s.queues ==> if same then s'.queues[q] == s.queues[q] else |s'.queues[q]| <= |s.queues[q]|)
  }

  lemma {:induction false} RemoveShrinks(s: State, t: Tid)
    requires Wf(s) && t in s.tcb
    ensures Shrunk(s, Remove(s, t), false)
  {
    if s.tcb[t].on.Some? {
      var q := s.tcb[t].on.value;
      assert q in s.queues && NoDup(s.queues[q]);
      WithoutNoDup(s.queues[q], t);
    }
  }

  lemma {:induction false} ExitShrinks(s: State, pid: Pid)
    requires Wf(s) && pid in s.procs && ExitLoop(s, pid).Some?
    ensures Shrunk(s, ExitLoop(s, pid).value, false)
    decreases |s.procs[pid]|
  {
    if s.procs[pid] != [] {
      var t := s.procs[pid][0];
      assert t in s.procs[pid];
      WithoutNoDup(s.procs[pid], t);
      if t != s.run {
        RemoveWf(s, t);
        RemoveShrinks(s, t);
        ExitShrinks(Remove(s, t), pid);
      } else {
        FindNextReady(s);
        var n := FindNext(s).value;
        GoWf(s, n);
        RemoveWf(Go(s, n), t);
        RemoveShrinks(Go(s, n), t);
        ExitShrinks(Remove(Go(s, n), t), pid);
      }
    }
  }

  lemma {:induction false} ExecShrinks(s: State, c: Cmd)
    requires Resting(s) && Enabled(s, c) && Exec(s, c).Some? && !c.SleepCmd? && !c.WakeCmd?
    ensures Shrunk(s, Exec(s, c).value, !c.DeleteCmd? && !c.ExitCmd?)
  {
    FindNextReady(s);
    match c
    case ExitCmd(p) => if p in s.procs { ExitShrinks(s, p); }
    case DeleteCmd(t) =>
      if t in s.tcb && (t != s.run || FindNext(s).Some?) {
        if t != s.run {
          RemoveShrinks(s, t);
        } else {
          GoWf(s, FindNext(s).value);
          RemoveShrinks(Go(s, FindNext(s).value), t);
        }
      }
    case BlockCmd(t) => BlockQueues(s, t);
    case _ =>
  }

  lemma {:induction false} BlockQueues(s: State, t: Tid)
    requires Wf(s)
    ensures Block(s, t).queues == s.queues
  {
    if t in s.tcb && !s.tcb[t].wake {
      SetTcbWf(s, t, s.tcb[t].(ready := false));
      FindNextReady(SetTcb(s, t, s.tcb[t].(ready := false)));
    }
  }

  /** What going to sleep and waking do to the queues. */
  lemma {:induction false} SleepQueues(s: State, q: Wq)
    requires Wf(s) && q in s.queues
    ensures Sleep(s, q).queues == if s.tcb[s.run].on.Some? then s.queues else s.queues[q := [s.run] + s.queues[q]]
  {
    if s.tcb[s.run].on.None? {
      EnqueueWf(s, q);
      BlockQueues(Enqueue(s, q), s.run);
    }
  }

  lemma {:induction false} WakeQueues(s: State, q: Wq)
    requires Wf(s) && q in s.queues
    ensures WakeOne(s, q).queues == if s.queues[q] == [] then s.queues else s.queues[q := s.queues[q][1..]]
  {
    if s.queues[q] != [] { DequeueWf(s, q); }
  }

  lemma {:induction false} WakeTidWf(s: State, q: Wq, t: Tid)
    requires InGate(s) && q in s.queues
    ensures InGate(WakeTid(s, q, t)) && Shrunk(s, WakeTid(s, q, t), false)
    ensures forall r :: r in s.queues && r != q ==> WakeTid(s, q, t).queues[r] == s.queues[r]
    ensures forall u :: u in WakeTid(s, q, t).queues[q] <==> u in s.queues[q] && u != t
    ensures t in s.queues[q] ==> t in s.tcb && WakeTid(s, q, t).tcb == s.tcb[t := s.tcb[t].(on := None, wake := true, ready := true)]
    ensures t !in s.queues[q] ==> WakeTid(s, q, t) == s
  {
    WithoutNoDup(s.queues[q], t);
    if t in s.queues[q] && t in s.tcb && s.tcb[t].on == Some(q) {
      var s' := s.(queues := s.queues[q := Without(s.queues[q], t)], tcb := s.tcb[t := s.tcb[t].(on := None)]);
      assert Parked(s'.queues, s'.tcb);
      UnblockInGate(s', t);
    }
  }

  // ---- the invariant ----

  lemma {:induction false} StepRests(x: Sems, e: Event)
    requires Can(x, e)
    ensures Resting(Step(x, e).k)
  {
    match e
    case WaitEv(q) => if q in x.value && x.value[q] - 1 < 0 { SleepInGate(x.k, q); CommitRests(Sleep(x.k, q)); }
    case SignalEv(q) => if q in x.value { StaysResting(x.k, WakeCmd(q)); }
    case OpenEv(q, init) => assert Parked(x.k.queues[q := []], x.k.tcb);
    case DestroyEv(q) => if q in x.value && x.k.queues[q] == [] { assert Parked(x.k.queues - {q}, x.k.tcb); }
    case WakeTidEv(q, t) => WakeTidWf(x.k, q, t); CommitRests(WakeTid(x.k, q, t));
    case KernelEv(c) => ExecInGate(x.k, c); CommitRests(Exec(x.k, c).value);
  }

  lemma {:induction false} WaitBounded(x: Sems, q: Wq)
    requires SemsWf(x) && q in x.value && Bounded(x)
    ensures Wait(x, q).k.queues.Keys == x.k.queues.Keys
    ensures forall r :: r in x.value && r != q ==> Wait(x, q).k.queues[r] == x.k.queues[r]
    ensures |Wait(x, q).k.queues[q]| <= Max(0, -Wait(x, q).value[q])
    ensures |x.k.queues[q]| == Max(0, -x.value[q]) && x.k.tcb[x.k.run].on.None? ==> |Wait(x, q).k.queues[q]| == Max(0, -Wait(x, q).value[q])
  {
    SleepQueues(x.k, q);
  }

  lemma {:induction false} SignalBounded(x: Sems, q: Wq)
    requires SemsWf(x) && q in x.value && Bounded(x)
    ensures Signal(x, q).k.queues.Keys == x.k.queues.Keys
    ensures forall r :: r in x.value && r != q ==> Signal(x, q).k.queues[r] == x.k.queues[r]
    ensures |Signal(x, q).k.queues[q]| <= Max(0, -Signal(x, q).value[q])
    ensures |x.k.queues[q]| == Max(0, -x.value[q]) ==> |Signal(x, q).k.queues[q]| == Max(0, -Signal(x, q).value[q])
  {
    WakeQueues(x.k, q);
  }

  /** Only the queue and the count of q changed. */
  lemma {:induction false} OneQueueBounded(x: Sems, y: Sems, q: Wq)
    requires Bounded(x) && SemsWf(y) && q in x.value && y.value.Keys == x.value.Keys && |y.k.queues[q]| <= Max(0, -y.value[q])
    requires forall r :: r in x.value && r != q ==> y.value[r] == x.value[r] && y.k.queues[r] == x.k.queues[r]
    ensures Bounded(y) && (Exact(x) && |y.k.queues[q]| == Max(0, -y.value[q]) ==> Exact(y))
  {
  }

  lemma {:induction false} StepWait(x: Sems, q: Wq)
    requires Can(x, WaitEv(q)) && Bounded(x)
    ensures Bounded(Step(x, WaitEv(q)))
    ensures Exact(x) && Disciplined(x, WaitEv(q)) ==> Exact(Step(x, WaitEv(q)))
  {
    StepRests(x, WaitEv(q));
    if q in x.value {
      WaitBounded(x, q);
      OneQueueBounded(x, Step(x, WaitEv(q)), q);
    }
  }

  lemma {:induction false} StepSignal(x: Sems, q: Wq)
    requires Can(x, SignalEv(q)) && Bounded(x)
    ensures Bounded(Step(x, SignalEv(q)))
    ensures Exact(x) && Disciplined(x, SignalEv(q)) ==> Exact(Step(x, SignalEv(q)))
  {
    StepRests(x, SignalEv(q));
    if q in x.value {
      SignalBounded(x, q);
      OneQueueBounded(x, Step(x, SignalEv(q)), q);
    }
  }

  lemma {:induction false} StepWakeTid(x: Sems, q: Wq, t: Tid)
    requires Can(x, WakeTidEv(q, t)) && Bounded(x)
    ensures Bounded(Step(x, WakeTidEv(q, t)))
    ensures Exact(x) && Disciplined(x, WakeTidEv(q, t)) ==> Exact(Step(x, WakeTidEv(q, t)))
  {
    StepRests(x, WakeTidEv(q, t));
    WakeTidWf(x.k, q, t);
  }

  lemma {:induction false} StepKernel(x: Sems, c: Cmd)
    requires Can(x, KernelEv(c)) && Bounded(x)
    ensures Bounded(Step(x, KernelEv(c)))
    ensures Exact(x) && Disciplined(x, KernelEv(c)) ==> Exact(Step(x, KernelEv(c)))
  {
    StepRests(x, KernelEv(c));
    KernelBounded(x, c);
  }

  lemma {:induction false} StepBounded(x: Sems, e: Event)
    requires Can(x, e) && Bounded(x)
    ensures Bounded(Step(x, e))
    ensures Exact(x) && Disciplined(x, e) ==> Exact(Step(x, e))
  {
    match e
    case WaitEv(q) => StepWait(x, q);
    case SignalEv(q) => StepSignal(x, q);
    case WakeTidEv(q, t) => StepWakeTid(x, q, t);
    case KernelEv(c) => StepKernel(x, c);
    case _ => StepRests(x, e);
  }

  lemma {:induction false} KernelBounded(x: Sems, c: Cmd)
    requires Can(x, KernelEv(c)) && Bounded(x)
    ensures var k := Exec(x.k, c).value;
      && k.queues.Keys == x.k.queues.Keys
      && (forall r :: r in x.value ==> |k.queues[r]| <= |x.k.queues[r]|)
      && (Disciplined(x, KernelEv(c)) ==> forall r :: r in x.value ==> |k.queues[r]| == |x.k.queues[r]|)
  {
    if c.SleepCmd? {
      SleepQueues(x.k, c.q);
    } else if c.WakeCmd? {
      WakeQueues(x.k, c.q);
    } else {
      ExecShrinks(x.k, c);
    }
  }

  /**
   Deleting a waiter does not give its count back: the semaphore keeps its
   value with one waiter fewer, so the bound is no longer met exactly.
   */
  lemma {:induction false} DeletedWaiterKeepsCount(x: Sems, t: Tid, q: Wq)
    requires SemsWf(x) && Resting(x.k) && q in x.value && t in x.k.queues[q] && t != x.k.run
    ensures Can(x, KernelEv(DeleteCmd(t)))
    ensures var y := Step(x, KernelEv(DeleteCmd(t)));
      q in y.value && q in y.k.queues && y.value[q] == x.value[q] && |y.k.queues[q]| == |x.k.queues[q]| - 1
  {
    assert x.k.tcb[t].on == Some(q);
    WithoutNoDup(x.k.queues[q], t);
  }

  ghost predicate IsRun(xs: seq<Sems>, es: seq<Event>) {
    && |xs| == |es| + 1
    && (forall i :: 0 <= i < |es| ==> Can(xs[i], es[i]) && xs[i + 1] == Step(xs[i], es[i]))
  }

  /**
   In every run: a thread is on a wait queue exactly when its waiting_on names
   the queue (Wf), and a semaphore never has more waiters than its count is
   negative; exactly as many if no waiter is deleted and nobody waits while
   already queued.
   */
  lemma {:induction false} RunBounded(xs: seq<Sems>, es: seq<Event>, i: nat)
    requires IsRun(xs, es) && i <= |es| && Bounded(xs[0])
    ensures Bounded(xs[i])
    ensures Exact(xs[0]) && (forall j :: 0 <= j < i ==> xs[j].k.run in xs[j].k.tcb && Disciplined(xs[j], es[j])) ==> Exact(xs[i])
  {
    if i > 0 {
      RunBounded(xs, es, i - 1);
      assert Can(xs[i - 1], es[i - 1]) && xs[i - 1 + 1] == Step(xs[i - 1], es[i - 1]);
      StepBounded(xs[i - 1], es[i - 1]);
    }
  }
}
