/** What the semaphore calls do to their caller and to the waiters (osdev/kernel/sync/semaphore.c). */
module Semaphore {
  import opened Threads
  import opened Wakeups
  import opened Sync
  import opened Basics

  /** semaphore_wait passes exactly if the count was positive; otherwise its caller heads the queue and is not ready. */
  lemma {:induction false} WaitExact(x: Sems, q: Wq)
    requires SemsWf(x) && q in x.value && x.k.tcb[x.k.run].on.None? && !x.k.tcb[x.k.run].wake
    ensures var y, t := Wait(x, q), x.k.run;
      && y.value == x.value[q := x.value[q] - 1]
      && (x.value[q] > 0 ==> y.k == x.k)
      && (x.value[q] <= 0 ==>
            && y.k.queues == x.k.queues[q := [t] + x.k.queues[q]]
            && t in y.k.tcb && y.k.tcb[t] == x.k.tcb[t].(on := Some(q), ready := false)
            && (y.k.run == t <==> !Relief(x.k)))
  {
    if x.value[q] <= 0 { SleepRecords(x.k, q); }
  }

  /** semaphore_signal makes the first waiter, if the count was negative, runnable; nobody else is touched. */
  lemma {:induction false} SignalExact(x: Sems, q: Wq)
    requires SemsWf(x) && q in x.value
    ensures var y := Signal(x, q);
      && y.value == x.value[q := x.value[q] + 1]
      && if x.value[q] >= 0 || x.k.queues[q] == [] then y.k == x.k
         else
           var t := x.k.queues[q][0];
           && t in x.k.tcb && y.k.run == x.k.run && y.k.queues == x.k.queues[q := x.k.queues[q][1..]]
           && y.k.tcb == x.k.tcb[t := x.k.tcb[t].(on := None, wake := true, ready := true)]
  {
    WakeOneRecords(x.k, q);
  }

  /** n waits in a row. */
  function Waits(x: Sems, q: Wq, n: nat): (y: Sems)
    requires SemsWf(x) && q in x.value && n <= x.value[q]
    ensures SemsWf(y)
    decreases n
  {
    if n == 0 then x else Waits(Wait(x, q), q, n - 1)
  }

  /** A count of n lets n waits pass and nothing else changes. */
  lemma {:induction false} WaitsPass(x: Sems, q: Wq, n: nat)
    requires SemsWf(x) && q in x.value && n <= x.value[q]
    ensures Waits(x, q, n) == x.(value := x.value[q := x.value[q] - n])
    decreases n
  {
    if n > 0 {
      WaitsPass(Wait(x, q), q, n - 1);
    } else {
      assert x.value == x.value[q := x.value[q]];
    }
  }

  lemma {:induction false} OpenSems(x: Sems, q: Wq, init: int)
    requires SemsWf(x) && q !in x.k.queues
    ensures SemsWf(Open(x, q, init))
  {
    assert Parked(x.k.queues[q := []], x.k.tcb);
  }

  /** A new semaphore lets exactly its initial count of waits pass: the next one parks its caller, alone. */
  lemma {:induction false} OpenGrants(x: Sems, q: Wq, init: nat)
    requires SemsWf(x) && q !in x.k.queues && x.k.tcb[x.k.run].on.None? && !x.k.tcb[x.k.run].wake
    ensures SemsWf(Open(x, q, init)) && q in Open(x, q, init).value && Open(x, q, init).value[q] == init
    ensures forall n: nat :: n <= init ==> Waits(Open(x, q, init), q, n).k == x.k.(queues := x.k.queues[q := []])
    ensures var y := Wait(Waits(Open(x, q, init), q, init), q);
      q in y.k.queues && y.k.queues[q] == [x.k.run] && x.k.run in y.k.tcb && !y.k.tcb[x.k.run].ready
  {
    OpenSems(x, q, init);
    var o := Open(x, q, init);
    forall n: nat | n <= init ensures Waits(o, q, n) == o.(value := o.value[q := init - n]) {
      WaitsPass(o, q, n);
    }
    WaitExact(Waits(o, q, init), q);
  }

  /** semaphore_destroy undoes semaphore_create, and refuses exactly while somebody waits. */
  lemma {:induction false} DestroyUndoes(x: Sems, q: Wq, init: int)
    requires SemsWf(x)
    ensures q !in x.k.queues ==> SemsWf(Open(x, q, init)) && Destroy(Open(x, q, init), q) == x
    ensures q in x.value ==> (q !in Destroy(x, q).value <==> x.k.queues[q] == []) && (x.k.queues[q] != [] ==> Destroy(x, q) == x)
    ensures forall w :: w in x.value && w != q ==> w in Destroy(x, q).value && Destroy(x, q).value[w] == x.value[w]
  {
    if q !in x.k.queues {
      OpenSems(x, q, init);
      assert x.k.queues[q := []] - {q} == x.k.queues;
      assert x.value[q := init] - {q} == x.value;
    }
  }

  // ---- why a thread is not ready ----

  /** Whom an event stops. */
  function Stopped(x: Sems, e: Event): set<Tid> {
    if e.KernelEv? then Stops(x.k, e.c) else {}
  }

  lemma {:induction false} StepStirs(x: Sems, e: Event)
    requires Can(x, e)
    ensures Stirs(x.k, Step(x, e).k, Stopped(x, e))
  {
    match e
    case WaitEv(q) => if q in x.value { SleepStirs(x.k, q); }
    case SignalEv(q) => if q in x.value { WakeOneRecords(x.k, q); }
    case WakeTidEv(q, t) => WakeTidWf(x.k, q, t);
    case KernelEv(c) => ExecStirs(x.k, c);
    case _ =>
  }

  ghost function Kernels(xs: seq<Sems>): seq<State> {
    seq(|xs|, i requires 0 <= i < |xs| => xs[i].k)
  }

  ghost function Stoppings(xs: seq<Sems>, es: seq<Event>): seq<set<Tid>>
    requires |xs| == |es| + 1
  {
    seq(|es|, i requires 0 <= i < |es| => Stopped(xs[i], es[i]))
  }

  /** In every run a thread that is neither ready nor parked was stopped by name, and has been so since. */
  lemma {:induction false} NobodyIsForgotten(xs: seq<Sems>, es: seq<Event>, n: nat, t: Tid)
    requires IsRun(xs, es) && n <= |es| && t in xs[n].k.tcb
    ensures xs[n].k.tcb[t].ready || xs[n].k.tcb[t].on.Some? || exists i :: StoppedAt(Kernels(xs), Stoppings(xs, es), i, n, t)
  {
    forall i | 0 <= i < |es| ensures Stirs(xs[i].k, xs[i + 1].k, Stopped(xs[i], es[i])) {
      StepStirs(xs[i], es[i]);
    }
    if Stalled(xs[n].k, t) { StalledWasStopped(Kernels(xs), Stoppings(xs, es), n, t); }
  }
}
