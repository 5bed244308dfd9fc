/** Whoever has something to do in the portal protocol can run. */
module PortalReady {
  import opened Threads
  import Sync
  import Semaphore
  import opened Wakeups
  import opened PortalSpec
  import opened PortalRun
  import opened PortalProof
  import opened Basics

  /** Whom an event stops: thread_block by name, or a new thread that nobody has unblocked yet. */
  function Stopped(s: Sys, e: Event): set<Tid> {
    if e.OtherEv? then Semaphore.Stopped(s.p.x, e.e) else {}
  }

  lemma {:induction false} WaitStirs(x: Sync.Sems, q: Wq)
    requires Sync.SemsWf(x)
    ensures Stirs(x.k, Sync.Wait(x, q).k, {})
  {
    if q in x.value { SleepStirs(x.k, q); }
  }

  lemma {:induction false} SignalStirs(x: Sync.Sems, q: Wq)
    requires Sync.SemsWf(x)
    ensures Stirs(x.k, Sync.Signal(x, q).k, {})
  {
    if q in x.value { WakeOneRecords(x.k, q); }
  }

  lemma {:induction false} CallStirs(s: Ports, id: int, size: int, f: Fresh)
    requires Sync.SemsWf(s.x) && (f.sem.Some? ==> f.sem.value !in s.x.k.queues)
    ensures Stirs(s.x.k, Call(s, id, size, f).0.x.k, {})
  {
    var i := ById(s.portals, id);
    if i.Some? && f.sem.Some? {
      OpenWf(s.x, f.sem.value);
      SignalStirs(Sync.Open(s.x, f.sem.value, 0), s.portals[i.value].sem);
    }
  }

  lemma {:induction false} StepStirs(s: Sys, e: Event)
    requires Can(s, e)
    ensures Stirs(s.p.x.k, Step(s, e).p.x.k, Stopped(s, e))
  {
    match e
    case CallEv(id, size, f) => CallStirs(s.p, id, size, f);
    case WaitReplyEv => if At(s).r != 0 { WaitStirs(s.p.x, s.p.reqs[At(s).r].done); }
    case WaitEv =>
      var i := ByTid(s.p.portals, s.p.x.k.run);
      if i.Some? { WaitStirs(s.p.x, s.p.portals[i.value].sem); }
    case ReplyEv(r, v) => if r != 0 { SignalStirs(s.p.x, s.p.reqs[r].done); }
    case KillEv(t) => DeleteStirs(s.p.x.k, t);
    case OtherEv(o) => Semaphore.StepStirs(s.p.x, o);
    case _ =>
  }

  ghost function Kernels(xs: seq<Sys>): seq<Threads.State> {
    seq(|xs|, i requires 0 <= i < |xs| => xs[i].p.x.k)
  }

  ghost function Stoppings(xs: seq<Sys>, es: seq<Event>): seq<set<Tid>>
    requires |xs| == |es| + 1
  {
    seq(|es|, i requires 0 <= i < |es| => Stopped(xs[i], es[i]))
  }

  lemma {:induction false} RunStirs(xs: seq<Sys>, es: seq<Event>)
    requires IsRun(xs, es)
    ensures Stirring(Kernels(xs), Stoppings(xs, es))
  {
    forall i | 0 <= i < |es| ensures Stirs(xs[i].p.x.k, xs[i + 1].p.x.k, Stopped(xs[i], es[i])) {
      StepStirs(xs[i], es[i]);
    }
  }

  /** What the phase of t waits for has happened. */
  ghost predicate Due(s: Sys, t: Tid) {
    match PhaseOf(s.phase, t)
    case Waiting(r) => r in s.p.reqs && Answered(s.p.reqs[r], r in s.holder)
    case Serving(i) => i < |s.p.portals| && s.p.portals[i].queue != []
    case _ => true
  }

  /** A thread is parked on a semaphore of the protocol exactly while what it waits for has not happened. */
  lemma {:induction false} ParkedExactly(s: Sys, t: Tid)
    requires Inv(s) && t in s.p.x.k.tcb
    ensures Due(s, t) <==> s.p.x.k.tcb[t].on.None? || Foreign(s.p, s.p.x.k.tcb[t].on.value)
  {
    var on := s.p.x.k.tcb[t].on;
    if Due(s, t) {
      if on.Some? { DueForeign(s, t, on.value); }
    } else {
      NotDueParked(s, t);
    }
  }

  lemma {:induction false} DueForeign(s: Sys, t: Tid, q: Wq)
    requires Inv(s) && t in s.p.x.k.tcb && Due(s, t) && s.p.x.k.tcb[t].on == Some(q)
    ensures Foreign(s.p, q)
  {
    assert t in s.p.x.k.queues[q];
    forall i | 0 <= i < |s.p.portals| ensures s.p.portals[i].sem != q { assert PortalOk(s, i); }
    forall r | r in s.p.reqs ensures s.p.reqs[r].done != q { assert ReqOk(s, r); }
  }

  lemma {:induction false} NotDueParked(s: Sys, t: Tid)
    requires Inv(s) && t in s.p.x.k.tcb && !Due(s, t)
    ensures s.p.x.k.tcb[t].on.Some? && !Foreign(s.p, s.p.x.k.tcb[t].on.value) && !s.p.x.k.tcb[t].ready
  {
    assert OwnPhase(s.phase[t], t, s.p.portals, s.p.reqs);
    match s.phase[t]
    case Waiting(r) =>
      assert ReqOk(s, r);
      assert t in s.p.x.k.queues[s.p.reqs[r].done];
    case Serving(i) =>
      assert PortalOk(s, i);
      assert t in s.p.x.k.queues[s.p.portals[i].sem];
  }

  /**
   In every run a client whose request is answered and a server whose WAIT is
   over can run, unless they went to sleep elsewhere since, or were stopped by
   name after they were last parked.
   */
  lemma {:induction false} WhoIsDueCanRun(xs: seq<Sys>, es: seq<Event>, n: nat, t: Tid)
    requires IsRun(xs, es) && n <= |es| && Blank(xs[0]) && t in xs[n].p.x.k.tcb && Due(xs[n], t)
    ensures var c := xs[n].p.x.k.tcb[t];
      c.ready || (c.on.Some? && Foreign(xs[n].p, c.on.value)) || exists i :: StoppedAt(Kernels(xs), Stoppings(xs, es), i, n, t)
  {
    RunKeeps(xs, es, n);
    ParkedExactly(xs[n], t);
    if Stalled(xs[n].p.x.k, t) {
      RunStirs(xs, es);
      StalledWasStopped(Kernels(xs), Stoppings(xs, es), n, t);
    }
  }
}
