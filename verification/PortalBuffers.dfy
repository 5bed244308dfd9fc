/** The buffer of a portal call: shared by CALL, handed out by GET_REQ, given back by CLEANUP. */
module PortalBuffers {
  import opened Threads
  import Sync
  import opened Wakeups
  import opened PortalSpec
  import opened PortalRun
  import opened PortalProof
  import opened Basics

  /** What a CALL brings: its caller, the process the buffer was shared into, the address there and the size. */
  datatype Offer = Offer(client: Tid, server: Pid, shm: int, size: int)

  function OfferOf(q: Req): Offer {
    Offer(q.client, q.server, q.shm, q.size)
  }

  /** The CALL among the first n events that posted request r, read from the event. */
  ghost function Offered(xs: seq<Sys>, es: seq<Event>, n: nat, r: Rid): Option<Offer>
    requires IsRun(xs, es) && n <= |es|
  {
    if n == 0 then None
    else if r in xs[n - 1].p.reqs then Offered(xs, es, n - 1, r)
    else Brought(xs[n - 1], es[n - 1], r)
  }

  /** What event e brings with request r. */
  ghost function Brought(s: Sys, e: Event, r: Rid): Option<Offer> {
    if !e.CallEv? || e.f.req != Some(r) then None
    else
      match ById(s.p.portals, e.id)
      case None => None
      case Some(i) => Some(Offer(s.p.x.k.run, s.p.portals[i].pid, e.f.shm, e.size))
  }

  /** A live request stores o. */
  ghost predicate Stores(s: Sys, r: Rid, o: Option<Offer>) {
    r in s.p.reqs ==> o == Some(OfferOf(s.p.reqs[r]))
  }

  lemma {:induction false} StepStores(s: Sys, e: Event, r: Rid, o: Option<Offer>)
    requires Can(s, e) && Stores(s, r, o)
    ensures Stores(Step(s, e), r, if r in s.p.reqs then o else Brought(s, e, r))
  {
  }

  /** A request keeps what its CALL brought for as long as it lives. */
  lemma {:induction false} RunStores(xs: seq<Sys>, es: seq<Event>, n: nat, r: Rid)
    requires IsRun(xs, es) && n <= |es| && Blank(xs[0])
    ensures Stores(xs[n], r, Offered(xs, es, n, r))
  {
    if n > 0 {
      RunStores(xs, es, n - 1, r);
      assert Can(xs[n - 1], es[n - 1]) && xs[n - 1 + 1] == Step(xs[n - 1], es[n - 1]);
      StepStores(xs[n - 1], es[n - 1], r, Offered(xs, es, n - 1, r));
    }
  }

  // ---- the process of the server ----

  /** A portal belongs to the process of its thread, and so do the buffers of the requests on its queue. */
  ghost predicate Housed(s: Sys, i: nat) {
    && i < |s.p.portals|
    && var p := s.p.portals[i];
       && p.tid in s.p.x.k.tcb && s.p.x.k.tcb[p.tid].pid == p.pid
       && (forall r :: r in p.queue && r in s.p.reqs ==> s.p.reqs[r].server == p.pid)
  }

  ghost predicate AllHoused(s: Sys) {
    forall i :: 0 <= i < |s.p.portals| ==> Housed(s, i)
  }

  lemma {:induction false} WaitKin(x: Sync.Sems, q: Wq)
    requires Sync.SemsWf(x)
    ensures Kin(x.k, Sync.Wait(x, q).k, {})
  {
    if q in x.value { SleepKin(x.k, q); }
  }

  lemma {:induction false} SignalKin(x: Sync.Sems, q: Wq)
    requires Sync.SemsWf(x)
    ensures Kin(x.k, Sync.Signal(x, q).k, {})
  {
    if q in x.value { WakeOneRecords(x.k, q); }
  }

  lemma {:induction false} CallKin(s: Ports, id: int, size: int, f: Fresh)
    requires Sync.SemsWf(s.x) && (f.sem.Some? ==> f.sem.value !in s.x.k.queues)
    ensures Kin(s.x.k, Call(s, id, size, f).0.x.k, {})
  {
    var i := ById(s.portals, id);
    if i.Some? && f.sem.Some? {
      OpenWf(s.x, f.sem.value);
      SignalKin(Sync.Open(s.x, f.sem.value, 0), s.portals[i.value].sem);
    }
  }

  lemma {:induction false} ServerWaitKin(s: Ports)
    requires Sync.SemsWf(s.x)
    ensures Kin(s.x.k, PortalSpec.Wait(s).0.x.k, {})
  {
    var i := ByTid(s.portals, s.x.k.run);
    if i.Some? { WaitKin(s.x, s.portals[i.value].sem); }
  }

  lemma {:induction false} OtherKin(s: Sys, e: Event)
    requires Can(s, e) && e.OtherEv?
    ensures Kin(s.p.x.k, Step(s, e).p.x.k, {})
  {
    match e.e
    case WaitEv(q) => WaitKin(s.p.x, q);
    case SignalEv(q) => SignalKin(s.p.x, q);
    case WakeTidEv(q, t) => Sync.WakeTidWf(s.p.x.k, q, t);
    case KernelEv(c) => ExecKin(s.p.x.k, c);
    case _ =>
  }

  lemma {:induction false} StepKin(s: Sys, e: Event)
    requires Can(s, e) && !e.KillEv?
    ensures Kin(s.p.x.k, Step(s, e).p.x.k, {})
  {
    match e
    case CallEv(id, size, f) => CallKin(s.p, id, size, f);
    case WaitReplyEv => if At(s).r != 0 { WaitKin(s.p.x, s.p.reqs[At(s).r].done); }
    case WaitEv => ServerWaitKin(s.p);
    case ReplyEv(r, v) => if r != 0 { SignalKin(s.p.x, s.p.reqs[r].done); }
    case OtherEv(_) => OtherKin(s, e);
    case _ =>
  }

  /** The thread of a portal outlives every event. */
  lemma {:induction false} ServerStays(s: Sys, e: Event, i: nat)
    requires Can(s, e) && i < |s.p.portals| && s.p.portals[i].tid in s.p.x.k.tcb
    ensures var t, k' := s.p.portals[i].tid, Step(s, e).p.x.k; t in k'.tcb && k'.tcb[t].pid == s.p.x.k.tcb[t].pid
  {
    if e.KillEv? { DeleteKin(s.p.x.k, e.t); } else { StepKin(s, e); }
  }

  /** Portals keep their thread and process; a queue grows by a CALL only. */
  lemma {:induction false} StepQueues(s: Sys, e: Event, i: nat, r: Rid)
    requires Can(s, e) && i < |s.p.portals|
    ensures var p, p' := s.p.portals[i], Step(s, e).p.portals;
      && i < |p'| && p'[i].tid == p.tid && p'[i].pid == p.pid
      && (r in p'[i].queue ==> r in p.queue || (e.CallEv? && e.f.req == Some(r) && ById(s.p.portals, e.id) == Some(i)))
  {
    if e.CleanupEv? { WithoutSubset(s.p.portals[i].queue, At(s).r, r); }
  }

  lemma {:induction false} WithoutSubset(q: seq<Rid>, x: Rid, r: Rid)
    ensures r in Without(q, x) ==> r in q
  {
    if q != [] {
      WithoutSubset(q[1..], x, r);
      assert q == [q[0]] + q[1..];
    }
  }

  lemma {:induction false} StepHouses(s: Sys, e: Event)
    requires Inv(s) && Can(s, e) && AllHoused(s)
    ensures AllHoused(Step(s, e))
  {
    var s' := Step(s, e);
    forall i | 0 <= i < |s'.p.portals| ensures Housed(s', i) {
      if i < |s.p.portals| { OldHoused(s, e, i); } else { NewHoused(s, e, i); }
    }
  }

  lemma {:induction false} NewHoused(s: Sys, e: Event, i: nat)
    requires Can(s, e) && |s.p.portals| <= i < |Step(s, e).p.portals|
    ensures Housed(Step(s, e), i)
  {
  }

  lemma {:induction false} OldHoused(s: Sys, e: Event, i: nat)
    requires Inv(s) && Can(s, e) && AllHoused(s) && i < |s.p.portals|
    ensures Housed(Step(s, e), i)
  {
    var s', p := Step(s, e), s.p.portals[i];
    assert Housed(s, i);
    ServerStays(s, e, i);
    StepQueues(s, e, i, 0);
    forall r | r in s'.p.portals[i].queue && r in s'.p.reqs ensures s'.p.reqs[r].server == p.pid {
      StepQueues(s, e, i, r);
      if r in p.queue {
        QueuedLive(s, i, r);
        StepStores(s, e, r, Some(OfferOf(s.p.reqs[r])));
      } else {
        StepStores(s, e, r, None);
      }
    }
  }

  lemma {:induction false} QueuedLive(s: Sys, i: nat, r: Rid)
    requires Inv(s) && i < |s.p.portals| && r in s.p.portals[i].queue
    ensures r in s.p.reqs
  {
    var a :| 0 <= a < |s.p.portals[i].queue| && s.p.portals[i].queue[a] == r;
  }

  lemma {:induction false} RunHouses(xs: seq<Sys>, es: seq<Event>, n: nat)
    requires IsRun(xs, es) && n <= |es| && Blank(xs[0])
    ensures AllHoused(xs[n])
  {
    if n > 0 {
      RunHouses(xs, es, n - 1);
      RunKeeps(xs, es, n - 1);
      assert Can(xs[n - 1], es[n - 1]) && xs[n - 1 + 1] == Step(xs[n - 1], es[n - 1]);
      StepHouses(xs[n - 1], es[n - 1]);
    }
  }

  // ---- the theorems ----

  /** Whatever the interleaving, a server is handed the buffer its caller shared into the server's own process. */
  lemma {:induction false} ServerGetsTheSharedBuffer(xs: seq<Sys>, es: seq<Event>, n: nat)
    requires IsRun(xs, es) && n < |es| && Blank(xs[0]) && es[n].GetReqEv?
    ensures var g, run := GetReq(xs[n].p).1, xs[n].p.x.k.run;
      && g.Some? && run in xs[n].p.x.k.tcb
      && match Offered(xs, es, n, g.value)
         case None => false
         case Some(o) => Buffer(xs[n].p, g) == Some((o.shm, o.size)) && o.server == xs[n].p.x.k.tcb[run].pid
  {
    assert Can(xs[n], es[n]) && xs[n + 1] == Step(xs[n], es[n]);
    RunKeeps(xs, es, n);
    RunHouses(xs, es, n);
    GetReqKeeps(xs[n], es[n]);
    var r, i := GetReq(xs[n].p).1.value, At(xs[n]).i;
    assert Housed(xs[n], i) && r in xs[n].p.portals[i].queue;
    QueuedLive(xs[n], i, r);
    RunStores(xs, es, n, r);
  }

  /** CLEANUP gives back exactly what the CALL of the same request shared. */
  lemma {:induction false} CleanupReturnsTheBuffer(xs: seq<Sys>, es: seq<Event>, n: nat)
    requires IsRun(xs, es) && n < |es| && Blank(xs[0]) && es[n].CleanupEv?
    ensures match Offered(xs, es, n, At(xs[n]).r)
      case None => false
      case Some(o) =>
        && o.client == xs[n].p.x.k.run
        && Returned(xs[n].p, At(xs[n]).r) == if o.shm != 0 then Some((o.server, o.shm)) else None
    ensures At(xs[n]).r !in xs[n + 1].p.reqs && xs[n].p.reqs[At(xs[n]).r].done !in xs[n + 1].p.x.value
  {
    assert Can(xs[n], es[n]) && xs[n + 1] == Step(xs[n], es[n]);
    RunKeeps(xs, es, n);
    assert ReqOk(xs[n], At(xs[n]).r);
    RunStores(xs, es, n, At(xs[n]).r);
  }

  /** The newest request is served first: GET_REQ by the server right after a CALL takes that call's request, and leaves the queue as it was. */
  lemma {:induction false} NewestFirst(s: Ports, id: int, size: int, f: Fresh, t: Tid)
    requires Sync.SemsWf(s.x) && (f.sem.Some? ==> f.sem.value !in s.x.k.queues) && Call(s, id, size, f).1 == 0
    requires ByTid(s.portals, t) == ById(s.portals, id)
    ensures var c := Call(s, id, size, f).0; var g := GetReq(c.(x := c.x.(k := c.x.k.(run := t))));
      g.1 == f.req && g.2 == 0 && g.0.portals == s.portals
  {
    var c, i := Call(s, id, size, f).0, ById(s.portals, id).value;
    SameServer(s.portals, c.portals, t);
    assert ([f.req.value] + s.portals[i].queue)[1..] == s.portals[i].queue;
  }
}
