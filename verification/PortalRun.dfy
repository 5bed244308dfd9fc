/**
 Any number of clients and servers running the portal protocol (portal_call,
 portal_wait and portal_reply of osdev/kernel/ipc/portal.c) in every
 interleaving, beside whatever else the kernel does on other wait queues.
 */
module PortalRun {
  import opened Threads
  import opened ProcessSpec
  import opened Gate
  import Sync
  import opened Wakeups
  import opened PortalSpec
  import opened Basics

  /** Where a thread stands in portal_call or portal_wait; Serving(i) has completed WAIT on portal i. */
  datatype Phase = Idle | Called(r: Rid) | Waiting(r: Rid) | Got(r: Rid, v: int) | Serving(i: nat)

  /** holder: the thread that took a request with GET_REQ and has not replied to it. */
  datatype Sys = Sys(p: Ports, phase: map<Tid, Phase>, holder: map<Rid, Tid>)

  /** One gate, entered by the running thread; KillEv is thread_delete of a thread that serves no portal, at any point of the protocol. */
  datatype Event =
    | InitEv(want: int, mem: bool, sem: Option<Wq>)
    | CallEv(id: int, size: int, f: Fresh)
    | WaitReplyEv
    | GetResultEv
    | CleanupEv(unshare: int)
    | WaitEv
    | GetReqEv
    | ReplyEv(r: Rid, v: int)
    | KillEv(t: Tid)
    | OtherEv(e: Sync.Event)

  function At(s: Sys): Phase {
    PhaseOf(s.phase, s.p.x.k.run)
  }

  function PhaseOf(phase: map<Tid, Phase>, t: Tid): Phase {
    if t in phase then phase[t] else Idle
  }

  /** Not one of the protocol's own semaphores. */
  ghost predicate Foreign(p: Ports, q: Wq) {
    && (forall i :: 0 <= i < |p.portals| ==> p.portals[i].sem != q)
    && (forall r :: r in p.reqs ==> p.reqs[r].done != q)
  }

  /** No request names t as its client; thread identifiers are counted up and not used twice. */
  ghost predicate NewTid(p: Ports, t: Tid) {
    forall r :: r in p.reqs ==> p.reqs[r].client != t
  }

  /** What else may happen: no wake-up of a parked thread or of the running one behind the queues' back. */
  ghost predicate Harmless(p: Ports, e: Sync.Event) {
    match e
    case WaitEv(q) => Foreign(p, q) && Relief(p.x.k)
    case SignalEv(q) => Foreign(p, q)
    case OpenEv(q, _) => true
    case DestroyEv(q) => Foreign(p, q)
    case WakeTidEv(q, t) => Foreign(p, q)
    case KernelEv(c) =>
      match c
      case YieldCmd => true
      case BlockCmd(t) => true
      case UnblockCmd(t) => t in p.x.k.tcb ==> t != p.x.k.run && p.x.k.tcb[t].on.None?
      case SleepCmd(q) => Foreign(p, q) && Relief(p.x.k)
      case WakeCmd(q) => Foreign(p, q)
      case CreateThreadCmd(t, _) => NewTid(p, t)
      case CreateProcCmd(_, t, _) => NewTid(p, t)
      case _ => false
  }

  ghost predicate Can(s: Sys, e: Event) {
    var x := s.p.x;
    && Sync.SemsWf(x) && Resting(x.k)
    && match e
       case InitEv(_, _, sem) => At(s).Idle? && (sem.Some? ==> sem.value !in x.k.queues)
       case CallEv(_, _, f) =>
         && At(s).Idle? && (f.sem.Some? ==> f.sem.value !in x.k.queues)
         && (f.req.Some? ==> f.req.value != 0 && f.req.value !in s.p.reqs)
       case WaitReplyEv => At(s).Called? && At(s).r in s.p.reqs && Relief(x.k)
       case GetResultEv => At(s).Waiting? && At(s).r in s.p.reqs
       case CleanupEv(_) => At(s).Got? && At(s).r in s.p.reqs
       case WaitEv => At(s).Idle? && Relief(x.k)
       case GetReqEv => At(s).Serving?
       case ReplyEv(r, _) => r in s.holder && s.holder[r] == x.k.run && r in s.p.reqs
       case KillEv(t) => forall i :: 0 <= i < |s.p.portals| ==> s.p.portals[i].tid != t
       case OtherEv(o) => Sync.Can(x, o) && Harmless(s.p, o)
  }

  function To(s: Sys, ph: Phase): map<Tid, Phase> {
    s.phase[s.p.x.k.run := ph]
  }

  /** The command and the user code around it, before the gate commits its switch. */
  function Do(s: Sys, e: Event): Sys
    requires Can(s, e)
  {
    match e
    case InitEv(want, mem, sem) => s.(p := Init(s.p, want, mem, sem).0)
    case CallEv(id, size, f) =>
      var c := Call(s.p, id, size, f);
      Sys(c.0, if c.1 == 0 then To(s, Called(f.req.value)) else s.phase, s.holder)
    case WaitReplyEv => s.(p := WaitReply(s.p, At(s).r).0, phase := To(s, Waiting(At(s).r)))
    case GetResultEv => s.(phase := To(s, Got(At(s).r, GetResult(s.p, At(s).r).0)))
    case CleanupEv(u) => s.(p := Cleanup(s.p, At(s).r, u).0, phase := To(s, Idle))
    case WaitEv =>
      var i := ByTid(s.p.portals, s.p.x.k.run);
      if i.None? then s else s.(p := PortalSpec.Wait(s.p).0, phase := To(s, Serving(i.value)))
    case GetReqEv =>
      var g := GetReq(s.p);
      Sys(g.0, To(s, Idle), if g.1.Some? then s.holder[g.1.value := s.p.x.k.run] else s.holder)
    case ReplyEv(r, v) => s.(p := Reply(s.p, r, v).0, holder := s.holder - {r})
    case KillEv(t) =>
      var k := Delete(s.p.x.k, t);
      s.(p := s.p.(x := s.p.x.(k := k)), phase := if t in s.p.x.k.tcb && t !in k.tcb then s.phase - {t} else s.phase)
    case OtherEv(o) => s.(p := s.p.(x := Sync.Step(s.p.x, o)))
  }

  function Step(s: Sys, e: Event): Sys
    requires Can(s, e)
  {
    var d := Do(s, e);
    d.(p := d.p.(x := d.p.x.(k := Commit(d.p.x.k))))
  }
}
