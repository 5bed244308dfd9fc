/**
 The portal commands (osdev/kernel/ipc/portal.c) as functions on the portals,
 the requests and the semaphores under them.
 */
module PortalSpec {
  import opened Threads
  import opened Sync
  import opened Errno
  import opened Basics

  type Rid = int

  /** queue: the list reqs, its head first; sem: req_sem. */
  datatype Portal = Portal(id: int, pid: Pid, tid: Tid, queue: seq<Rid>, sem: Wq)

  /** done: done_sem; ret: resp.ret. */
  datatype Req = Req(client: Tid, server: Pid, shm: int, size: int, dequeued: bool, done: Wq, ret: int)

  /**
   portals: oldest first; portal_header lists them newest first, so its scans
   are scans from the end. reqs: the allocated requests by handle.
   */
  datatype Ports = Ports(x: Sems, portals: seq<Portal>, nextId: int, reqs: map<Rid, Req>)

  /** The outcome of the allocations and of shm_share in a command. */
  datatype Fresh = Fresh(share: int, shm: int, req: Option<Rid>, sem: Option<Wq>)

  /** portal_get_by_id. */
  function ById(ps: seq<Portal>, id: int): (i: Option<nat>)
    ensures i.Some? ==> i.value < |ps| && ps[i.value].id == id && forall j :: i.value < j < |ps| ==> ps[j].id != id
    ensures i.None? ==> forall j :: 0 <= j < |ps| ==> ps[j].id != id
  {
    if ps == [] then None
    else if ps[|ps| - 1].id == id then Some(|ps| - 1)
    else ById(ps[..|ps| - 1], id)
  }

  /** portal_get_by_tid. */
  function ByTid(ps: seq<Portal>, tid: Tid): (i: Option<nat>)
    ensures i.Some? ==> i.value < |ps| && ps[i.value].tid == tid && forall j :: i.value < j < |ps| ==> ps[j].tid != tid
    ensures i.None? ==> forall j :: 0 <= j < |ps| ==> ps[j].tid != tid
  {
    if ps == [] then None
    else if ps[|ps| - 1].tid == tid then Some(|ps| - 1)
    else ByTid(ps[..|ps| - 1], tid)
  }

  /** mem: whether the portal record could be allocated. */
  function Init(s: Ports, want: int, mem: bool, sem: Option<Wq>): (Ports, int)
    requires s.x.k.run in s.x.k.tcb
  {
    if !mem then (s, E_NOMEM)
    else if want != 0 && ById(s.portals, want).Some? then (s, E_EXISTS)
    else
      var id := if want != 0 then want else s.nextId;
      var s' := s.(nextId := if id >= s.nextId then (id + 1) % 0x1_0000_0000 else s.nextId);
      var t := s.x.k.run;
      if sem.None? then (s', E_NOMEM)
      else (s'.(portals := s.portals + [Portal(id, s.x.k.tcb[t].pid, t, [], sem.value)], x := Open(s.x, sem.value, 0)), 0)
  }

  function Call(s: Ports, id: int, size: int, f: Fresh): (Ports, int)
    requires SemsWf(s.x) && (f.sem.Some? ==> f.sem.value !in s.x.k.queues)
  {
    var i := ById(s.portals, id);
    if i.None? then (s, E_NOTFOUND)
    else if f.share != 0 then (s, f.share)
    else if f.req.None? || f.sem.None? then (s, E_NOMEM)
    else
      var p := s.portals[i.value];
      var r := f.req.value;
      OpenWf(s.x, f.sem.value);
      (s.(reqs := s.reqs[r := Req(s.x.k.run, p.pid, f.shm, size, false, f.sem.value, 0)],
          portals := s.portals[i.value := p.(queue := [r] + p.queue)],
          x := Signal(Open(s.x, f.sem.value, 0), p.sem)), 0)
  }

  lemma {:induction false} OpenWf(x: Sems, q: Wq)
    requires SemsWf(x) && q !in x.k.queues
    ensures SemsWf(Open(x, q, 0))
  {
    assert Parked(x.k.queues[q := []], x.k.tcb);
  }

  function WaitReply(s: Ports, r: Rid): (Ports, int)
    requires SemsWf(s.x) && (r == 0 || r in s.reqs)
  {
    if r == 0 then (s, E_INVAL) else (s.(x := Sync.Wait(s.x, s.reqs[r].done)), 0)
  }

  /** The value GET_RESULT hands back. */
  function GetResult(s: Ports, r: Rid): (int, int)
    requires r == 0 || r in s.reqs
  {
    if r == 0 then (0, E_INVAL) else (s.reqs[r].ret, 0)
  }

  /** unshare: the outcome of shm_unshare. */
  function Cleanup(s: Ports, r: Rid, unshare: int): (Ports, int)
    requires SemsWf(s.x) && (r == 0 || r in s.reqs)
  {
    if r == 0 then (s, E_INVAL)
    else
      var q := s.reqs[r];
      (s.(portals := if q.dequeued then s.portals else Unlinked(s.portals, r),
          x := Destroy(s.x, q.done),
          reqs := s.reqs - {r}), if q.shm != 0 then unshare else 0)
  }

  function Unlinked(ps: seq<Portal>, r: Rid): seq<Portal> {
    seq(|ps|, i requires 0 <= i < |ps| => ps[i].(queue := Without(ps[i].queue, r)))
  }

  function Wait(s: Ports): (Ports, int)
    requires SemsWf(s.x)
  {
    var i := ByTid(s.portals, s.x.k.run);
    if i.None? then (s, E_NOTFOUND) else (s.(x := Sync.Wait(s.x, s.portals[i.value].sem)), 0)
  }

  /** The head of the queue is handed off. */
  function GetReq(s: Ports): (Ports, Option<Rid>, int) {
    var i := ByTid(s.portals, s.x.k.run);
    if i.None? then (s, None, E_NOTFOUND)
    else
      var p := s.portals[i.value];
      if p.queue == [] then (s, None, 0)
      else
        var r := p.queue[0];
        (s.(portals := s.portals[i.value := p.(queue := p.queue[1..])],
            reqs := if r in s.reqs then s.reqs[r := s.reqs[r].(dequeued := true)] else s.reqs), Some(r), 0)
  }

  /** The shared buffer and its size, handed out with a request. */
  function Buffer(s: Ports, r: Option<Rid>): Option<(int, int)> {
    if r.Some? && r.value in s.reqs then Some((s.reqs[r.value].shm, s.reqs[r.value].size)) else None
  }

  /** The process and the address a failing CALL gives back with shm_unshare. */
  function Rollback(s: Ports, id: int, f: Fresh): Option<(Pid, int)> {
    var i := ById(s.portals, id);
    if i.Some? && f.share == 0 && (f.req.None? || f.sem.None?) then Some((s.portals[i.value].pid, f.shm)) else None
  }

  /** The process and the address CLEANUP gives back. */
  function Returned(s: Ports, r: Rid): Option<(Pid, int)> {
    if r != 0 && r in s.reqs && s.reqs[r].shm != 0 then Some((s.reqs[r].server, s.reqs[r].shm)) else None
  }

  function Reply(s: Ports, r: Rid, v: int): (Ports, int)
    requires SemsWf(s.x) && (r == 0 || r in s.reqs)
  {
    if r == 0 then (s, E_INVAL)
    else (s.(reqs := s.reqs[r := s.reqs[r].(ret := v)], x := Signal(s.x, s.reqs[r].done)), 0)
  }

  /** Identifiers are distinct and below the next one. */
  ghost predicate Numbered(s: Ports) {
    && 0 < s.nextId < 0x1_0000_0000
    && (forall i :: 0 <= i < |s.portals| ==> 0 <= s.portals[i].id < s.nextId)
    && (forall i, j :: 0 <= i < j < |s.portals| ==> s.portals[i].id != s.portals[j].id)
  }

  /** A new portal never takes an identifier in use; this lasts exactly until some portal gets the last one. */
  lemma {:induction false} InitNumbers(s: Ports, want: int, mem: bool, sem: Option<Wq>)
    requires Numbered(s) && 0 <= want < 0x1_0000_0000 && s.x.k.run in s.x.k.tcb
    ensures var (s', ret) := Init(s, want, mem, sem);
      && (forall i, j :: 0 <= i < j < |s'.portals| ==> s'.portals[i].id != s'.portals[j].id)
      && (Numbered(s') <==> !(mem && (want == 0xFFFF_FFFF || (want == 0 && s.nextId == 0xFFFF_FFFF))))
      && (ret == E_EXISTS <==> mem && want != 0 && exists i :: 0 <= i < |s.portals| && s.portals[i].id == want)
      && (ret == 0 ==> |s'.portals| == |s.portals| + 1 && (want != 0 ==> s'.portals[|s.portals|].id == want))
  {
  }

  /** A CALL fails exactly if no portal has the identifier, the share failed or an allocation did, and then posts nothing. */
  lemma {:induction false} CallOutcome(s: Ports, id: int, size: int, f: Fresh)
    requires SemsWf(s.x) && (f.sem.Some? ==> f.sem.value !in s.x.k.queues)
    ensures var (s', ret) := Call(s, id, size, f);
      && (ret == 0 <==> (exists i :: 0 <= i < |s.portals| && s.portals[i].id == id) && f.share == 0 && f.req.Some? && f.sem.Some?)
      && (ret != 0 ==> s' == s)
      && ((forall i :: 0 <= i < |s.portals| ==> s.portals[i].id != id) ==> ret == E_NOTFOUND)
      && (ret == 0 ==> s'.reqs.Keys == s.reqs.Keys + {f.req.value} && forall r :: r in s.reqs && r != f.req.value ==> s'.reqs[r] == s.reqs[r])
  {
  }

  /** A failing CALL gives back the buffer it shared, exactly the one its request would have held. */
  lemma {:induction false} RollbackExact(s: Ports, id: int, size: int, f: Fresh, r: Rid, sem: Wq)
    requires SemsWf(s.x) && (f.sem.Some? ==> f.sem.value !in s.x.k.queues) && sem !in s.x.k.queues && r != 0 && f.shm != 0
    ensures Rollback(s, id, f).Some? <==> ById(s.portals, id).Some? && f.share == 0 && Call(s, id, size, f).1 != 0
    ensures Rollback(s, id, f).Some? ==> Rollback(s, id, f) == Returned(Call(s, id, size, f.(req := Some(r), sem := Some(sem))).0, r)
  {
  }

  /** A null handle is refused as invalid, and WAIT and GET_REQ of a thread without a portal as unknown; nothing changes. */
  lemma {:induction false} Refusals(s: Ports, unshare: int, v: int)
    requires SemsWf(s.x)
    ensures WaitReply(s, 0) == (s, E_INVAL) && Cleanup(s, 0, unshare) == (s, E_INVAL) && Reply(s, 0, v) == (s, E_INVAL) && GetResult(s, 0).1 == E_INVAL
    ensures (forall i :: 0 <= i < |s.portals| ==> s.portals[i].tid != s.x.k.run) ==>
      Wait(s) == (s, E_NOTFOUND) && GetReq(s) == (s, None, E_NOTFOUND)
    ensures (exists i :: 0 <= i < |s.portals| && s.portals[i].tid == s.x.k.run) ==> Wait(s).1 == 0 && GetReq(s).2 == 0
  {
  }
}
