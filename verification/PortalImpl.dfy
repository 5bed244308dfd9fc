/** osdev/kernel/sync/semaphore.c over the kernel's wait queues. */
module SemaphoreImpl {
  import opened Threads
  import opened KernelImpl
  import opened Sync

  class Semaphores {
    const kernel: Kernel
    /** semaphore_head: the count of each semaphore. */
    var value: map<Wq, int>

    ghost function View(): Sems
      reads this, kernel
    {
      Sems(kernel.View(), value)
    }

    constructor (kernel: Kernel)
      requires Wf(kernel.View())
      ensures this.kernel == kernel && SemsWf(View()) && value == map[]
    {
      this.kernel := kernel;
      value := map[];
    }

    method Create(q: Wq, init: int)
      modifies this, kernel`queues
      ensures View() == Open(old(View()), q, init)
    {
      kernel.queues := kernel.queues[q := []];
      value := value[q := init];
    }

    method SemDestroy(q: Wq)
      requires SemsWf(View())
      modifies this, kernel`queues
      ensures View() == Destroy(old(View()), q)
    {
      if q in value && kernel.queues[q] == [] {
        kernel.queues := kernel.queues - {q};
        value := value - {q};
      }
    }

    method SemWait(q: Wq)
      requires SemsWf(View())
      modifies this, kernel
      ensures View() == old(Wait(View(), q))
    {
      if q !in value {
        return;
      }
      value := value[q := value[q] - 1];
      if value[q] < 0 {
        kernel.WaitQueueSleep(q);
      }
    }

    method SemSignal(q: Wq)
      requires SemsWf(View())
      modifies this, kernel
      ensures View() == old(Signal(View(), q))
    {
      if q !in value {
        return;
      }
      value := value[q := value[q] + 1];
      if value[q] <= 0 {
        kernel.WaitQueueWakeOne(q);
      }
    }
  }
}

/** The command switch of osdev/kernel/ipc/portal.c. */
module PortalImpl {
  import opened Threads
  import opened Sync
  import opened SemaphoreImpl
  import PortalSpec
  import Errno
  import opened Basics

  type Rid = PortalSpec.Rid

  class Portals {
    const sems: Semaphores
    var portals: seq<PortalSpec.Portal>
    var nextId: int
    var reqs: map<Rid, PortalSpec.Req>

    ghost function View(): PortalSpec.Ports
      reads this, sems, sems.kernel
    {
      PortalSpec.Ports(sems.View(), portals, nextId, reqs)
    }

    constructor (sems: Semaphores)
      ensures this.sems == sems && View() == PortalSpec.Ports(sems.View(), [], 2, map[])
    {
      this.sems := sems;
      portals, nextId, reqs := [], 2, map[];
    }

    method GetById(id: int) returns (i: Option<nat>)
      ensures i == PortalSpec.ById(portals, id)
    {
      var n := |portals|;
      while n > 0
        invariant 0 <= n <= |portals|
        invariant PortalSpec.ById(portals, id) == PortalSpec.ById(portals[..n], id)
      {
        if portals[n - 1].id == id {
          return Some(n - 1);
        }
        assert portals[..n][..n - 1] == portals[..n - 1];
        n := n - 1;
      }
      return None;
    }

    method GetByTid(tid: Tid) returns (i: Option<nat>)
      ensures i == PortalSpec.ByTid(portals, tid)
    {
      var n := |portals|;
      while n > 0
        invariant 0 <= n <= |portals|
        invariant PortalSpec.ByTid(portals, tid) == PortalSpec.ByTid(portals[..n], tid)
      {
        if portals[n - 1].tid == tid {
          return Some(n - 1);
        }
        assert portals[..n][..n - 1] == portals[..n - 1];
        n := n - 1;
      }
      return None;
    }

    /** PORTAL_CTRL_INIT; the parameters mem and sem say which allocations succeed. */
    method Init(want: int, mem: bool, sem: Option<Wq>) returns (ret: int)
      requires sems.kernel.run in sems.kernel.tcb
      modifies this, sems, sems.kernel`queues
      ensures (View(), ret) == PortalSpec.Init(old(View()), want, mem, sem)
    {
      if !mem {
        return Errno.E_NOMEM;
      }
      var id := nextId;
      if want != 0 {
        var taken := GetById(want);
        if taken.Some? {
          return Errno.E_EXISTS;
        }
        id := want;
      }
      if id >= nextId {
        nextId := (id + 1) % 0x1_0000_0000;
      }
      if sem.None? {
        return Errno.E_NOMEM;
      }
      var t := sems.kernel.run;
      sems.Create(sem.value, 0);
      portals := portals + [PortalSpec.Portal(id, sems.kernel.tcb[t].pid, t, [], sem.value)];
      return 0;
    }

    /** PORTAL_CTRL_CALL; f holds the outcome of shm_share and of the allocations, undone what a failing call unshares. */
    method Call(id: int, size: int, f: PortalSpec.Fresh) returns (ret: int, undone: Option<(Pid, int)>)
      requires SemsWf(sems.View()) && (f.sem.Some? ==> f.sem.value !in sems.kernel.queues)
      modifies this, sems, sems.kernel
      ensures (View(), ret) == old(PortalSpec.Call(View(), id, size, f)) && undone == old(PortalSpec.Rollback(View(), id, f))
    {
      undone := None;
      var i := GetById(id);
      if i.None? {
        return Errno.E_NOTFOUND, None;
      }
      if f.share != 0 {
        return f.share, None;
      }
      if f.req.None? || f.sem.None? {
        return Errno.E_NOMEM, Some((portals[i.value].pid, f.shm));
      }
      var p, r := portals[i.value], f.req.value;
      PortalSpec.OpenWf(sems.View(), f.sem.value);
      reqs := reqs[r := PortalSpec.Req(sems.kernel.run, p.pid, f.shm, size, false, f.sem.value, 0)];
      sems.Create(f.sem.value, 0);
      portals := portals[i.value := p.(queue := [r] + p.queue)];
      sems.SemSignal(p.sem);
      return 0, None;
    }

    method WaitReply(r: Rid) returns (ret: int)
      requires SemsWf(sems.View()) && (r == 0 || r in reqs)
      modifies sems, sems.kernel
      ensures (View(), ret) == old(PortalSpec.WaitReply(View(), r))
    {
      if r == 0 {
        return Errno.E_INVAL;
      }
      sems.SemWait(reqs[r].done);
      return 0;
    }

    method GetResult(r: Rid) returns (v: int, ret: int)
      requires r == 0 || r in reqs
      ensures (v, ret) == PortalSpec.GetResult(View(), r)
    {
      if r == 0 {
        return 0, Errno.E_INVAL;
      }
      return reqs[r].ret, 0;
    }

    /** list_del of a request still linked somewhere. */
    method Unlink(r: Rid)
      modifies this`portals
      ensures portals == PortalSpec.Unlinked(old(portals), r)
    {
      var i := 0;
      ghost var was := portals;
      while i < |portals|
        invariant i <= |portals| == |was|
        invariant forall j :: 0 <= j < i ==> portals[j] == was[j].(queue := Without(was[j].queue, r))
        invariant forall j :: i <= j < |was| ==> portals[j] == was[j]
      {
        portals := portals[i := portals[i].(queue := Without(portals[i].queue, r))];
        i := i + 1;
      }
    }

    method Cleanup(r: Rid, unshare: int) returns (ret: int, undone: Option<(Pid, int)>)
      requires SemsWf(sems.View()) && (r == 0 || r in reqs)
      modifies this, sems, sems.kernel`queues
      ensures (View(), ret) == old(PortalSpec.Cleanup(View(), r, unshare)) && undone == old(PortalSpec.Returned(View(), r))
    {
      if r == 0 {
        return Errno.E_INVAL, None;
      }
      var q := reqs[r];
      ret, undone := 0, None;
      if q.shm != 0 {
        ret, undone := unshare, Some((q.server, q.shm));
      }
      if !q.dequeued {
        Unlink(r);
      }
      sems.SemDestroy(q.done);
      reqs := reqs - {r};
    }

    method Wait() returns (ret: int)
      requires SemsWf(sems.View())
      modifies sems, sems.kernel
      ensures (View(), ret) == old(PortalSpec.Wait(View()))
    {
      var i := GetByTid(sems.kernel.run);
      if i.None? {
        return Errno.E_NOTFOUND;
      }
      sems.SemWait(portals[i.value].sem);
      return 0;
    }

    method GetReq() returns (r: Option<Rid>, buffer: Option<(int, int)>, ret: int)
      modifies this
      ensures (View(), r, ret) == PortalSpec.GetReq(old(View())) && buffer == PortalSpec.Buffer(old(View()), r)
    {
      buffer := None;
      var i := GetByTid(sems.kernel.run);
      if i.None? {
        return None, None, Errno.E_NOTFOUND;
      }
      var p := portals[i.value];
      if p.queue == [] {
        return None, None, 0;
      }
      r := Some(p.queue[0]);
      portals := portals[i.value := p.(queue := p.queue[1..])];
      if r.value in reqs {
        buffer := Some((reqs[r.value].shm, reqs[r.value].size));
        reqs := reqs[r.value := reqs[r.value].(dequeued := true)];
      }
      return r, buffer, 0;
    }

    method Reply(r: Rid, v: int) returns (ret: int)
      requires SemsWf(sems.View()) && (r == 0 || r in reqs)
      modifies this, sems, sems.kernel
      ensures (View(), ret) == old(PortalSpec.Reply(View(), r, v))
    {
      if r == 0 {
        return Errno.E_INVAL;
      }
      reqs := reqs[r := reqs[r].(ret := v)];
      sems.SemSignal(reqs[r].done);
      return 0;
    }
  }
}
