/**
 osdev/kernel/process.c and osdev/kernel/sync/wait_queue.c as they update the
 kernel's lists and records in place, one gate at a time (single processor,
 interrupts off inside a gate).
 */
module KernelImpl {
  import opened Threads
  import opened ProcessSpec
  import opened ProcExit
  import opened Gate
  import opened Basics

  class Kernel {
    var order: seq<Tid>
    var tcb: map<Tid, Tcb>
    var procs: map<Pid, seq<Tid>>
    var queues: map<Wq, seq<Tid>>
    var run: Tid
    var request: Request
    var cr3: Pid
    var ctx: Tid
    var frames: map<Tid, Frame>
    var cpu: Frame

    ghost function Whole(): Machine
      reads this
    {
      Machine(View(), frames, cpu)
    }

    ghost function View(): State
      reads this
    {
      State(order, tcb, procs, queues, run, request, cr3, ctx)
    }

    /** The boot thread: created ready, switched to directly. */
    constructor (pid: Pid, tid: Tid, start: Frame)
      ensures Resting(View()) && run == tid && cr3 == pid && frames.Keys == tcb.Keys && cpu == start
    {
      frames, cpu := map[tid := start], start;
      order, run, ctx, cr3 := [tid], tid, tid, pid;
      tcb := map[tid := Tcb(pid, true, false, None)];
      procs := map[pid := [tid]];
      queues := map[];
      request := Request(None, None);
      new;
      assert Listed(order, tcb) && Owned(procs, tcb) && Parked(queues, tcb);
    }

    /** One of the two scans of find_next_runnable; the wake-up of the thread found is consumed. */
    method ScanReady(lo: nat, hi: nat) returns (next: Option<Tid>)
      requires lo <= hi <= |order| && (forall t :: t in order ==> t in tcb)
      modifies this`tcb
      ensures next == FirstReady(order[lo..hi], old(tcb))
      ensures next.None? ==> tcb == old(tcb)
      ensures next.Some? ==> next.value in old(tcb) && tcb == old(tcb)[next.value := old(tcb)[next.value].(wake := false)]
    {
      var i := lo;
      while i < hi
        invariant lo <= i <= hi && tcb == old(tcb)
        invariant FirstReady(order[lo..hi], tcb) == FirstReady(order[i..hi], tcb)
      {
        var t := order[i];
        assert order[i..hi][1..] == order[i + 1..hi];
        if tcb[t].ready {
          tcb := tcb[t := tcb[t].(wake := false)];
          return Some(t);
        }
        i := i + 1;
      }
      return None;
    }

    method FindNextRunnable() returns (next: Option<Tid>)
      requires Wf(View())
      modifies this`tcb
      ensures next == old(FindNext(View()))
      ensures next.None? ==> tcb == old(tcb)
      ensures next.Some? ==> next.value in old(tcb) && tcb == old(tcb)[next.value := old(tcb)[next.value].(wake := false)]
    {
      var here := Index(order, run);
      FirstReadySplit(order[here + 1..], order[..here], tcb);
      assert order[here + 1..|order|] == order[here + 1..] && order[0..here] == order[..here];
      next := ScanReady(here + 1, |order|);
      if next.Some? {
        return;
      }
      next := ScanReady(0, here);
    }

    method RequestSwitch(old_: Tid, next: Tid)
      requires old_ in tcb && next in tcb
      modifies this`request
      ensures request == Request(if tcb[old_].pid != tcb[next].pid then Some(tcb[next].pid) else None, Some(next))
    {
      if tcb[old_].pid != tcb[next].pid {
        request := request.(vcb := Some(tcb[next].pid));
      } else {
        request := request.(vcb := None);
      }
      request := request.(ctx := Some(next));
    }

    method ContextSwitch()
      modifies this`cr3, this`ctx, this`request
      ensures View() == Commit(old(View()))
    {
      if request.vcb.Some? {
        cr3 := request.vcb.value;
      }
      if request.ctx.Some? {
        ctx := request.ctx.value;
      }
      request := Request(None, None);
    }

    /** Choosing the next thread and recording the switch to it. */
    method SwitchToNext() returns (found: bool)
      requires Wf(View())
      modifies this`tcb, this`run, this`request
      ensures View() == old(Yield(View()))
      ensures found <==> old(FindNext(View())).Some?
    {
      FindNextReady(View());
      var next := FindNextRunnable();
      found := next.Some?;
      if found {
        var previous := run;
        run := next.value;
        RequestSwitch(previous, run);
      }
    }

    method ThreadYield()
      requires Wf(View())
      modifies this`tcb, this`run, this`request
      ensures View() == old(Yield(View()))
    {
      var found := SwitchToNext();
    }

    method ThreadBlock(tid: Tid)
      requires Wf(View())
      modifies this`tcb, this`run, this`request
      ensures View() == old(Block(View(), tid))
    {
      var i := 0;
      while i < |order|
        invariant 0 <= i <= |order| && View() == old(View())
        invariant forall k :: 0 <= k < i ==> order[k] != tid
      {
        var t := order[i];
        if t == tid {
          if tcb[t].wake {
            tcb := tcb[t := tcb[t].(wake := false)];
            return;
          }
          SetTcbWf(View(), t, tcb[t].(ready := false));
          tcb := tcb[t := tcb[t].(ready := false)];
          if t == run {
            ThreadYield();
          }
          return;
        }
        i := i + 1;
      }
    }

    method ThreadUnblock(tid: Tid)
      requires Wf(View())
      modifies this`tcb
      ensures View() == Unblock(old(View()), tid)
    {
      var i := 0;
      while i < |order|
        invariant 0 <= i <= |order| && View() == old(View())
        invariant forall k :: 0 <= k < i ==> order[k] != tid
      {
        var t := order[i];
        if t == tid {
          tcb := tcb[t := tcb[t].(wake := true, ready := true)];
          return;
        }
        i := i + 1;
      }
    }

    /** tcb_detach_wait. */
    method DetachWait(t: Tid)
      requires t in tcb && (tcb[t].on.Some? ==> tcb[t].on.value in queues)
      modifies this`tcb, this`queues
      ensures tcb == old(tcb)[t := old(tcb)[t].(on := None)]
      ensures queues == var c := old(tcb)[t]; if c.on.None? then old(queues) else old(queues)[c.on.value := Without(old(queues)[c.on.value], t)]
    {
      if tcb[t].on.None? {
        assert tcb[t].(on := None) == tcb[t];
        assert tcb[t := tcb[t].(on := None)] == tcb;
        return;
      }
      var q := tcb[t].on.value;
      queues := queues[q := Without(queues[q], t)];
      tcb := tcb[t := tcb[t].(on := None)];
    }

    /** Detaching a thread from every list, and freeing it. */
    method RemoveThread(t: Tid)
      requires t in tcb && tcb[t].pid in procs && (tcb[t].on.Some? ==> tcb[t].on.value in queues)
      modifies this`order, this`tcb, this`procs, this`queues
      ensures View() == Remove(old(View()), t)
    {
      DetachWait(t);
      order := Without(order, t);
      var pid := tcb[t].pid;
      procs := procs[pid := Without(procs[pid], t)];
      tcb := tcb - {t};
    }

    /** Switching away from the running thread and removing it, if another thread can run. */
    method ReplaceRunning() returns (found: bool)
      requires Wf(View())
      modifies this`order, this`tcb, this`procs, this`queues, this`run, this`request
      ensures found <==> old(FindNext(View())).Some?
      ensures !found ==> View() == old(View())
      ensures found ==> Wf(View()) && var n := old(FindNext(View())).value;
        n in old(tcb) && Wf(Go(old(View()), n)) && View() == Remove(Go(old(View()), n), old(run))
    {
      FindNextReady(View());
      var previous := run;
      found := SwitchToNext();
      if found {
        GoWf(old(View()), run);
        RemoveWf(View(), previous);
        RemoveThread(previous);
      }
    }

    method ThreadDelete(tid: Tid)
      requires Wf(View())
      modifies this`order, this`tcb, this`procs, this`queues, this`run, this`request
      ensures View() == old(Delete(View(), tid))
    {
      var i := 0;
      while i < |order| && order[i] != tid
        invariant 0 <= i <= |order| && forall k :: 0 <= k < i ==> order[k] != tid
      {
        i := i + 1;
      }
      if i == |order| {
        return;
      }
      if tid != run {
        RemoveThread(tid);
      } else {
        var found := ReplaceRunning();
      }
    }

    /** The loop of proc_exit_internal; halted when the running thread dies and nothing can take over. */
    method ExitThreads(pid: Pid) returns (halted: bool)
      requires Wf(View()) && pid in procs
      modifies this`order, this`tcb, this`procs, this`queues, this`run, this`request
      ensures halted <==> old(ExitLoop(View(), pid)).None?
      ensures !halted ==> old(ExitLoop(View(), pid)) == Some(View())
    {
      while procs[pid] != []
        invariant Wf(View()) && pid in procs && cr3 == old(cr3) && ctx == old(ctx)
        invariant old(ExitLoop(View(), pid)) == ExitLoop(View(), pid)
        decreases |procs[pid]|
      {
        var t := procs[pid][0];
        assert t in procs[pid];
        WithoutNoDup(procs[pid], t);
        if t == run {
          var found := ReplaceRunning();
          if !found {
            return true;
          }
        } else {
          RemoveWf(View(), t);
          RemoveThread(t);
        }
      }
      return false;
    }

    method ProcExit(pid: Pid) returns (halted: bool)
      requires Wf(View())
      modifies this`order, this`tcb, this`procs, this`queues, this`run, this`request, this`cr3, this`ctx
      ensures halted <==> old(Exit(View(), pid)).None?
      ensures !halted ==> old(Exit(View(), pid)) == Some(View())
    {
      halted := false;
      if pid in procs {
        halted := ExitThreads(pid);
        if halted {
          return;
        }
        procs := procs - {pid};
      }
      ContextSwitch();
    }

    method WaitQueueSleep(q: Wq)
      requires Wf(View()) && q in queues
      modifies this`tcb, this`queues, this`run, this`request
      ensures View() == old(Sleep(View(), q))
    {
      if tcb[run].on.Some? {
        return;
      }
      EnqueueWf(View(), q);
      tcb := tcb[run := tcb[run].(on := Some(q))];
      queues := queues[q := [run] + queues[q]];
      ThreadBlock(run);
    }

    /** The first waiter that still waits on q, or the length of the queue. */
    method FirstWaiter(q: Wq) returns (i: nat)
      requires q in queues && forall k :: 0 <= k < |queues[q]| ==> queues[q][k] in tcb
      ensures i <= |queues[q]| && (i < |queues[q]| ==> tcb[queues[q][i]].on == Some(q))
      ensures forall k :: 0 <= k < i ==> tcb[queues[q][k]].on != Some(q)
    {
      i := 0;
      while i < |queues[q]| && tcb[queues[q][i]].on != Some(q)
        invariant i <= |queues[q]|
        invariant forall k :: 0 <= k < i ==> tcb[queues[q][k]].on != Some(q)
      {
        i := i + 1;
      }
    }

    method WaitQueueWakeOne(q: Wq)
      requires Wf(View()) && q in queues
      modifies this`tcb, this`queues
      ensures View() == WakeOne(old(View()), q)
    {
      if queues[q] == [] {
        return;
      }
      DequeueWf(View(), q);
      forall k | 0 <= k < |queues[q]| ensures queues[q][k] in tcb {
        var w := queues[q][k];
        assert w in queues[q];
      }
      var i := FirstWaiter(q);
      assert queues[q][0] in queues[q] && i == 0;
      var t := queues[q][i];
      tcb := tcb[t := tcb[t].(on := None)];
      queues := queues[q := queues[q][1..]];
      ThreadUnblock(t);
    }

    method ThreadCreate(pid: Pid, tid: Tid)
      requires pid in procs
      modifies this`order, this`tcb, this`procs
      ensures View() == Create(old(View()), pid, tid)
    {
      procs := procs[pid := [tid] + procs[pid]];
      order := [tid] + order;
      tcb := tcb[tid := Tcb(pid, false, false, None)];
    }

    /** proc_block_internal and proc_unblock_internal: every thread of the process changes state. */
    method ProcSetReady(pid: Pid, ready: bool)
      requires Wf(View())
      modifies this`tcb
      ensures View() == SetReady(old(View()), pid, ready)
    {
      if pid !in procs {
        assert forall t :: t in tcb ==> tcb[t].pid != pid;
        assert tcb == SetReady(View(), pid, ready).tcb;
        return;
      }
      var i := 0;
      while i < |procs[pid]|
        invariant 0 <= i <= |procs[pid]| && tcb.Keys == old(tcb).Keys
        invariant forall t :: t in tcb ==> tcb[t] == (if t in procs[pid][..i] then old(tcb)[t].(ready := ready) else old(tcb)[t])
      {
        var t := procs[pid][i];
        assert t in procs[pid];
        tcb := tcb[t := tcb[t].(ready := ready)];
        i := i + 1;
      }
      assert procs[pid][..i] == procs[pid];
      forall t | t in tcb ensures tcb[t] == SetReady(old(View()), pid, ready).tcb[t] {
        assert t in procs[pid] <==> old(tcb)[t].pid == pid;
      }
      assert tcb == SetReady(old(View()), pid, ready).tcb;
    }

    method Dispatch(c: Cmd) returns (halted: bool)
      requires Wf(View()) && Enabled(View(), c)
      modifies this`order, this`tcb, this`procs, this`queues, this`run, this`request, this`cr3, this`ctx
      ensures halted <==> old(Exec(View(), c)).None?
      ensures !halted ==> old(Exec(View(), c)) == Some(View())
    {
      halted := false;
      match c
      case YieldCmd => ThreadYield();
      case BlockCmd(t) => ThreadBlock(t);
      case UnblockCmd(t) => ThreadUnblock(t);
      case DeleteCmd(t) => ThreadDelete(t);
      case ExitCmd(p) => halted := ProcExit(p);
      case SleepCmd(q) => WaitQueueSleep(q);
      case WakeCmd(q) => WaitQueueWakeOne(q);
      case CreateThreadCmd(t, _) => ThreadCreate(tcb[run].pid, t);
      case CreateProcCmd(p, t, _) =>
        procs := procs[p := []];
        ThreadCreate(p, t);
      case BlockProcCmd(p) => ProcSetReady(p, false);
      case UnblockProcCmd(p) => ProcSetReady(p, true);
    }

    method DispatchAll(body: seq<Cmd>) returns (halted: bool)
      requires Resting(View()) && BodyEnabled(View(), body)
      modifies this`order, this`tcb, this`procs, this`queues, this`run, this`request, this`cr3, this`ctx
      ensures halted <==> old(ExecBody(View(), body)).None?
      ensures !halted ==> old(ExecBody(View(), body)) == Some(View())
    {
      halted := false;
      var i := 0;
      while i + 1 < |body|
        invariant !halted && 0 <= i <= |body| && (body != [] ==> i < |body|) && Resting(View()) && BodyEnabled(View(), body[i..])
        invariant old(ExecBody(View(), body)) == ExecBody(View(), body[i..])
      {
        assert body[i..][1..] == body[i + 1..];
        StaysResting(View(), body[i]);
        halted := Dispatch(body[i]);
        i := i + 1;
      }
      assert body[i..] == if body == [] then [] else [body[i]];
      if i < |body| {
        halted := Dispatch(body[i]);
      }
    }

    /** arch_syscall_entry (ret is the handler's result) and DECLARE_INTERRUPT (ret is None). */
    method GateEntry(body: seq<Cmd>, ret: Option<int>) returns (halted: bool)
      requires Resting(View()) && BodyEnabled(View(), body) && frames.Keys == tcb.Keys
      modifies this
      ensures halted <==> old(GatePass(Whole(), body, ret)).None?
      ensures !halted ==> old(GatePass(Whole(), body, ret)) == Some(Whole())
    {
      frames := frames[ctx := cpu];
      var entered := ctx;
      BodyInGate(View(), body);
      halted := DispatchAll(body);
      if halted {
        return;
      }
      BodyThreads(old(View()), body);
      frames := Live(Born(body) + frames, tcb);
      if ret.Some? && ctx == entered && entered in frames {
        frames := frames[entered := frames[entered].(eax := ret.value)];
      }
      CommitRests(View());
      ContextSwitch();
      cpu := frames[ctx];
    }
  }
}
