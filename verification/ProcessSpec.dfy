/**
 What each scheduler command of osdev/kernel/process.c does to the state, and
 what every command keeps.
 */
module ProcessSpec {
  import opened Threads
  import opened Basics

  function SetTcb(s: State, t: Tid, c: Tcb): State {
    s.(tcb := s.tcb[t := c])
  }

  /** find_next_runnable chose next: its wake-up is consumed, thread_run moves and the switch is recorded. */
  function Go(s: State, next: Tid): State
    requires s.run in s.tcb && next in s.tcb
  {
    var c := s.tcb[next];
    s.(run := next,
       tcb := s.tcb[next := c.(wake := false)],
       request := Request(if s.tcb[s.run].pid != c.pid then Some(c.pid) else None, Some(next)))
  }

  /** thread_yield_internal, schedule_if_needed. */
  function Yield(s: State): State
    requires Wf(s)
  {
    FindNextReady(s);
    match FindNext(s)
    case None => s
    case Some(n) => Go(s, n)
  }

  lemma {:induction false} FindNextReady(s: State)
    requires Wf(s)
    ensures FindNext(s).None? <==> forall t :: t in s.tcb && t != s.run ==> !s.tcb[t].ready
    ensures FindNext(s).Some? ==> var n := FindNext(s).value; n in s.tcb && n != s.run && s.tcb[n].ready
  {
    RotationMembers(s.order, s.run);
    FirstReadyNone(Rotation(s.order, s.run), s.tcb);
    if FindNext(s).None? {
      forall t | t in s.tcb && t != s.run ensures !s.tcb[t].ready {
        assert t in Rotation(s.order, s.run) && !Runnable(s.tcb, t);
      }
    }
  }

  function Block(s: State, t: Tid): State
    requires Wf(s)
  {
    if t !in s.tcb then s
    else if s.tcb[t].wake then SetTcb(s, t, s.tcb[t].(wake := false))
    else
      var s' := SetTcb(s, t, s.tcb[t].(ready := false));
      if t == s.run then SetTcbWf(s, t, s.tcb[t].(ready := false)); Yield(s') else s'
  }

  function Unblock(s: State, t: Tid): State {
    if t !in s.tcb then s else SetTcb(s, t, s.tcb[t].(wake := true, ready := true))
  }

  lemma {:induction false} SetTcbWf(s: State, t: Tid, c: Tcb)
    requires Wf(s) && t in s.tcb && c.pid == s.tcb[t].pid && c.on == s.tcb[t].on
    ensures Wf(SetTcb(s, t, c))
  {
  }

  /** tcb_detach_wait, the list removals and the free of one thread. */
  function Remove(s: State, t: Tid): State
    requires t in s.tcb && s.tcb[t].pid in s.procs
    requires s.tcb[t].on.Some? ==> s.tcb[t].on.value in s.queues
  {
    var c := s.tcb[t];
    s.(order := Without(s.order, t),
       tcb := s.tcb - {t},
       procs := s.procs[c.pid := Without(s.procs[c.pid], t)],
       queues := if c.on.None? then s.queues else s.queues[c.on.value := Without(s.queues[c.on.value], t)])
  }

  lemma {:induction false} RemoveListed(order: seq<Tid>, tcb: map<Tid, Tcb>, t: Tid)
    requires Listed(order, tcb)
    ensures Listed(Without(order, t), tcb - {t})
  {
    WithoutNoDup(order, t);
  }

  lemma {:induction false} RemoveOwned(procs: map<Pid, seq<Tid>>, tcb: map<Tid, Tcb>, t: Tid)
    requires Owned(procs, tcb) && t in tcb
    ensures Owned(procs[tcb[t].pid := Without(procs[tcb[t].pid], t)], tcb - {t})
  {
    WithoutNoDup(procs[tcb[t].pid], t);
  }

  lemma {:induction false} RemoveParked(queues: map<Wq, seq<Tid>>, tcb: map<Tid, Tcb>, t: Tid)
    requires Parked(queues, tcb) && t in tcb && tcb[t].on.Some?
    ensures Parked(queues[tcb[t].on.value := Without(queues[tcb[t].on.value], t)], tcb - {t})
  {
    var q := tcb[t].on.value;
    assert q in queues && NoDup(queues[q]);
    WithoutNoDup(queues[q], t);
  }

  lemma {:induction false} RemoveWf(s: State, t: Tid)
    requires Wf(s) && t in s.tcb && t != s.run
    ensures Wf(Remove(s, t))
  {
    RemoveListed(s.order, s.tcb, t);
    RemoveOwned(s.procs, s.tcb, t);
    if s.tcb[t].on.Some? {
      RemoveParked(s.queues, s.tcb, t);
    }
  }

  lemma {:induction false} GoWf(s: State, n: Tid)
    requires Wf(s) && n in s.tcb
    ensures Wf(Go(s, n))
  {
    SetTcbWf(s, n, s.tcb[n].(wake := false));
  }

  // ---- the deferred switch ----

  /** arch_task_context_switch. */
  function Commit(s: State): State {
    s.(cr3 := if s.request.vcb.Some? then s.request.vcb.value else s.cr3,
       ctx := if s.request.ctx.Some? then s.request.ctx.value else s.ctx,
       request := Request(None, None))
  }

  /** Between gates: nothing is requested, and context and page directory are those of thread_run. */
  ghost predicate Resting(s: State) {
    && Wf(s) && s.request == Request(None, None)
    && s.ctx == s.run && s.cr3 == s.tcb[s.run].pid
  }

  /** Inside a gate: a requested switch leads to thread_run, and committing it loads its page directory. */
  ghost predicate InGate(s: State) {
    && Wf(s)
    && (if s.request.ctx.None? then s.request.vcb.None? && s.ctx == s.run else s.request.ctx.value == s.run)
    && Directory(s) == s.tcb[s.run].pid
  }

  /** The page directory that is loaded after the next commit. */
  function Directory(s: State): Pid {
    if s.request.vcb.Some? then s.request.vcb.value else s.cr3
  }

  lemma {:induction false} CommitRests(s: State)
    requires InGate(s)
    ensures Resting(Commit(s)) && Commit(s).run == s.run && Commit(s).tcb == s.tcb
  {
  }

  /**
   request_switch_context forgets an earlier page directory when old and next
   share a process: the recorded switch is right exactly when the two differ
   or the loaded directory already is the right one.
   */
  lemma {:induction false} GoExact(s: State, n: Tid)
    requires Wf(s) && n in s.tcb
    ensures InGate(Go(s, n)) <==> s.tcb[s.run].pid != s.tcb[n].pid || s.cr3 == s.tcb[n].pid
  {
    GoWf(s, n);
  }

  /** A process with one thread running and another process with two siblings. */
  function Siblings(): State {
    State([1, 2, 3], map[1 := Tcb(1, true, false, None), 2 := Tcb(2, true, false, None), 3 := Tcb(2, true, false, None)],
          map[1 := [1], 2 := [2, 3]], map[], 1, Request(None, None), 1, 1)
  }

  lemma {:induction false} SiblingsRest()
    ensures Resting(Siblings())
  {
    var s := Siblings();
    assert Listed(s.order, s.tcb);
    assert Owned(s.procs, s.tcb);
    assert Parked(s.queues, s.tcb);
  }

  /** Two recorded switches in one gate, into another process and on to a sibling, lose the page directory. */
  lemma {:induction false} TwoSwitchesLoseDirectory()
    ensures exists s: State, a: Tid, b: Tid ::
      && Resting(s) && a in s.tcb && b in s.tcb && s.tcb[a].ready && s.tcb[b].ready
      && InGate(Go(s, a)) && Wf(Go(Go(s, a), b)) && Commit(Go(Go(s, a), b)).cr3 != s.tcb[b].pid
  {
    SiblingsRest();
    var s := Siblings();
    GoExact(s, 2);
    GoWf(s, 2);
    GoWf(Go(s, 2), 3);
    assert Commit(Go(Go(s, 2), 3)).cr3 != s.tcb[3].pid;
  }

  lemma {:induction false} YieldInGate(s: State)
    requires Wf(s) && s.request == Request(None, None) && s.ctx == s.run && s.cr3 == s.tcb[s.run].pid
    ensures InGate(Yield(s))
  {
    FindNextReady(s);
    if FindNext(s).Some? {
      GoExact(s, FindNext(s).value);
    }
  }

  lemma {:induction false} BlockInGate(s: State, t: Tid)
    requires Resting(s)
    ensures InGate(Block(s, t))
  {
    if t in s.tcb {
      SetTcbWf(s, t, s.tcb[t].(wake := false));
      SetTcbWf(s, t, s.tcb[t].(ready := false));
      if !s.tcb[t].wake && t == s.run {
        YieldInGate(SetTcb(s, t, s.tcb[t].(ready := false)));
      }
    }
  }

  lemma {:induction false} UnblockInGate(s: State, t: Tid)
    requires InGate(s)
    ensures InGate(Unblock(s, t))
  {
    if t in s.tcb {
      SetTcbWf(s, t, s.tcb[t].(wake := true, ready := true));
    }
  }

  // ---- thread_delete_internal ----

  function Delete(s: State, t: Tid): State
    requires Wf(s)
  {
    if t !in s.tcb then s
    else if t != s.run then Remove(s, t)
    else
      FindNextReady(s);
      match FindNext(s)
      case None => s
      case Some(n) => GoWf(s, n); Remove(Go(s, n), t)
  }

  lemma {:induction false} DeleteInGate(s: State, t: Tid)
    requires Resting(s)
    ensures InGate(Delete(s, t))
    ensures t in s.tcb && (t != s.run || FindNext(s).Some?) ==> Delete(s, t).tcb.Keys == s.tcb.Keys - {t}
  {
    FindNextReady(s);
    if t in s.tcb {
      if t != s.run {
        RemoveWf(s, t);
      } else if FindNext(s).Some? {
        var n := FindNext(s).value;
        GoExact(s, n);
        GoWf(s, n);
        RemoveWf(Go(s, n), t);
      }
    }
  }

  // ---- wait queues ----

  /** wait_queue_sleep_locked for the running thread: a thread already queued stays where it is. */
  function Sleep(s: State, q: Wq): State
    requires Wf(s) && q in s.queues
  {
    if s.tcb[s.run].on.Some? then s else EnqueueWf(s, q); Block(Enqueue(s, q), s.run)
  }

  /** list_add puts the sleeper at the head. */
  function Enqueue(s: State, q: Wq): State
    requires s.run in s.tcb && q in s.queues
  {
    s.(queues := s.queues[q := [s.run] + s.queues[q]], tcb := s.tcb[s.run := s.tcb[s.run].(on := Some(q))])
  }

  lemma {:induction false} EnqueueWf(s: State, q: Wq)
    requires Wf(s) && q in s.queues && s.tcb[s.run].on.None?
    ensures Wf(Enqueue(s, q))
  {
    var s', t := Enqueue(s, q), s.run;
    assert t !in s.queues[q];
    assert NoDup([t] + s.queues[q]) by {
      forall i, j | 0 <= i < j < |s.queues[q]| + 1 ensures ([t] + s.queues[q])[i] != ([t] + s.queues[q])[j] {
        if i == 0 { assert s.queues[q][j - 1] in s.queues[q]; }
      }
    }
    assert Parked(s'.queues, s'.tcb);
  }

  /** wait_queue_wake_one. */
  function WakeOne(s: State, q: Wq): State
    requires q in s.queues
  {
    if s.queues[q] == [] then s else Unblock(Dequeue(s, q), s.queues[q][0])
  }

  function Dequeue(s: State, q: Wq): State
    requires q in s.queues && s.queues[q] != []
  {
    var t := s.queues[q][0];
    if t !in s.tcb then s else
      s.(queues := s.queues[q := s.queues[q][1..]], tcb := s.tcb[t := s.tcb[t].(on := None)])
  }

  lemma {:induction false} DequeueWf(s: State, q: Wq)
    requires Wf(s) && q in s.queues && s.queues[q] != []
    ensures Wf(Dequeue(s, q)) && s.queues[q][0] in s.tcb
  {
    var s', w := Dequeue(s, q), s.queues[q];
    assert w[0] in w;
    forall t | t in w[1..] ensures t in w && t != w[0] {
      var i :| 0 <= i < |w| - 1 && w[1..][i] == t;
      assert w[i + 1] == t;
    }
    assert NoDup(w[1..]);
    forall t | t in s'.tcb && s'.tcb[t].on.Some? ensures s'.tcb[t].on.value in s'.queues && t in s'.queues[s'.tcb[t].on.value] {
      if s'.tcb[t].on.value == q {
        assert t in w && t != w[0];
        assert w == [w[0]] + w[1..];
      }
    }
  }

  lemma {:induction false} SleepInGate(s: State, q: Wq)
    requires Resting(s) && q in s.queues
    ensures InGate(Sleep(s, q))
  {
    if s.tcb[s.run].on.None? {
      EnqueueWf(s, q);
      BlockInGate(Enqueue(s, q), s.run);
    }
  }
}
