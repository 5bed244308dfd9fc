/**
 proc_exit_internal of osdev/kernel/process.c: deleting every thread of a
 process, the running one included, before its address space is destroyed.
 */
module ProcExit {
  import opened Threads
  import opened ProcessSpec
  import opened Basics

  /** The loop over the shrinking list of threads; None when nothing is left to run and the kernel halts. */
  function ExitLoop(s: State, pid: Pid): Option<State>
    requires Wf(s) && pid in s.procs
    decreases |s.procs[pid]|
  {
    if s.procs[pid] == [] then Some(s)
    else
      var t := s.procs[pid][0];
      assert t in s.procs[pid];
      WithoutNoDup(s.procs[pid], t);
      if t != s.run then
        RemoveWf(s, t); ExitLoop(Remove(s, t), pid)
      else
        FindNextReady(s);
        match FindNext(s)
        case None => None
        case Some(n) => GoWf(s, n); RemoveWf(Go(s, n), t); ExitLoop(Remove(Go(s, n), t), pid)
  }

  /** The whole command: the loop, the commit of the switch, and the end of the process. */
  function Exit(s: State, pid: Pid): Option<State>
    requires Wf(s)
  {
    if pid !in s.procs then Some(Commit(s))
    else
      match ExitLoop(s, pid)
      case None => None
      case Some(s') => Some(Commit(s'.(procs := s'.procs - {pid})))
  }

  /** Threads of other processes are not touched, except that a chosen one has its wake-up consumed. */
  ghost predicate Spared(s: State, s': State, pid: Pid) {
    && (forall t :: t in s'.tcb ==> t in s.tcb && Same(s.tcb[t], s'.tcb[t]))
    && (forall t :: t in s.tcb && s.tcb[t].pid != pid ==> t in s'.tcb)
    && (forall p :: p in s.procs && p != pid ==> p in s'.procs && s'.procs[p] == s.procs[p])
    && s'.procs.Keys == s.procs.Keys
  }

  ghost predicate Same(c: Tcb, c': Tcb) {
    c'.pid == c.pid && c'.ready == c.ready && c'.on == c.on && (c'.wake ==> c.wake)
  }

  /** While a dying thread runs, its page directory is the loaded one. */
  ghost predicate Leaving(s: State, pid: Pid) {
    InGate(s) && pid in s.procs && (s.tcb[s.run].pid == pid ==> s.cr3 == pid)
  }

  lemma {:induction false} ExitStep(s: State, pid: Pid, n: Tid)
    requires Leaving(s, pid) && s.procs[pid] != [] && n in s.tcb && n != s.procs[pid][0]
    requires n == s.run || s.run == s.procs[pid][0]
    ensures var t := s.procs[pid][0]; var s1 := if n == s.run then s else Go(s, n);
      && t in s1.tcb && s1.tcb[t].pid == pid && Wf(s1)
      && Leaving(Remove(s1, t), pid) && Spared(s, Remove(s1, t), pid)
      && Remove(s1, t).tcb.Keys == s.tcb.Keys - {t} && Remove(s1, t).run == n
      && Remove(s1, t).procs[pid] == Without(s.procs[pid], t)
      && Remove(s1, t).order == Without(s.order, t) && Remove(s1, t).cr3 == s.cr3
  {
    var t := s.procs[pid][0];
    assert t in s.procs[pid];
    if n != s.run {
      GoExact(s, n);
      RemoveWf(Go(s, n), t);
    } else {
      RemoveWf(s, t);
    }
  }

  /** The members of keep, in the order of s. */
  function Keep(s: seq<Tid>, keep: set<Tid>): seq<Tid> {
    if s == [] then [] else if s[0] in keep then [s[0]] + Keep(s[1..], keep) else Keep(s[1..], keep)
  }

  lemma {:induction false} KeepAll(s: seq<Tid>, keep: set<Tid>)
    requires forall t :: t in s ==> t in keep
    ensures Keep(s, keep) == s
  {
    if s != [] {
      KeepAll(s[1..], keep);
      var t := s[0];
      assert t in s && t in keep;
      assert Keep(s[1..], keep) == s[1..];
      assert s == [s[0]] + s[1..];
    }
  }

  lemma {:induction false} KeepWithoutSet(s: seq<Tid>, t: Tid, keep: set<Tid>)
    requires t !in keep
    ensures Keep(Without(s, t), keep) == Keep(s, keep)
  {
    if s != [] { KeepWithoutSet(s[1..], t, keep); }
  }

  lemma {:induction false} KeepWithout(s: seq<Tid>, t: Tid, r: Option<State>)
    ensures r.Some? && t !in r.value.tcb ==> Keep(Without(s, t), r.value.tcb.Keys) == Keep(s, r.value.tcb.Keys)
  {
    if r.Some? && t !in r.value.tcb { KeepWithoutSet(s, t, r.value.tcb.Keys); }
  }

  /** The loop ends with exactly the threads of other processes, at most as many rounds as the process had threads. */
  lemma {:induction false} ExitLoopCorrect(s: State, pid: Pid)
    requires Leaving(s, pid)
    ensures ExitLoop(s, pid).None? <==> s.tcb[s.run].pid == pid && NobodyElse(s, pid)
    ensures ExitLoop(s, pid).Some? ==> var s' := ExitLoop(s, pid).value;
      && InGate(s') && Spared(s, s', pid) && s'.procs[pid] == []
      && (forall t :: t in s'.tcb ==> s'.tcb[t].pid != pid)
      && s'.order == Keep(s.order, s'.tcb.Keys)
      && (s.tcb[s.run].pid != pid ==> s'.run == s.run)
    decreases |s.procs[pid]|
  {
    if s.procs[pid] == [] {
      assert s.run in s.tcb;
      KeepAll(s.order, s.tcb.Keys);
    } else {
      var t := s.procs[pid][0];
      assert t in s.procs[pid];
      WithoutNoDup(s.procs[pid], t);
      FindNextReady(s);
      if t != s.run {
        ExitStep(s, pid, s.run);
        ExitLoopCorrect(Remove(s, t), pid);
        SparedTrans(s, Remove(s, t), pid);
        KeepWithout(s.order, t, ExitLoop(s, pid));
      } else if FindNext(s).Some? {
        var n := FindNext(s).value;
        ExitStep(s, pid, n);
        ExitLoopCorrect(Remove(Go(s, n), t), pid);
        SparedTrans(s, Remove(Go(s, n), t), pid);
        KeepWithout(s.order, t, ExitLoop(s, pid));
      }
    }
  }

  /** No thread outside the process is ready. */
  ghost predicate NobodyElse(s: State, pid: Pid) {
    forall t :: t in s.tcb && s.tcb[t].pid != pid ==> !s.tcb[t].ready
  }

  lemma {:induction false} SparedTrans(s: State, m: State, pid: Pid)
    requires Wf(s) && Wf(m) && pid in m.procs && Spared(s, m, pid)
    ensures ExitLoop(m, pid).Some? && Spared(m, ExitLoop(m, pid).value, pid) ==> Spared(s, ExitLoop(m, pid).value, pid)
    ensures NobodyElse(s, pid) <==> NobodyElse(m, pid)
  {
  }

  /**
   Exiting a process: exactly its threads and itself disappear, the machine is
   left on a live thread of another process with that process's page directory
   loaded, so the directory destroyed next is never the loaded one.  The kernel
   halts exactly when the running thread belongs to the process and no thread
   of another process is ready.
   */
  lemma {:induction false} ExitCorrect(s: State, pid: Pid)
    requires Resting(s) && pid in s.procs
    ensures Exit(s, pid).None? <==> s.tcb[s.run].pid == pid && NobodyElse(s, pid)
    ensures Exit(s, pid).Some? ==> var s' := Exit(s, pid).value;
      && Resting(s') && s'.cr3 != pid && s'.cr3 in s'.procs && s'.procs.Keys == s.procs.Keys - {pid}
      && (forall t :: t in s'.tcb <==> t in s.tcb && s.tcb[t].pid != pid)
      && (forall t :: t in s'.tcb ==> Same(s.tcb[t], s'.tcb[t]))
      && s'.order == Keep(s.order, s'.tcb.Keys)
      && (s.tcb[s.run].pid != pid ==> s'.run == s.run)
  {
    ExitLoopCorrect(s, pid);
    if ExitLoop(s, pid).Some? {
      ExitEnds(s, ExitLoop(s, pid).value, pid);
    }
  }

  /** After the loop the process is empty: it can be unlinked and the switch committed. */
  lemma {:induction false} ExitEnds(s: State, e: State, pid: Pid)
    requires Wf(s) && InGate(e) && Spared(s, e, pid) && pid in e.procs && e.procs[pid] == []
    requires forall t :: t in e.tcb ==> e.tcb[t].pid != pid
    ensures var s' := Commit(e.(procs := e.procs - {pid}));
      && Resting(s') && s'.cr3 != pid && s'.cr3 in s'.procs && s'.procs.Keys == s.procs.Keys - {pid}
      && s'.tcb == e.tcb && s'.order == e.order && s'.run == e.run
      && (forall t :: t in e.tcb <==> t in s.tcb && s.tcb[t].pid != pid)
  {
    var d := e.(procs := e.procs - {pid});
    assert Owned(d.procs, d.tcb);
    assert InGate(d);
    CommitRests(d);
  }
}
