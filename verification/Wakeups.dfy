/**
 What each scheduler command leaves in the record of a thread, and why a thread
 is not ready: parked on a wait queue, or stopped by a command and idle since
 (osdev/kernel/process.c, osdev/kernel/sync/wait_queue.c).
 */
module Wakeups {
  import opened Threads
  import opened ProcessSpec
  import opened ProcExit
  import opened Gate
  import opened Basics

  /** s' is s but for the records and the queues. */
  ghost predicate Elsewhere(s: State, s': State) {
    s' == s.(tcb := s'.tcb, queues := s'.queues)
  }

  /** The first of the queue is off it, runnable and has a wake-up to consume; nobody else is touched. */
  lemma {:induction false} WakeOneRecords(s: State, q: Wq)
    requires Wf(s) && q in s.queues
    ensures Exec(s, WakeCmd(q)) == Some(WakeOne(s, q)) && Elsewhere(s, WakeOne(s, q))
    ensures s.queues[q] == [] ==> WakeOne(s, q) == s
    ensures s.queues[q] != [] ==>
      var t := s.queues[q][0];
      && t in s.tcb && WakeOne(s, q).queues == s.queues[q := s.queues[q][1..]]
      && WakeOne(s, q).tcb == s.tcb[t := s.tcb[t].(on := None, wake := true, ready := true)]
  {
    if s.queues[q] != [] { DequeueWf(s, q); }
  }

  lemma {:induction false} UnblockRecords(s: State, t: Tid)
    requires Wf(s) && t in s.tcb
    ensures Exec(s, UnblockCmd(t)) == Some(Unblock(s, t))
    ensures Elsewhere(s, Unblock(s, t)) && Unblock(s, t).queues == s.queues
    ensures Unblock(s, t).tcb == s.tcb[t := s.tcb[t].(wake := true, ready := true)]
  {
  }

  /** Some other thread can run when this one blocks. */
  ghost predicate Relief(s: State) {
    exists t :: t in s.tcb && t != s.run && s.tcb[t].ready
  }

  lemma {:induction false} SameRelief(s: State, s': State)
    requires s'.run == s.run && s'.tcb.Keys == s.tcb.Keys
    requires forall t :: t in s.tcb && t != s.run ==> s'.tcb[t].ready == s.tcb[t].ready
    ensures Relief(s') <==> Relief(s)
  {
    if Relief(s) {
      var t :| t in s.tcb && t != s.run && s.tcb[t].ready;
      assert s'.tcb[t].ready;
    }
  }

  /** The record of u after a switch to n: the wake-up of n is consumed. */
  function Switched(c: Tcb, u: Tid, n: Tid): Tcb {
    if u == n then c.(wake := false) else c
  }

  /** thread_yield goes to somebody else exactly if somebody else is ready. */
  lemma {:induction false} YieldRecords(s: State)
    requires Wf(s)
    ensures var s' := Yield(s);
      && s'.queues == s.queues && s'.tcb.Keys == s.tcb.Keys
      && (s'.run != s.run <==> Relief(s))
      && (s'.run != s.run ==> s'.run in s.tcb && s.tcb[s'.run].ready)
      && (s'.run == s.run ==> s' == s)
      && (forall u :: u in s.tcb ==> s'.tcb[u] == if s'.run == s.run then s.tcb[u] else Switched(s.tcb[u], u, s'.run))
  {
    FindNextReady(s);
  }

  /** A pending wake-up is consumed and t stays runnable; otherwise t is not ready. Nobody else is touched. */
  lemma {:induction false} BlockRecords(s: State, t: Tid)
    requires Wf(s) && t in s.tcb && (t == s.run ==> s.tcb[t].wake)
    ensures Exec(s, BlockCmd(t)) == Some(Block(s, t))
    ensures Elsewhere(s, Block(s, t)) && Block(s, t).queues == s.queues
    ensures Block(s, t).tcb == s.tcb[t := if s.tcb[t].wake then s.tcb[t].(wake := false) else s.tcb[t].(ready := false)]
  {
  }

  /** The running thread is not ready any more, and the processor goes to somebody else exactly if somebody else is ready. */
  lemma {:induction false} BlockRunning(s: State)
    requires Wf(s) && !s.tcb[s.run].wake
    ensures var s', t := Block(s, s.run), s.run;
      && s'.queues == s.queues && s'.tcb.Keys == s.tcb.Keys && s'.tcb[t] == s.tcb[t].(ready := false)
      && (s'.run != t <==> Relief(s))
      && (forall u :: u in s.tcb && u != t ==> s'.tcb[u] == if s'.run == t then s.tcb[u] else Switched(s.tcb[u], u, s'.run))
  {
    var c := s.tcb[s.run].(ready := false);
    SetTcbWf(s, s.run, c);
    var b := SetTcb(s, s.run, c);
    SameRelief(s, b);
    YieldRecords(b);
  }

  /** A thread that sleeps heads the queue and is not ready; it stays the running one exactly when nobody else is ready. */
  lemma {:induction false} SleepRecords(s: State, q: Wq)
    requires Wf(s) && q in s.queues && s.tcb[s.run].on.None? && !s.tcb[s.run].wake
    ensures var s', t := Sleep(s, q), s.run;
      && s'.queues == s.queues[q := [t] + s.queues[q]] && s'.tcb.Keys == s.tcb.Keys
      && s'.tcb[t] == s.tcb[t].(on := Some(q), ready := false)
      && (s'.run == t <==> !Relief(s))
      && (forall u :: u in s.tcb && u != t ==> s'.tcb[u] == if s'.run == t then s.tcb[u] else Switched(s.tcb[u], u, s'.run))
  {
    EnqueueWf(s, q);
    var e := Enqueue(s, q);
    SameRelief(s, e);
    BlockRunning(e);
  }

  /** A new thread belongs to the process it was made for, waits to be unblocked, and nobody else is touched. */
  lemma {:induction false} CreateRecords(s: State, c: Cmd)
    requires Wf(s) && Enabled(s, c) && (c.CreateThreadCmd? || c.CreateProcCmd?)
    ensures Exec(s, c).Some?
    ensures var s', p := Exec(s, c).value, if c.CreateProcCmd? then c.p else s.tcb[s.run].pid;
      && s'.tcb.Keys == s.tcb.Keys + {c.t}
      && s'.tcb[c.t].pid == p && !s'.tcb[c.t].ready && !s'.tcb[c.t].wake && s'.tcb[c.t].on.None?
      && (forall u :: u in s.tcb ==> s'.tcb[u] == s.tcb[u])
      && p in s'.procs && s'.procs[p] == [c.t] + (if c.CreateProcCmd? then [] else s.procs[p])
      && s'.order == [c.t] + s.order && s'.queues == s.queues && s'.run == s.run
  {
  }

  /** proc_block and proc_unblock set exactly the threads of the process, parked ones too. */
  lemma {:induction false} ProcessRecords(s: State, c: Cmd)
    requires Wf(s) && (c.BlockProcCmd? || c.UnblockProcCmd?)
    ensures Exec(s, c).Some?
    ensures var s' := Exec(s, c).value;
      && Elsewhere(s, s') && s'.queues == s.queues && s'.tcb.Keys == s.tcb.Keys
      && (forall t :: t in s.tcb ==>
            s'.tcb[t] == if s.tcb[t].pid == c.p then s.tcb[t].(ready := c.UnblockProcCmd?) else s.tcb[t])
  {
  }

  // ---- why a thread is not ready ----

  /** Not ready, and not because it waits on a queue. */
  ghost predicate Stalled(s: State, t: Tid) {
    t in s.tcb && !s.tcb[t].ready && s.tcb[t].on.None?
  }

  /** Whom a command stops. */
  function Stops(s: State, c: Cmd): set<Tid> {
    match c
    case BlockCmd(t) => {t}
    case CreateThreadCmd(t, _) => {t}
    case CreateProcCmd(_, t, _) => {t}
    case BlockProcCmd(p) => set t | t in s.tcb && s.tcb[t].pid == p
    case _ => {}
  }

  /** Nobody falls idle but those who are stopped. */
  ghost predicate Stirs(s: State, s': State, stops: set<Tid>) {
    forall t :: Stalled(s', t) ==> t in stops || Stalled(s, t)
  }

  lemma {:induction false} StirsTwice(a: State, b: State, c: State)
    requires Stirs(a, b, {}) && Stirs(b, c, {})
    ensures Stirs(a, c, {})
  {
  }

  /** Nobody else falls idle when t is blocked. */
  lemma {:induction false} BlockStirs(s: State, t: Tid)
    requires Wf(s) && t in s.tcb
    ensures Stirs(s, Block(s, t), {t})
    ensures s.tcb[t].on.Some? ==> Stirs(s, Block(s, t), {})
  {
    if t == s.run && !s.tcb[t].wake { BlockRunning(s); } else { BlockRecords(s, t); }
  }

  lemma {:induction false} SleepStirs(s: State, q: Wq)
    requires Wf(s) && q in s.queues
    ensures Stirs(s, Sleep(s, q), {})
  {
    if s.tcb[s.run].on.None? {
      EnqueueWf(s, q);
      BlockStirs(Enqueue(s, q), s.run);
    }
  }

  lemma {:induction false} DeleteStirs(s: State, t: Tid)
    requires Wf(s)
    ensures Stirs(s, Delete(s, t), {})
  {
    FindNextReady(s);
  }

  lemma {:induction false} ExecStirs(s: State, c: Cmd)
    requires Resting(s) && Enabled(s, c) && Exec(s, c).Some?
    ensures Stirs(s, Exec(s, c).value, Stops(s, c))
  {
    match c
    case YieldCmd => YieldRecords(s);
    case BlockCmd(t) => if t in s.tcb { BlockStirs(s, t); }
    case DeleteCmd(t) => DeleteStirs(s, t);
    case ExitCmd(p) => ExitStirs(s, p);
    case SleepCmd(q) => SleepStirs(s, q);
    case WakeCmd(q) => WakeOneRecords(s, q);
    case _ =>
  }

  lemma {:induction false} ExitStirs(s: State, p: Pid)
    requires Resting(s) && Exit(s, p).Some?
    ensures Stirs(s, Exit(s, p).value, {})
  {
    if p in s.procs {
      ExitCorrect(s, p);
      var s' := Exit(s, p).value;
      forall t | Stalled(s', t) ensures Stalled(s, t) { assert Same(s.tcb[t], s'.tcb[t]); }
    }
  }

  /** Command i - 1 stopped t, or i is where the run begins, and t has been neither ready nor parked since. */
  ghost predicate StoppedAt(ks: seq<State>, stops: seq<set<Tid>>, i: nat, n: nat, t: Tid) {
    && i <= n < |ks| == |stops| + 1 && (i > 0 ==> t in stops[i - 1])
    && (forall j :: i <= j <= n ==> Stalled(ks[j], t))
  }

  ghost predicate Stirring(ks: seq<State>, stops: seq<set<Tid>>) {
    |ks| == |stops| + 1 && forall i :: 0 <= i < |stops| ==> Stirs(ks[i], ks[i + 1], stops[i])
  }

  /** Whoever is neither ready nor parked was stopped by name, and has been so since. */
  lemma {:induction false} StalledWasStopped(ks: seq<State>, stops: seq<set<Tid>>, n: nat, t: Tid)
    requires Stirring(ks, stops) && n < |ks| && Stalled(ks[n], t)
    ensures exists i :: StoppedAt(ks, stops, i, n, t)
  {
    if n == 0 || t in stops[n - 1] {
      assert StoppedAt(ks, stops, n, n, t);
    } else {
      assert Stirs(ks[n - 1], ks[n - 1 + 1], stops[n - 1]);
      StalledWasStopped(ks, stops, n - 1, t);
      var i :| StoppedAt(ks, stops, i, n - 1, t);
      assert StoppedAt(ks, stops, i, n, t);
    }
  }

  // ---- a thread stays in its process ----

  /** Nobody but dead is gone, and nobody changes its process. */
  ghost predicate Kin(s: State, s': State, dead: set<Tid>) {
    forall t :: t in s.tcb && t !in dead ==> t in s'.tcb && s'.tcb[t].pid == s.tcb[t].pid
  }

  lemma {:induction false} BlockKin(s: State, t: Tid)
    requires Wf(s)
    ensures Kin(s, Block(s, t), {})
  {
    if t in s.tcb {
      if t == s.run && !s.tcb[t].wake { BlockRunning(s); } else { BlockRecords(s, t); }
    }
  }

  lemma {:induction false} SleepKin(s: State, q: Wq)
    requires Wf(s) && q in s.queues
    ensures Kin(s, Sleep(s, q), {})
  {
    if s.tcb[s.run].on.None? {
      EnqueueWf(s, q);
      BlockKin(Enqueue(s, q), s.run);
    }
  }

  lemma {:induction false} DeleteKin(s: State, t: Tid)
    requires Wf(s)
    ensures Kin(s, Delete(s, t), {t})
  {
    FindNextReady(s);
  }

  lemma {:induction false} ExecKin(s: State, c: Cmd)
    requires Wf(s) && Enabled(s, c) && Exec(s, c).Some? && !c.ExitCmd?
    ensures Kin(s, Exec(s, c).value, if c.DeleteCmd? then {c.t} else {})
  {
    match c
    case YieldCmd => YieldRecords(s);
    case BlockCmd(t) => BlockKin(s, t);
    case DeleteCmd(t) => DeleteKin(s, t);
    case SleepCmd(q) => SleepKin(s, q);
    case WakeCmd(q) => WakeOneRecords(s, q);
    case _ =>
  }
}
