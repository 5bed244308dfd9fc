/**
 The state osdev/kernel/process.c and osdev/arch/i386/irq.S share: the
 scheduling list, the thread and process records, the recorded switch, and
 what the processor has loaded.
 */
module Threads {
  import opened Basics

  type Tid = int
  type Pid = int
  type Wq = int

  /** `tcb`: owner, TS_READY or TS_PENDING, wake_pending, waiting_on. */
  datatype Tcb = Tcb(pid: Pid, ready: bool, wake: bool, on: Option<Wq>)

  /** `thread_context_switch_info`: a requested page directory and context. */
  datatype Request = Request(vcb: Option<Pid>, ctx: Option<Tid>)

  /**
   order: the list thread_head; procs: each process with its list tcbs;
   queues: the wait queues; run: thread_run; request: thread_ctx_info;
   cr3: the process whose page directory is loaded; ctx: curr_task_ctx.
   */
  datatype State = State(
    order: seq<Tid>,
    tcb: map<Tid, Tcb>,
    procs: map<Pid, seq<Tid>>,
    queues: map<Wq, seq<Tid>>,
    run: Tid,
    request: Request,
    cr3: Pid,
    ctx: Tid)

  /** list_del. */
  function Without<T(==,!new)>(s: seq<T>, x: T): (r: seq<T>)
    ensures forall y :: y in r <==> y in s && y != x
  {
    if s == [] then [] else if s[0] == x then Without(s[1..], x) else [s[0]] + Without(s[1..], x)
  }

  lemma {:induction false} WithoutNoDup<T(!new)>(s: seq<T>, x: T)
    requires NoDup(s)
    ensures NoDup(Without(s, x))
    ensures |Without(s, x)| == |s| - (if x in s then 1 else 0)
  {
    if s != [] {
      WithoutNoDup(s[1..], x);
      if s[0] != x {
        var r := Without(s[1..], x);
        assert Without(s, x) == [s[0]] + r;
        forall i, j | 0 <= i < j < |r| + 1 ensures ([s[0]] + r)[i] != ([s[0]] + r)[j] {
          if i == 0 { assert r[j - 1] in r; }
        }
      }
    }
  }

  /** The scheduling list names exactly the threads, each once. */
  ghost predicate Listed(order: seq<Tid>, tcb: map<Tid, Tcb>) {
    NoDup(order) && forall t :: t in order <==> t in tcb
  }

  /** Each process lists exactly its own threads, each once. */
  ghost predicate Owned(procs: map<Pid, seq<Tid>>, tcb: map<Tid, Tcb>) {
    && (forall p :: p in procs ==> NoDup(procs[p]))
    && (forall t :: t in tcb ==> tcb[t].pid in procs && t in procs[tcb[t].pid])
    && (forall p, t :: p in procs && t in procs[p] ==> t in tcb && tcb[t].pid == p)
  }

  /** A thread sits on a wait queue exactly when its waiting_on names that queue. */
  ghost predicate Parked(queues: map<Wq, seq<Tid>>, tcb: map<Tid, Tcb>) {
    && (forall q :: q in queues ==> NoDup(queues[q]))
    && (forall t :: t in tcb && tcb[t].on.Some? ==> tcb[t].on.value in queues && t in queues[tcb[t].on.value])
    && (forall q, t :: q in queues && t in queues[q] ==> t in tcb && tcb[t].on == Some(q))
  }

  ghost predicate Wf(s: State) {
    && Listed(s.order, s.tcb) && Owned(s.procs, s.tcb) && Parked(s.queues, s.tcb)
    && s.run in s.tcb
  }

  // ---- choosing the next thread ----

  function Index<T(==)>(s: seq<T>, x: T): (i: nat)
    requires x in s
    ensures i < |s| && s[i] == x
    ensures forall j :: 0 <= j < i ==> s[j] != x
  {
    if s[0] == x then 0 else 1 + Index(s[1..], x)
  }

  /** The threads after t on the circular list, nearest first. */
  function Rotation(order: seq<Tid>, t: Tid): seq<Tid>
    requires t in order
  {
    order[Index(order, t) + 1..] + order[..Index(order, t)]
  }

  predicate Runnable(tcb: map<Tid, Tcb>, t: Tid) {
    t in tcb && tcb[t].ready
  }

  function FirstReady(s: seq<Tid>, tcb: map<Tid, Tcb>): Option<Tid> {
    if s == [] then None else if Runnable(tcb, s[0]) then Some(s[0]) else FirstReady(s[1..], tcb)
  }

  /** The choice of find_next_runnable. */
  function FindNext(s: State): Option<Tid>
    requires s.run in s.order
  {
    FirstReady(Rotation(s.order, s.run), s.tcb)
  }

  lemma {:induction false} FirstReadySplit(a: seq<Tid>, b: seq<Tid>, tcb: map<Tid, Tcb>)
    ensures FirstReady(a + b, tcb) == if FirstReady(a, tcb).Some? then FirstReady(a, tcb) else FirstReady(b, tcb)
  {
    if a == [] {
      assert a + b == b;
    } else {
      assert (a + b)[1..] == a[1..] + b;
      FirstReadySplit(a[1..], b, tcb);
    }
  }

  /** No candidate exactly when no other thread is ready. */
  lemma {:induction false} FirstReadyNone(s: seq<Tid>, tcb: map<Tid, Tcb>)
    ensures FirstReady(s, tcb).None? <==> forall t :: t in s ==> !Runnable(tcb, t)
    ensures FirstReady(s, tcb).Some? ==> FirstReady(s, tcb).value in s && Runnable(tcb, FirstReady(s, tcb).value)
  {
    if s != [] { FirstReadyNone(s[1..], tcb); }
  }

  lemma {:induction false} RotationMembers(order: seq<Tid>, t: Tid)
    requires NoDup(order) && t in order
    ensures forall u :: u in Rotation(order, t) <==> u in order && u != t
  {
    var i := Index(order, t);
    assert order == order[..i] + [t] + order[i + 1..];
    forall u ensures u in Rotation(order, t) <==> u in order && u != t {
      if u in Rotation(order, t) {
        if u in order[i + 1..] {
          var j :| i + 1 <= j < |order| && order[j] == u;
        } else {
          var j :| 0 <= j < i && order[j] == u;
        }
      }
    }
  }
}
