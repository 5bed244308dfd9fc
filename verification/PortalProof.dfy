/** The invariant of the portal protocol, kept by every event. */
module PortalProof {
  import opened Threads
  import opened ProcessSpec
  import Gate
  import Sync
  import opened Wakeups
  import opened PortalSpec
  import opened PortalRun
  import opened Basics

  /** The running thread is on no queue and has no wake-up pending; a parked thread is not ready. */
  ghost predicate Calm(k: Threads.State) {
    && k.run in k.tcb && k.tcb[k.run].on.None? && !k.tcb[k.run].wake
    && (forall t :: t in k.tcb && k.tcb[t].on.Some? ==> !k.tcb[t].ready)
  }

  /** Replied: taken off the queue and no longer held. */
  predicate Answered(q: Req, held: bool) {
    q.dequeued && !held
  }

  /** A request beside its client's phase and its done semaphore. */
  ghost predicate ReqState(ph: Phase, r: Rid, q: Req, held: bool, value: int, waiters: seq<Tid>) {
    && (held ==> q.dequeued)
    && match ph
       case Called(r') => r' == r && waiters == [] && value == (if Answered(q, held) then 1 else 0)
       case Waiting(r') =>
         r' == r && if Answered(q, held) then value == 0 && waiters == [] else value == -1 && waiters == [q.client]
       case Got(r', v) => r' == r && Answered(q, held) && value == 0 && waiters == [] && v == q.ret
       case _ => false
  }

  /** A portal beside its server's phase and its request semaphore. */
  ghost predicate PortalState(ph: Phase, i: nat, p: Portal, value: int, waiters: seq<Tid>) {
    && value == |p.queue| - (if ph == Serving(i) then 1 else 0)
    && waiters == if value < 0 then [p.tid] else []
  }

  /** No two requests or portals share a semaphore, and all of them exist. */
  ghost predicate Apart(ps: seq<Portal>, reqs: map<Rid, Req>, value: map<Wq, int>) {
    && (forall r :: r in reqs ==> reqs[r].done in value)
    && (forall i :: 0 <= i < |ps| ==> ps[i].sem in value)
    && (forall r, r' :: r in reqs && r' in reqs && reqs[r].done == reqs[r'].done ==> r == r')
    && (forall i, j :: 0 <= i < |ps| && 0 <= j < |ps| && ps[i].sem == ps[j].sem ==> i == j)
    && (forall i, r :: 0 <= i < |ps| && r in reqs ==> ps[i].sem != reqs[r].done)
  }

  /** The queues hold live requests nobody has taken yet, each once. */
  ghost predicate Queued(ps: seq<Portal>, reqs: map<Rid, Req>) {
    && (forall i, a :: 0 <= i < |ps| && 0 <= a < |ps[i].queue| ==> ps[i].queue[a] in reqs && !reqs[ps[i].queue[a]].dequeued)
    && (forall i, a, j, b :: 0 <= i < |ps| && 0 <= a < |ps[i].queue| && 0 <= j < |ps| && 0 <= b < |ps[j].queue| ==>
          ps[i].queue[a] == ps[j].queue[b] ==> i == j && a == b)
  }

  /** A phase that names a request or a portal names one of the thread's own. */
  ghost predicate OwnPhase(ph: Phase, t: Tid, ps: seq<Portal>, reqs: map<Rid, Req>) {
    match ph
    case Idle => true
    case Called(r) => r in reqs && reqs[r].client == t
    case Waiting(r) => r in reqs && reqs[r].client == t
    case Got(r, _) => r in reqs && reqs[r].client == t
    case Serving(i) => ByTid(ps, t) == Some(i)
  }

  /** A request of a live client is where the client's phase says; one of a deleted client has no waiter, whatever its count. */
  ghost predicate ReqOk(s: Sys, r: Rid) {
    && r in s.p.reqs
    && var q := s.p.reqs[r];
       && q.done in s.p.x.value && q.done in s.p.x.k.queues
       && if q.client in s.p.x.k.tcb then
            ReqState(PhaseOf(s.phase, q.client), r, q, r in s.holder, s.p.x.value[q.done], s.p.x.k.queues[q.done])
          else (r in s.holder ==> q.dequeued) && s.p.x.k.queues[q.done] == []
  }

  ghost predicate PortalOk(s: Sys, i: nat) {
    && i < |s.p.portals|
    && var p := s.p.portals[i];
       && p.sem in s.p.x.value && p.sem in s.p.x.k.queues
       && PortalState(PhaseOf(s.phase, p.tid), i, p, s.p.x.value[p.sem], s.p.x.k.queues[p.sem])
  }

  ghost predicate Inv(s: Sys) {
    Quiet(s.p.x) && Queued(s.p.portals, s.p.reqs) && Linked(s)
  }

  /** Requests, portals, phases and semaphores fit together. */
  ghost predicate Linked(s: Sys) {
    && Apart(s.p.portals, s.p.reqs, s.p.x.value)
    && Tied(s)
    && (forall t :: t in s.phase ==> OwnPhase(s.phase[t], t, s.p.portals, s.p.reqs))
    && (forall r :: r in s.holder ==> r in s.p.reqs)
    && 0 !in s.p.reqs
  }

  ghost predicate Tied(s: Sys) {
    && (forall r :: r in s.p.reqs ==> ReqOk(s, r))
    && (forall i :: 0 <= i < |s.p.portals| ==> PortalOk(s, i))
  }

  // ---- the semaphores under the protocol ----

  /** x' differs from x on the queue and count of q only. */
  ghost predicate Frame(x: Sync.Sems, x': Sync.Sems, q: Wq) {
    && x'.k.tcb.Keys == x.k.tcb.Keys
    && (forall w :: w in x.k.queues && w != q ==> w in x'.k.queues && x'.k.queues[w] == x.k.queues[w])
    && (forall w :: w in x.value && w != q ==> w in x'.value && x'.value[w] == x.value[w])
  }

  ghost predicate Quiet(x: Sync.Sems) {
    Sync.SemsWf(x) && Resting(x.k) && Calm(x.k)
  }

  ghost predicate Only(x: Sync.Sems, x': Sync.Sems, q: Wq) {
    Quiet(x') && Frame(x, x', q)
  }

  /** Parking the running thread. */
  lemma {:induction false} BlockCalm(k: Threads.State)
    requires Wf(k) && k.request == Request(None, None) && k.run in k.tcb && !k.tcb[k.run].wake && Relief(k)
    requires forall t :: t in k.tcb && t != k.run && k.tcb[t].on.Some? ==> !k.tcb[t].ready
    ensures Calm(Block(k, k.run)) && Block(k, k.run).queues == k.queues && Block(k, k.run).tcb.Keys == k.tcb.Keys
  {
    var c := k.tcb[k.run].(ready := false);
    SetTcbWf(k, k.run, c);
    var k' := SetTcb(k, k.run, c);
    FindNextReady(k');
    var t :| t in k.tcb && t != k.run && k.tcb[t].ready;
    assert k'.tcb[t].ready;
  }

  lemma {:induction false} SleepCalm(k: Threads.State, q: Wq)
    requires Resting(k) && Calm(k) && Relief(k) && q in k.queues
    ensures Calm(Sleep(k, q)) && Sleep(k, q).queues == k.queues[q := [k.run] + k.queues[q]] && Sleep(k, q).tcb.Keys == k.tcb.Keys
  {
    EnqueueWf(k, q);
    var e := Enqueue(k, q);
    var t :| t in k.tcb && t != k.run && k.tcb[t].ready;
    assert e.tcb[t].ready;
    BlockCalm(e);
  }

  lemma {:induction false} SleepOnly(x: Sync.Sems, q: Wq, value: map<Wq, int>)
    requires Quiet(x) && Relief(x.k) && q in x.k.queues
    requires value.Keys == x.value.Keys && forall w :: w in value && w != q ==> value[w] == x.value[w]
    ensures var x' := Sync.Sems(Commit(Sleep(x.k, q)), value);
      Only(x, x', q) && x'.k.queues == x.k.queues[q := [x.k.run] + x.k.queues[q]]
  {
    SleepCalm(x.k, q);
    SleepInGate(x.k, q);
    CommitRests(Sleep(x.k, q));
  }

  lemma {:induction false} WakeOnly(x: Sync.Sems, q: Wq, value: map<Wq, int>)
    requires Quiet(x) && q in x.k.queues
    requires value.Keys == x.value.Keys && forall w :: w in value && w != q ==> value[w] == x.value[w]
    ensures var x' := Sync.Sems(Commit(WakeOne(x.k, q)), value);
      && Only(x, x', q)
      && x'.k.queues == if x.k.queues[q] == [] then x.k.queues else x.k.queues[q := x.k.queues[q][1..]]
    ensures WakeOne(x.k, q).run == x.k.run
  {
    Gate.StaysResting(x.k, Gate.WakeCmd(q));
    Sync.WakeQueues(x.k, q);
    if x.k.queues[q] != [] {
      DequeueWf(x.k, q);
      var t := x.k.queues[q][0];
      assert t in x.k.queues[q];
      assert x.k.tcb[t].on == Some(q);
    }
  }

  lemma {:induction false} WaitOnly(x: Sync.Sems, q: Wq)
    requires Quiet(x) && Relief(x.k) && q in x.value
    ensures var w := Sync.Wait(x, q); var x' := w.(k := Commit(w.k));
      && Only(x, x', q)
      && x'.value == x.value[q := x.value[q] - 1]
      && x'.k.queues == if x.value[q] > 0 then x.k.queues else x.k.queues[q := [x.k.run] + x.k.queues[q]]
  {
    if x.value[q] <= 0 { SleepOnly(x, q, x.value[q := x.value[q] - 1]); }
  }

  lemma {:induction false} SignalOnly(x: Sync.Sems, q: Wq)
    requires Quiet(x) && q in x.value
    ensures var w := Sync.Signal(x, q); var x' := w.(k := Commit(w.k));
      && Only(x, x', q) && x'.k.run == x.k.run
      && x'.value == x.value[q := x.value[q] + 1]
      && x'.k.queues == if x.value[q] >= 0 || x.k.queues[q] == [] then x.k.queues else x.k.queues[q := x.k.queues[q][1..]]
  {
    if x.value[q] < 0 { WakeOnly(x, q, x.value[q := x.value[q] + 1]); }
  }

  lemma {:induction false} OpenOnly(x: Sync.Sems, q: Wq)
    requires Quiet(x) && q !in x.k.queues
    ensures Only(x, Sync.Open(x, q, 0), q)
  {
    assert Parked(x.k.queues[q := []], x.k.tcb);
  }

  lemma {:induction false} SameServer(ps: seq<Portal>, ps': seq<Portal>, t: Tid)
    requires |ps'| == |ps| && forall i :: 0 <= i < |ps| ==> ps'[i].tid == ps[i].tid
    ensures ByTid(ps', t) == ByTid(ps, t)
  {
  }

  // ---- what an event leaves alone ----

  predicate Names(ph: Phase, r: Rid) {
    (ph.Called? || ph.Waiting? || ph.Got?) && ph.r == r
  }

  /** s' differs from s in request r, semaphore q and the phase of the running thread, portals apart. */
  ghost predicate Local(s: Sys, s': Sys, r: Rid, q: Wq) {
    && Frame(s.p.x, s'.p.x, q)
    && (forall t :: t != s.p.x.k.run ==> PhaseOf(s'.phase, t) == PhaseOf(s.phase, t))
    && (forall r' :: r' != r ==> (r' in s'.p.reqs <==> r' in s.p.reqs) && (r' in s'.holder <==> r' in s.holder))
    && (forall r' :: r' != r && r' in s.p.reqs ==> s'.p.reqs[r'] == s.p.reqs[r'])
  }

  lemma {:induction false} OthersReqs(s: Sys, s': Sys, r: Rid, q: Wq)
    requires forall r' :: r' in s.p.reqs ==> ReqOk(s, r')
    requires Local(s, s', r, q)
    requires forall r' :: r' in s.p.reqs && r' != r ==> s.p.reqs[r'].done != q
    requires PhaseOf(s'.phase, s.p.x.k.run) == At(s) || forall r' :: r' in s.p.reqs && r' != r ==> !Names(At(s), r')
    ensures forall r' :: r' in s'.p.reqs && r' != r ==> ReqOk(s', r')
  {
    forall r' | r' in s'.p.reqs && r' != r ensures ReqOk(s', r') {
      assert ReqOk(s, r');
    }
  }

  lemma {:induction false} OthersPortals(s: Sys, s': Sys, r: Rid, q: Wq, i: int)
    requires forall j :: 0 <= j < |s.p.portals| ==> PortalOk(s, j)
    requires Local(s, s', r, q)
    requires |s'.p.portals| >= |s.p.portals|
    requires forall j :: 0 <= j < |s.p.portals| && j != i ==> s'.p.portals[j] == s.p.portals[j] && s.p.portals[j].sem != q
    requires forall j: nat :: j < |s.p.portals| && j != i ==> (At(s) == Serving(j) <==> PhaseOf(s'.phase, s.p.x.k.run) == Serving(j))
    ensures forall j :: 0 <= j < |s.p.portals| && j != i ==> PortalOk(s', j)
  {
    forall j | 0 <= j < |s.p.portals| && j != i ensures PortalOk(s', j) {
      assert PortalOk(s, j);
    }
  }

  // ---- one lemma for each event ----

  lemma {:induction false} InitLinked(s: Sys, s': Sys, p: Portal)
    requires Linked(s) && At(s).Idle? && p.sem !in s.p.x.value
    requires Frame(s.p.x, s'.p.x, p.sem) && s'.phase == s.phase && s'.holder == s.holder && s'.p.reqs == s.p.reqs
    requires s'.p.portals == s.p.portals + [p] && p.tid == s.p.x.k.run && p.queue == []
    requires p.sem in s'.p.x.value && s'.p.x.value[p.sem] == 0 && p.sem in s'.p.x.k.queues && s'.p.x.k.queues[p.sem] == []
    ensures Linked(s')
  {
    var n := |s.p.portals|;
    OthersReqs(s, s', 0, p.sem);
    OthersPortals(s, s', 0, p.sem, n);
    assert PortalOk(s', n);
    forall t | t in s.phase ensures OwnPhase(s.phase[t], t, s'.p.portals, s.p.reqs) {
      assert s'.p.portals[..n] == s.p.portals;
    }
  }

  lemma {:induction false} InitKeeps(s: Sys, e: Event)
    requires Inv(s) && Can(s, e) && e.InitEv?
    ensures Inv(Step(s, e))
  {
    var s', n := Step(s, e), |s.p.portals|;
    if s'.p.portals != s.p.portals {
      OpenOnly(s.p.x, e.sem.value);
      InitLinked(s, s', s'.p.portals[n]);
    } else {
      NumberLinked(s, s');
    }
  }

  /** A failed INIT may still have taken an identifier. */
  lemma {:induction false} NumberLinked(s: Sys, s': Sys)
    requires Linked(s) && s' == s.(p := s.p.(nextId := s'.p.nextId))
    ensures Linked(s')
  {
    forall r | r in s.p.reqs ensures ReqOk(s', r) { assert ReqOk(s, r); }
    forall i | 0 <= i < |s.p.portals| ensures PortalOk(s', i) { assert PortalOk(s, i); }
  }

  /** The request r of the running thread, its semaphore and its phase change; the portals do not. */
  lemma {:induction false} RequestLinked(s: Sys, s': Sys, r: Rid)
    requires Linked(s) && r in s.p.reqs && Local(s, s', r, s.p.reqs[r].done)
    requires s'.p.portals == s.p.portals && s'.holder.Keys <= s.holder.Keys
    requires s'.phase == s.phase || Names(At(s), r)
    requires if r in s'.p.reqs then ReqOk(s', r) && s'.p.reqs[r].done == s.p.reqs[r].done && s'.p.reqs[r].client == s.p.reqs[r].client else r !in s'.holder
    requires var ph := PhaseOf(s'.phase, s.p.x.k.run); if r in s'.p.reqs then ph == At(s) || Names(ph, r) else ph == Idle && Names(At(s), r)
    ensures Linked(s')
  {
    OthersReqs(s, s', r, s.p.reqs[r].done);
    OthersPortals(s, s', r, s.p.reqs[r].done, -1);
    forall t | t in s'.phase ensures OwnPhase(s'.phase[t], t, s'.p.portals, s'.p.reqs) {
      assert PhaseOf(s'.phase, t) == s'.phase[t];
      if t in s.phase { assert OwnPhase(s.phase[t], t, s.p.portals, s.p.reqs); }
    }
  }

  lemma {:induction false} WaitReplyKeeps(s: Sys, e: Event)
    requires Inv(s) && Can(s, e) && e.WaitReplyEv?
    ensures Inv(Step(s, e))
  {
    WaitReplyStep(s, e);
    WaitReplyInv(s, Step(s, e), At(s).r);
  }

  lemma {:induction false} WaitReplyInv(s: Sys, s': Sys, r: Rid)
    requires Inv(s) && At(s) == Called(r) && r in s.p.reqs && Relief(s.p.x.k) && Sync.SemsWf(s.p.x)
    requires var w := Sync.Wait(s.p.x, s.p.reqs[r].done);
      s' == s.(p := s.p.(x := w.(k := Commit(w.k))), phase := s.phase[s.p.x.k.run := Waiting(r)])
    ensures Inv(s')
  {
    assert ReqOk(s, r);
    WaitOnly(s.p.x, s.p.reqs[r].done);
    WaitReplyLinked(s, s', r);
  }

  /** What the event changes. */
  lemma {:induction false} WaitReplyStep(s: Sys, e: Event)
    requires Can(s, e) && e.WaitReplyEv? && At(s).r != 0
    ensures var w := Sync.Wait(s.p.x, s.p.reqs[At(s).r].done);
      Step(s, e) == s.(p := s.p.(x := w.(k := Commit(w.k))), phase := s.phase[s.p.x.k.run := Waiting(At(s).r)])
  {
  }

  lemma {:induction false} WaitReplyLinked(s: Sys, s': Sys, r: Rid)
    requires Linked(s) && At(s) == Called(r) && r in s.p.reqs && ReqOk(s, r) && s.p.x.k.run in s.p.x.k.tcb
    requires s' == s.(p := s.p.(x := s'.p.x), phase := s.phase[s.p.x.k.run := Waiting(r)])
    requires var q := s.p.reqs[r].done;
      && Frame(s.p.x, s'.p.x, q) && s'.p.x.value == s.p.x.value[q := s.p.x.value[q] - 1]
      && s'.p.x.k.queues == if s.p.x.value[q] > 0 then s.p.x.k.queues else s.p.x.k.queues[q := [s.p.x.k.run] + s.p.x.k.queues[q]]
    ensures Linked(s')
  {
    assert s.p.x.k.run in s'.p.x.k.tcb.Keys;
    WaitReplyOwn(s, s', r);
    RequestLinked(s, s', r);
  }

  /** The request after its client waited: parked until the reply, or past it. */
  lemma {:induction false} WaitReplyOwn(s: Sys, s': Sys, r: Rid)
    requires ReqOk(s, r) && At(s) == Called(r) && s.p.reqs[r].client == s.p.x.k.run && s.p.x.k.run in s.p.x.k.tcb
    requires s'.p.x.k.tcb.Keys == s.p.x.k.tcb.Keys
    requires s' == s.(p := s.p.(x := s'.p.x), phase := s.phase[s.p.x.k.run := Waiting(r)])
    requires var q := s.p.reqs[r].done;
      && s'.p.x.value == s.p.x.value[q := s.p.x.value[q] - 1]
      && s'.p.x.k.queues == if s.p.x.value[q] > 0 then s.p.x.k.queues else s.p.x.k.queues[q := [s.p.x.k.run] + s.p.x.k.queues[q]]
    ensures ReqOk(s', r)
  {
  }

  lemma {:induction false} GetResultKeeps(s: Sys, e: Event)
    requires Inv(s) && Can(s, e) && e.GetResultEv?
    ensures Answered(s.p.reqs[At(s).r], At(s).r in s.holder)
    ensures Inv(Step(s, e))
  {
    var s', r := Step(s, e), At(s).r;
    assert ReqOk(s, r);
    assert s.p.x.k.run !in s.p.x.k.queues[s.p.reqs[r].done];
    RequestLinked(s, s', r);
  }

  lemma {:induction false} DestroyOnly(x: Sync.Sems, q: Wq)
    requires Quiet(x) && q in x.value && x.k.queues[q] == []
    ensures var d := Sync.Destroy(x, q); Only(x, d.(k := Commit(d.k)), q)
  {
    assert Parked(x.k.queues - {q}, x.k.tcb);
  }

  lemma {:induction false} CleanupKeeps(s: Sys, e: Event)
    requires Inv(s) && Can(s, e) && e.CleanupEv?
    ensures Inv(Step(s, e))
  {
    var s', r := Step(s, e), At(s).r;
    assert ReqOk(s, r);
    DestroyOnly(s.p.x, s.p.reqs[r].done);
    RequestLinked(s, s', r);
  }

  lemma {:induction false} ReplyKeeps(s: Sys, e: Event)
    requires Inv(s) && Can(s, e) && e.ReplyEv?
    ensures Inv(Step(s, e))
  {
    var s', r := Step(s, e), e.r;
    assert ReqOk(s, r);
    SignalOnly(s.p.x, s.p.reqs[r].done);
    RequestLinked(s, s', r);
  }

  lemma {:induction false} WaitLinked(s: Sys, s': Sys, i: nat)
    requires Linked(s) && ByTid(s.p.portals, s.p.x.k.run) == Some(i) && At(s).Idle?
    requires s' == s.(p := s.p.(x := s'.p.x), phase := s.phase[s.p.x.k.run := Serving(i)])
    requires var q := s.p.portals[i].sem;
      && Frame(s.p.x, s'.p.x, q) && q in s.p.x.value && q in s.p.x.k.queues && s'.p.x.value == s.p.x.value[q := s.p.x.value[q] - 1]
      && s'.p.x.k.queues == if s.p.x.value[q] > 0 then s.p.x.k.queues else s.p.x.k.queues[q := [s.p.x.k.run] + s.p.x.k.queues[q]]
    ensures Linked(s')
  {
    var q := s.p.portals[i].sem;
    assert PortalOk(s, i);
    OthersReqs(s, s', 0, q);
    OthersPortals(s, s', 0, q, i);
    assert PortalOk(s', i);
  }

  lemma {:induction false} WaitKeeps(s: Sys, e: Event)
    requires Inv(s) && Can(s, e) && e.WaitEv?
    ensures Inv(Step(s, e))
  {
    var i := ByTid(s.p.portals, s.p.x.k.run);
    if i.Some? {
      WaitOnly(s.p.x, s.p.portals[i.value].sem);
      WaitLinked(s, Step(s, e), i.value);
    }
  }

  // ---- taking a request ----

  lemma {:induction false} GetReqQueued(ps: seq<Portal>, reqs: map<Rid, Req>, i: nat, q: Req)
    requires Queued(ps, reqs) && i < |ps| && ps[i].queue != []
    ensures Queued(ps[i := ps[i].(queue := ps[i].queue[1..])], reqs[ps[i].queue[0] := q])
  {
  }

  lemma {:induction false} GetReqLinked(s: Sys, s': Sys, i: nat)
    requires Linked(s) && Queued(s.p.portals, s.p.reqs) && At(s) == Serving(i) && i < |s.p.portals| && s.p.portals[i].queue != []
    requires var p := s.p.portals[i]; var r := p.queue[0];
      && r in s.p.reqs
      && s' == Sys(s.p.(portals := s.p.portals[i := p.(queue := p.queue[1..])], reqs := s.p.reqs[r := s.p.reqs[r].(dequeued := true)]),
                   s.phase[s.p.x.k.run := Idle], s.holder[r := s.p.x.k.run])
    ensures Linked(s')
  {
    var p := s.p.portals[i];
    var r := p.queue[0];
    assert PortalOk(s, i) && ReqOk(s, r);
    OthersReqs(s, s', r, p.sem);
    OthersPortals(s, s', r, p.sem, i);
    assert ReqOk(s', r) && PortalOk(s', i);
    forall t | t in s'.phase ensures OwnPhase(s'.phase[t], t, s'.p.portals, s'.p.reqs) {
      SameServer(s.p.portals, s'.p.portals, t);
    }
  }

  lemma {:induction false} GetReqKeeps(s: Sys, e: Event)
    requires Inv(s) && Can(s, e) && e.GetReqEv?
    ensures GetReq(s.p).1.Some?
    ensures Inv(Step(s, e))
  {
    var s', i := Step(s, e), At(s).i;
    assert PortalOk(s, i);
    var p := s.p.portals[i];
    assert s.p.x.k.run !in s.p.x.k.queues[p.sem];
    GetReqQueued(s.p.portals, s.p.reqs, i, s'.p.reqs[p.queue[0]]);
    GetReqLinked(s, s', i);
  }

  // ---- posting a request ----

  lemma {:induction false} CallQueued(ps: seq<Portal>, reqs: map<Rid, Req>, i: nat, r: Rid, q: Req)
    requires Queued(ps, reqs) && i < |ps| && r !in reqs && !q.dequeued
    ensures Queued(ps[i := ps[i].(queue := [r] + ps[i].queue)], reqs[r := q])
  {
  }

  /** s' is s with the new request q, of handle r, on portal i and the portal's server signalled. */
  ghost predicate Posted(s: Sys, s': Sys, i: nat, r: Rid, q: Req) {
    var x, x' := s.p.x, s'.p.x;
    && i < |s.p.portals| && r !in s.p.reqs && r != 0 && r !in s.holder
    && var p := s.p.portals[i];
      && s'.p.portals == s.p.portals[i := p.(queue := [r] + p.queue)] && s'.p.reqs == s.p.reqs[r := q]
      && s'.phase == s.phase[x.k.run := Called(r)] && s'.holder == s.holder
      && q.client == x.k.run && !q.dequeued && q.done !in x.value
      && p.sem in x.value && p.sem in x.k.queues && p.sem in x'.k.queues
      && q.done in x'.k.queues && x'.k.queues[q.done] == []
      && x'.value == x.value[q.done := 0][p.sem := x.value[p.sem] + 1]
      && x'.k.tcb.Keys == x.k.tcb.Keys && x.k.run in x.k.tcb
      && x'.k.queues[p.sem] == (if x.value[p.sem] >= 0 || x.k.queues[p.sem] == [] then x.k.queues[p.sem] else x.k.queues[p.sem][1..])
      && (forall w :: w in x.k.queues && w != p.sem ==> w in x'.k.queues && x'.k.queues[w] == x.k.queues[w])
  }

  lemma {:induction false} CallOwn(s: Sys, s': Sys, i: nat, r: Rid, q: Req)
    requires Posted(s, s', i, r, q) && PortalOk(s, i) && At(s).Idle?
    ensures ReqOk(s', r) && PortalOk(s', i)
  {
  }

  lemma {:induction false} CallApart(ps: seq<Portal>, reqs: map<Rid, Req>, value: map<Wq, int>, i: nat, r: Rid, q: Req, value': map<Wq, int>)
    requires Apart(ps, reqs, value) && i < |ps| && r !in reqs && q.done !in value && value'.Keys == value.Keys + {q.done}
    ensures Apart(ps[i := ps[i].(queue := [r] + ps[i].queue)], reqs[r := q], value')
  {
  }

  lemma {:induction false} CallLinked(s: Sys, s': Sys, i: nat, r: Rid, q: Req)
    requires Linked(s) && At(s).Idle? && Posted(s, s', i, r, q)
    ensures Linked(s')
  {
    var p := s.p.portals[i];
    CallOwn(s, s', i, r, q);
    CallApart(s.p.portals, s.p.reqs, s.p.x.value, i, r, q, s'.p.x.value);
    OthersReqs(s, s', r, p.sem);
    OthersPortals(s, s', r, p.sem, i);
    CallPhases(s, s', i, r);
  }

  lemma {:induction false} CallPhases(s: Sys, s': Sys, i: nat, r: Rid)
    requires i < |s.p.portals| == |s'.p.portals| && r !in s.p.reqs && r in s'.p.reqs && s'.p.reqs == s.p.reqs[r := s'.p.reqs[r]]
    requires s'.p.portals == s.p.portals[i := s.p.portals[i].(queue := s'.p.portals[i].queue)]
    requires s'.phase == s.phase[s'.p.reqs[r].client := Called(r)]
    requires forall t :: t in s.phase ==> OwnPhase(s.phase[t], t, s.p.portals, s.p.reqs)
    ensures forall t :: t in s'.phase ==> OwnPhase(s'.phase[t], t, s'.p.portals, s'.p.reqs)
  {
    forall t | t in s'.phase ensures OwnPhase(s'.phase[t], t, s'.p.portals, s'.p.reqs) {
      SameServer(s.p.portals, s'.p.portals, t);
    }
  }

  /** Opening the request's semaphore and signalling the portal's. */
  lemma {:induction false} CallOnly(x: Sync.Sems, q: Wq, w: Wq)
    requires Quiet(x) && q !in x.k.queues && w in x.value
    ensures var y := Sync.Signal(Sync.Open(x, q, 0), w); var x' := y.(k := Commit(y.k));
      && Quiet(x') && x'.value == x.value[q := 0][w := x.value[w] + 1] && x'.k.tcb.Keys == x.k.tcb.Keys
      && q in x'.k.queues && x'.k.queues[q] == [] && w in x'.k.queues
      && x'.k.queues[w] == (if x.value[w] >= 0 || x.k.queues[w] == [] then x.k.queues[w] else x.k.queues[w][1..])
      && (forall v :: v in x.k.queues && v != w ==> v in x'.k.queues && x'.k.queues[v] == x.k.queues[v])
  {
    OpenOnly(x, q);
    SignalOnly(Sync.Open(x, q, 0), w);
  }

  lemma {:induction false} CallKeeps(s: Sys, e: Event)
    requires Inv(s) && Can(s, e) && e.CallEv?
    ensures Inv(Step(s, e))
  {
    var s', i := Step(s, e), ById(s.p.portals, e.id);
    if Call(s.p, e.id, e.size, e.f).1 == 0 {
      var r, q := e.f.req.value, e.f.sem.value;
      assert PortalOk(s, i.value);
      CallOnly(s.p.x, q, s.p.portals[i.value].sem);
      CallQueued(s.p.portals, s.p.reqs, i.value, r, s'.p.reqs[r]);
      CallLinked(s, s', i.value, r, s'.p.reqs[r]);
    }
  }

  // ---- everything else ----

  lemma {:induction false} BlockQuiet(k: Threads.State, t: Tid)
    requires Resting(k) && Calm(k)
    ensures Calm(Block(k, t)) && Block(k, t).queues == k.queues && Block(k, t).tcb.Keys == k.tcb.Keys
  {
    if t in k.tcb && !k.tcb[t].wake {
      var c := k.tcb[t].(ready := false);
      SetTcbWf(k, t, c);
      FindNextReady(SetTcb(k, t, c));
    }
  }

  lemma {:induction false} YieldQuiet(k: Threads.State)
    requires Resting(k) && Calm(k)
    ensures Calm(Yield(k)) && Yield(k).queues == k.queues && Yield(k).tcb.Keys == k.tcb.Keys
  {
    FindNextReady(k);
  }

  ghost predicate Untouched(x: Sync.Sems, x': Sync.Sems) {
    x'.value == x.value && x'.k.queues == x.k.queues
  }

  /** A scheduler command that may run beside the protocol. */
  lemma {:induction false} KernelQuiet(x: Sync.Sems, c: Gate.Cmd)
    requires Quiet(x) && Sync.Can(x, Sync.KernelEv(c))
    requires match c
      case YieldCmd => true
      case BlockCmd(t) => true
      case UnblockCmd(t) => t in x.k.tcb ==> t != x.k.run && x.k.tcb[t].on.None?
      case CreateThreadCmd(_, _) => true
      case CreateProcCmd(_, _, _) => true
      case _ => false
    ensures var x' := Sync.Step(x, Sync.KernelEv(c)); Quiet(x') && Untouched(x, x')
    ensures forall t :: t in Sync.Step(x, Sync.KernelEv(c)).k.tcb <==> t in x.k.tcb || (c.CreateThreadCmd? && t == c.t) || (c.CreateProcCmd? && t == c.t)
  {
    Sync.StepRests(x, Sync.KernelEv(c));
    match c
    case YieldCmd => YieldQuiet(x.k);
    case BlockCmd(t) => BlockQuiet(x.k, t);
    case _ =>
  }

  lemma {:induction false} WakeTidQuiet(x: Sync.Sems, q: Wq, t: Tid)
    requires Quiet(x) && q in x.k.queues
    ensures Only(x, Sync.Step(x, Sync.WakeTidEv(q, t)), q)
  {
    Sync.StepRests(x, Sync.WakeTidEv(q, t));
    Sync.WakeTidWf(x.k, q, t);
  }

  lemma {:induction false} OtherLinked(s: Sys, x: Sync.Sems, q: Wq)
    requires Linked(s) && (forall r :: r in s.p.reqs ==> (s.p.reqs[r].client in x.k.tcb <==> s.p.reqs[r].client in s.p.x.k.tcb))
    requires (Untouched(s.p.x, x) || (Frame(s.p.x, x, q) && Foreign(s.p, q)))
    ensures Linked(s.(p := s.p.(x := x)))
  {
    var s' := s.(p := s.p.(x := x));
    forall r | r in s.p.reqs ensures ReqOk(s', r) { assert ReqOk(s, r); }
    forall i | 0 <= i < |s.p.portals| ensures PortalOk(s', i) { assert PortalOk(s, i); }
  }

  /** Any harmless event touches at most a foreign queue. */
  lemma {:induction false} OtherOnly(s: Sys, o: Sync.Event) returns (q: Wq)
    requires Inv(s) && Sync.Can(s.p.x, o) && Harmless(s.p, o)
    ensures var x' := Sync.Step(s.p.x, o); Quiet(x') && (Untouched(s.p.x, x') || (Frame(s.p.x, x', q) && Foreign(s.p, q)))
    ensures forall r :: r in s.p.reqs ==> (s.p.reqs[r].client in Sync.Step(s.p.x, o).k.tcb <==> s.p.reqs[r].client in s.p.x.k.tcb)
  {
    var x := s.p.x;
    q := 0;
    match o
    case WaitEv(w) => if w in x.value { q := w; WaitOnly(x, w); }
    case SignalEv(w) => if w in x.value { q := w; SignalOnly(x, w); }
    case OpenEv(w, _) =>
      q := w;
      Sync.StepRests(x, o);
      assert Foreign(s.p, w) by {
        forall r | r in s.p.reqs ensures s.p.reqs[r].done != w { assert ReqOk(s, r); }
        forall i | 0 <= i < |s.p.portals| ensures s.p.portals[i].sem != w { assert PortalOk(s, i); }
      }
    case DestroyEv(w) => if w in x.value && x.k.queues[w] == [] { q := w; DestroyOnly(x, w); }
    case WakeTidEv(w, t) => q := w; WakeTidQuiet(x, w, t);
    case KernelEv(c) =>
      if c.SleepCmd? {
        q := c.q;
        SleepOnly(x, c.q, x.value);
      } else if c.WakeCmd? {
        q := c.q;
        WakeOnly(x, c.q, x.value);
      } else {
        KernelQuiet(x, c);
      }
  }

  lemma {:induction false} OtherKeeps(s: Sys, e: Event)
    requires Inv(s) && Can(s, e) && e.OtherEv?
    ensures Inv(Step(s, e))
  {
    var q := OtherOnly(s, e.e);
    OtherLinked(s, Sync.Step(s.p.x, e.e), q);
  }

  // ---- a client is deleted ----

  /** The queues after a deletion: t is off the one it was on. */
  lemma {:induction false} DeleteCalm(k: Threads.State, t: Tid)
    requires Resting(k) && Calm(k) && t in k.tcb
    ensures var k' := Delete(k, t); InGate(k') && Calm(k')
    ensures var k' := Delete(k, t); t in k'.tcb ==> k'.queues == k.queues && k'.tcb.Keys == k.tcb.Keys
    ensures var k' := Delete(k, t); t !in k'.tcb ==>
      && k'.tcb.Keys == k.tcb.Keys - {t} && k'.queues.Keys == k.queues.Keys
      && (forall q :: q in k.queues ==> k'.queues[q] == if k.tcb[t].on == Some(q) then Without(k.queues[q], t) else k.queues[q])
  {
    DeleteInGate(k, t);
    FindNextReady(k);
    if t == k.run && FindNext(k).Some? { GoWf(k, FindNext(k).value); }
  }

  /** One waiter at most: without t there is none, or it is somebody else. */
  lemma {:induction false} OneWaiter(s: seq<Tid>, c: Tid, t: Tid)
    requires s == [] || s == [c]
    ensures Without(s, t) == if c == t then [] else s
  {
    if s == [c] { assert s[1..] == []; }
  }

  lemma {:induction false} KilledReq(s: Sys, s': Sys, t: Tid, r: Rid)
    requires Quiet(s.p.x) && ReqOk(s, r) && t in s.p.x.k.tcb && s'.p.reqs == s.p.reqs && s'.holder == s.holder && s'.phase == s.phase - {t}
    requires s'.p.x.value == s.p.x.value && s'.p.x.k.tcb.Keys == s.p.x.k.tcb.Keys - {t} && s'.p.x.k.queues.Keys == s.p.x.k.queues.Keys
    requires forall q :: q in s.p.x.k.queues ==>
      s'.p.x.k.queues[q] == if s.p.x.k.tcb[t].on == Some(q) then Without(s.p.x.k.queues[q], t) else s.p.x.k.queues[q]
    ensures ReqOk(s', r)
  {
    var q := s.p.reqs[r];
    var w := s.p.x.k.queues[q.done];
    assert w == [] || w == [q.client];
    OneWaiter(w, q.client, t);
    if w == [t] { assert t in w; }
    assert q.client in s'.p.x.k.tcb.Keys <==> q.client in s.p.x.k.tcb.Keys && q.client != t;
  }

  lemma {:induction false} KilledPortal(s: Sys, s': Sys, t: Tid, i: nat)
    requires Quiet(s.p.x) && PortalOk(s, i) && s.p.portals[i].tid != t && t in s.p.x.k.tcb && s'.p.portals == s.p.portals && s'.phase == s.phase - {t}
    requires s'.p.x.value == s.p.x.value && s'.p.x.k.queues.Keys == s.p.x.k.queues.Keys
    requires forall q :: q in s.p.x.k.queues ==>
      s'.p.x.k.queues[q] == if s.p.x.k.tcb[t].on == Some(q) then Without(s.p.x.k.queues[q], t) else s.p.x.k.queues[q]
    ensures PortalOk(s', i)
  {
    var p := s.p.portals[i];
    OneWaiter(s.p.x.k.queues[p.sem], p.tid, t);
  }

  lemma {:induction false} KillLinked(s: Sys, s': Sys, t: Tid)
    requires Linked(s) && Quiet(s.p.x) && t in s.p.x.k.tcb && (forall i :: 0 <= i < |s.p.portals| ==> s.p.portals[i].tid != t)
    requires s' == s.(p := s.p.(x := s'.p.x), phase := s.phase - {t}) && s'.p.x.value == s.p.x.value
    requires s'.p.x.k.tcb.Keys == s.p.x.k.tcb.Keys - {t} && s'.p.x.k.queues.Keys == s.p.x.k.queues.Keys
    requires forall q :: q in s.p.x.k.queues ==>
      s'.p.x.k.queues[q] == if s.p.x.k.tcb[t].on == Some(q) then Without(s.p.x.k.queues[q], t) else s.p.x.k.queues[q]
    ensures Linked(s')
  {
    forall r | r in s.p.reqs ensures ReqOk(s', r) { KilledReq(s, s', t, r); }
    forall i | 0 <= i < |s.p.portals| ensures PortalOk(s', i) { KilledPortal(s, s', t, i); }
  }

  lemma {:induction false} SameLinked(s: Sys, s': Sys)
    requires Linked(s) && s' == s.(p := s.p.(x := s'.p.x)) && Untouched(s.p.x, s'.p.x) && s'.p.x.k.tcb.Keys == s.p.x.k.tcb.Keys
    ensures Linked(s')
  {
    forall t ensures t in s'.p.x.k.tcb <==> t in s.p.x.k.tcb { assert t in s'.p.x.k.tcb.Keys <==> t in s.p.x.k.tcb.Keys; }
    OtherLinked(s, s'.p.x, 0);
  }

  lemma {:induction false} KillKeeps(s: Sys, e: Event)
    requires Inv(s) && Can(s, e) && e.KillEv?
    ensures Inv(Step(s, e))
  {
    var k, k' := s.p.x.k, Delete(s.p.x.k, e.t);
    if e.t in k.tcb {
      DeleteCalm(k, e.t);
      CommitRests(k');
      if e.t in k'.tcb {
        SameLinked(s, Step(s, e));
      } else {
        KillLinked(s, Step(s, e), e.t);
      }
    } else {
      SameLinked(s, Step(s, e));
    }
  }

  /** What the deletion of a waiting client leaves: its request with a count that no waiter stands for. */
  lemma {:induction false} KilledClient(s: Sys, t: Tid, r: Rid)
    requires Inv(s) && Can(s, KillEv(t)) && PhaseOf(s.phase, t) == Waiting(r) && t in s.p.x.k.tcb && t !in Delete(s.p.x.k, t).tcb
    ensures var s' := Step(s, KillEv(t));
      && r in s'.p.reqs && s'.p.reqs[r] == s.p.reqs[r] && s'.p.reqs[r].done in s'.p.x.k.queues && s'.p.reqs[r].done in s'.p.x.value
      && s'.p.x.k.queues[s'.p.reqs[r].done] == []
      && s'.p.x.value[s'.p.reqs[r].done] == if Answered(s.p.reqs[r], r in s.holder) then 0 else -1
  {
    KillKeeps(s, KillEv(t));
    assert OwnPhase(s.phase[t], t, s.p.portals, s.p.reqs);
    assert ReqOk(s, r) && ReqOk(Step(s, KillEv(t)), r);
    DeleteCalm(s.p.x.k, t);
    assert t !in Step(s, KillEv(t)).p.x.k.tcb.Keys;
  }

  // ---- every event, every run ----

  lemma {:induction false} StepKeeps(s: Sys, e: Event)
    requires Inv(s) && Can(s, e)
    ensures Inv(Step(s, e))
  {
    match e
    case InitEv(_, _, _) => InitKeeps(s, e);
    case CallEv(_, _, _) => CallKeeps(s, e);
    case WaitReplyEv => WaitReplyKeeps(s, e);
    case GetResultEv => GetResultKeeps(s, e);
    case CleanupEv(_) => CleanupKeeps(s, e);
    case WaitEv => WaitKeeps(s, e);
    case GetReqEv => GetReqKeeps(s, e);
    case ReplyEv(_, _) => ReplyKeeps(s, e);
    case KillEv(_) => KillKeeps(s, e);
    case OtherEv(_) => OtherKeeps(s, e);
  }

  ghost predicate IsRun(xs: seq<Sys>, es: seq<Event>) {
    && |xs| == |es| + 1
    && (forall i :: 0 <= i < |es| ==> Can(xs[i], es[i]) && xs[i + 1] == Step(xs[i], es[i]))
  }

  /** No portal, no request, everybody at rest. */
  ghost predicate Blank(s: Sys) {
    Quiet(s.p.x) && s.p.portals == [] && s.p.reqs == map[] && s.phase == map[] && s.holder == map[]
  }

  /** Runs start somewhere: a kernel at rest in which nobody has opened a portal. */
  lemma {:induction false} RunsStart()
    ensures exists s :: Blank(s)
  {
    SiblingsRest();
    var s := Sys(Ports(Sync.Sems(Siblings(), map[]), [], 2, map[]), map[], map[]);
    assert Blank(s);
  }

  lemma {:induction false} RunKeeps(xs: seq<Sys>, es: seq<Event>, i: nat)
    requires IsRun(xs, es) && i <= |es| && Blank(xs[0])
    ensures Inv(xs[i])
  {
    if i > 0 {
      RunKeeps(xs, es, i - 1);
      assert Can(xs[i - 1], es[i - 1]) && xs[i - 1 + 1] == Step(xs[i - 1], es[i - 1]);
      StepKeeps(xs[i - 1], es[i - 1]);
    }
  }

  /** The value of the REPLY to request r among the first n events, since the CALL that posted it. */
  ghost function Replied(xs: seq<Sys>, es: seq<Event>, n: nat, r: Rid): Option<int>
    requires IsRun(xs, es) && n <= |es|
  {
    if n == 0 then None
    else if es[n - 1].ReplyEv? && es[n - 1].r == r then Some(es[n - 1].v)
    else if r !in xs[n - 1].p.reqs then None
    else Replied(xs, es, n - 1, r)
  }

  /** A request stores its REPLY from the moment it is answered, and is answered at most once. */
  ghost predicate Recorded(s: Sys, r: Rid, v: Option<int>) {
    r in s.p.reqs ==>
      v == if Answered(s.p.reqs[r], r in s.holder) then Some(s.p.reqs[r].ret) else None
  }

  lemma {:induction false} GetReqRecords(s: Sys, e: Event, r: Rid, v: Option<int>)
    requires Inv(s) && Can(s, e) && e.GetReqEv? && Recorded(s, r, v)
    ensures r in s.p.reqs ==> Recorded(Step(s, e), r, v)
    ensures r !in s.p.reqs ==> r !in Step(s, e).p.reqs
  {
    GetReqKeeps(s, e);
    var r' := GetReq(s.p).1.value;
    assert ReqOk(s, r');
  }

  lemma {:induction false} StepRecords(s: Sys, e: Event, r: Rid, v: Option<int>)
    requires Inv(s) && Can(s, e) && Recorded(s, r, v)
    ensures Recorded(Step(s, e), r, if e.ReplyEv? && e.r == r then Some(e.v) else if r !in s.p.reqs then None else v)
  {
    if r in s.p.reqs { assert ReqOk(s, r); }
    if e.GetReqEv? { GetReqRecords(s, e, r, v); }
  }

  lemma {:induction false} RunRecords(xs: seq<Sys>, es: seq<Event>, n: nat, r: Rid)
    requires IsRun(xs, es) && n <= |es| && Blank(xs[0])
    ensures Recorded(xs[n], r, Replied(xs, es, n, r))
  {
    if n > 0 {
      RunRecords(xs, es, n - 1, r);
      RunKeeps(xs, es, n - 1);
      assert Can(xs[n - 1], es[n - 1]) && xs[n - 1 + 1] == Step(xs[n - 1], es[n - 1]);
      StepRecords(xs[n - 1], es[n - 1], r, Replied(xs, es, n - 1, r));
    }
  }

  /** Whatever the interleaving, the client reads the value that answered its own request. */
  lemma {:induction false} ClientReadsItsReply(xs: seq<Sys>, es: seq<Event>, n: nat)
    requires IsRun(xs, es) && n < |es| && Blank(xs[0]) && es[n].GetResultEv?
    ensures At(xs[n]).Waiting? && xs[n + 1].phase[xs[n].p.x.k.run].Got?
    ensures xs[n].p.reqs[At(xs[n]).r].client == xs[n].p.x.k.run
    ensures Replied(xs, es, n, At(xs[n]).r) == Some(xs[n + 1].phase[xs[n].p.x.k.run].v)
  {
    assert Can(xs[n], es[n]) && xs[n + 1] == Step(xs[n], es[n]);
    RunKeeps(xs, es, n);
    RunRecords(xs, es, n, At(xs[n]).r);
    GetResultKeeps(xs[n], es[n]);
  }

  /** GET_REQ after a completed WAIT finds a request that nobody else holds. */
  lemma {:induction false} ServerFindsRequest(xs: seq<Sys>, es: seq<Event>, n: nat)
    requires IsRun(xs, es) && n < |es| && Blank(xs[0]) && es[n].GetReqEv?
    ensures GetReq(xs[n].p).1.Some? && var r := GetReq(xs[n].p).1.value;
      r in xs[n].p.reqs && r !in xs[n].holder && xs[n + 1].holder == xs[n].holder[r := xs[n].p.x.k.run]
  {
    assert Can(xs[n], es[n]) && xs[n + 1] == Step(xs[n], es[n]);
    RunKeeps(xs, es, n);
    GetReqKeeps(xs[n], es[n]);
    var r := GetReq(xs[n].p).1.value;
    assert ReqOk(xs[n], r);
  }

  /** A parked server has an empty queue, and a parked client an unanswered request. */
  lemma {:induction false} ParkedMeansNothingToDo(xs: seq<Sys>, es: seq<Event>, n: nat)
    requires IsRun(xs, es) && n <= |es| && Blank(xs[0])
    ensures forall i :: 0 <= i < |xs[n].p.portals| ==> var p := xs[n].p.portals[i];
      p.sem in xs[n].p.x.k.queues && (xs[n].p.x.k.queues[p.sem] != [] ==> xs[n].p.x.k.queues[p.sem] == [p.tid] && p.queue == [])
    ensures forall r :: r in xs[n].p.reqs ==> var q := xs[n].p.reqs[r];
      && q.done in xs[n].p.x.k.queues
      && (xs[n].p.x.k.queues[q.done] != [] ==> xs[n].p.x.k.queues[q.done] == [q.client] && Replied(xs, es, n, r).None?)
  {
    RunKeeps(xs, es, n);
    forall i | 0 <= i < |xs[n].p.portals|
      ensures var p := xs[n].p.portals[i];
        p.sem in xs[n].p.x.k.queues && (xs[n].p.x.k.queues[p.sem] != [] ==> xs[n].p.x.k.queues[p.sem] == [p.tid] && p.queue == [])
    {
      assert PortalOk(xs[n], i);
    }
    forall r | r in xs[n].p.reqs ensures Recorded(xs[n], r, Replied(xs, es, n, r)) && ReqOk(xs[n], r) {
      RunRecords(xs, es, n, r);
    }
  }

  /** Every handle the protocol passes is live, so no command is refused and none touches freed memory. */
  lemma {:induction false} HandlesAreLive(s: Sys)
    requires Inv(s)
    ensures At(s).Called? || At(s).Waiting? || At(s).Got? ==> At(s).r in s.p.reqs && At(s).r != 0
    ensures At(s).Serving? ==> ByTid(s.p.portals, s.p.x.k.run) == Some(At(s).i)
    ensures forall r :: r in s.holder ==> r in s.p.reqs && r != 0
    ensures forall u :: Can(s, CleanupEv(u)) ==> At(s).r !in s.holder && s.p.reqs[At(s).r].dequeued
  {
    if At(s).Got? { assert ReqOk(s, At(s).r); }
  }

  /**
   Why the theorems need another ready thread: WAIT_REPLY leaves its caller
   running exactly when the reply is there already or nobody else is ready.
   */
  lemma {:induction false} WaitReplyReturnsAtOnce(s: Sys)
    requires Inv(s) && At(s).Called? && At(s).r in s.p.reqs
    ensures WaitReply(s.p, At(s).r).0.x.k.run == s.p.x.k.run <==>
      Answered(s.p.reqs[At(s).r], At(s).r in s.holder) || !Relief(s.p.x.k)
  {
    var r := At(s).r;
    assert ReqOk(s, r);
    SleepRecords(s.p.x.k, s.p.reqs[r].done);
  }

  // ---- thread_unblock from outside ----

  /** The state after a gate in which the running thread unblocks t. */
  function Unblocked(s: Sys, t: Tid): Sys {
    s.(p := s.p.(x := s.p.x.(k := Commit(Unblock(s.p.x.k, t)))))
  }

  /** An unblock keeps the invariant exactly when its target is unknown, or is neither running nor parked. */
  lemma {:induction false} UnblockExact(s: Sys, t: Tid)
    requires Inv(s)
    ensures Inv(Unblocked(s, t)) <==> t !in s.p.x.k.tcb || (t != s.p.x.k.run && s.p.x.k.tcb[t].on.None?)
  {
    var k := s.p.x.k;
    if t !in k.tcb || (t != k.run && k.tcb[t].on.None?) {
      KernelQuiet(s.p.x, Gate.UnblockCmd(t));
      OtherLinked(s, Sync.Step(s.p.x, Sync.KernelEv(Gate.UnblockCmd(t))), 0);
    } else {
      var k' := Unblocked(s, t).p.x.k;
      assert k'.tcb[t].ready && k'.tcb[t].wake && k'.tcb[t].on == k.tcb[t].on && k'.run == k.run;
    }
  }

  /** Thread 2 waits for the reply to its request 5, which thread 1 has not taken yet. */
  function EarlyClient(): Sys {
    Sys(Ports(Sync.Sems(State([1, 2], map[1 := Tcb(1, true, false, None), 2 := Tcb(1, false, false, Some(7))], map[1 := [1, 2]],
                              map[7 := [2], 8 := []], 1, Request(None, None), 1, 1), map[7 := -1, 8 := 1]),
              [Portal(1, 1, 1, [5], 8)], 2, map[5 := Req(2, 1, 0, 0, false, 7, 0)]),
        map[2 := Waiting(5)], map[])
  }

  lemma {:induction false} EarlyClientQuiet()
    ensures Quiet(EarlyClient().p.x)
  {
    var k := EarlyClient().p.x.k;
    EarlyClientWf();
    assert k.tcb[2].on == Some(7);
  }

  lemma {:induction false} EarlyClientWf()
    ensures Wf(EarlyClient().p.x.k)
  {
    var k := EarlyClient().p.x.k;
    assert Listed(k.order, k.tcb);
    assert Owned(k.procs, k.tcb);
    assert Parked(k.queues, k.tcb);
  }

  lemma {:induction false} EarlyClientTied()
    ensures Tied(EarlyClient())
  {
    var s := EarlyClient();
    assert ReqOk(s, 5) && PortalOk(s, 0);
  }

  lemma {:induction false} EarlyClientLinked()
    ensures Queued(EarlyClient().p.portals, EarlyClient().p.reqs) && Linked(EarlyClient())
  {
    EarlyClientTied();
    var s := EarlyClient();
    assert Apart(s.p.portals, s.p.reqs, s.p.x.value);
  }

  lemma {:induction false} EarlyClientInv()
    ensures Inv(EarlyClient())
  {
    EarlyClientQuiet();
    EarlyClientLinked();
  }

  /** Unblocked and scheduled, it reads a result although nobody has replied. */
  lemma {:induction false} EarlyResult()
    ensures Inv(EarlyClient())
    ensures var s := Unblocked(EarlyClient(), 2); var k := s.p.x.k;
      && Wf(k) && k.run in k.order && Commit(Yield(k)).run == 2
      && var s' := s.(p := s.p.(x := s.p.x.(k := Commit(Yield(k)))));
        && At(s') == Waiting(5) && 5 in s'.p.reqs && !Answered(s'.p.reqs[5], 5 in s'.holder)
        && GetResult(s'.p, 5) == (0, 0)
  {
    EarlyClientInv();
    var k := Unblocked(EarlyClient(), 2).p.x.k;
    SetTcbWf(EarlyClient().p.x.k, 2, Tcb(1, true, true, Some(7)));
    assert Rotation(k.order, 1) == [2];
    assert FindNext(k) == Some(2);
  }
}
