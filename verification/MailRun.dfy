/** Runs of mailbox commands, gate by gate (osdev/kernel/ipc/mailbox.c:430-592). */
module MailRun {
  import opened Threads
  import opened ProcessSpec
  import Gate
  import ProcExit
  import Sync
  import opened Mailbox
  import opened Errno
  import opened Basics

  /**
   One gate of the running thread; it listens on its own mailbox. A thread is
   born with its mailbox, or without one if alloc_mailbox fails. Threads die
   by thread_delete, one at a time, or with their process.
   */
  datatype Event =
    | SendEv(m: Mid, mail: Mail, clones: map<Tid, Mid>)
    | ListenEv
    | ListenBlockEv
    | SubscribeEv(magic: int)
    | UnsubscribeEv(magic: int)
    | HandlerEv(t: Tid, handler: int)
    | AllocEv(m: Mid, mail: Mail)
    | ReleaseEv(m: Mid)
    | BirthEv(c: Gate.Cmd, wq: Wq)
    | DeathEv(c: Gate.Cmd)
    | OtherEv(c: Gate.Cmd)

  /** send. */
  function Send(p: Post, m: Mid, mail: Mail, clones: map<Tid, Mid>): (Post, int)
    requires Boxed(p)
  {
    if mail.receiver == ANY then
      var b := Broadcast(p, m, clones);
      (b.0, b.2)
    else if mail.receiver !in p.k.tcb || mail.receiver !in p.boxes then (p.(live := Release(p.live, m)), E_NOTFOUND)
    else
      var s := SendMail(p, mail.receiver, m);
      (s.0, s.2)
  }

  /** MAILBOX_CTRL_LISTEN_BLOCK: park if nothing is queued. */
  function ListenBlock(p: Post): Post
    requires Wf(p.k) && Boxed(p)
  {
    var t := p.k.run;
    if t !in p.boxes || p.boxes[t].mails != [] then p else p.(k := Sleep(p.k, p.boxes[t].wq))
  }

  /** No two mailboxes share a wait queue. */
  ghost predicate OwnQueues(p: Post) {
    Boxed(p) && forall t, u :: t in p.boxes && u in p.boxes && p.boxes[t].wq == p.boxes[u].wq ==> t == u
  }

  /** Mail m hangs on some queue. */
  ghost predicate Queued(p: Post, m: Mid) {
    exists t :: t in p.boxes && m in p.boxes[t].mails
  }

  /** send of m would queue m itself. */
  predicate Hangs(p: Post, m: Mid, mail: Mail) {
    m in p.live && mail.receiver != ANY && mail.receiver in p.k.tcb && mail.receiver in p.boxes && p.boxes[mail.receiver].handlers == []
  }

  /** A reference to m may be given up: not the last one of a mail that is queued. */
  ghost predicate Spare(p: Post, m: Mid) {
    Queued(p, m) ==> m in p.live && p.live[m].refs > 1
  }

  /** A mailbox just allocated. */
  function NewBox(wq: Wq): Box {
    Box(seq(SLOTS, i => 0), [], [], wq)
  }

  /** release_mailbox: the mails are taken off at the tail and released, one after the other. */
  function ReleaseAll(live: map<Mid, Entry>, ms: seq<Mid>): map<Mid, Entry>
    decreases |ms|
  {
    if ms == [] then live else ReleaseAll(Release(live, ms[|ms| - 1]), ms[..|ms| - 1])
  }

  /** thread_delete releases the mailbox of the thread, if the thread is gone and had one. */
  function Buried(p: Post, k: State, t: Tid): Post {
    if t !in p.boxes || t in k.tcb then p.(k := k)
    else Post(k.(queues := k.queues - {p.boxes[t].wq}), p.boxes - {t}, ReleaseAll(p.live, p.boxes[t].mails))
  }

  /** proc_exit frees the thread records only: mailboxes and mail of the dead are left behind. */
  function Abandoned(p: Post, k: State): Post {
    p.(k := k, boxes := map t | t in p.boxes && t in k.tcb :: p.boxes[t])
  }

  ghost predicate Can(p: Post, e: Event) {
    && Resting(p.k) && OwnQueues(p) && (forall t :: t in p.boxes ==> t in p.k.order)
    && match e
       case SendEv(m, mail, clones) =>
         && (m in p.live ==> mail == p.live[m].mail && p.live[m].refs > 0)
         && FreshClones(p.live, m, clones, p.k.order)
         && (if Hangs(p, m, mail) then !Queued(p, m) else Spare(p, m))
       case ReleaseEv(m) => Spare(p, m)
       case BirthEv(c, wq) => (c.CreateThreadCmd? || c.CreateProcCmd?) && Gate.Enabled(p.k, c) && wq !in p.k.queues
       case DeathEv(c) => (c.DeleteCmd? || c.ExitCmd?) && Gate.Enabled(p.k, c) && Gate.Exec(p.k, c).Some?
       case HandlerEv(t, _) => t in p.boxes
       case AllocEv(m, _) => m !in p.live
       case OtherEv(c) =>
         && Gate.Enabled(p.k, c) && !c.DeleteCmd? && !c.ExitCmd?
         && (c.SleepCmd? || c.WakeCmd? ==> forall t :: t in p.boxes ==> p.boxes[t].wq != c.q)
       case _ => true
  }

  function Do(p: Post, e: Event): Post
    requires Can(p, e)
  {
    var t := p.k.run;
    match e
    case SendEv(m, mail, clones) => Send(p, m, mail, clones).0
    case ListenEv => if t in p.boxes then p.(boxes := p.boxes[t := TryGet(p.boxes[t]).0]) else p
    case ListenBlockEv => ListenBlock(p)
    case SubscribeEv(magic) => if t in p.boxes then p.(boxes := p.boxes[t := Subscribe(p.boxes[t], magic).0]) else p
    case UnsubscribeEv(magic) => if t in p.boxes then p.(boxes := p.boxes[t := Unsubscribe(p.boxes[t], magic).0]) else p
    case HandlerEv(u, h) => p.(boxes := p.boxes[u := p.boxes[u].(handlers := [h] + p.boxes[u].handlers)])
    case AllocEv(m, mail) => p.(live := Alloc(p.live, m, mail))
    case ReleaseEv(m) => p.(live := Release(p.live, m))
    case BirthEv(c, wq) =>
      var k := Gate.Exec(p.k, c).value;
      p.(k := k.(queues := k.queues[wq := []]), boxes := p.boxes[c.t := NewBox(wq)])
    case DeathEv(c) =>
      var k := Gate.Exec(p.k, c).value;
      if c.DeleteCmd? then Buried(p, k, c.t) else Abandoned(p, k)
    case OtherEv(c) => p.(k := Gate.Exec(p.k, c).value)
  }

  function Step(p: Post, e: Event): Post
    requires Can(p, e)
  {
    var d := Do(p, e);
    d.(k := Commit(d.k))
  }

  // ---- nobody sleeps beside a queued mail ----

  /** Only its owner waits at a mailbox. */
  ghost predicate OwnerWaits(p: Post, t: Tid)
    requires t in p.boxes && p.boxes[t].wq in p.k.queues
  {
    forall w :: w in p.k.queues[p.boxes[t].wq] ==> w == t
  }

  /** Nobody is parked at a mailbox that holds mail. */
  ghost predicate Awake(p: Post, t: Tid)
    requires t in p.boxes && p.boxes[t].wq in p.k.queues
  {
    p.k.queues[p.boxes[t].wq] != [] ==> p.boxes[t].mails == []
  }

  ghost predicate Inv(p: Post) {
    && Resting(p.k) && OwnQueues(p) && (forall t :: t in p.boxes ==> t in p.k.order)
    && (forall t :: t in p.boxes ==> OwnerWaits(p, t) && Awake(p, t))
  }

  /** Queueing a mail wakes one listener: all are awake afterwards exactly when at most one was parked. */
  lemma {:induction false} QueueExact(p: Post, t: Tid, m: Mid)
    requires Wf(p.k) && t in p.boxes && p.boxes[t].wq in p.k.queues
    ensures var q := Queue(p, t, m); q.boxes[t].wq in q.k.queues && (Awake(q, t) <==> |p.k.queues[p.boxes[t].wq]| <= 1)
  {
    Sync.WakeQueues(p.k, p.boxes[t].wq);
  }

  /** Threads 2 and 3 both listen on thread 2's mailbox. */
  function TwoListeners(): Post {
    var parked := Tcb(1, false, false, Some(7));
    Post(State([1, 2, 3], map[1 := Tcb(1, true, false, None), 2 := parked, 3 := parked], map[1 := [1, 2, 3]], map[7 := [3, 2]],
               1, Request(None, None), 1, 1),
         map[2 := Box(seq(SLOTS, i => 0), [], [], 7)], map[9 := Entry(Mail(5, 1, 2, []), 1)])
  }

  lemma {:induction false} TwoListenersRest()
    ensures Resting(TwoListeners().k)
  {
    var k := TwoListeners().k;
    assert Listed(k.order, k.tcb);
    assert Owned(k.procs, k.tcb);
    assert Parked(k.queues, k.tcb);
  }

  /** One mail then leaves a listener asleep beside it. */
  lemma {:induction false} OneMailTwoListeners()
    ensures exists p: Post, t: Tid, m: Mid ::
      && Resting(p.k) && OwnQueues(p) && t in p.boxes && m in p.live && Awake(p, t)
      && (var q := SendMail(p, t, m).0; t in q.boxes && q.boxes[t].wq in q.k.queues && !Awake(q, t))
  {
    TwoListenersRest();
    var p := TwoListeners();
    QueueExact(p, 2, 9);
    assert Resting(p.k) && OwnQueues(p) && Awake(p, 2) && !Awake(SendMail(p, 2, 9).0, 2);
  }

  lemma {:induction false} AtMostOne(s: seq<Tid>, t: Tid)
    requires NoDup(s) && forall w :: w in s ==> w == t
    ensures |s| <= 1
  {
    forall i | 0 <= i < |s| ensures s[i] == t {
      var w := s[i];
      assert w in s;
    }
    if |s| >= 2 { Differ(s, 0, 1); }
  }

  lemma {:induction false} Differ(s: seq<Tid>, i: nat, j: nat)
    requires NoDup(s) && i < j < |s|
    ensures s[i] != s[j]
  {
  }

  lemma {:induction false} QueueKeeps(p: Post, t: Tid, m: Mid)
    requires Inv(p) && t in p.boxes
    ensures Inv(Queue(p, t, m)) && Queue(p, t, m).k.order == p.k.order
  {
    var w := p.boxes[t].wq;
    var q := Queue(p, t, m);
    assert OwnerWaits(p, t);
    AtMostOne(p.k.queues[w], t);
    Sync.WakeQueues(p.k, w);
    Gate.StaysResting(p.k, Gate.WakeCmd(w));
    if p.k.queues[w] != [] { DequeueWf(p.k, w); }
    forall u | u in q.boxes ensures OwnerWaits(q, u) && Awake(q, u) {
      assert OwnerWaits(p, u) && Awake(p, u);
    }
  }

  lemma {:induction false} DeliverKeeps(p: Post, ts: seq<Tid>, m: Mid, clones: map<Tid, Mid>)
    requires Inv(p) && m in p.live
    ensures Inv(Deliver(p, ts, m, clones).0)
    decreases |ts|
  {
    if ts != [] {
      var t, e := ts[0], p.live[m];
      if t !in p.boxes || !Subscribed(p.boxes[t], e.mail.magic) {
        DeliverKeeps(p, ts[1..], m, clones);
      } else if p.boxes[t].handlers != [] {
        var q := SendMail(p, t, m).0;
        LiveKeeps(p, q.live);
        if m in q.live { DeliverKeeps(q, ts[1..], m, clones); }
      } else if t !in clones || clones[t] == m {
        DeliverKeeps(p, ts[1..], m, clones);
      } else {
        var a := p.(live := Alloc(p.live, clones[t], e.mail));
        LiveKeeps(p, a.live);
        QueueKeeps(a, t, clones[t]);
        DeliverKeeps(Queue(a, t, clones[t]), ts[1..], m, clones);
      }
    }
  }

  lemma {:induction false} LiveKeeps(p: Post, live: map<Mid, Entry>)
    requires Inv(p)
    ensures Inv(p.(live := live))
  {
    var q := p.(live := live);
    forall u | u in q.boxes ensures OwnerWaits(q, u) && Awake(q, u) {
      assert OwnerWaits(p, u) && Awake(p, u);
    }
  }

  lemma {:induction false} SendKeeps(p: Post, m: Mid, mail: Mail, clones: map<Tid, Mid>)
    requires Inv(p)
    ensures Inv(Send(p, m, mail, clones).0)
  {
    LiveKeeps(p, Release(p.live, m));
    if mail.receiver == ANY {
      if m in p.live && exists t :: t in p.k.order && t in p.boxes {
        var e := p.live[m];
        var up := p.(live := p.live[m := e.(refs := e.refs + |Recipients(p.boxes, p.k.order, e.mail.magic)|)]);
        LiveKeeps(p, up.live);
        DeliverKeeps(up, p.k.order, m, clones);
        LiveKeeps(Deliver(up, p.k.order, m, clones).0, Release(Deliver(up, p.k.order, m, clones).0.live, m));
      }
    } else if mail.receiver in p.k.tcb && mail.receiver in p.boxes {
      if p.boxes[mail.receiver].handlers == [] && m in p.live { QueueKeeps(p, mail.receiver, m); }
    }
  }

  /** A box that keeps its queue of threads and gets no mail. */
  lemma {:induction false} BoxKeeps(p: Post, t: Tid, b: Box)
    requires Inv(p) && t in p.boxes && b.wq == p.boxes[t].wq && (p.boxes[t].mails == [] ==> b.mails == [])
    ensures Inv(p.(boxes := p.boxes[t := b]))
  {
    var q := p.(boxes := p.boxes[t := b]);
    forall u | u in q.boxes ensures OwnerWaits(q, u) && Awake(q, u) {
      assert OwnerWaits(p, u) && Awake(p, u);
    }
  }

  lemma {:induction false} ListenBlockKeeps(p: Post)
    requires Inv(p)
    ensures Inv(ListenBlock(p).(k := Commit(ListenBlock(p).k)))
  {
    var t := p.k.run;
    if t in p.boxes && p.boxes[t].mails == [] {
      var w := p.boxes[t].wq;
      SleepInGate(p.k, w);
      CommitRests(Sleep(p.k, w));
      Sync.SleepQueues(p.k, w);
      var q := p.(k := Commit(Sleep(p.k, w)));
      forall u | u in q.boxes ensures OwnerWaits(q, u) && Awake(q, u) {
        assert OwnerWaits(p, u) && Awake(p, u);
      }
    }
  }

  lemma {:induction false} OtherKeeps(p: Post, e: Event)
    requires Inv(p) && Can(p, e) && e.OtherEv?
    ensures Inv(Step(p, e))
  {
    var q := Step(p, e);
    Gate.ExecInGate(p.k, e.c);
    CommitRests(Gate.Exec(p.k, e.c).value);
    if e.c.SleepCmd? {
      Sync.SleepQueues(p.k, e.c.q);
    } else if e.c.WakeCmd? {
      Sync.WakeQueues(p.k, e.c.q);
    } else {
      Sync.ExecShrinks(p.k, e.c);
    }
    forall u | u in q.boxes ensures OwnerWaits(q, u) && Awake(q, u) {
      assert OwnerWaits(p, u) && Awake(p, u);
      assert q.k.queues[p.boxes[u].wq] == p.k.queues[p.boxes[u].wq];
    }
  }

  /** A new queue, empty. */
  lemma {:induction false} NewQueueRests(k: State, wq: Wq)
    requires Resting(k) && wq !in k.queues
    ensures Resting(k.(queues := k.queues[wq := []]))
  {
  }

  lemma {:induction false} BirthKeeps(p: Post, e: Event)
    requires Inv(p) && Can(p, e) && e.BirthEv?
    ensures Inv(Step(p, e))
  {
    var k := Gate.Exec(p.k, e.c).value;
    Gate.StaysResting(p.k, e.c);
    assert k.queues == p.k.queues;
    NewQueueRests(k, e.wq);
    var q := Step(p, e);
    forall u | u in q.boxes ensures OwnerWaits(q, u) && Awake(q, u) {
      if u != e.c.t { assert OwnerWaits(p, u) && Awake(p, u); }
    }
  }

  /** A dying thread leaves at most its own place on a queue. */
  ghost predicate Outlived(k: State, k': State) {
    && k'.queues.Keys == k.queues.Keys
    && (forall q, t :: q in k'.queues && t in k'.queues[q] ==> t in k.queues[q])
  }

  lemma {:induction false} DeleteOutlives(k: State, t: Tid)
    requires Resting(k)
    ensures InGate(Delete(k, t)) && Outlived(k, Delete(k, t))
    ensures (t in Delete(k, t).tcb ==> Delete(k, t).tcb.Keys == k.tcb.Keys) && k.tcb.Keys - {t} <= Delete(k, t).tcb.Keys
  {
    DeleteInGate(k, t);
    FindNextReady(k);
    if t in k.tcb && t == k.run && FindNext(k).Some? { GoWf(k, FindNext(k).value); }
  }

  lemma {:induction false} ExitOutlives(k: State, p: Pid)
    requires Resting(k) && Gate.Enabled(k, Gate.ExitCmd(p)) && Gate.Exec(k, Gate.ExitCmd(p)).Some?
    ensures var k' := Gate.Exec(k, Gate.ExitCmd(p)).value; Resting(k') && Outlived(k, k') && k'.tcb.Keys <= k.tcb.Keys
  {
    var k' := Gate.Exec(k, Gate.ExitCmd(p)).value;
    if p in k.procs {
      ProcExit.ExitCorrect(k, p);
      Sync.ExecShrinks(k, Gate.ExitCmd(p));
      forall q, t | q in k'.queues && t in k'.queues[q] ensures t in k.queues[q] {
        assert t in k'.tcb && k'.tcb[t].on == Some(q);
        assert ProcExit.Same(k.tcb[t], k'.tcb[t]);
      }
      forall t | t in k'.tcb.Keys ensures t in k.tcb.Keys { assert t in k'.tcb; }
    } else {
      CommitRests(k);
    }
  }

  /** Whoever outlives a death is as awake as before. */
  lemma {:induction false} OutlivedKeeps(p: Post, q: Post)
    requires Inv(p) && Resting(q.k) && q.boxes.Keys <= p.boxes.Keys && (forall t :: t in q.boxes ==> q.boxes[t] == p.boxes[t] && t in q.k.tcb)
    requires forall t :: t in q.boxes ==> p.boxes[t].wq in q.k.queues && forall w :: w in q.k.queues[p.boxes[t].wq] ==> w in p.k.queues[p.boxes[t].wq]
    ensures Inv(q)
  {
    forall t | t in q.boxes ensures OwnerWaits(q, t) && Awake(q, t) {
      assert OwnerWaits(p, t) && Awake(p, t);
      var s := q.k.queues[q.boxes[t].wq];
      if s != [] {
        var w := s[0];
        assert w in s && w in p.k.queues[p.boxes[t].wq];
      }
    }
  }

  lemma {:induction false} DeathKeeps(p: Post, e: Event)
    requires Inv(p) && Can(p, e) && e.DeathEv?
    ensures Inv(Step(p, e))
  {
    var q := Step(p, e);
    if e.c.DeleteCmd? {
      DeleteKeeps(p, e.c.t);
    } else {
      ExitOutlives(p.k, e.c.p);
      CommitRests(Gate.Exec(p.k, e.c).value);
      OutlivedKeeps(p, q);
    }
  }

  lemma {:induction false} DeleteKeeps(p: Post, t: Tid)
    requires Inv(p)
    ensures var d := Buried(p, Delete(p.k, t), t); Inv(d.(k := Commit(d.k)))
  {
    DeleteOutlives(p.k, t);
    BuriedKeeps(p, Delete(p.k, t), t);
  }

  lemma {:induction false} BuriedKeeps(p: Post, k: State, t: Tid)
    requires Inv(p) && InGate(k) && Outlived(p.k, k) && (t in k.tcb ==> k.tcb.Keys == p.k.tcb.Keys) && p.k.tcb.Keys - {t} <= k.tcb.Keys
    ensures var d := Buried(p, k, t); Inv(d.(k := Commit(d.k)))
  {
    var d := Buried(p, k, t);
    if t in p.boxes && t !in k.tcb {
      assert OwnerWaits(p, t);
      QueueGone(k, p.boxes[t].wq, t);
    }
    forall u | u in p.boxes ensures u in p.k.tcb.Keys {}
    CommitRests(d.k);
    OutlivedKeeps(p, d.(k := Commit(d.k)));
  }

  /** A wait queue whose only possible waiter is gone can be freed. */
  lemma {:induction false} QueueGone(k: State, q: Wq, t: Tid)
    requires InGate(k) && q in k.queues && t !in k.tcb && forall w :: w in k.queues[q] ==> w == t
    ensures InGate(k.(queues := k.queues - {q}))
  {
    forall x | x in k.tcb ensures k.tcb[x].on != Some(q) {}
  }

  lemma {:induction false} StepKeeps(p: Post, e: Event)
    requires Inv(p) && Can(p, e)
    ensures Inv(Step(p, e))
  {
    var t := p.k.run;
    match e
    case SendEv(m, mail, clones) => SendKeeps(p, m, mail, clones);
    case ListenEv => if t in p.boxes { BoxKeeps(p, t, TryGet(p.boxes[t]).0); }
    case ListenBlockEv => ListenBlockKeeps(p);
    case SubscribeEv(magic) => if t in p.boxes { BoxKeeps(p, t, Subscribe(p.boxes[t], magic).0); }
    case UnsubscribeEv(magic) => if t in p.boxes { BoxKeeps(p, t, Unsubscribe(p.boxes[t], magic).0); }
    case HandlerEv(u, h) => BoxKeeps(p, u, p.boxes[u].(handlers := [h] + p.boxes[u].handlers));
    case AllocEv(m, mail) => LiveKeeps(p, Alloc(p.live, m, mail));
    case ReleaseEv(m) => LiveKeeps(p, Release(p.live, m));
    case BirthEv(c, wq) => BirthKeeps(p, e);
    case DeathEv(c) => DeathKeeps(p, e);
    case OtherEv(c) => OtherKeeps(p, e);
  }

  ghost predicate IsRun(ps: seq<Post>, es: seq<Event>) {
    && |ps| == |es| + 1
    && (forall i :: 0 <= i < |es| ==> Can(ps[i], es[i]) && ps[i + 1] == Step(ps[i], es[i]))
  }

  /** After every completed gate nobody is parked at a mailbox that holds mail. */
  lemma {:induction false} NobodySleepsBesideMail(ps: seq<Post>, es: seq<Event>, n: nat)
    requires IsRun(ps, es) && n <= |es| && Inv(ps[0])
    ensures Inv(ps[n])
  {
    if n > 0 {
      NobodySleepsBesideMail(ps, es, n - 1);
      assert Can(ps[n - 1], es[n - 1]) && ps[n - 1 + 1] == Step(ps[n - 1], es[n - 1]);
      StepKeeps(ps[n - 1], es[n - 1]);
    }
  }

  // ---- a mail hangs on one queue only ----

  /** Every mail is queued at most once, and a queued mail is alive. */
  ghost predicate Once(p: Post) {
    && (forall t :: t in p.boxes ==> NoDup(p.boxes[t].mails))
    && (forall t, u, m :: t in p.boxes && u in p.boxes && m in p.boxes[t].mails && m in p.boxes[u].mails ==> t == u)
    && (forall m :: Queued(p, m) ==> m in p.live && p.live[m].refs > 0)
  }

  lemma {:induction false} SameBoxesOnce(p: Post, q: Post)
    requires Once(p) && q.boxes == p.boxes
    requires forall m :: Queued(p, m) ==> m in q.live && q.live[m].refs > 0
    ensures Once(q)
  {
    forall m | Queued(q, m) ensures Queued(p, m) {}
  }

  lemma {:induction false} ReleaseOnce(p: Post, q: Post, m: Mid)
    requires Once(p) && Spare(p, m) && q.boxes == p.boxes && q.live == Release(p.live, m)
    ensures Once(q)
  {
    SameBoxesOnce(p, q);
  }

  /** One box gets mail that was queued nowhere, or loses some. */
  lemma {:induction false} OneBoxOnce(p: Post, q: Post, t: Tid)
    requires Once(p) && t in p.boxes && q.boxes.Keys == p.boxes.Keys && q.live == p.live && NoDup(q.boxes[t].mails)
    requires forall u :: u in p.boxes && u != t ==> q.boxes[u] == p.boxes[u]
    requires forall m :: m in q.boxes[t].mails ==> m in p.boxes[t].mails || (!Queued(p, m) && m in p.live && p.live[m].refs > 0)
    ensures Once(q)
  {
    forall m | Queued(q, m) ensures m in q.live && q.live[m].refs > 0 {
      var u :| u in q.boxes && m in q.boxes[u].mails;
      assert u != t ==> Queued(p, m);
      assert m in p.boxes[t].mails ==> Queued(p, m);
    }
    forall a, b, m | a in q.boxes && b in q.boxes && m in q.boxes[a].mails && m in q.boxes[b].mails ensures a == b {
      assert a != t ==> m in p.boxes[a].mails && Queued(p, m);
      assert b != t ==> m in p.boxes[b].mails && Queued(p, m);
    }
  }

  /** The mailbox of t after a broadcast holds what it held, and perhaps its copy. */
  lemma {:induction false} BroadcastOnce(p: Post, m: Mid, clones: map<Tid, Mid>, q: Post)
    requires Once(p) && Boxed(p) && m in p.live && p.live[m].refs > 0 && NoDup(p.k.order) && FreshClones(p.live, m, clones, p.k.order)
    requires (forall t :: t in p.boxes ==> t in p.k.order) && Spare(p, m)
    requires q.boxes == Broadcast(p, m, clones).0.boxes && q.live == Broadcast(p, m, clones).0.live
    ensures Once(q)
  {
    BroadcastCorrect(p, m, clones);
    var magic := p.live[m].mail.magic;
    forall t | t in q.boxes ensures NoDup(q.boxes[t].mails) && forall x :: x in q.boxes[t].mails ==> Origin(p, magic, clones, t, x) {
      AfterOrigin(p, magic, clones, t);
    }
    forall x | Queued(q, x) ensures x in q.live && q.live[x].refs > 0 {
      var t :| t in q.boxes && x in q.boxes[t].mails;
      assert Origin(p, magic, clones, t, x);
      if x in p.boxes[t].mails {
        assert Queued(p, x);
      } else {
        assert IsCopy(p, p.k.order, magic, clones, x);
      }
    }
    forall t, u, x | t in q.boxes && u in q.boxes && x in q.boxes[t].mails && x in q.boxes[u].mails ensures t == u {
      assert Origin(p, magic, clones, t, x) && Origin(p, magic, clones, u, x);
      assert x in p.boxes[t].mails ==> Queued(p, x);
      assert x in p.boxes[u].mails ==> Queued(p, x);
    }
  }

  /** x was in t's mailbox, or is the new copy for it. */
  ghost predicate Origin(p: Post, magic: int, clones: map<Tid, Mid>, t: Tid, x: Mid) {
    t in p.boxes && (x in p.boxes[t].mails || (t in p.k.order && Cloned(p.boxes[t], magic) && t in clones && x == clones[t]))
  }

  lemma {:induction false} AfterOrigin(p: Post, magic: int, clones: map<Tid, Mid>, t: Tid)
    requires Once(p) && t in p.boxes && t in p.k.order && (t in clones ==> clones[t] !in p.live)
    ensures var b := After(p, p.k.order, magic, clones, t); NoDup(b.mails) && forall x :: x in b.mails ==> Origin(p, magic, clones, t, x)
  {
    var b := After(p, p.k.order, magic, clones, t);
    if b != p.boxes[t] {
      assert clones[t] in p.boxes[t].mails ==> Queued(p, clones[t]);
      ConsNoDup(clones[t], p.boxes[t].mails);
    }
  }

  lemma {:induction false} ConsNoDup(x: Mid, s: seq<Mid>)
    requires NoDup(s) && x !in s
    ensures NoDup([x] + s)
  {
  }

  lemma {:induction false} StepOnce(p: Post, e: Event)
    requires Once(p) && Can(p, e)
    ensures Once(Step(p, e))
  {
    var q := Step(p, e);
    match e
    case SendEv(m, mail, clones) => SendOnce(p, m, mail, clones, q);
    case ListenEv =>
      if p.k.run in p.boxes {
        var s := p.boxes[p.k.run].mails;
        assert s != [] ==> forall x :: x in s[..|s| - 1] ==> x in s;
        OneBoxOnce(p, q, p.k.run);
      }
    case ReleaseEv(m) => ReleaseOnce(p, q, m);
    case AllocEv(m, mail) => SameBoxesOnce(p, q);
    case BirthEv(c, wq) =>
      forall m | Queued(q, m) ensures Queued(p, m) {}
    case DeathEv(c) => DeathOnce(p, e);
    case _ => QuietOnce(p, e);
  }

  /** The other commands move no mail. */
  lemma {:induction false} QuietOnce(p: Post, e: Event)
    requires Once(p) && Can(p, e) && (e.SubscribeEv? || e.UnsubscribeEv? || e.HandlerEv? || e.ListenBlockEv? || e.OtherEv?)
    ensures Once(Step(p, e))
  {
    var q := Step(p, e);
    if e.HandlerEv? {
      OneBoxOnce(p, q, e.t);
    } else if q.boxes != p.boxes {
      OneBoxOnce(p, q, p.k.run);
    } else {
      SameBoxesOnce(p, q);
    }
  }

  /** A release of all mails of a box touches no other mail, and each of them once. */
  lemma {:induction false} ReleaseAllExact(live: map<Mid, Entry>, ms: seq<Mid>, x: Mid)
    requires NoDup(ms)
    ensures var l := ReleaseAll(live, ms); var r := if x in ms then Release(live, x) else live;
      (x in l <==> x in r) && (x in l ==> l[x] == r[x])
    decreases |ms|
  {
    if ms != [] {
      var n := |ms| - 1;
      assert ms == ms[..n] + [ms[n]];
      ReleaseAllExact(Release(live, ms[n]), ms[..n], x);
    }
  }

  lemma {:induction false} FewerBoxesOnce(p: Post, q: Post)
    requires Once(p) && q.boxes.Keys <= p.boxes.Keys && forall t :: t in q.boxes ==> q.boxes[t] == p.boxes[t]
    requires forall m :: Queued(q, m) ==> m in q.live && q.live[m].refs > 0
    ensures Once(q)
  {
  }

  lemma {:induction false} DeathOnce(p: Post, e: Event)
    requires Once(p) && Can(p, e) && e.DeathEv?
    ensures Once(Step(p, e))
  {
    var q := Step(p, e);
    forall m | Queued(q, m) ensures m in q.live && q.live[m].refs > 0 {
      var u :| u in q.boxes && m in q.boxes[u].mails;
      assert u in p.boxes && m in p.boxes[u].mails && Queued(p, m);
      if e.c.DeleteCmd? && q.live != p.live {
        assert m !in p.boxes[e.c.t].mails;
        ReleaseAllExact(p.live, p.boxes[e.c.t].mails, m);
      }
    }
    FewerBoxesOnce(p, q);
  }

  /** thread_delete gives up one reference to each mail of its mailbox: freed exactly if it was the last, queued no more. */
  lemma {:induction false} DeleteReleases(p: Post, t: Tid, m: Mid)
    requires Once(p) && Can(p, DeathEv(Gate.DeleteCmd(t))) && t in p.boxes && t !in Delete(p.k, t).tcb && m in p.boxes[t].mails
    ensures var q := Step(p, DeathEv(Gate.DeleteCmd(t)));
      && !Queued(q, m) && (m in q.live <==> p.live[m].refs > 1) && (m in q.live ==> q.live[m] == p.live[m].(refs := p.live[m].refs - 1))
  {
    ReleaseAllExact(p.live, p.boxes[t].mails, m);
    assert Queued(p, m);
  }

  /** proc_exit gives up none: mail of the dead keeps all its references and is queued nowhere any more. */
  lemma {:induction false} ExitLeaks(p: Post, pid: Pid, t: Tid, m: Mid)
    requires Once(p) && Can(p, DeathEv(Gate.ExitCmd(pid))) && t in p.boxes && t !in Gate.Exec(p.k, Gate.ExitCmd(pid)).value.tcb && m in p.boxes[t].mails
    ensures var q := Step(p, DeathEv(Gate.ExitCmd(pid))); !Queued(q, m) && m in q.live && q.live[m] == p.live[m]
  {
    assert Queued(p, m);
  }

  lemma {:induction false} SendOnce(p: Post, m: Mid, mail: Mail, clones: map<Tid, Mid>, q: Post)
    requires Once(p) && Can(p, SendEv(m, mail, clones)) && q == Step(p, SendEv(m, mail, clones))
    ensures Once(q)
  {
    if Hangs(p, m, mail) {
      var t := mail.receiver;
      assert m in p.boxes[t].mails ==> Queued(p, m);
      ConsNoDup(m, p.boxes[t].mails);
      OneBoxOnce(p, q, t);
    } else if mail.receiver == ANY && m in p.live {
      BroadcastOnce(p, m, clones, q);
    } else if m in p.live {
      ReleaseOnce(p, q, m);
    } else {
      SameBoxesOnce(p, q);
    }
  }

  /** In every run in which no queued mail is sent again and no last reference to one is given up. */
  lemma {:induction false} RunOnce(ps: seq<Post>, es: seq<Event>, n: nat)
    requires IsRun(ps, es) && n <= |es| && Once(ps[0])
    ensures Once(ps[n])
  {
    if n > 0 {
      RunOnce(ps, es, n - 1);
      assert Can(ps[n - 1], es[n - 1]) && ps[n - 1 + 1] == Step(ps[n - 1], es[n - 1]);
      StepOnce(ps[n - 1], es[n - 1]);
    }
  }

  // ---- first in, first out ----

  /** The mail an event puts into t's mailbox. */
  function Enters(p: Post, e: Event, t: Tid): seq<Mid>
    requires t in p.boxes
  {
    if !e.SendEv? || e.m !in p.live then []
    else if e.mail.receiver == ANY then
      if Cloned(p.boxes[t], e.mail.magic) && t in e.clones then [e.clones[t]] else []
    else if e.mail.receiver == t && t in p.k.tcb && p.boxes[t].handlers == [] then [e.m] else []
  }

  /** The mail an event hands to t. */
  function Leaves(p: Post, e: Event, t: Tid): seq<Mid>
    requires t in p.boxes
  {
    if e.ListenEv? && p.k.run == t && TryGet(p.boxes[t]).1.Some? then [TryGet(p.boxes[t]).1.value] else []
  }

  lemma {:induction false} SendBox(p: Post, e: Event, t: Tid)
    requires Can(p, e) && e.SendEv? && t in p.boxes
    ensures t in Step(p, e).boxes && Waiting(Step(p, e).boxes[t]) == Waiting(p.boxes[t]) + Enters(p, e, t)
  {
    if e.m in p.live && e.mail.receiver == ANY {
      BroadcastCorrect(p, e.m, e.clones);
      if Enters(p, e, t) != [] { Fifo(p.boxes[t], e.clones[t]); }
    } else {
      Fifo(p.boxes[t], e.m);
    }
  }

  lemma {:induction false} StepFifo(p: Post, e: Event, t: Tid)
    requires Can(p, e) && t in p.boxes && t in Step(p, e).boxes
    ensures Waiting(p.boxes[t]) + Enters(p, e, t) == Leaves(p, e, t) + Waiting(Step(p, e).boxes[t])
  {
    if e.SendEv? {
      SendBox(p, e, t);
    } else if e.ListenEv? {
      Fifo(p.boxes[t], 0);
    }
  }

  ghost function Entered(ps: seq<Post>, es: seq<Event>, n: nat, t: Tid): seq<Mid>
    requires IsRun(ps, es) && n <= |es| && forall i :: 0 <= i <= n ==> t in ps[i].boxes
  {
    if n == 0 then [] else Entered(ps, es, n - 1, t) + Enters(ps[n - 1], es[n - 1], t)
  }

  ghost function Left(ps: seq<Post>, es: seq<Event>, n: nat, t: Tid): seq<Mid>
    requires IsRun(ps, es) && n <= |es| && forall i :: 0 <= i <= n ==> t in ps[i].boxes
  {
    if n == 0 then [] else Left(ps, es, n - 1, t) + Leaves(ps[n - 1], es[n - 1], t)
  }

  /** In every run, as long as its mailbox is there, what a thread took from it is what was queued there first, in that order. */
  lemma {:induction false} RunFifo(ps: seq<Post>, es: seq<Event>, n: nat, t: Tid)
    requires IsRun(ps, es) && n <= |es| && forall i :: 0 <= i <= n ==> t in ps[i].boxes
    ensures Waiting(ps[0].boxes[t]) + Entered(ps, es, n, t) == Left(ps, es, n, t) + Waiting(ps[n].boxes[t])
  {
    if n > 0 {
      RunFifo(ps, es, n - 1, t);
      var p, e := ps[n - 1], es[n - 1];
      assert Can(p, e) && ps[n - 1 + 1] == Step(p, e);
      StepFifo(p, e, t);
      Regroup(Waiting(ps[0].boxes[t]), Entered(ps, es, n - 1, t), Enters(p, e, t), Left(ps, es, n - 1, t), Waiting(p.boxes[t]),
              Leaves(p, e, t), Waiting(ps[n].boxes[t]));
    }
  }

  lemma {:induction false} Regroup(a: seq<Mid>, b: seq<Mid>, c: seq<Mid>, l: seq<Mid>, w: seq<Mid>, o: seq<Mid>, w': seq<Mid>)
    requires a + b == l + w && w + c == o + w'
    ensures a + (b + c) == (l + o) + w'
  {
    assert a + (b + c) == (a + b) + c == l + (w + c) == l + (o + w');
  }
}
