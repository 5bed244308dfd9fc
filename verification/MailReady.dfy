/** A listener sleeps exactly while its mailbox is empty, and can run once mail has arrived. */
module MailReady {
  import opened Threads
  import opened Wakeups
  import opened Mailbox
  import opened MailRun
  import opened Errno
  import opened Basics

  /**
   LISTEN_BLOCK of a thread that is on no queue and has no wake-up pending: it
   heads its mailbox's wait queue and is not ready exactly when no mail is
   queued, it keeps the processor exactly when mail is queued or nobody else
   is ready, and with mail queued nothing changes.
   */
  lemma {:induction false} ListenBlockExact(p: Post)
    requires Can(p, ListenBlockEv) && p.k.run in p.boxes && p.k.tcb[p.k.run].on.None? && !p.k.tcb[p.k.run].wake
    ensures var q, t := Step(p, ListenBlockEv), p.k.run;
      var b := p.boxes[t];
      && q.boxes == p.boxes && q.live == p.live && t in q.k.tcb && b.wq in q.k.queues
      && (b.mails == [] <==> q.k.tcb[t].on == Some(b.wq))
      && (b.mails == [] ==> q.k.queues[b.wq] == [t] + p.k.queues[b.wq] && !q.k.tcb[t].ready)
      && (q.k.run == t <==> b.mails != [] || !Relief(p.k))
      && (b.mails != [] ==> q == p)
  {
    if p.boxes[p.k.run].mails == [] { SleepRecords(p.k, p.boxes[p.k.run].wq); }
  }

  /**
   What send returns for a mail to one thread: a thread that is gone or has no
   mailbox is unknown, an untracked mail is invalid unless handlers take it, and
   otherwise the mail is first in that mailbox and its owner, if parked there
   alone, can run.
   */
  lemma {:induction false} SendOutcome(p: Post, m: Mid, mail: Mail, clones: map<Tid, Mid>)
    requires Wf(p.k) && Boxed(p) && mail.receiver != ANY
    ensures var (q, ret), t := Send(p, m, mail, clones), mail.receiver;
      && (ret == E_NOTFOUND <==> t !in p.k.tcb || t !in p.boxes)
      && (ret == E_INVAL <==> t in p.k.tcb && t in p.boxes && p.boxes[t].handlers == [] && m !in p.live)
      && (Hangs(p, m, mail) ==>
            && ret == 0 && q.live == p.live && t in q.boxes && q.boxes == p.boxes[t := q.boxes[t]] && q.boxes[t].mails == [m] + p.boxes[t].mails
            && (p.k.queues[p.boxes[t].wq] == [t] ==> t in q.k.tcb && q.k.tcb[t].ready && q.k.tcb[t].on.None?))
      && (!Hangs(p, m, mail) ==> q.boxes == p.boxes && q.k == p.k)
  {
    if Hangs(p, m, mail) { WakeOneRecords(p.k, p.boxes[mail.receiver].wq); }
  }

  /** A broadcast of an untracked mail changes nothing, and is invalid exactly if some thread has a mailbox. */
  lemma {:induction false} UntrackedBroadcast(p: Post, m: Mid, clones: map<Tid, Mid>)
    requires Boxed(p) && m !in p.live
    ensures var (q, log, ret) := Broadcast(p, m, clones);
      q == p && log == [] && (ret == E_INVAL <==> exists t :: t in p.k.order && t in p.boxes) && (ret != E_INVAL ==> ret == 0)
  {
  }

  // ---- why a thread is not ready ----

  /** Whom an event stops. */
  function Stopped(p: Post, e: Event): set<Tid> {
    if e.BirthEv? || e.OtherEv? then Stops(p.k, e.c) else {}
  }

  lemma {:induction false} QueueStirs(p: Post, t: Tid, m: Mid)
    requires Wf(p.k) && t in p.boxes && p.boxes[t].wq in p.k.queues
    ensures Stirs(p.k, Queue(p, t, m).k, {})
  {
    WakeOneRecords(p.k, p.boxes[t].wq);
  }

  lemma {:induction false} DeliverStirs(p: Post, ts: seq<Tid>, m: Mid, clones: map<Tid, Mid>)
    requires MailRun.Inv(p) && m in p.live
    ensures Stirs(p.k, Deliver(p, ts, m, clones).0.k, {})
    decreases |ts|
  {
    if ts != [] {
      var t, e := ts[0], p.live[m];
      if t !in p.boxes || !Subscribed(p.boxes[t], e.mail.magic) {
        DeliverStirs(p, ts[1..], m, clones);
      } else if p.boxes[t].handlers != [] {
        var q := SendMail(p, t, m).0;
        LiveKeeps(p, q.live);
        if m in q.live { DeliverStirs(q, ts[1..], m, clones); }
      } else if t !in clones || clones[t] == m {
        DeliverStirs(p, ts[1..], m, clones);
      } else {
        var a := p.(live := Alloc(p.live, clones[t], e.mail));
        LiveKeeps(p, a.live);
        QueueKeeps(a, t, clones[t]);
        QueueStirs(a, t, clones[t]);
        DeliverStirs(Queue(a, t, clones[t]), ts[1..], m, clones);
        StirsTwice(p.k, Queue(a, t, clones[t]).k, Deliver(p, ts, m, clones).0.k);
      }
    }
  }

  lemma {:induction false} SendStirs(p: Post, m: Mid, mail: Mail, clones: map<Tid, Mid>)
    requires MailRun.Inv(p)
    ensures Stirs(p.k, Send(p, m, mail, clones).0.k, {})
  {
    if mail.receiver == ANY {
      if m in p.live && exists t :: t in p.k.order && t in p.boxes {
        var e := p.live[m];
        var up := p.(live := p.live[m := e.(refs := e.refs + |Recipients(p.boxes, p.k.order, e.mail.magic)|)]);
        LiveKeeps(p, up.live);
        DeliverStirs(up, p.k.order, m, clones);
      }
    } else if mail.receiver in p.k.tcb && mail.receiver in p.boxes {
      QueueStirs(p, mail.receiver, m);
    }
  }

  lemma {:induction false} StepStirs(p: Post, e: Event)
    requires MailRun.Inv(p) && Can(p, e)
    ensures Stirs(p.k, Step(p, e).k, Stopped(p, e))
  {
    match e
    case SendEv(m, mail, clones) => SendStirs(p, m, mail, clones);
    case ListenBlockEv => if p.k.run in p.boxes { SleepStirs(p.k, p.boxes[p.k.run].wq); }
    case BirthEv(c, wq) => ExecStirs(p.k, c);
    case DeathEv(c) => ExecStirs(p.k, c);
    case OtherEv(c) => ExecStirs(p.k, c);
    case _ =>
  }

  ghost function Kernels(ps: seq<Post>): seq<State> {
    seq(|ps|, i requires 0 <= i < |ps| => ps[i].k)
  }

  ghost function Stoppings(ps: seq<Post>, es: seq<Event>): seq<set<Tid>>
    requires |ps| == |es| + 1
  {
    seq(|es|, i requires 0 <= i < |es| => Stopped(ps[i], es[i]))
  }

  lemma {:induction false} RunStirs(ps: seq<Post>, es: seq<Event>)
    requires IsRun(ps, es) && MailRun.Inv(ps[0])
    ensures Stirring(Kernels(ps), Stoppings(ps, es))
  {
    forall i | 0 <= i < |es| ensures Stirs(ps[i].k, ps[i + 1].k, Stopped(ps[i], es[i])) {
      NobodySleepsBesideMail(ps, es, i);
      StepStirs(ps[i], es[i]);
    }
  }

  /**
   In every run the owner of a mailbox with mail can run, unless it went to
   sleep on another queue, or was stopped by name and has been neither ready
   nor parked since.
   */
  lemma {:induction false} WhoHasMailCanRun(ps: seq<Post>, es: seq<Event>, n: nat, t: Tid)
    requires IsRun(ps, es) && n <= |es| && MailRun.Inv(ps[0]) && t in ps[n].boxes && ps[n].boxes[t].mails != []
    ensures t in ps[n].k.tcb && var c := ps[n].k.tcb[t];
      || c.ready
      || (c.on.Some? && c.on.value != ps[n].boxes[t].wq)
      || exists i :: StoppedAt(Kernels(ps), Stoppings(ps, es), i, n, t)
  {
    NobodySleepsBesideMail(ps, es, n);
    assert Awake(ps[n], t);
    if Stalled(ps[n].k, t) {
      RunStirs(ps, es);
      StalledWasStopped(Kernels(ps), Stoppings(ps, es), n, t);
    }
  }
}
