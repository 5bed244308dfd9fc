/** osdev/kernel/ipc/mailbox.c updating its lists, counts and subscription slots in place. */
module MailboxImpl {
  import opened Threads
  import opened ProcessSpec
  import opened KernelImpl
  import opened Mailbox
  import MailRun
  import opened Errno
  import opened Basics

  class Mailboxes {
    const kernel: Kernel
    var boxes: map<Tid, Box>
    var live: map<Mid, Entry>

    ghost function View(): Post
      reads this, kernel
    {
      Post(kernel.View(), boxes, live)
    }

    constructor (kernel: Kernel)
      ensures this.kernel == kernel && View() == Post(kernel.View(), map[], map[])
    {
      this.kernel := kernel;
      boxes, live := map[], map[];
    }

    method AllocMail(m: Mid, mail: Mail)
      modifies this`live
      ensures live == Alloc(old(live), m, mail)
    {
      live := live[m := Entry(mail, 1)];
    }

    method ReleaseMail(m: Mid)
      modifies this`live
      ensures live == Release(old(live), m)
    {
      if m !in live {
        return;
      }
      live := live[m := live[m].(refs := live[m].refs - 1)];
      if live[m].refs > 0 {
        return;
      }
      live := live - {m};
    }

    /** list_add and the wake-up of a parked listener. */
    method QueueMail(t: Tid, m: Mid)
      requires Wf(kernel.View()) && t in boxes && boxes[t].wq in kernel.queues
      modifies this`boxes, kernel
      ensures View() == old(Queue(View(), t, m)) && Wf(kernel.View())
    {
      var b := boxes[t];
      boxes := boxes[t := b.(mails := [m] + b.mails)];
      if kernel.queues[b.wq] != [] {
        DequeueWf(kernel.View(), b.wq);
        SetTcbWf(Dequeue(kernel.View(), b.wq), kernel.queues[b.wq][0],
                 Dequeue(kernel.View(), b.wq).tcb[kernel.queues[b.wq][0]].(wake := true, ready := true));
      }
      kernel.WaitQueueWakeOne(b.wq);
    }

    /** send_mail: handlers run at once and consume one reference, otherwise the mail is queued. */
    method SendTo(t: Tid, m: Mid) returns (ran: bool, ret: int)
      requires Wf(kernel.View()) && t in boxes && boxes[t].wq in kernel.queues
      modifies this, kernel
      ensures (View(), ran, ret) == old(SendMail(View(), t, m)) && Wf(kernel.View())
    {
      if boxes[t].handlers != [] {
        ReleaseMail(m);
        return true, 0;
      }
      if m !in live {
        ReleaseMail(m);
        return false, E_INVAL;
      }
      QueueMail(t, m);
      return false, 0;
    }

    /** The search through the subscription slots. */
    method FindSlot(t: Tid, magic: int) returns (i: nat)
      requires t in boxes
      ensures i == SlotOf(boxes[t].subs, magic)
    {
      i := 0;
      while i < |boxes[t].subs| && boxes[t].subs[i] != magic
        invariant i <= |boxes[t].subs|
        invariant SlotOf(boxes[t].subs, magic) == i + SlotOf(boxes[t].subs[i..], magic)
      {
        assert boxes[t].subs[i..][1..] == boxes[t].subs[i + 1..];
        i := i + 1;
      }
      if i < |boxes[t].subs| {
        assert boxes[t].subs[i..][0] == magic;
      }
    }

    method SubscribeTo(t: Tid, magic: int) returns (ret: int)
      requires t in boxes
      modifies this`boxes
      ensures boxes == old(boxes)[t := Subscribe(old(boxes)[t], magic).0] && ret == Subscribe(old(boxes)[t], magic).1
    {
      if magic == 0 {
        return E_INVAL;
      }
      var i := FindSlot(t, magic);
      if i < |boxes[t].subs| {
        return 0;
      }
      i := FindSlot(t, 0);
      if i == |boxes[t].subs| {
        return E_NOMEM;
      }
      boxes := boxes[t := boxes[t].(subs := boxes[t].subs[i := magic])];
      return 0;
    }

    method UnsubscribeFrom(t: Tid, magic: int) returns (ret: int)
      requires t in boxes
      modifies this`boxes
      ensures boxes == old(boxes)[t := Unsubscribe(old(boxes)[t], magic).0] && ret == Unsubscribe(old(boxes)[t], magic).1
    {
      if magic == 0 {
        return E_INVAL;
      }
      var i := FindSlot(t, magic);
      if i == |boxes[t].subs| {
        return E_INVAL;
      }
      boxes := boxes[t := boxes[t].(subs := boxes[t].subs[i := 0])];
      return 0;
    }

    method TryGetMail(t: Tid) returns (m: Option<Mid>)
      requires t in boxes
      modifies this`boxes
      ensures boxes == old(boxes)[t := TryGet(old(boxes)[t]).0] && m == TryGet(old(boxes)[t]).1
    {
      var b := boxes[t];
      if b.mails == [] {
        return None;
      }
      var n := |b.mails| - 1;
      boxes := boxes[t := b.(mails := b.mails[..n])];
      return Some(b.mails[n]);
    }

    /** release_mailbox: every queued mail is taken off at the tail and released once, then the mailbox goes. */
    method ReleaseMailbox(t: Tid)
      requires t in boxes
      modifies this`boxes, this`live
      ensures boxes == old(boxes) - {t} && live == MailRun.ReleaseAll(old(live), old(boxes)[t].mails)
    {
      while boxes[t].mails != []
        invariant t in boxes && boxes - {t} == old(boxes) - {t}
        invariant MailRun.ReleaseAll(live, boxes[t].mails) == MailRun.ReleaseAll(old(live), old(boxes)[t].mails)
        decreases |boxes[t].mails|
      {
        var m := TryGetMail(t);
        ReleaseMail(m.value);
      }
      boxes := boxes - {t};
    }

    /** MAILBOX_CTRL_LISTEN_BLOCK on the caller's own mailbox. */
    method ListenBlock()
      requires Wf(kernel.View()) && Boxed(View())
      modifies kernel
      ensures View() == old(MailRun.ListenBlock(View()))
    {
      var t := kernel.run;
      if t !in boxes {
        return;
      }
      if boxes[t].mails == [] {
        kernel.WaitQueueSleep(boxes[t].wq);
      }
    }

    /** The first pass of a broadcast. */
    method CountRecipients(magic: int) returns (n: nat, any: bool)
      ensures n == |Recipients(boxes, kernel.order, magic)|
      ensures any <==> exists t :: t in kernel.order && t in boxes
    {
      n, any := 0, false;
      var i := 0;
      assert kernel.order[0..] == kernel.order;
      while i < |kernel.order|
        invariant i <= |kernel.order|
        invariant n + |Recipients(boxes, kernel.order[i..], magic)| == |Recipients(boxes, kernel.order, magic)|
        invariant any ==> exists t :: t in kernel.order && t in boxes
        invariant !any ==> forall j :: 0 <= j < i ==> kernel.order[j] !in boxes
      {
        var t := kernel.order[i];
        assert kernel.order[i..][0] == t && kernel.order[i..][1..] == kernel.order[i + 1..];
        assert t in kernel.order;
        if t in boxes {
          any := true;
          if magic != 0 && boxes[t].handlers != [] && magic in boxes[t].subs {
            n := n + 1;
          }
        }
        i := i + 1;
      }
    }

    /** The second pass: deliver to each recipient; the mail lives throughout. */
    method DeliverAll(m: Mid, clones: map<Tid, Mid>) returns (log: seq<Tid>)
      requires Wf(kernel.View()) && Boxed(View()) && m in live && FreshClones(live, m, clones, kernel.order)
      requires live[m].refs > |Recipients(boxes, kernel.order, live[m].mail.magic)|
      modifies this, kernel
      ensures (View(), log) == old(Deliver(View(), kernel.order, m, clones)) && Wf(kernel.View()) && m in live
    {
      ghost var want := Deliver(View(), kernel.order, m, clones);
      var ts := kernel.order;
      log := [];
      var i := 0;
      assert ts[0..] == ts && [] + want.1 == want.1;
      while i < |ts|
        invariant i <= |ts| && Delivering(m, clones, ts[i..], log, want)
      {
        Head(ts, i);
        log := DeliverNext(ts[i], m, clones, ts[i + 1..], log, want);
        i := i + 1;
      }
      assert ts[i..] == [] && log + [] == log;
    }

    /** What is delivered and what remains for the threads rest make up the whole pass. */
    ghost predicate Delivering(m: Mid, clones: map<Tid, Mid>, rest: seq<Tid>, log: seq<Tid>, want: (Post, seq<Tid>))
      reads this, kernel
    {
      && Wf(kernel.View()) && Boxed(View()) && m in live
      && live[m].refs > |Recipients(boxes, rest, live[m].mail.magic)|
      && var r := Deliver(View(), rest, m, clones); r.0 == want.0 && log + r.1 == want.1
    }

    method DeliverNext(t: Tid, m: Mid, clones: map<Tid, Mid>, ghost rest: seq<Tid>, was: seq<Tid>, ghost want: (Post, seq<Tid>))
      returns (log: seq<Tid>)
      requires Delivering(m, clones, [t] + rest, was, want) && t !in rest && (t in clones ==> clones[t] != m)
      modifies this, kernel
      ensures Delivering(m, clones, rest, log, want)
    {
      var step := DeliverOne(t, m, clones, rest);
      ghost var r := Deliver(View(), rest, m, clones);
      assert was + (step + r.1) == (was + step) + r.1;
      log := was + step;
    }

    /** One thread of the second pass, before the threads rest. */
    method DeliverOne(t: Tid, m: Mid, clones: map<Tid, Mid>, ghost rest: seq<Tid>) returns (log: seq<Tid>)
      requires Wf(kernel.View()) && Boxed(View()) && m in live && t !in rest && (t in clones ==> clones[t] != m)
      requires live[m].refs > |Recipients(boxes, [t] + rest, live[m].mail.magic)|
      modifies this, kernel
      ensures Wf(kernel.View()) && Boxed(View()) && m in live && live[m].mail == old(live[m].mail)
      ensures live[m].refs > |Recipients(boxes, rest, live[m].mail.magic)|
      ensures var r := Deliver(View(), rest, m, clones); (r.0, log + r.1) == old(Deliver(View(), [t] + rest, m, clones))
    {
      ghost var p := View();
      var magic := live[m].mail.magic;
      assert ([t] + rest)[1..] == rest && forall s: seq<Tid> :: [] + s == s;
      log := [];
      if t !in boxes || magic == 0 || magic !in boxes[t].subs {
        return;
      }
      if boxes[t].handlers != [] {
        var ran, ret := SendTo(t, m);
        log := [t];
        return;
      }
      if t in clones {
        AllocMail(clones[t], live[m].mail);
        QueueMail(t, clones[t]);
        RecipientsSame(p.boxes, boxes, rest, magic);
      }
    }

    /** send with receiver MAIL_ANY_TID. */
    method SendAll(m: Mid, magic: int, clones: map<Tid, Mid>) returns (log: seq<Tid>, ret: int)
      requires Wf(kernel.View()) && Boxed(View()) && FreshClones(live, m, clones, kernel.order)
      requires m in live ==> live[m].mail.magic == magic && live[m].refs > 0
      modifies this, kernel
      ensures (View(), log, ret) == old(Broadcast(View(), m, clones))
    {
      var n, any := CountRecipients(magic);
      if !any {
        ReleaseMail(m);
        return [], 0;
      }
      if m !in live {
        return [], E_INVAL;
      }
      live := live[m := live[m].(refs := live[m].refs + n)];
      log := DeliverAll(m, clones);
      ReleaseMail(m);
      return log, 0;
    }
  }

  lemma {:induction false} Head(ts: seq<Tid>, i: nat)
    requires NoDup(ts) && i < |ts|
    ensures ts[i..] == [ts[i]] + ts[i + 1..] && ts[i] !in ts[i + 1..] && ts[i] in ts
  {
  }
}
