/**
 Mailboxes (osdev/kernel/ipc/mailbox.c): reference-counted mail, broadcast by
 subscription with clones, a queue for each mailbox and its parked listeners.
 */
module Mailbox {
  import opened Threads
  import opened ProcessSpec
  import opened Errno
  import opened Basics

  type Mid = int

  /** MAIL_ANY_TID and MAX_SUBSCRIPTION_COUNT. */
  const ANY := -0xcd
  const SLOTS := 16

  /** The user-visible part of a mail. */
  datatype Mail = Mail(magic: int, sender: Tid, receiver: Tid, data: seq<int>)

  /** A mail and its kernel-side reference count. */
  datatype Entry = Entry(mail: Mail, refs: int)

  /** mails: the list mails, its head first; wq: the wait queue waiters. */
  datatype Box = Box(subs: seq<int>, mails: seq<Mid>, handlers: seq<int>, wq: Wq)

  /** k: the threads; boxes: the mailbox of each thread that has one; live: inflight_mail_header. */
  datatype Post = Post(k: State, boxes: map<Tid, Box>, live: map<Mid, Entry>)

  // ---- reference counts ----

  /** alloc_mail: the caller holds the one reference. */
  function Alloc(live: map<Mid, Entry>, m: Mid, mail: Mail): map<Mid, Entry> {
    live[m := Entry(mail, 1)]
  }

  /** release_mail: an untracked mail is ignored. */
  function Release(live: map<Mid, Entry>, m: Mid): map<Mid, Entry> {
    if m !in live then live
    else if live[m].refs - 1 > 0 then live[m := live[m].(refs := live[m].refs - 1)]
    else live - {m}
  }

  // ---- one mailbox ----

  /** The mail is queued and a parked listener woken. */
  function Queue(p: Post, t: Tid, m: Mid): Post
    requires t in p.boxes && p.boxes[t].wq in p.k.queues
  {
    var b := p.boxes[t];
    p.(boxes := p.boxes[t := b.(mails := [m] + b.mails)], k := WakeOne(p.k, b.wq))
  }

  /** send_mail: the new state, whether the handlers ran, and the result. */
  function SendMail(p: Post, t: Tid, m: Mid): (Post, bool, int)
    requires t in p.boxes && p.boxes[t].wq in p.k.queues
  {
    if p.boxes[t].handlers != [] then (p.(live := Release(p.live, m)), true, 0)
    else if m !in p.live then (p, false, E_INVAL)
    else (Queue(p, t, m), false, 0)
  }

  /** try_get_mail takes the mail at the tail. */
  function TryGet(b: Box): (Box, Option<Mid>) {
    if b.mails == [] then (b, None) else (b.(mails := b.mails[..|b.mails| - 1]), Some(b.mails[|b.mails| - 1]))
  }

  /** The queue, oldest mail first. */
  function Waiting(b: Box): seq<Mid> {
    Reverse(b.mails)
  }

  function Reverse<T>(s: seq<T>): seq<T> {
    if s == [] then [] else Reverse(s[1..]) + [s[0]]
  }

  lemma {:induction false} ReverseLast<T>(s: seq<T>)
    requires s != []
    ensures Reverse(s) == [s[|s| - 1]] + Reverse(s[..|s| - 1])
  {
    if |s| > 1 {
      ReverseLast(s[1..]);
      assert s[1..][..|s| - 2] == s[..|s| - 1][1..];
    } else {
      assert s[1..] == [] && s[..0] == [];
    }
  }

  /** A mailbox is a first-in first-out queue. */
  lemma {:induction false} Fifo(b: Box, m: Mid)
    ensures Waiting(b.(mails := [m] + b.mails)) == Waiting(b) + [m]
    ensures match TryGet(b).1
      case None => Waiting(b) == []
      case Some(first) => Waiting(b) == [first] + Waiting(TryGet(b).0)
  {
    assert ([m] + b.mails)[1..] == b.mails;
    if b.mails != [] { ReverseLast(b.mails); }
  }

  // ---- subscriptions ----

  predicate Subscribed(b: Box, magic: int) {
    magic != 0 && magic in b.subs
  }

  function SlotOf(subs: seq<int>, magic: int): (i: nat)
    ensures i <= |subs| && (i < |subs| ==> subs[i] == magic) && forall j :: 0 <= j < i ==> subs[j] != magic
  {
    if subs == [] || subs[0] == magic then 0 else 1 + SlotOf(subs[1..], magic)
  }

  function Subscribe(b: Box, magic: int): (Box, int) {
    if magic == 0 then (b, E_INVAL)
    else if SlotOf(b.subs, magic) < |b.subs| then (b, 0)
    else
      var i := SlotOf(b.subs, 0);
      if i == |b.subs| then (b, E_NOMEM) else (b.(subs := b.subs[i := magic]), 0)
  }

  function Unsubscribe(b: Box, magic: int): (Box, int) {
    if magic == 0 then (b, E_INVAL)
    else
      var i := SlotOf(b.subs, magic);
      if i == |b.subs| then (b, E_INVAL) else (b.(subs := b.subs[i := 0]), 0)
  }

  /** Each magic sits in at most one slot. */
  ghost predicate Distinct(b: Box) {
    |b.subs| == SLOTS && forall i, j :: 0 <= i < j < SLOTS && b.subs[i] != 0 ==> b.subs[i] != b.subs[j]
  }

  /** Subscribing adds exactly that magic, unless 16 others are subscribed. */
  lemma {:induction false} SubscribeCorrect(b: Box, magic: int)
    requires Distinct(b)
    ensures var (b', ret) := Subscribe(b, magic);
      && Distinct(b') && (ret == 0 <==> magic != 0 && (magic in b.subs || 0 in b.subs))
      && (ret != 0 ==> b' == b && ret == if magic == 0 then E_INVAL else E_NOMEM)
      && (forall x :: Subscribed(b', x) <==> Subscribed(b, x) || (ret == 0 && x == magic))
  {
    var (b', ret) := Subscribe(b, magic);
    if b' != b {
      var i := SlotOf(b.subs, 0);
      assert b'.subs[i] == magic;
      forall x | x != magic ensures Subscribed(b', x) <==> Subscribed(b, x) {
        if Subscribed(b, x) {
          var j :| 0 <= j < SLOTS && b.subs[j] == x;
          assert b'.subs[j] == x;
        }
      }
    }
  }

  /** Unsubscribing takes exactly that magic away, and fails exactly when it is not subscribed. */
  lemma {:induction false} UnsubscribeCorrect(b: Box, magic: int)
    requires Distinct(b)
    ensures var (b', ret) := Unsubscribe(b, magic);
      && Distinct(b') && (ret == 0 <==> Subscribed(b, magic)) && (ret != 0 ==> b' == b && ret == E_INVAL)
      && (forall x :: Subscribed(b', x) <==> Subscribed(b, x) && x != magic)
  {
    var (b', ret) := Unsubscribe(b, magic);
    if b' != b {
      var i := SlotOf(b.subs, magic);
      forall x | x != magic ensures Subscribed(b', x) <==> Subscribed(b, x) {
        if Subscribed(b, x) {
          var j :| 0 <= j < SLOTS && b.subs[j] == x;
          assert b'.subs[j] == x;
        }
      }
    }
  }

  // ---- broadcast ----

  /** Every mailbox has its wait queue. */
  ghost predicate Boxed(p: Post) {
    forall t :: t in p.boxes ==> p.boxes[t].wq in p.k.queues
  }

  /** A subscribed mailbox with handlers runs them; one without gets a clone. */
  predicate Handled(b: Box, magic: int) {
    Subscribed(b, magic) && b.handlers != []
  }

  predicate Cloned(b: Box, magic: int) {
    Subscribed(b, magic) && b.handlers == []
  }

  /** The threads of ts whose handlers a mail of this magic runs, in order. */
  function Recipients(boxes: map<Tid, Box>, ts: seq<Tid>, magic: int): seq<Tid> {
    if ts == [] then []
    else (if ts[0] in boxes && Handled(boxes[ts[0]], magic) then [ts[0]] else []) + Recipients(boxes, ts[1..], magic)
  }

  /** The second pass over the threads ts; clones names the copies that could be allocated. */
  function Deliver(p: Post, ts: seq<Tid>, m: Mid, clones: map<Tid, Mid>): (Post, seq<Tid>)
    requires Boxed(p) && m in p.live
    decreases |ts|
  {
    if ts == [] then (p, [])
    else
      var t, e := ts[0], p.live[m];
      if t !in p.boxes || !Subscribed(p.boxes[t], e.mail.magic) then Deliver(p, ts[1..], m, clones)
      else if p.boxes[t].handlers != [] then
        var q := SendMail(p, t, m).0;
        if m !in q.live then (q, [t]) else
          var (r, log) := Deliver(q, ts[1..], m, clones);
          (r, [t] + log)
      else if t !in clones || clones[t] == m then Deliver(p, ts[1..], m, clones)
      else Deliver(Queue(p.(live := Alloc(p.live, clones[t], e.mail)), t, clones[t]), ts[1..], m, clones)
  }

  /** send with receiver MAIL_ANY_TID: the new state, whose handlers ran, and the result. */
  function Broadcast(p: Post, m: Mid, clones: map<Tid, Mid>): (Post, seq<Tid>, int)
    requires Boxed(p)
  {
    if forall t :: t in p.k.order ==> t !in p.boxes then (p.(live := Release(p.live, m)), [], 0)
    else if m !in p.live then (p, [], E_INVAL)
    else
      var e := p.live[m];
      var up := p.(live := p.live[m := e.(refs := e.refs + |Recipients(p.boxes, p.k.order, e.mail.magic)|)]);
      var (r, log) := Deliver(up, p.k.order, m, clones);
      (r.(live := Release(r.live, m)), log, 0)
  }

  /** Copies are new mails, one for each mailbox. */
  ghost predicate FreshClones(live: map<Mid, Entry>, m: Mid, clones: map<Tid, Mid>, ts: seq<Tid>) {
    && (forall t :: t in ts && t in clones ==> clones[t] !in live && clones[t] != m)
    && (forall t, u :: t in ts && u in ts && t in clones && u in clones && clones[t] == clones[u] ==> t == u)
  }

  /** What thread t's mailbox looks like after a broadcast to ts. */
  function After(p: Post, ts: seq<Tid>, magic: int, clones: map<Tid, Mid>, t: Tid): Box
    requires t in p.boxes
  {
    var b := p.boxes[t];
    if t in ts && Cloned(b, magic) && t in clones then b.(mails := [clones[t]] + b.mails) else b
  }

  /** Whether x is one of the copies made for ts. */
  ghost predicate IsCopy(p: Post, ts: seq<Tid>, magic: int, clones: map<Tid, Mid>, x: Mid) {
    exists t :: t in ts && t in p.boxes && Cloned(p.boxes[t], magic) && t in clones && clones[t] == x
  }

  /** The outcome of the second pass, thread by thread and mail by mail. */
  ghost predicate Delivered(p: Post, ts: seq<Tid>, m: Mid, clones: map<Tid, Mid>, r: Post, log: seq<Tid>) {
    && m in p.live && m in r.live
    && var mail := p.live[m].mail;
      && log == Recipients(p.boxes, ts, mail.magic)
      && r.live[m] == p.live[m].(refs := p.live[m].refs - |log|)
      && r.boxes.Keys == p.boxes.Keys
      && (forall t :: t in p.boxes ==> r.boxes[t] == After(p, ts, mail.magic, clones, t))
      && (forall x :: x != m ==> (x in r.live <==> x in p.live || IsCopy(p, ts, mail.magic, clones, x)))
      && (forall x :: x != m && x in r.live ==> r.live[x] == if IsCopy(p, ts, mail.magic, clones, x) then Entry(mail, 1) else p.live[x])
  }

  lemma {:induction false} NothingDelivered(p: Post, m: Mid, clones: map<Tid, Mid>)
    requires m in p.live
    ensures Delivered(p, [], m, clones, p, [])
  {
  }

  /** A thread whose mailbox is not concerned. */
  lemma {:induction false} SkipDelivered(p: Post, ts: seq<Tid>, m: Mid, clones: map<Tid, Mid>, r: Post, log: seq<Tid>)
    requires ts != [] && Delivered(p, ts[1..], m, clones, r, log)
    requires ts[0] in p.boxes ==> !Handled(p.boxes[ts[0]], p.live[m].mail.magic) && (ts[0] in clones ==> !Cloned(p.boxes[ts[0]], p.live[m].mail.magic))
    ensures Delivered(p, ts, m, clones, r, log)
  {
    var magic := p.live[m].mail.magic;
    forall x ensures IsCopy(p, ts, magic, clones, x) <==> IsCopy(p, ts[1..], magic, clones, x) {
      assert ts == [ts[0]] + ts[1..];
    }
    forall t | t in p.boxes ensures After(p, ts, magic, clones, t) == After(p, ts[1..], magic, clones, t) {
      assert ts == [ts[0]] + ts[1..];
    }
  }

  /** A mailbox whose handlers ran: one reference is consumed, more remain. */
  lemma {:induction false} HandlerDelivered(p: Post, ts: seq<Tid>, m: Mid, clones: map<Tid, Mid>, q: Post, r: Post, log: seq<Tid>)
    requires ts != [] && m in p.live && p.live[m].refs > 1 && ts[0] in p.boxes && Handled(p.boxes[ts[0]], p.live[m].mail.magic)
    requires q == p.(live := Release(p.live, m)) && Delivered(q, ts[1..], m, clones, r, log)
    ensures Delivered(p, ts, m, clones, r, [ts[0]] + log)
  {
    var magic := p.live[m].mail.magic;
    forall x ensures IsCopy(p, ts, magic, clones, x) <==> IsCopy(q, ts[1..], magic, clones, x) {
      assert ts == [ts[0]] + ts[1..];
    }
    forall t | t in p.boxes ensures After(p, ts, magic, clones, t) == After(q, ts[1..], magic, clones, t) {
      assert ts == [ts[0]] + ts[1..];
    }
  }

  /** A mailbox that got a copy. */
  lemma {:induction false} CloneDelivered(p: Post, ts: seq<Tid>, m: Mid, clones: map<Tid, Mid>, q: Post, r: Post, log: seq<Tid>)
    requires ts != [] && NoDup(ts) && m in p.live && FreshClones(p.live, m, clones, ts)
    requires ts[0] in p.boxes && ts[0] in clones && Cloned(p.boxes[ts[0]], p.live[m].mail.magic) && p.boxes[ts[0]].wq in p.k.queues
    requires q == Queue(p.(live := Alloc(p.live, clones[ts[0]], p.live[m].mail)), ts[0], clones[ts[0]])
    requires Delivered(q, ts[1..], m, clones, r, log)
    ensures Delivered(p, ts, m, clones, r, log)
  {
    var magic, t0 := p.live[m].mail.magic, ts[0];
    assert t0 in ts && t0 !in ts[1..];
    assert clones[t0] != m;
    RecipientsSame(p.boxes, q.boxes, ts[1..], magic);
    forall x ensures IsCopy(p, ts, magic, clones, x) <==> x == clones[t0] || IsCopy(q, ts[1..], magic, clones, x) {
      assert ts == [t0] + ts[1..];
    }
    forall t | t in p.boxes ensures After(p, ts, magic, clones, t) == After(q, ts[1..], magic, clones, t) {
      assert ts == [t0] + ts[1..];
    }
  }

  lemma {:induction false} RecipientsSame(a: map<Tid, Box>, b: map<Tid, Box>, ts: seq<Tid>, magic: int)
    requires forall t :: t in ts ==> (t in a <==> t in b) && (t in a ==> a[t] == b[t])
    ensures Recipients(a, ts, magic) == Recipients(b, ts, magic)
  {
    if ts != [] {
      var t := ts[0];
      assert t in ts;
      RecipientsSame(a, b, ts[1..], magic);
    }
  }

  /** The second pass does what it should, and never drops the count to zero on the way. */
  lemma {:induction false} DeliverCorrect(p: Post, ts: seq<Tid>, m: Mid, clones: map<Tid, Mid>)
    requires Boxed(p) && m in p.live && NoDup(ts) && FreshClones(p.live, m, clones, ts)
    requires p.live[m].refs > |Recipients(p.boxes, ts, p.live[m].mail.magic)|
    ensures var (r, log) := Deliver(p, ts, m, clones); Delivered(p, ts, m, clones, r, log) && r.live[m].refs > 0
    decreases |ts|
  {
    if ts == [] {
      NothingDelivered(p, m, clones);
    } else {
      var t, e, rest := ts[0], p.live[m], ts[1..];
      if t !in p.boxes || !Subscribed(p.boxes[t], e.mail.magic) || (p.boxes[t].handlers == [] && t !in clones) {
        DeliverCorrect(p, rest, m, clones);
        SkipDelivered(p, ts, m, clones, Deliver(p, rest, m, clones).0, Deliver(p, rest, m, clones).1);
      } else if p.boxes[t].handlers != [] {
        var q := SendMail(p, t, m).0;
        DeliverCorrect(q, rest, m, clones);
        HandlerDelivered(p, ts, m, clones, q, Deliver(q, rest, m, clones).0, Deliver(q, rest, m, clones).1);
      } else {
        assert t in ts && clones[t] != m;
        var q := Queue(p.(live := Alloc(p.live, clones[t], e.mail)), t, clones[t]);
        assert t !in rest;
        RecipientsSame(p.boxes, q.boxes, rest, e.mail.magic);
        DeliverCorrect(q, rest, m, clones);
        CloneDelivered(p, ts, m, clones, q, Deliver(q, rest, m, clones).0, Deliver(q, rest, m, clones).1);
      }
    }
  }

  /**
   A broadcast runs each subscribed mailbox's handlers once, queues one equal
   copy in each subscribed mailbox without handlers, takes exactly one
   reference from the sender's mail and frees it exactly when that was the last.
   */
  lemma {:induction false} BroadcastCorrect(p: Post, m: Mid, clones: map<Tid, Mid>)
    requires Boxed(p) && m in p.live && p.live[m].refs > 0 && NoDup(p.k.order) && FreshClones(p.live, m, clones, p.k.order)
    requires forall t :: t in p.boxes ==> t in p.k.order
    ensures var (r, log, ret) := Broadcast(p, m, clones); var mail := p.live[m].mail;
      && ret == 0 && log == Recipients(p.boxes, p.k.order, mail.magic)
      && r.boxes.Keys == p.boxes.Keys
      && (forall t :: t in p.boxes ==> r.boxes[t] == After(p, p.k.order, mail.magic, clones, t))
      && (m in r.live <==> p.live[m].refs > 1) && (m in r.live ==> r.live[m] == Entry(mail, p.live[m].refs - 1))
      && (forall x :: x != m ==> (x in r.live <==> x in p.live || IsCopy(p, p.k.order, mail.magic, clones, x)))
      && (forall x :: x != m && x in r.live ==> r.live[x] == if IsCopy(p, p.k.order, mail.magic, clones, x) then Entry(mail, 1) else p.live[x])
  {
    if forall t :: t in p.k.order ==> t !in p.boxes {
      NoBoxes(p.boxes, p.k.order, p.live[m].mail.magic);
    } else {
      var e := p.live[m];
      var h := |Recipients(p.boxes, p.k.order, e.mail.magic)|;
      var up := p.(live := p.live[m := e.(refs := e.refs + h)]);
      DeliverCorrect(up, p.k.order, m, clones);
      forall x ensures IsCopy(up, p.k.order, e.mail.magic, clones, x) <==> IsCopy(p, p.k.order, e.mail.magic, clones, x) {}
      forall t | t in p.boxes ensures After(up, p.k.order, e.mail.magic, clones, t) == After(p, p.k.order, e.mail.magic, clones, t) {}
    }
  }

  lemma {:induction false} NoBoxes(boxes: map<Tid, Box>, ts: seq<Tid>, magic: int)
    requires forall t :: t in ts ==> t !in boxes
    ensures Recipients(boxes, ts, magic) == []
  {
    if ts != [] {
      var t := ts[0];
      assert t in ts;
      NoBoxes(boxes, ts[1..], magic);
    }
  }

  /** A mail of magic 0 reaches nobody, even a mailbox with an empty slot. */
  lemma {:induction false} MagicZero(p: Post, m: Mid, clones: map<Tid, Mid>)
    requires Boxed(p) && m in p.live && p.live[m].refs > 0 && p.live[m].mail.magic == 0
    requires NoDup(p.k.order) && FreshClones(p.live, m, clones, p.k.order) && forall t :: t in p.boxes ==> t in p.k.order
    ensures var (r, log, ret) := Broadcast(p, m, clones);
      log == [] && r.boxes == p.boxes && forall x :: x != m ==> (x in r.live <==> x in p.live)
  {
    BroadcastCorrect(p, m, clones);
    ZeroRecipients(p.boxes, p.k.order);
    forall x ensures !IsCopy(p, p.k.order, 0, clones, x) {}
  }

  lemma {:induction false} ZeroRecipients(boxes: map<Tid, Box>, ts: seq<Tid>)
    ensures Recipients(boxes, ts, 0) == []
  {
    if ts != [] { ZeroRecipients(boxes, ts[1..]); }
  }
}
