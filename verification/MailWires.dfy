/**
 Runs of mailbox commands on the links: while no queued mail is sent again and
 no last reference to one is released, the links written by list_add and
 list_del are those of the queues.
 */
module MailWires {
  import opened Threads
  import opened Mailbox
  import opened MailRun
  import L = List
  import M = MailLinks
  import opened Basics

  /** The mail queues by thread. */
  function Queues(p: Post): map<Tid, seq<Mid>> {
    map t | t in p.boxes :: p.boxes[t].mails
  }

  /** The links represent the queues, and every live mail has its record. */
  ghost predicate Tied(w: M.Wires, p: Post) {
    && M.Represents(w, Queues(p))
    && (forall m :: m in p.live ==> m in w.mem && m != 0 && !M.IsHead(w, m))
  }

  // ---- what the commands write ----

  /** release_mail: the record goes with the last reference. */
  function Freed(w: M.Wires, live: map<Mid, Entry>, m: Mid): M.Wires {
    if m in live && live[m].refs <= 1 then w.(mem := w.mem - {m}) else w
  }

  /** A copy is allocated and queued for t. */
  function Copied(w: M.Wires, p: Post, t: Tid, magic: int, clones: map<Tid, Mid>): M.Wires {
    if t in p.boxes && Cloned(p.boxes[t], magic) && t in clones && t in w.heads then
      w.(mem := M.After(w.mem[clones[t] := L.Node(clones[t], clones[t])], w.heads[t], M.Put(clones[t])))
    else w
  }

  function CopiedAll(w: M.Wires, p: Post, ts: seq<Tid>, magic: int, clones: map<Tid, Mid>): M.Wires
    decreases ts
  {
    if ts == [] then w else CopiedAll(Copied(w, p, ts[0], magic, clones), p, ts[1..], magic, clones)
  }

  /** release_mailbox: the tail is taken and its mail released until the queue is empty. */
  function Drained(w: M.Wires, live: map<Mid, Entry>, t: Tid, ms: seq<Mid>): M.Wires
    decreases |ms|
  {
    if ms == [] || t !in w.heads then w
    else
      var x := ms[|ms| - 1];
      Drained(Freed(w.(mem := M.After(w.mem, w.heads[t], M.Take)), live, x), Release(live, x), t, ms[..|ms| - 1])
  }

  /** One gate; h is the list head of a mailbox allocated in it. */
  ghost function Wire(w: M.Wires, p: Post, e: Event, h: L.Ptr): M.Wires {
    match e
    case SendEv(m, mail, clones) =>
      if Hangs(p, m, mail) then
        if mail.receiver in w.heads then w.(mem := M.After(w.mem, w.heads[mail.receiver], M.Put(m))) else w
      else if mail.receiver == ANY && m in p.live then Freed(CopiedAll(w, p, p.k.order, p.live[m].mail.magic, clones), p.live, m)
      else Freed(w, p.live, m)
    case ListenEv =>
      if p.k.run in p.boxes && p.boxes[p.k.run].mails != [] && p.k.run in w.heads then
        w.(mem := M.After(w.mem, w.heads[p.k.run], M.Take))
      else w
    case AllocEv(m, _) => w.(mem := w.mem[m := L.Node(m, m)])
    case ReleaseEv(m) => Freed(w, p.live, m)
    case BirthEv(c, _) => if c.CreateThreadCmd? || c.CreateProcCmd? then M.Wires(w.mem[h := L.Node(h, h)], w.heads[c.t := h]) else w
    case DeathEv(c) =>
      if !Can(p, e) then w
      else if c.DeleteCmd? then
        if c.t in p.boxes && c.t !in Step(p, e).boxes then
          var d := Drained(w, p.live, c.t, p.boxes[c.t].mails);
          if c.t in d.heads then M.Wires(d.mem - {d.heads[c.t]}, d.heads - {c.t}) else d
        else w
      else w.(heads := map t | t in w.heads && t in Step(p, e).boxes :: w.heads[t])
    case _ => w
  }

  /** kmalloc gives records that are not in use. */
  ghost predicate NewCells(w: M.Wires, p: Post, e: Event, h: L.Ptr) {
    match e
    case SendEv(_, _, clones) => forall t :: t in p.k.order && t in clones ==> clones[t] !in w.mem && clones[t] != 0
    case AllocEv(m, _) => m !in w.mem && m != 0
    case BirthEv(_, _) => h !in w.mem && h != 0
    case _ => true
  }

  // ---- they write the links of the queues ----

  lemma {:induction false} SameQueues(w: M.Wires, qs: map<Tid, seq<Mid>>, qs': map<Tid, seq<Mid>>)
    requires M.Represents(w, qs) && qs'.Keys == qs.Keys && forall t :: t in qs ==> qs'[t] == qs[t]
    ensures M.Represents(w, qs')
  {
    forall t | t in qs' ensures M.Circle(w, qs', t) == M.Circle(w, qs, t) {}
    forall t, u | t in qs' && u in qs' && t != u ensures M.Apart(M.Circle(w, qs', t), M.Circle(w, qs', u)) {
      assert M.Apart(M.Circle(w, qs, t), M.Circle(w, qs, u));
    }
  }

  lemma {:induction false} HeadsHaveCells(w: M.Wires, qs: map<Tid, seq<Mid>>, x: L.Ptr)
    requires M.Represents(w, qs) && x !in w.mem
    ensures !M.IsHead(w, x) && !M.Queued(qs, x)
  {
    forall t | t in qs ensures w.heads[t] != x && x !in qs[t] {
      M.RingCells(w.mem, M.Circle(w, qs, t));
      assert w.heads[t] in M.Circle(w, qs, t);
      assert forall y :: y in qs[t] ==> y in M.Circle(w, qs, t);
    }
  }

  /** A fresh record is queued at the head. */
  lemma {:induction false} PutFresh(w: M.Wires, qs: map<Tid, seq<Mid>>, t: Tid, x: Mid)
    requires M.Represents(w, qs) && t in qs && x !in w.mem && x != 0
    ensures var w' := w.(mem := M.After(w.mem[x := L.Node(x, x)], w.heads[t], M.Put(x)));
      && M.Represents(w', M.Pushed(qs, t, x)) && w'.mem.Keys == w.mem.Keys + {x}
  {
    HeadsHaveCells(w, qs, x);
    var a := w.(mem := w.mem[x := L.Node(x, x)]);
    M.OffRepresents(w, qs, a.mem, x);
    assert !M.IsHead(a, x);
    M.AddRepresents(a, qs, t, x);
  }

  /** The queues after the copies for ts are queued, one after the other. */
  function Grown(qs: map<Tid, seq<Mid>>, p: Post, ts: seq<Tid>, magic: int, clones: map<Tid, Mid>): map<Tid, seq<Mid>>
    decreases ts
  {
    if ts == [] then qs
    else Grown(if Gets(p, ts[0], magic, clones) && ts[0] in qs then M.Pushed(qs, ts[0], clones[ts[0]]) else qs, p, ts[1..], magic, clones)
  }

  predicate Gets(p: Post, t: Tid, magic: int, clones: map<Tid, Mid>) {
    t in p.boxes && Cloned(p.boxes[t], magic) && t in clones
  }

  ghost predicate NewCopies(w: M.Wires, clones: map<Tid, Mid>, ts: seq<Tid>) {
    && (forall t :: t in ts && t in clones ==> clones[t] !in w.mem && clones[t] != 0)
    && (forall t, u :: t in ts && u in ts && t in clones && u in clones && clones[t] == clones[u] ==> t == u)
  }

  lemma {:induction false} CopiesRepresent(w: M.Wires, qs: map<Tid, seq<Mid>>, p: Post, ts: seq<Tid>, magic: int, clones: map<Tid, Mid>)
    requires M.Represents(w, qs) && qs.Keys == p.boxes.Keys && NoDup(ts) && NewCopies(w, clones, ts)
    ensures var w' := CopiedAll(w, p, ts, magic, clones);
      M.Represents(w', Grown(qs, p, ts, magic, clones)) && w.mem.Keys <= w'.mem.Keys && w'.heads == w.heads
    decreases ts
  {
    if ts != [] {
      var t, rest := ts[0], ts[1..];
      assert t in ts && t !in rest && forall u :: u in rest ==> u in ts;
      var w1 := Copied(w, p, t, magic, clones);
      var qs1 := if Gets(p, t, magic, clones) && t in qs then M.Pushed(qs, t, clones[t]) else qs;
      if Gets(p, t, magic, clones) { PutFresh(w, qs, t, clones[t]); }
      CopiesRepresent(w1, qs1, p, rest, magic, clones);
    }
  }

  /** Each queue gets exactly its copy. */
  lemma {:induction false} GrownAt(qs: map<Tid, seq<Mid>>, p: Post, ts: seq<Tid>, magic: int, clones: map<Tid, Mid>, t: Tid)
    requires NoDup(ts) && t in qs
    ensures Grown(qs, p, ts, magic, clones).Keys == qs.Keys
    ensures Grown(qs, p, ts, magic, clones)[t] == if t in ts && Gets(p, t, magic, clones) then [clones[t]] + qs[t] else qs[t]
    decreases ts
  {
    if ts != [] {
      var qs1 := if Gets(p, ts[0], magic, clones) && ts[0] in qs then M.Pushed(qs, ts[0], clones[ts[0]]) else qs;
      assert qs1.Keys == qs.Keys;
      assert ts == [ts[0]] + ts[1..] && ts[0] !in ts[1..];
      GrownAt(qs1, p, ts[1..], magic, clones, t);
    }
  }

  /** The queues after a broadcast are the ones its copies make. */
  lemma {:induction false} BroadcastQueues(p: Post, m: Mid, clones: map<Tid, Mid>, q: Post)
    requires Boxed(p) && m in p.live && p.live[m].refs > 0 && NoDup(p.k.order) && FreshClones(p.live, m, clones, p.k.order)
    requires forall t :: t in p.boxes ==> t in p.k.order
    requires q.boxes == Broadcast(p, m, clones).0.boxes
    ensures var g := Grown(Queues(p), p, p.k.order, p.live[m].mail.magic, clones);
      g.Keys == Queues(q).Keys && forall t :: t in g ==> Queues(q)[t] == g[t]
  {
    BroadcastCorrect(p, m, clones);
    var magic := p.live[m].mail.magic;
    var g := Grown(Queues(p), p, p.k.order, magic, clones);
    GrownKeys(Queues(p), p, p.k.order, magic, clones);
    forall t | t in g ensures Queues(q)[t] == g[t] {
      GrownAt(Queues(p), p, p.k.order, magic, clones, t);
    }
  }

  lemma {:induction false} GrownKeys(qs: map<Tid, seq<Mid>>, p: Post, ts: seq<Tid>, magic: int, clones: map<Tid, Mid>)
    ensures Grown(qs, p, ts, magic, clones).Keys == qs.Keys
    decreases ts
  {
    if ts != [] {
      var qs1 := if Gets(p, ts[0], magic, clones) && ts[0] in qs then M.Pushed(qs, ts[0], clones[ts[0]]) else qs;
      assert qs1.Keys == qs.Keys;
      GrownKeys(qs1, p, ts[1..], magic, clones);
    }
  }

  lemma {:induction false} FreedRepresents(w: M.Wires, qs: map<Tid, seq<Mid>>, live: map<Mid, Entry>, m: Mid)
    requires M.Represents(w, qs) && (m in live && live[m].refs <= 1 ==> !M.IsHead(w, m) && !M.Queued(qs, m))
    ensures M.Represents(Freed(w, live, m), qs)
  {
    if m in live && live[m].refs <= 1 { M.OffRepresents(w, qs, w.mem - {m}, m); }
  }

  /** Release on the links and on the queues. */
  lemma {:induction false} ReleaseTied(w: M.Wires, p: Post, q: Post, m: Mid)
    requires Tied(w, p) && Once(p) && Spare(p, m) && q.boxes == p.boxes && q.live == Release(p.live, m)
    ensures Tied(Freed(w, p.live, m), q)
  {
    forall t | t in Queues(p) && m in Queues(p)[t] ensures MailRun.Queued(p, m) {}
    FreedRepresents(w, Queues(p), p.live, m);
    assert Queues(q) == Queues(p);
  }

  lemma {:induction false} HangTied(w: M.Wires, p: Post, m: Mid, mail: Mail, q: Post)
    requires Tied(w, p) && Hangs(p, m, mail) && !MailRun.Queued(p, m)
    requires q.live == p.live && q.boxes == p.boxes[mail.receiver := p.boxes[mail.receiver].(mails := [m] + p.boxes[mail.receiver].mails)]
    ensures mail.receiver in w.heads && Tied(w.(mem := M.After(w.mem, w.heads[mail.receiver], M.Put(m))), q)
  {
    var t := mail.receiver;
    assert t in Queues(p).Keys;
    forall u | u in Queues(p) && m in Queues(p)[u] ensures MailRun.Queued(p, m) {}
    M.AddRepresents(w, Queues(p), t, m);
    SameQueues(w.(mem := L.Add(w.mem, m, w.heads[t])), M.Pushed(Queues(p), t, m), Queues(q));
  }

  /** The copies, and m itself while it is referenced, have their records. */
  lemma {:induction false} BroadcastCells(w: M.Wires, w1: M.Wires, p: Post, m: Mid, clones: map<Tid, Mid>, q: Post, x: Mid)
    requires Tied(w, p) && m in p.live && NewCopies(w, clones, p.k.order) && x in q.live
    requires w1 == CopiedAll(w, p, p.k.order, p.live[m].mail.magic, clones) && w.mem.Keys <= w1.mem.Keys && w1.heads == w.heads
    requires (m in q.live <==> p.live[m].refs > 1) && (x != m ==> x in p.live || IsCopy(p, p.k.order, p.live[m].mail.magic, clones, x))
    ensures x in Freed(w1, p.live, m).mem && x != 0 && !M.IsHead(w1, x)
  {
    if x !in p.live {
      assert w.heads.Keys == Queues(p).Keys == p.boxes.Keys;
      CopyCell(w, p, p.k.order, p.live[m].mail.magic, clones, x);
      HeadsHaveCells(w, Queues(p), x);
    } else {
      assert x in w.mem.Keys;
    }
  }

  /** The queues, before the sender's reference is given up. */
  lemma {:induction false} BroadcastLinks(w: M.Wires, p: Post, m: Mid, clones: map<Tid, Mid>, q: Post)
    requires Tied(w, p) && Boxed(p) && m in p.live && p.live[m].refs > 0 && NoDup(p.k.order) && FreshClones(p.live, m, clones, p.k.order)
    requires (forall t :: t in p.boxes ==> t in p.k.order) && NewCopies(w, clones, p.k.order)
    requires q.boxes == Broadcast(p, m, clones).0.boxes
    ensures var w1 := CopiedAll(w, p, p.k.order, p.live[m].mail.magic, clones);
      M.Represents(w1, Queues(q)) && w.mem.Keys <= w1.mem.Keys && w1.heads == w.heads
  {
    var magic := p.live[m].mail.magic;
    CopiesRepresent(w, Queues(p), p, p.k.order, magic, clones);
    BroadcastQueues(p, m, clones, q);
    SameQueues(CopiedAll(w, p, p.k.order, magic, clones), Grown(Queues(p), p, p.k.order, magic, clones), Queues(q));
  }

  lemma {:induction false} BroadcastTied(w: M.Wires, p: Post, m: Mid, clones: map<Tid, Mid>, q: Post)
    requires Tied(w, p) && Once(p) && Boxed(p) && m in p.live && p.live[m].refs > 0 && NoDup(p.k.order) && FreshClones(p.live, m, clones, p.k.order)
    requires (forall t :: t in p.boxes ==> t in p.k.order) && Spare(p, m) && NewCopies(w, clones, p.k.order)
    requires q.boxes == Broadcast(p, m, clones).0.boxes && q.live == Broadcast(p, m, clones).0.live
    ensures Tied(Freed(CopiedAll(w, p, p.k.order, p.live[m].mail.magic, clones), p.live, m), q)
  {
    var w1 := CopiedAll(w, p, p.k.order, p.live[m].mail.magic, clones);
    BroadcastLinks(w, p, m, clones, q);
    BroadcastCorrect(p, m, clones);
    BroadcastOnce(p, m, clones, q);
    forall t | t in Queues(q) && m in Queues(q)[t] ensures MailRun.Queued(q, m) {}
    FreedRepresents(w1, Queues(q), p.live, m);
    forall x | x in q.live ensures x in Freed(w1, p.live, m).mem && x != 0 && !M.IsHead(w1, x) {
      BroadcastCells(w, w1, p, m, clones, q, x);
    }
  }

  /** The record of a copy is there, and it was not before. */
  lemma {:induction false} CopyCell(w: M.Wires, p: Post, ts: seq<Tid>, magic: int, clones: map<Tid, Mid>, x: Mid)
    requires IsCopy(p, ts, magic, clones, x) && NewCopies(w, clones, ts) && w.heads.Keys == p.boxes.Keys
    ensures x in CopiedAll(w, p, ts, magic, clones).mem && x != 0 && x !in w.mem
    decreases ts
  {
    var t :| t in ts && t in p.boxes && Cloned(p.boxes[t], magic) && t in clones && clones[t] == x;
    CopyThere(w, p, ts, magic, clones, t);
  }

  lemma {:induction false} CopyThere(w: M.Wires, p: Post, ts: seq<Tid>, magic: int, clones: map<Tid, Mid>, t: Tid)
    requires t in clones && w.heads.Keys == p.boxes.Keys && ((t in ts && Gets(p, t, magic, clones)) || clones[t] in w.mem)
    ensures clones[t] in CopiedAll(w, p, ts, magic, clones).mem
    decreases ts
  {
    if ts != [] {
      assert ts == [ts[0]] + ts[1..];
      CopyThere(Copied(w, p, ts[0], magic, clones), p, ts[1..], magic, clones, t);
    }
  }

  lemma {:induction false} ListenTied(w: M.Wires, p: Post, t: Tid, q: Post)
    requires Tied(w, p) && t in p.boxes && p.boxes[t].mails != [] && q.live == p.live && q.boxes == p.boxes[t := TryGet(p.boxes[t]).0]
    ensures t in w.heads && w.heads[t] in w.mem && Some(w.mem[w.heads[t]].prev) == TryGet(p.boxes[t]).1
    ensures Tied(w.(mem := M.After(w.mem, w.heads[t], M.Take)), q)
  {
    assert t in Queues(p).Keys;
    M.TakeRepresents(w, Queues(p), t);
    SameQueues(w.(mem := L.Del(w.mem, w.mem[w.heads[t]].prev)), M.Popped(Queues(p), t), Queues(q));
  }

  lemma {:induction false} SendTied(w: M.Wires, p: Post, e: Event, h: L.Ptr)
    requires Tied(w, p) && Once(p) && Can(p, e) && NewCells(w, p, e, h) && e.SendEv?
    ensures Tied(Wire(w, p, e, h), Step(p, e))
  {
    var q := Step(p, e);
    if Hangs(p, e.m, e.mail) {
      HangTied(w, p, e.m, e.mail, q);
    } else if e.mail.receiver == ANY && e.m in p.live {
      BroadcastTied(w, p, e.m, e.clones, q);
    } else {
      ReleaseTied(w, p, q, e.m);
    }
  }

  lemma {:induction false} BirthTied(w: M.Wires, p: Post, e: Event, h: L.Ptr)
    requires Tied(w, p) && Can(p, e) && NewCells(w, p, e, h) && e.BirthEv?
    ensures Tied(Wire(w, p, e, h), Step(p, e))
  {
    var q := Step(p, e);
    M.HeadRepresents(w, Queues(p), e.c.t, h);
    SameQueues(Wire(w, p, e, h), Queues(p)[e.c.t := []], Queues(q));
    forall m | m in q.live ensures !M.IsHead(Wire(w, p, e, h), m) { assert !M.IsHead(w, m); }
  }

  /** Taking all mails off a queue and releasing them. */
  lemma {:induction false} DrainRepresents(w: M.Wires, qs: map<Tid, seq<Mid>>, live: map<Mid, Entry>, t: Tid, ms: seq<Mid>)
    requires M.Represents(w, qs) && t in qs && qs[t] == ms && forall x :: x in ms ==> !M.IsHead(w, x)
    ensures var w' := Drained(w, live, t, ms); M.Represents(w', qs[t := []]) && w'.heads == w.heads
    ensures forall x :: x in w.mem && (x !in ms || (x in live && live[x].refs > 1)) ==> x in Drained(w, live, t, ms).mem
    decreases |ms|
  {
    assert t in qs.Keys;
    if ms == [] {
      SameQueues(w, qs, qs[t := []]);
    } else {
      var x, rest := ms[|ms| - 1], ms[..|ms| - 1];
      assert x in ms && forall y :: y in ms <==> y in rest || y == x;
      TakenAndFreed(w, qs, live, t, x);
      NoDupLast(w, qs, t);
      var w1 := Freed(w.(mem := M.After(w.mem, w.heads[t], M.Take)), live, x);
      forall y | y in rest ensures !M.IsHead(w1, y) { assert y in ms && !M.IsHead(w, y); }
      DrainRepresents(w1, M.Popped(qs, t), Release(live, x), t, rest);
      assert M.Popped(qs, t)[t := []] == qs[t := []];
    }
  }

  /** The oldest mail is taken off its queue, and its record freed with the last reference. */
  lemma {:induction false} TakenAndFreed(w: M.Wires, qs: map<Tid, seq<Mid>>, live: map<Mid, Entry>, t: Tid, x: Mid)
    requires M.Represents(w, qs) && t in qs && t in w.heads && qs[t] != [] && qs[t][|qs[t]| - 1] == x && !M.IsHead(w, x)
    ensures var w1 := Freed(w.(mem := M.After(w.mem, w.heads[t], M.Take)), live, x);
      && M.Represents(w1, M.Popped(qs, t)) && w1.heads == w.heads
      && (forall y :: y in w.mem && (y != x || (x in live && live[x].refs > 1)) ==> y in w1.mem)
  {
    M.TakeRepresents(w, qs, t);
    var w1 := w.(mem := M.After(w.mem, w.heads[t], M.Take));
    assert !M.IsHead(w1, x);
    FreedRepresents(w1, M.Popped(qs, t), live, x);
  }

  lemma {:induction false} NoDupLast(w: M.Wires, qs: map<Tid, seq<Mid>>, t: Tid)
    requires M.Represents(w, qs) && t in qs && qs[t] != []
    ensures qs[t][|qs[t]| - 1] !in qs[t][..|qs[t]| - 1]
  {
    var c := M.Circle(w, qs, t);
    forall i | 0 <= i < |qs[t]| - 1 ensures qs[t][i] != qs[t][|qs[t]| - 1] {
      assert c[i + 1] == qs[t][i] && c[|qs[t]|] == qs[t][|qs[t]| - 1];
    }
  }

  lemma {:induction false} BuriedTied(w: M.Wires, p: Post, t: Tid, q: Post)
    requires Tied(w, p) && Once(p) && t in p.boxes && q.boxes == p.boxes - {t} && q.live == ReleaseAll(p.live, p.boxes[t].mails)
    ensures var d := Drained(w, p.live, t, p.boxes[t].mails);
      t in d.heads && Tied(M.Wires(d.mem - {d.heads[t]}, d.heads - {t}), q)
  {
    var ms := p.boxes[t].mails;
    assert t in Queues(p).Keys;
    forall x | x in ms ensures x in p.live { assert MailRun.Queued(p, x); }
    DrainRepresents(w, Queues(p), p.live, t, ms);
    var d := Drained(w, p.live, t, ms);
    var qs := Queues(p)[t := []];
    M.HeadFreed(d, qs, t);
    var w' := M.Wires(d.mem - {d.heads[t]}, d.heads - {t});
    SameQueues(w', qs - {t}, Queues(q));
    forall m | m in q.live ensures m in w'.mem && m != 0 && !M.IsHead(w', m) {
      ReleaseAllExact(p.live, ms, m);
      assert m in p.live && !M.IsHead(w, m);
    }
  }

  lemma {:induction false} DeathTied(w: M.Wires, p: Post, e: Event, h: L.Ptr)
    requires Tied(w, p) && Once(p) && Can(p, e) && e.DeathEv?
    ensures Tied(Wire(w, p, e, h), Step(p, e))
  {
    var q := Step(p, e);
    if e.c.DeleteCmd? {
      if e.c.t in p.boxes && e.c.t !in q.boxes {
        BuriedTied(w, p, e.c.t, q);
      } else {
        SameQueues(w, Queues(p), Queues(q));
      }
    } else {
      AbandonedTied(w, p, q, Wire(w, p, e, h));
    }
  }

  lemma {:induction false} AbandonedTied(w: M.Wires, p: Post, q: Post, w': M.Wires)
    requires Tied(w, p) && q.live == p.live && q.boxes.Keys <= p.boxes.Keys && (forall t :: t in q.boxes ==> q.boxes[t] == p.boxes[t])
    requires w' == w.(heads := map t | t in w.heads && t in q.boxes :: w.heads[t])
    ensures Tied(w', q)
  {
    assert w.heads.Keys == Queues(p).Keys == p.boxes.Keys;
    M.FewerRepresents(w, Queues(p), w', Queues(q));
    forall m | m in q.live ensures !M.IsHead(w', m) { assert !M.IsHead(w, m); }
  }

  /** Every command writes the links of the queues it leaves. */
  lemma {:induction false} StepTied(w: M.Wires, p: Post, e: Event, h: L.Ptr)
    requires Tied(w, p) && Once(p) && Can(p, e) && NewCells(w, p, e, h)
    ensures Tied(Wire(w, p, e, h), Step(p, e))
  {
    var q := Step(p, e);
    match e
    case SendEv(m, mail, clones) => SendTied(w, p, e, h);
    case ListenEv =>
      if p.k.run in p.boxes && p.boxes[p.k.run].mails != [] { ListenTied(w, p, p.k.run, q); }
      else { SameQueues(w, Queues(p), Queues(q)); }
    case AllocEv(m, mail) =>
      HeadsHaveCells(w, Queues(p), m);
      M.OffRepresents(w, Queues(p), w.mem[m := L.Node(m, m)], m);
    case ReleaseEv(m) => ReleaseTied(w, p, q, m);
    case BirthEv(c, wq) => BirthTied(w, p, e, h);
    case DeathEv(c) => DeathTied(w, p, e, h);
    case _ => QuietTied(w, p, e, h);
  }

  /** The other commands move no mail. */
  lemma {:induction false} QuietTied(w: M.Wires, p: Post, e: Event, h: L.Ptr)
    requires Tied(w, p) && Can(p, e) && (e.SubscribeEv? || e.UnsubscribeEv? || e.HandlerEv? || e.ListenBlockEv? || e.OtherEv?)
    ensures Tied(Wire(w, p, e, h), Step(p, e))
  {
    SameQueues(w, Queues(p), Queues(Step(p, e)));
  }

  /** The links beside a run: each command's writes, with the list heads of the mailboxes it allocates. */
  ghost predicate Beside(ws: seq<M.Wires>, hs: seq<L.Ptr>, ps: seq<Post>, es: seq<Event>) {
    && |ws| == |ps| == |es| + 1 && |hs| == |es|
    && (forall i :: 0 <= i < |es| ==> NewCells(ws[i], ps[i], es[i], hs[i]) && ws[i + 1] == Wire(ws[i], ps[i], es[i], hs[i]))
  }

  /** In every run the links are those of the queues, so what is taken off them is what the queues say. */
  lemma {:induction false} RunTied(ws: seq<M.Wires>, hs: seq<L.Ptr>, ps: seq<Post>, es: seq<Event>, n: nat)
    requires IsRun(ps, es) && Beside(ws, hs, ps, es) && n <= |es| && Once(ps[0]) && Tied(ws[0], ps[0])
    ensures Tied(ws[n], ps[n]) && Once(ps[n])
  {
    if n > 0 {
      RunTied(ws, hs, ps, es, n - 1);
      assert Can(ps[n - 1], es[n - 1]) && ps[n - 1 + 1] == Step(ps[n - 1], es[n - 1]);
      assert NewCells(ws[n - 1], ps[n - 1], es[n - 1], hs[n - 1]) && ws[n - 1 + 1] == Wire(ws[n - 1], ps[n - 1], es[n - 1], hs[n - 1]);
      StepTied(ws[n - 1], ps[n - 1], es[n - 1], hs[n - 1]);
      StepOnce(ps[n - 1], es[n - 1]);
    }
  }

  /** try_get_mail reads the node before the head: the oldest mail of the queue, in every state of every run. */
  lemma {:induction false} RunTakesOldest(ws: seq<M.Wires>, hs: seq<L.Ptr>, ps: seq<Post>, es: seq<Event>, n: nat, t: Tid)
    requires IsRun(ps, es) && Beside(ws, hs, ps, es) && n <= |es| && Once(ps[0]) && Tied(ws[0], ps[0]) && t in ps[n].boxes
    ensures var w, b := ws[n], ps[n].boxes[t];
      && t in w.heads && w.heads[t] in w.mem
      && TryGet(b).1 == if w.mem[w.heads[t]].next == w.heads[t] then None else Some(w.mem[w.heads[t]].prev)
  {
    RunTied(ws, hs, ps, es, n);
    assert t in Queues(ps[n]).Keys;
    M.EmptyIsAlone(ws[n], Queues(ps[n]), t);
    if ps[n].boxes[t].mails != [] { M.TakeRepresents(ws[n], Queues(ps[n]), t); }
  }
}
