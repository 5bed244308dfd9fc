/**
 The links behind the mail queues (osdev/kernel/ipc/mailbox.c over
 osdev/include/lib/list.h): a mail's record holds one list node, so it can hang
 on one queue only.
 */
module MailLinks {
  import opened List
  import opened Basics

  type Key = int

  /** The node of each mailbox's list head; a queued mail is its own node. */
  datatype Wires = Wires(mem: Mem, heads: map<Key, Ptr>)

  /** The head of a queue and the nodes behind it, newest first. */
  function Circle(w: Wires, qs: map<Key, seq<Ptr>>, t: Key): seq<Ptr>
    requires t in w.heads && t in qs
  {
    [w.heads[t]] + qs[t]
  }

  ghost predicate Apart(c: seq<Ptr>, d: seq<Ptr>) {
    forall x :: x in c ==> x !in d
  }

  /** The links are those of the queues qs: one circle each, none meeting another. */
  ghost predicate Represents(w: Wires, qs: map<Key, seq<Ptr>>) {
    && w.heads.Keys == qs.Keys
    && (forall t :: t in qs ==> Ring(w.mem, Circle(w, qs, t)))
    && (forall t, u :: t in qs && u in qs && t != u ==> Apart(Circle(w, qs, t), Circle(w, qs, u)))
  }

  ghost predicate Queued(qs: map<Key, seq<Ptr>>, x: Ptr) {
    exists t :: t in qs && x in qs[t]
  }

  predicate IsHead(w: Wires, x: Ptr) {
    exists t :: t in w.heads && w.heads[t] == x
  }

  lemma {:induction false} SameRing(m: Mem, m': Mem, c: seq<Ptr>)
    requires Ring(m, c) && forall x :: x in c ==> x in m' && x in m && m'[x] == m[x]
    ensures Ring(m', c)
  {
    forall i | 0 <= i < |c| ensures Linked(m', c[i], c[Behind(i, |c|)]) {
      var a, b := c[i], c[Behind(i, |c|)];
      assert a in c && b in c && Linked(m, a, b);
    }
  }

  lemma {:induction false} RingCells(m: Mem, c: seq<Ptr>)
    requires Ring(m, c)
    ensures forall x :: x in c ==> x in m && x != 0
  {
    forall x | x in c ensures x in m {
      var i :| 0 <= i < |c| && c[i] == x;
      assert Linked(m, c[i], c[Behind(i, |c|)]);
    }
  }

  // ---- the operations on queues ----

  function Pushed(qs: map<Key, seq<Ptr>>, t: Key, x: Ptr): map<Key, seq<Ptr>>
    requires t in qs
  {
    qs[t := [x] + qs[t]]
  }

  function Popped(qs: map<Key, seq<Ptr>>, t: Key): map<Key, seq<Ptr>>
    requires t in qs && qs[t] != []
  {
    qs[t := qs[t][..|qs[t]| - 1]]
  }

  /** Changing the circle of t only: the others stay, and the new one keeps apart from them. */
  lemma {:induction false} OneCircle(w: Wires, qs: map<Key, seq<Ptr>>, mem: Mem, t: Key, q: seq<Ptr>)
    requires Represents(w, qs) && t in qs && Ring(mem, [w.heads[t]] + q)
    requires forall u, x :: u in qs && u != t && x in Circle(w, qs, u) ==> x in w.mem && x in mem && mem[x] == w.mem[x]
    requires forall u :: u in qs && u != t ==> Apart([w.heads[t]] + q, Circle(w, qs, u))
    ensures Represents(w.(mem := mem), qs[t := q])
  {
    var w', qs' := w.(mem := mem), qs[t := q];
    forall u | u in qs' ensures Ring(mem, Circle(w', qs', u)) {
      if u != t {
        RingCells(w.mem, Circle(w, qs, u));
        SameRing(w.mem, mem, Circle(w, qs, u));
      }
    }
    forall u, v | u in qs' && v in qs' && u != v ensures Apart(Circle(w', qs', u), Circle(w', qs', v)) {
      if v == t {
        assert Apart(Circle(w', qs', t), Circle(w, qs, u));
      } else if u != t {
        assert Apart(Circle(w, qs, u), Circle(w, qs, v));
      }
    }
  }

  /** list_add of a mail that is queued nowhere queues it at the head. */
  lemma {:induction false} AddRepresents(w: Wires, qs: map<Key, seq<Ptr>>, t: Key, x: Ptr)
    requires Represents(w, qs) && t in qs && x in w.mem && x != 0 && !IsHead(w, x) && !Queued(qs, x)
    ensures CanAdd(w.mem, x, w.heads[t]) && Represents(w.(mem := Add(w.mem, x, w.heads[t])), Pushed(qs, t, x))
  {
    var c, h := Circle(w, qs, t), w.heads[t];
    AddRing(w.mem, x, h, c, 0);
    assert Inserted(c, 0, x) == [h] + ([x] + qs[t]);
    forall u | u in qs && u != t ensures Apart([h] + ([x] + qs[t]), Circle(w, qs, u)) {
      assert Apart(c, Circle(w, qs, u)) && !IsHead(w, x);
    }
    forall u, y | u in qs && u != t && y in Circle(w, qs, u) ensures y in w.mem && y in Add(w.mem, x, h) && Add(w.mem, x, h)[y] == w.mem[y] {
      RingCells(w.mem, Circle(w, qs, u));
      assert Apart(Circle(w, qs, u), c) && w.heads[u] != x && x !in qs[u];
    }
    OneCircle(w, qs, Add(w.mem, x, h), t, [x] + qs[t]);
  }

  /** The node before the head is the oldest mail, and list_del takes it off its queue. */
  lemma {:induction false} TakeRepresents(w: Wires, qs: map<Key, seq<Ptr>>, t: Key)
    requires Represents(w, qs) && t in qs && qs[t] != []
    ensures var x := qs[t][|qs[t]| - 1];
      && w.heads[t] in w.mem && w.mem[w.heads[t]].prev == x
      && CanDel(w.mem, x) && Represents(w.(mem := Del(w.mem, x)), Popped(qs, t)) && !Queued(Popped(qs, t), x)
  {
    var c, h, k := Circle(w, qs, t), w.heads[t], |qs[t]|;
    assert Linked(w.mem, c[k], c[Behind(k, |c|)]) && c[0] == h;
    var x := c[k];
    DelRing(w.mem, x, c, k);
    var q := qs[t][..k - 1];
    assert Removed(c, k) == [h] + q;
    assert forall y :: y in q ==> y in qs[t];
    forall u | u in qs && u != t ensures Apart([h] + q, Circle(w, qs, u)) {
      assert Apart(c, Circle(w, qs, u));
    }
    forall u, y | u in qs && u != t && y in Circle(w, qs, u) ensures y in w.mem && y in Del(w.mem, x) && Del(w.mem, x)[y] == w.mem[y] {
      RingCells(w.mem, Circle(w, qs, u));
      assert Apart(Circle(w, qs, u), c);
    }
    OneCircle(w, qs, Del(w.mem, x), t, q);
    forall j | 0 <= j < |q| ensures q[j] != x { assert q[j] == c[j + 1]; }
    forall u | u in qs && u != t ensures x !in qs[u] { assert Apart(c, Circle(w, qs, u)) && x in c; }
  }

  /** An empty queue is a head linked to itself. */
  lemma {:induction false} EmptyIsAlone(w: Wires, qs: map<Key, seq<Ptr>>, t: Key)
    requires Represents(w, qs) && t in qs
    ensures w.heads[t] in w.mem && (w.mem[w.heads[t]].next == w.heads[t] <==> qs[t] == [])
  {
    var c := Circle(w, qs, t);
    assert Linked(w.mem, c[0], c[Behind(0, |c|)]);
  }

  /** Writing or dropping a cell that is on no circle changes no queue. */
  lemma {:induction false} OffRepresents(w: Wires, qs: map<Key, seq<Ptr>>, mem: Mem, x: Ptr)
    requires Represents(w, qs) && !IsHead(w, x) && !Queued(qs, x)
    requires forall y :: y in w.mem && y != x ==> y in mem && mem[y] == w.mem[y]
    ensures Represents(w.(mem := mem), qs)
  {
    forall t | t in qs ensures Ring(mem, Circle(w, qs, t)) {
      RingCells(w.mem, Circle(w, qs, t));
      assert w.heads[t] != x && x !in qs[t];
      SameRing(w.mem, mem, Circle(w, qs, t));
    }
    forall t, u | t in qs && u in qs && t != u ensures Apart(Circle(w.(mem := mem), qs, t), Circle(w.(mem := mem), qs, u)) {
      assert Apart(Circle(w, qs, t), Circle(w, qs, u));
    }
  }

  /** A new mailbox: its head is linked to itself. */
  lemma {:induction false} HeadRepresents(w: Wires, qs: map<Key, seq<Ptr>>, t: Key, h: Ptr)
    requires Represents(w, qs) && t !in qs && h !in w.mem && h != 0
    ensures Represents(Wires(w.mem[h := Node(h, h)], w.heads[t := h]), qs[t := []])
  {
    var w', qs' := Wires(w.mem[h := Node(h, h)], w.heads[t := h]), qs[t := []];
    forall u | u in qs' ensures Ring(w'.mem, Circle(w', qs', u)) && (u != t ==> h !in Circle(w', qs', u)) {
      if u != t {
        RingCells(w.mem, Circle(w, qs, u));
        SameRing(w.mem, w'.mem, Circle(w, qs, u));
      } else {
        assert Circle(w', qs', u) == [h];
      }
    }
    forall u, v | u in qs' && v in qs' && u != v ensures Apart(Circle(w', qs', u), Circle(w', qs', v)) {
      if u != t && v != t { assert Apart(Circle(w, qs, u), Circle(w, qs, v)); }
    }
  }

  /** Queues whose heads nobody knows any more. */
  lemma {:induction false} FewerRepresents(w: Wires, qs: map<Key, seq<Ptr>>, w': Wires, qs': map<Key, seq<Ptr>>)
    requires Represents(w, qs) && w'.heads.Keys == qs'.Keys && qs'.Keys <= qs.Keys
    requires forall t :: t in qs' ==> qs'[t] == qs[t] && w'.heads[t] == w.heads[t]
    requires forall t, x :: t in qs' && x in Circle(w, qs, t) && x in w.mem ==> x in w'.mem && w'.mem[x] == w.mem[x]
    ensures Represents(w', qs')
  {
    forall t | t in qs' ensures Ring(w'.mem, Circle(w', qs', t)) {
      assert t in qs.Keys && Circle(w', qs', t) == Circle(w, qs, t);
      RingCells(w.mem, Circle(w, qs, t));
      SameRing(w.mem, w'.mem, Circle(w, qs, t));
    }
    forall t, u | t in qs' && u in qs' && t != u ensures Apart(Circle(w', qs', t), Circle(w', qs', u)) {
      assert t in qs.Keys && u in qs.Keys && Apart(Circle(w, qs, t), Circle(w, qs, u));
    }
  }

  /** A mailbox is freed once its queue is empty. */
  lemma {:induction false} HeadFreed(w: Wires, qs: map<Key, seq<Ptr>>, t: Key)
    requires Represents(w, qs) && t in qs
    ensures t in w.heads && Represents(Wires(w.mem - {w.heads[t]}, w.heads - {t}), qs - {t})
  {
    assert t in qs.Keys;
    var w', qs' := Wires(w.mem - {w.heads[t]}, w.heads - {t}), qs - {t};
    assert w.heads[t] in Circle(w, qs, t);
    forall u, x | u in qs' && x in Circle(w, qs, u) && x in w.mem ensures x in w'.mem && w'.mem[x] == w.mem[x] {
      assert Apart(Circle(w, qs, t), Circle(w, qs, u));
    }
    FewerRepresents(w, qs, w', qs');
  }

  // ---- a mail on two queues, or freed while queued ----

  /** A circle through c[0] goes the way the next links go. */
  lemma {:induction false} Follows(m: Mem, c: seq<Ptr>, n: nat, d: seq<Ptr>)
    requires NoDup(c) && n < |c| && Ring(m, d) && d[0] == c[0]
    requires forall i :: 0 <= i < n ==> c[i] in m && m[c[i]].next == c[i + 1]
    ensures n < |d| && d[n] == c[n]
  {
    if n > 0 {
      Follows(m, c, n - 1, d);
      assert Linked(m, d[n - 1], d[Behind(n - 1, |d|)]) && c[n - 1] in m && m[c[n - 1]].next == c[n - 1 + 1];
      assert c[n] != c[0];
    }
  }

  /** The link out of x holds in both directions. */
  predicate Sound(m: Mem, x: Ptr) {
    x in m && m[x].next in m && m[m[x].next].prev == x
  }

  /** No circle starts where the next links lead to a broken one. */
  lemma {:induction false} Broken(m: Mem, c: seq<Ptr>, n: nat, d: seq<Ptr>)
    requires NoDup(c) && n < |c| && d != [] && d[0] == c[0] && !Sound(m, c[n])
    requires forall i :: 0 <= i < n ==> c[i] in m && m[c[i]].next == c[i + 1]
    ensures !Ring(m, d)
  {
    if Ring(m, d) {
      Follows(m, c, n, d);
      RingSound(m, d, n);
    }
  }

  lemma {:induction false} RingSound(m: Mem, d: seq<Ptr>, n: nat)
    requires Ring(m, d) && n < |d|
    ensures Sound(m, d[n])
  {
    assert Linked(m, d[n], d[Behind(n, |d|)]);
  }

  lemma {:induction false} RingNext(m: Mem, c: seq<Ptr>, i: nat)
    requires Ring(m, c) && i + 1 < |c|
    ensures c[i] in m && m[c[i]].next == c[i + 1]
  {
    assert Linked(m, c[i], c[Behind(i, |c|)]);
  }

  /** Freeing a queued mail breaks the circle of its queue. */
  lemma {:induction false} DropBreaks(w: Wires, qs: map<Key, seq<Ptr>>, x: Ptr, qs': map<Key, seq<Ptr>>)
    requires Represents(w, qs) && Queued(qs, x)
    ensures !Represents(w.(mem := w.mem - {x}), qs')
  {
    var t :| t in qs && x in qs[t];
    var c, m' := Circle(w, qs, t), w.mem - {x};
    var k :| 0 <= k < |qs[t]| && qs[t][k] == x;
    assert c[k + 1] == x;
    forall i | 0 <= i <= k ensures c[i] in m' && m'[c[i]].next == c[i + 1] { RingNext(w.mem, c, i); }
    if t in qs' && t in w.heads {
      Broken(m', c, k, [w.heads[t]] + qs'[t]);
    }
  }

  /** What list_add writes. */
  lemma {:induction false} AddCells(m: Mem, x: Ptr, h: Ptr)
    requires CanAdd(m, x, h) && x != h && m[h].next != h
    ensures var m' := Add(m, x, h); var n := m[h].next;
      && m'.Keys == m.Keys && m'[h] == m[h].(next := x)
      && (if n == x then m'[x] == Node(x, x) else m'[x] == Node(h, n) && m'[n] == m[n].(prev := x))
      && (forall p :: p in m && p != x && p != h && p != n ==> m'[p] == m[p])
  {
  }

  /** list_add of a mail on the same queue. */
  lemma {:induction false} AgainBreaks(m: Mem, c: seq<Ptr>, k: nat, d: seq<Ptr>)
    requires Ring(m, c) && 0 < k < |c| && d != [] && d[0] == c[0]
    ensures CanAdd(m, c[k], c[0]) && !Ring(Add(m, c[k], c[0]), d)
  {
    var h, x := c[0], c[k];
    RingCells(m, c);
    assert x in c && h in c;
    RingNext(m, c, 0);
    assert c[1] in c;
    var m' := Add(m, x, h);
    AddCells(m, x, h);
    if k == 1 {
      Broken(m', [h, x], 0, d);
    } else {
      var e := [h, x] + c[1..k];
      AgainPath(c, k);
      forall i | 0 <= i < k ensures e[i] in m' && m'[e[i]].next == e[i + 1] {
        if i >= 2 {
          RingNext(m, c, i - 1);
          assert e[i] == c[i - 1] && e[i + 1] == c[i];
        }
      }
      RingNext(m, c, k - 1);
      assert e[k] == c[k - 1];
      Broken(m', e, k, d);
    }
  }

  lemma {:induction false} AgainPath(c: seq<Ptr>, k: nat)
    requires NoDup(c) && 1 < k < |c|
    ensures NoDup([c[0], c[k]] + c[1..k])
  {
    var e := [c[0], c[k]] + c[1..k];
    forall i, j | 0 <= i < j < |e| ensures e[i] != e[j] {
      assert i >= 2 ==> e[i] == c[i - 1];
      assert j >= 2 ==> e[j] == c[j - 1];
    }
  }

  /** list_add of a mail that hangs on another queue. */
  lemma {:induction false} ElsewhereBreaks(m: Mem, c: seq<Ptr>, k: nat, b: seq<Ptr>, d: seq<Ptr>)
    requires Ring(m, c) && 0 < k < |c| && d != [] && d[0] == c[0] && Ring(m, b) && Apart(c, b) && Apart(b, c)
    ensures CanAdd(m, c[k], b[0]) && !Ring(Add(m, c[k], b[0]), d)
  {
    var h, x := b[0], c[k];
    RingCells(m, c);
    RingCells(m, b);
    assert x in c && h in b;
    assert Linked(m, b[0], b[Behind(0, |b|)]);
    var n := m[h].next;
    assert n in b;
    var m' := Add(m, x, h);
    forall i | 0 <= i < k ensures c[i] in m' && m'[c[i]].next == c[i + 1] {
      RingNext(m, c, i);
      assert c[i] in c && c[i] != x;
    }
    assert c[k - 1] in c && m'[c[k - 1]].next == c[k - 1 + 1] == x && m'[x].prev == h;
    Broken(m', c, k - 1, d);
  }

  /** list_add of a queued mail leaves links that represent no queues at all. */
  lemma {:induction false} AddBreaks(w: Wires, qs: map<Key, seq<Ptr>>, t: Key, x: Ptr, qs': map<Key, seq<Ptr>>)
    requires Represents(w, qs) && t in qs && Queued(qs, x)
    ensures CanAdd(w.mem, x, w.heads[t]) && !Represents(w.(mem := Add(w.mem, x, w.heads[t])), qs')
  {
    var u :| u in qs && x in qs[u];
    var c, b := Circle(w, qs, u), Circle(w, qs, t);
    var k :| 0 <= k < |qs[u]| && qs[u][k] == x;
    assert c[k + 1] == x;
    var d := if u in qs' then [w.heads[u]] + qs'[u] else [w.heads[u]];
    if u == t {
      AgainBreaks(w.mem, c, k + 1, d);
    } else {
      assert Apart(c, b) && Apart(b, c);
      ElsewhereBreaks(w.mem, c, k + 1, b, d);
    }
  }

  /** After send_mail the links represent queues exactly when the mail was queued nowhere before. */
  lemma {:induction false} SendExact(w: Wires, qs: map<Key, seq<Ptr>>, t: Key, x: Ptr)
    requires Represents(w, qs) && t in qs && x in w.mem && x != 0 && !IsHead(w, x)
    ensures CanAdd(w.mem, x, w.heads[t])
    ensures (exists qs' :: Represents(w.(mem := Add(w.mem, x, w.heads[t])), qs')) <==> !Queued(qs, x)
  {
    if Queued(qs, x) {
      AddBreaks(w, qs, t, x, qs);
      forall qs' ensures !Represents(w.(mem := Add(w.mem, x, w.heads[t])), qs') { AddBreaks(w, qs, t, x, qs'); }
    } else {
      AddRepresents(w, qs, t, x);
    }
  }

  /** And after the last reference is released, exactly when the mail was queued nowhere. */
  lemma {:induction false} ReleaseExact(w: Wires, qs: map<Key, seq<Ptr>>, x: Ptr)
    requires Represents(w, qs) && !IsHead(w, x)
    ensures (exists qs' :: Represents(w.(mem := w.mem - {x}), qs')) <==> !Queued(qs, x)
  {
    if Queued(qs, x) {
      forall qs' ensures !Represents(w.(mem := w.mem - {x}), qs') { DropBreaks(w, qs, x, qs'); }
    } else {
      OffRepresents(w, qs, w.mem - {x}, x);
    }
  }

  // ---- the same mail sent twice to an empty mailbox ----

  /** The tail is x for good: x leads only to itself, and the head is not alone. */
  predicate Stuck(m: Mem, h: Ptr, x: Ptr) {
    && h in m && x in m && h != x && m[h].prev == x && m[h].next in m && m[h].next != h
    && m[x].next == x && m[x].prev in m
  }

  lemma {:induction false} SentTwice(m: Mem, h: Ptr, x: Ptr)
    requires Ring(m, [h]) && x in m && x != h
    ensures CanAdd(m, x, h) && CanAdd(Add(m, x, h), x, h) && Stuck(Add(Add(m, x, h), x, h), h, x)
  {
    assert Linked(m, [h][0], [h][Behind(0, 1)]);
  }

  /** What happens at one mailbox: a mail y is queued, or the tail is taken. */
  datatype Act = Put(y: Ptr) | Take

  function After(m: Mem, h: Ptr, a: Act): Mem {
    match a
    case Put(y) => if CanAdd(m, y, h) then Add(m, y, h) else m
    case Take => if h in m && CanDel(m, m[h].prev) then Del(m, m[h].prev) else m
  }

  function AfterAll(m: Mem, h: Ptr, acts: seq<Act>): Mem {
    if acts == [] then m else After(AfterAll(m, h, acts[..|acts| - 1]), h, acts[|acts| - 1])
  }

  /** From then on every take gives x again and no other mail is ever taken. */
  lemma {:induction false} StuckForever(m: Mem, h: Ptr, x: Ptr, acts: seq<Act>)
    requires Stuck(m, h, x) && forall i :: 0 <= i < |acts| ==> acts[i] == Take || (acts[i].y != x && acts[i].y != h)
    ensures Stuck(AfterAll(m, h, acts), h, x)
  {
    if acts != [] {
      var before, last := acts[..|acts| - 1], acts[|acts| - 1];
      forall i | 0 <= i < |before| ensures before[i] == acts[i] {}
      StuckForever(m, h, x, before);
      StuckStep(AfterAll(m, h, before), h, x, last);
    }
  }

  lemma {:induction false} StuckStep(m: Mem, h: Ptr, x: Ptr, a: Act)
    requires Stuck(m, h, x) && (a == Take || (a.y != x && a.y != h))
    ensures Stuck(After(m, h, a), h, x)
  {
  }
}
