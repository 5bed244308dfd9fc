/**
 The intrusive circular list (osdev/include/lib/list.h). Every list of the
 other modules is the sequence of nodes behind such a head; here the links
 themselves are rewritten, one memory cell at a time.
 */
module List {
  import opened Basics

  type Ptr = int

  datatype Node = Node(prev: Ptr, next: Ptr)

  type Mem = map<Ptr, Node>

  /** The place behind i in a circle of n. */
  function Behind(i: int, n: int): int {
    if i + 1 == n then 0 else i + 1
  }

  ghost predicate Linked(m: Mem, a: Ptr, b: Ptr) {
    a in m && b in m && m[a].next == b && m[b].prev == a
  }

  /** The nodes c follow each other in a circle, in both directions. */
  ghost predicate Ring(m: Mem, c: seq<Ptr>) {
    c != [] && NoDup(c) && 0 !in c && forall i :: 0 <= i < |c| ==> Linked(m, c[i], c[Behind(i, |c|)])
  }

  function Inserted(c: seq<Ptr>, k: nat, x: Ptr): seq<Ptr>
    requires k < |c|
  {
    c[..k + 1] + [x] + c[k + 1..]
  }

  function Removed(c: seq<Ptr>, k: nat): seq<Ptr>
    requires k < |c|
  {
    c[..k] + c[k + 1..]
  }

  /** The links that list_add writes are those of the longer circle. */
  lemma {:induction false} InsertedRing(m: Mem, m': Mem, c: seq<Ptr>, k: nat, x: Ptr)
    requires Ring(m, c) && k < |c| && x !in c && x != 0
    requires Linked(m', c[k], x) && Linked(m', x, c[Behind(k, |c|)])
    requires forall i :: 0 <= i < |c| && i != k ==> Linked(m', c[i], c[Behind(i, |c|)])
    ensures Ring(m', Inserted(c, k, x))
  {
    var d := Inserted(c, k, x);
    InsertedNoDup(c, k, x);
    forall i | 0 <= i < |d| ensures Linked(m', d[i], d[Behind(i, |d|)]) {
      if i == k {
        assert d[i] == c[k] && d[i + 1] == x;
      } else if i == k + 1 {
        assert d[i] == x && d[Behind(i, |d|)] == c[Behind(k, |c|)];
      } else {
        var j := if i < k then i else i - 1;
        assert d[i] == c[j] && d[Behind(i, |d|)] == c[Behind(j, |c|)];
        assert Linked(m', c[j], c[Behind(j, |c|)]);
      }
    }
  }

  lemma {:induction false} InsertedNoDup(c: seq<Ptr>, k: nat, x: Ptr)
    requires NoDup(c) && k < |c| && x !in c
    ensures NoDup(Inserted(c, k, x))
  {
    var d := Inserted(c, k, x);
    forall i, j | 0 <= i < j < |d| ensures d[i] != d[j] {
      var i', j' := if i <= k then i else i - 1, if j <= k then j else j - 1;
      assert i != k + 1 ==> d[i] == c[i'];
      assert j != k + 1 ==> d[j] == c[j'];
    }
  }

  /** The links that list_del writes are those of the shorter circle. */
  lemma {:induction false} RemovedRing(m': Mem, c: seq<Ptr>, k: nat, b: nat)
    requires NoDup(c) && 0 !in c && 1 < |c| && k < |c| && b < |c| && Behind(b, |c|) == k
    requires Linked(m', c[b], c[Behind(k, |c|)])
    requires forall i :: 0 <= i < |c| && i != k && i != b ==> Linked(m', c[i], c[Behind(i, |c|)])
    ensures Ring(m', Removed(c, k))
  {
    var d := Removed(c, k);
    forall i | 0 <= i < |d| ensures Linked(m', d[i], d[Behind(i, |d|)]) {
      var j := if i < k then i else i + 1;
      assert d[i] == c[j];
      if j == b {
        assert d[Behind(i, |d|)] == c[Behind(k, |c|)];
      } else {
        assert d[Behind(i, |d|)] == c[Behind(j, |c|)];
      }
    }
  }

  lemma {:induction false} DrainStep(head: Ptr, c: seq<Ptr>, n: nat)
    requires n + 1 < |c|
    ensures Removed([head] + c[1 + n..], 1) == [head] + c[2 + n..] && c[1..1 + n] + [c[1 + n]] == c[1..2 + n]
  {
    var a := [head] + c[1 + n..];
    assert a[..1] == [head] && a[2..] == c[1 + n..][1..] == c[2 + n..];
  }

  // ---- what the two operations write, whatever the links are ----

  predicate CanAdd(m: Mem, x: Ptr, head: Ptr) {
    x in m && head in m && m[head].next in m
  }

  predicate CanDel(m: Mem, x: Ptr) {
    x in m && m[x].prev in m && m[x].next in m
  }

  /** The four writes of list_add, in order. */
  function Add(m: Mem, x: Ptr, head: Ptr): Mem
    requires CanAdd(m, x, head)
  {
    var a := m[x := Node(head, m[head].next)];
    var n := a[head].next;
    var b := a[n := a[n].(prev := x)];
    b[head := b[head].(next := x)]
  }

  /** The writes of list_del, in order. */
  function Del(m: Mem, x: Ptr): Mem
    requires CanDel(m, x)
  {
    var a := m[m[x].prev := m[m[x].prev].(next := m[x].next)];
    var b := a[a[x].next := a[a[x].next].(prev := a[x].prev)];
    b[x := Node(x, x)]
  }

  lemma {:induction false} AddRing(m: Mem, x: Ptr, head: Ptr, c: seq<Ptr>, k: nat)
    requires Ring(m, c) && k < |c| && c[k] == head && x !in c && x != 0 && x in m
    ensures CanAdd(m, x, head) && Ring(Add(m, x, head), Inserted(c, k, x))
    ensures forall p :: p in m && p != x && p !in c ==> p in Add(m, x, head) && Add(m, x, head)[p] == m[p]
  {
    assert Linked(m, head, c[Behind(k, |c|)]);
    var m' := Add(m, x, head);
    forall i | 0 <= i < |c| && i != k ensures Linked(m', c[i], c[Behind(i, |c|)]) {
      assert Linked(m, c[i], c[Behind(i, |c|)]);
    }
    InsertedRing(m, m', c, k, x);
  }

  lemma {:induction false} DelRing(m: Mem, x: Ptr, c: seq<Ptr>, k: nat)
    requires Ring(m, c) && k < |c| && c[k] == x
    ensures CanDel(m, x)
    ensures Ring(Del(m, x), [x]) && (|c| > 1 ==> Ring(Del(m, x), Removed(c, k)))
    ensures forall p :: p in m && p !in c ==> p in Del(m, x) && Del(m, x)[p] == m[p]
  {
    var b := if k == 0 then |c| - 1 else k - 1;
    assert Linked(m, c[b], c[Behind(b, |c|)]) && Linked(m, x, c[Behind(k, |c|)]);
    if |c| > 1 {
      var m' := Del(m, x);
      forall i | 0 <= i < |c| && i != k && i != b ensures Linked(m', c[i], c[Behind(i, |c|)]) {
        assert Linked(m, c[i], c[Behind(i, |c|)]);
      }
      RemovedRing(m', c, k, b);
    }
  }

  class Lists {
    var mem: Mem

    constructor ()
    {
      mem := map[];
    }

    /** list_init. */
    method ListInit(x: Ptr)
      modifies this
      ensures mem == old(mem)[x := Node(x, x)]
      ensures x != 0 ==> Ring(mem, [x])
    {
      mem := mem[x := Node(x, x)];
    }

    /** list_add: x comes right behind node k of the circle; null arguments are ignored. */
    method ListAdd(x: Ptr, head: Ptr, ghost c: seq<Ptr>, ghost k: nat)
      requires x != 0 && head != 0 ==> Ring(mem, c) && k < |c| && c[k] == head && x !in c && x in mem
      modifies this
      ensures x != 0 && head != 0 ==> CanAdd(old(mem), x, head) && mem == Add(old(mem), x, head) && Ring(mem, Inserted(c, k, x))
      ensures x == 0 || head == 0 ==> mem == old(mem)
      ensures forall p :: p in old(mem) && p != x && p !in c ==> p in mem && mem[p] == old(mem)[p]
    {
      if x == 0 || head == 0 {
        return;
      }
      AddRing(mem, x, head, c, k);
      mem := mem[x := mem[x].(next := mem[head].next)];
      mem := mem[x := mem[x].(prev := head)];
      var n := mem[head].next;
      mem := mem[n := mem[n].(prev := x)];
      mem := mem[head := mem[head].(next := x)];
    }

    /** list_del: the node leaves its circle and is left alone in its own. */
    method ListDel(x: Ptr, ghost c: seq<Ptr>, ghost k: nat)
      requires x != 0 ==> Ring(mem, c) && k < |c| && c[k] == x
      modifies this
      ensures x != 0 ==> CanDel(old(mem), x) && mem == Del(old(mem), x)
      ensures x != 0 ==> Ring(mem, [x]) && (|c| > 1 ==> Ring(mem, Removed(c, k)))
      ensures x == 0 ==> mem == old(mem)
      ensures forall p :: p in old(mem) && p !in c ==> p in mem && mem[p] == old(mem)[p]
    {
      if x == 0 {
        return;
      }
      DelRing(mem, x, c, k);
      var p := mem[x].prev;
      mem := mem[p := mem[p].(next := mem[x].next)];
      var n := mem[x].next;
      mem := mem[n := mem[n].(prev := mem[x].prev)];
      mem := mem[x := Node(x, x)];
    }

    /** list_for_each visits the nodes behind the head, each once and in order. */
    method ListWalk(head: Ptr, ghost c: seq<Ptr>) returns (seen: seq<Ptr>)
      requires Ring(mem, c) && c[0] == head
      ensures seen == c[1..]
    {
      seen := [];
      assert Linked(mem, c[0], c[Behind(0, |c|)]);
      var pos := mem[head].next;
      while pos != head
        invariant |seen| < |c| && seen == c[1..|seen| + 1] && pos == c[Behind(|seen|, |c|)]
        decreases |c| - |seen|
      {
        assert Linked(mem, pos, c[Behind(|seen| + 1, |c|)]);
        seen := seen + [pos];
        pos := mem[pos].next;
      }
      assert |seen| + 1 == |c|;
    }

    /** The successor is read before the node is deleted. */
    method DrainOne(pos: Ptr, ghost left: seq<Ptr>) returns (n: Ptr)
      requires Ring(mem, left) && |left| > 1 && left[1] == pos
      modifies this
      ensures Ring(mem, Removed(left, 1)) && n == left[Behind(1, |left|)]
    {
      assert Linked(mem, left[1], left[Behind(1, |left|)]);
      n := mem[pos].next;
      ListDel(pos, left, 1);
    }

    /** list_for_each_safe with a list_del of every node visited leaves the head alone. */
    method ListDrain(head: Ptr, ghost c: seq<Ptr>) returns (seen: seq<Ptr>)
      requires Ring(mem, c) && c[0] == head
      modifies this
      ensures seen == c[1..] && Ring(mem, [head])
    {
      seen := [];
      ghost var left := c;
      assert Linked(mem, c[0], c[Behind(0, |c|)]);
      var pos := mem[head].next;
      while pos != head
        invariant Ring(mem, left) && left[0] == head && pos == left[Behind(0, |left|)]
        invariant |seen| + |left| == |c| && left == [head] + c[1 + |seen|..] && seen == c[1..1 + |seen|]
        decreases |left|
      {
        var n := DrainOne(pos, left);
        DrainStep(head, c, |seen|);
        seen := seen + [pos];
        left := Removed(left, 1);
        pos := n;
      }
      assert left == [head];
    }
  }
}
