/**
 The order in which yields and timer ticks hand the processor around
 (find_next_runnable, thread_yield_internal and schedule_if_needed of
 osdev/kernel/process.c).
 */
module RoundRobin {
  import opened Threads
  import opened ProcessSpec
  import opened Basics

  function CountReady(s: seq<Tid>, tcb: map<Tid, Tcb>): nat {
    if s == [] then 0 else (if Runnable(tcb, s[0]) then 1 else 0) + CountReady(s[1..], tcb)
  }

  lemma {:induction false} CountSplit(a: seq<Tid>, b: seq<Tid>, tcb: map<Tid, Tcb>)
    ensures CountReady(a + b, tcb) == CountReady(a, tcb) + CountReady(b, tcb)
  {
    if a == [] {
      assert a + b == b;
    } else {
      assert (a + b)[1..] == a[1..] + b;
      CountSplit(a[1..], b, tcb);
    }
  }

  lemma {:induction false} CountCong(s: seq<Tid>, tcb: map<Tid, Tcb>, tcb': map<Tid, Tcb>)
    requires forall t :: Runnable(tcb, t) <==> Runnable(tcb', t)
    ensures CountReady(s, tcb) == CountReady(s, tcb')
  {
    if s != [] { CountCong(s[1..], tcb, tcb'); }
  }

  lemma {:induction false} IndexUnique(s: seq<Tid>, i: nat)
    requires NoDup(s) && i < |s|
    ensures Index(s, s[i]) == i
  {
  }

  lemma {:induction false} RotationNoDup(order: seq<Tid>, t: Tid)
    requires NoDup(order) && t in order
    ensures NoDup(Rotation(order, t))
  {
    var i, r := Index(order, t), Rotation(order, t);
    var k := |order| - i - 1;
    forall a, b | 0 <= a < b < |r| ensures r[a] != r[b] {
      assert r[a] == if a < k then order[i + 1 + a] else order[a - k];
      assert r[b] == if b < k then order[i + 1 + b] else order[b - k];
    }
  }

  lemma {:induction false} Regroup(a: seq<Tid>, b: seq<Tid>, c: seq<Tid>, d: seq<Tid>)
    ensures a + (b + c + d) == (a + b) + c + d && (a + b + c) + d == a + (b + (c + d))
  {
  }

  /** a [t] b + x + c seen from t, and seen from x behind t. */
  lemma {:induction false} TurnsAhead(order: seq<Tid>, t: Tid, m: nat)
    requires NoDup(order) && t in order && m < |order| - Index(order, t) - 1
    ensures var r := Rotation(order, t); r[m] in order && Rotation(order, r[m]) == r[m + 1..] + [t] + r[..m]
  {
    var i, r := Index(order, t), Rotation(order, t);
    var a, b := order[..i], order[i + 1..];
    assert r[m] == order[i + 1 + m];
    IndexUnique(order, i + 1 + m);
    assert order[i + 1 + m + 1..] == b[m + 1..] && order[..i + 1 + m] == a + [t] + b[..m];
    assert r[m + 1..] == b[m + 1..] + a && r[..m] == b[..m];
    Regroup(b[m + 1..], a, [t], b[..m]);
  }

  /** The same for x before t on the list. */
  lemma {:induction false} TurnsAround(order: seq<Tid>, t: Tid, m: nat)
    requires NoDup(order) && t in order && |order| - Index(order, t) - 1 <= m < |order| - 1
    ensures var r := Rotation(order, t); r[m] in order && Rotation(order, r[m]) == r[m + 1..] + [t] + r[..m]
  {
    var i, r := Index(order, t), Rotation(order, t);
    var a, b := order[..i], order[i + 1..];
    var k := m - |b|;
    assert r[m] == a[k] == order[k];
    IndexUnique(order, k);
    assert order[k + 1..] == a[k + 1..] + [t] + b && order[..k] == a[..k];
    assert r[m + 1..] == a[k + 1..] && r[..m] == b + a[..k];
    Regroup(a[k + 1..], [t], b, a[..k]);
    assert a[k + 1..] + [t] + (b + a[..k]) == a[k + 1..] + ([t] + (b + a[..k]));
  }

  /** Turning the list on to the m-th thread of the current view. */
  lemma {:induction false} RotationTurns(order: seq<Tid>, t: Tid, m: nat)
    requires NoDup(order) && t in order && m < |Rotation(order, t)|
    ensures var r := Rotation(order, t); r[m] in order && Rotation(order, r[m]) == r[m + 1..] + [t] + r[..m]
  {
    if m < |order| - Index(order, t) - 1 {
      TurnsAhead(order, t, m);
    } else {
      TurnsAround(order, t, m);
    }
  }

  /** How many ready threads the circular search meets before x. */
  function Ahead(s: State, x: Tid): nat
    requires Wf(s) && x in s.tcb && x != s.run
  {
    RotationMembers(s.order, s.run);
    var r := Rotation(s.order, s.run);
    CountReady(r[..Index(r, x)], s.tcb)
  }

  lemma {:induction false} FirstReadyIndex(s: seq<Tid>, tcb: map<Tid, Tcb>) returns (m: nat)
    requires FirstReady(s, tcb).Some?
    ensures m < |s| && FirstReady(s, tcb) == Some(s[m]) && Runnable(tcb, s[m]) && CountReady(s[..m], tcb) == 0
    ensures forall i :: 0 <= i < m ==> !Runnable(tcb, s[i])
  {
    if Runnable(tcb, s[0]) {
      m := 0;
    } else {
      m := FirstReadyIndex(s[1..], tcb);
      m := m + 1;
      assert s[..m][1..] == s[1..][..m - 1];
    }
  }

  lemma {:induction false} YieldSameReady(s: State)
    requires Wf(s)
    ensures Wf(Yield(s)) && Yield(s).order == s.order
    ensures Yield(s).tcb.Keys == s.tcb.Keys
    ensures forall t :: Runnable(s.tcb, t) <==> Runnable(Yield(s).tcb, t)
  {
    FindNextReady(s);
    if FindNext(s).Some? { GoWf(s, FindNext(s).value); }
  }

  /** What turning on to the first ready thread, the m-th, does to the position and count of the j-th. */
  lemma {:induction false} TurnAhead(s: State, m: nat, j: nat, tcb': map<Tid, Tcb>)
    requires Wf(s) && m < j < |Rotation(s.order, s.run)|
    requires var r := Rotation(s.order, s.run); Runnable(s.tcb, r[m]) && CountReady(r[..m], s.tcb) == 0
    requires forall t :: Runnable(s.tcb, t) <==> Runnable(tcb', t)
    ensures var r := Rotation(s.order, s.run); var r' := Rotation(s.order, r[m]);
      && r[j] in r' && CountReady(r'[..Index(r', r[j])], tcb') == CountReady(r[..j], s.tcb) - 1
  {
    var r := Rotation(s.order, s.run);
    RotationTurns(s.order, s.run, m);
    var r' := Rotation(s.order, r[m]);
    RotationNoDup(s.order, r[m]);
    var i := j - m - 1;
    assert r'[i] == r[j] && r'[..i] == r[m + 1..j];
    IndexUnique(r', i);
    CountMiddle(r, m, j, s.tcb);
    CountCong(r[m + 1..j], s.tcb, tcb');
  }

  lemma {:induction false} CountMiddle(r: seq<Tid>, m: nat, j: nat, tcb: map<Tid, Tcb>)
    requires m < j < |r| && Runnable(tcb, r[m]) && CountReady(r[..m], tcb) == 0
    ensures CountReady(r[..j], tcb) == 1 + CountReady(r[m + 1..j], tcb)
  {
    assert r[..j] == r[..m] + ([r[m]] + r[m + 1..j]);
    CountSplit(r[..m], [r[m]] + r[m + 1..j], tcb);
    assert ([r[m]] + r[m + 1..j])[1..] == r[m + 1..j];
  }

  /** One yield: the first ready thread runs, and every other ready thread is one step nearer. */
  lemma {:induction false} YieldAdvances(s: State, x: Tid)
    requires Wf(s) && Runnable(s.tcb, x) && x != s.run
    ensures Wf(Yield(s)) && Runnable(Yield(s).tcb, x)
    ensures Ahead(s, x) == 0 <==> Yield(s).run == x
    ensures Ahead(s, x) > 0 ==> Ahead(Yield(s), x) == Ahead(s, x) - 1
  {
    var r := Rotation(s.order, s.run);
    RotationMembers(s.order, s.run);
    FirstReadyNone(r, s.tcb);
    YieldSameReady(s);
    var m := FirstReadyIndex(r, s.tcb);
    var j := Index(r, x);
    assert m <= j;
    if m < j {
      RotationNoDup(s.order, s.run);
      TurnAhead(s, m, j, Yield(s).tcb);
    }
  }

  function Yields(s: State, k: nat): State
    requires Wf(s)
    decreases k
  {
    if k == 0 then s else YieldSameReady(s); Yields(Yield(s), k - 1)
  }

  /**
   With list and states left alone, a ready thread runs after exactly as many
   yields as there are ready threads before it on the circle, plus one, and not
   earlier.
   */
  lemma {:induction false} RoundRobinOrder(s: State, x: Tid, k: nat)
    requires Wf(s) && Runnable(s.tcb, x) && x != s.run && k <= Ahead(s, x) + 1
    ensures Yields(s, k).run == x <==> k == Ahead(s, x) + 1
    decreases k
  {
    if k > 0 {
      YieldAdvances(s, x);
      assert Yields(s, k) == Yields(Yield(s), k - 1);
      if Ahead(s, x) > 0 { RoundRobinOrder(Yield(s), x, k - 1); }
    }
  }

  /** That is within as many switches as there are other ready threads. */
  lemma {:induction false} WaitBounded(s: State, x: Tid)
    requires Wf(s) && Runnable(s.tcb, x) && x != s.run
    ensures Ahead(s, x) + 1 <= CountReady(Rotation(s.order, s.run), s.tcb)
  {
    RotationMembers(s.order, s.run);
    var r := Rotation(s.order, s.run);
    var j := Index(r, x);
    assert r == r[..j] + r[j..];
    CountSplit(r[..j], r[j..], s.tcb);
  }
}
