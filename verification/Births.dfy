/** A new thread starts with the frame it was created with (osdev/arch/i386/task.c, osdev/arch/i386/irq.S). */
module Births {
  import opened Threads
  import opened ProcessSpec
  import opened Gate
  import opened Basics

  /** c creates thread t with the initial frame f. */
  predicate Makes(c: Cmd, t: Tid, f: Frame) {
    match c
    case CreateThreadCmd(u, g) => u == t && g == f
    case CreateProcCmd(_, u, g) => u == t && g == f
    case _ => false
  }

  /** Until the last command nobody dies. */
  lemma {:induction false} NobodyDiesYet(s: State, c: Cmd, t: Tid)
    requires Resting(s) && Enabled(s, c) && !Switching(c) && t in s.tcb
    ensures Exec(s, c).Some? && t in Exec(s, c).value.tcb
  {
    if c.WakeCmd? && s.queues[c.q] != [] { DequeueWf(s, c.q); }
  }

  /** A body does not create a thread that is alive. */
  lemma {:induction false} NotTwice(s: State, body: seq<Cmd>, j: nat, t: Tid, f: Frame)
    requires Resting(s) && BodyEnabled(s, body) && j < |body| && t in s.tcb
    ensures !Makes(body[j], t, f)
    decreases |body|
  {
    if j > 0 {
      NobodyDiesYet(s, body[0], t);
      StaysResting(s, body[0]);
      NotTwice(Exec(s, body[0]).value, body[1..], j - 1, t, f);
    }
  }

  lemma {:induction false} BornWith(s: State, body: seq<Cmd>, j: nat, t: Tid, f: Frame)
    requires Resting(s) && BodyEnabled(s, body) && j < |body| && Makes(body[j], t, f)
    ensures t in Born(body) && Born(body)[t] == f
    decreases |body|
  {
    if j > 0 {
      StaysResting(s, body[0]);
      var s' := Exec(s, body[0]).value;
      BornWith(s', body[1..], j - 1, t, f);
      if t in s'.tcb { NotTwice(s', body[1..], j - 1, t, f); }
    }
  }

  /** After the gate that created it, a thread's saved frame is the one it was created with, and so are the registers if it runs. */
  lemma {:induction false} CreatedFrame(m: Machine, e: Event, j: nat, t: Tid, f: Frame)
    requires Can(m, e) && !e.User? && j < |e.body| && Makes(e.body[j], t, f)
    requires Step(m, e).Some? && t in Step(m, e).value.st.tcb
    ensures var m' := Step(m, e).value;
      t !in m.st.tcb && t in m'.frames && m'.frames[t] == f && (m'.st.run == t ==> m'.cpu == f)
  {
    BornWith(m.st, e.body, j, t, f);
    if t in m.st.tcb { NotTwice(m.st, e.body, j, t, f); }
    BodyInGate(m.st, e.body);
    CommitRests(ExecBody(m.st, e.body).value);
  }

  /** What a thread is owed until it has run: nothing but the frame of its creation. */
  lemma {:induction false} OwedItsFrame(ms: seq<Machine>, es: seq<Event>, i: nat, j: nat, t: Tid, f: Frame, n: nat)
    requires IsRun(ms, es) && i < n <= |es| && !es[i].User? && j < |es[i].body| && Makes(es[i].body[j], t, f)
    requires forall l :: i < l < n ==> t in ms[l].st.tcb && ms[l].st.run != t
    ensures LastOf(ms, es, n, t) == f
    decreases n
  {
    if n > i + 1 {
      OwedItsFrame(ms, es, i, j, t, f, n - 1);
    } else {
      assert Can(ms[i], es[i]);
      BornWith(ms[i].st, es[i].body, j, t, f);
      if t in ms[i].st.tcb { NotTwice(ms[i].st, es[i].body, j, t, f); }
    }
  }

  /** Whatever happens in between, the registers a thread first runs with are the frame it was created with. */
  lemma {:induction false} FirstRunsAsCreated(ms: seq<Machine>, es: seq<Event>, i: nat, j: nat, t: Tid, f: Frame, k: nat)
    requires IsRun(ms, es) && i <= k < |es| && !es[i].User? && j < |es[i].body| && Makes(es[i].body[j], t, f)
    requires forall l :: i < l <= k ==> t in ms[l].st.tcb && ms[l].st.run != t
    requires !es[k].User? && ms[k + 1].st.run == t
    ensures ms[k + 1].cpu == f
  {
    OwedItsFrame(ms, es, i, j, t, f, k + 1);
    EveryGateResumesItsOwn(ms, es, k);
  }
}
