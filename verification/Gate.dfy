/**
 The syscall and interrupt gates (osdev/arch/i386/irq.S): save the frame,
 dispatch, park the result in the caller's saved frame, commit the recorded
 switch, and restore the frame of the current context in full.
 */
module Gate {
  import opened Threads
  import opened ProcessSpec
  import opened ProcExit
  import opened Basics

  /** The saved registers; `rest` stands for all of them but EAX. */
  datatype Frame = Frame(eax: int, rest: int)

  /** frames: the saved frame of every thread; cpu: the live registers. */
  datatype Machine = Machine(st: State, frames: map<Tid, Frame>, cpu: Frame)

  /** The kernel work a gate can dispatch to. */
  datatype Cmd =
    | YieldCmd
    | BlockCmd(t: Tid)
    | UnblockCmd(t: Tid)
    | DeleteCmd(t: Tid)
    | ExitCmd(p: Pid)
    | SleepCmd(q: Wq)
    | WakeCmd(q: Wq)
    | CreateThreadCmd(t: Tid, frame: Frame)
    | CreateProcCmd(p: Pid, t: Tid, frame: Frame)
    | BlockProcCmd(p: Pid)
    | UnblockProcCmd(p: Pid)

  /** Whether the command may move thread_run. */
  predicate Switching(c: Cmd) {
    c.YieldCmd? || c.BlockCmd? || c.DeleteCmd? || c.ExitCmd? || c.SleepCmd?
  }

  predicate Enabled(s: State, c: Cmd) {
    match c
    case SleepCmd(q) => q in s.queues
    case WakeCmd(q) => q in s.queues
    case CreateThreadCmd(t, _) => t !in s.tcb && s.run in s.tcb && s.tcb[s.run].pid in s.procs
    case CreateProcCmd(p, t, _) => t !in s.tcb && p !in s.procs
    case _ => true
  }

  /** A new thread heads both lists and is not ready until it is unblocked. */
  function Create(s: State, p: Pid, t: Tid): State
    requires p in s.procs
  {
    s.(order := [t] + s.order, procs := s.procs[p := [t] + s.procs[p]], tcb := s.tcb[t := Tcb(p, false, false, None)])
  }

  function SetReady(s: State, p: Pid, ready: bool): State {
    s.(tcb := map t | t in s.tcb :: if s.tcb[t].pid == p then s.tcb[t].(ready := ready) else s.tcb[t])
  }

  function Exec(s: State, c: Cmd): Option<State>
    requires Wf(s) && Enabled(s, c)
  {
    match c
    case YieldCmd => Some(Yield(s))
    case BlockCmd(t) => Some(Block(s, t))
    case UnblockCmd(t) => Some(Unblock(s, t))
    case DeleteCmd(t) => Some(Delete(s, t))
    case ExitCmd(p) => Exit(s, p)
    case SleepCmd(q) => Some(Sleep(s, q))
    case WakeCmd(q) => Some(WakeOne(s, q))
    case CreateThreadCmd(t, _) => Some(Create(s, s.tcb[s.run].pid, t))
    case CreateProcCmd(p, t, _) => Some(Create(s.(procs := s.procs[p := []]), p, t))
    case BlockProcCmd(p) => Some(SetReady(s, p, false))
    case UnblockProcCmd(p) => Some(SetReady(s, p, true))
  }

  lemma {:induction false} CreateWf(s: State, p: Pid, t: Tid)
    requires Wf(s) && p in s.procs && t !in s.tcb
    ensures Wf(Create(s, p, t))
  {
    assert t !in s.order && t !in s.procs[p];
    ConsNoDup(t, s.order);
    ConsNoDup(t, s.procs[p]);
  }

  lemma {:induction false} ConsNoDup(t: Tid, s: seq<Tid>)
    requires NoDup(s) && t !in s
    ensures NoDup([t] + s)
  {
    forall i, j | 0 <= i < j < |s| + 1 ensures ([t] + s)[i] != ([t] + s)[j] {
      if i == 0 { assert s[j - 1] in s; }
    }
  }

  lemma {:induction false} SetReadyWf(s: State, p: Pid, ready: bool)
    requires Wf(s)
    ensures Wf(SetReady(s, p, ready))
  {
  }

  /** A command that does not switch leaves the machine at rest on the same thread. */
  lemma {:induction false} StaysResting(s: State, c: Cmd)
    requires Resting(s) && Enabled(s, c) && !Switching(c)
    ensures Exec(s, c).Some? && var s' := Exec(s, c).value; Resting(s') && s'.run == s.run && s.tcb.Keys <= s'.tcb.Keys
  {
    match c
    case UnblockCmd(t) => UnblockInGate(s, t);
    case WakeCmd(q) =>
      if s.queues[q] != [] {
        DequeueWf(s, q);
        UnblockInGate(Dequeue(s, q), s.queues[q][0]);
      }
    case CreateThreadCmd(t, _) => CreateWf(s, s.tcb[s.run].pid, t);
    case CreateProcCmd(p, t, _) =>
      assert Owned(s.procs[p := []], s.tcb);
      CreateWf(s.(procs := s.procs[p := []]), p, t);
    case BlockProcCmd(p) => SetReadyWf(s, p, false);
    case UnblockProcCmd(p) => SetReadyWf(s, p, true);
  }

  /** Every command leaves a state whose commit rests on a live thread. */
  lemma {:induction false} ExecInGate(s: State, c: Cmd)
    requires Resting(s) && Enabled(s, c)
    ensures Exec(s, c).Some? ==> InGate(Exec(s, c).value)
  {
    match c
    case YieldCmd => YieldInGate(s);
    case BlockCmd(t) => BlockInGate(s, t);
    case DeleteCmd(t) => DeleteInGate(s, t);
    case SleepCmd(q) => SleepInGate(s, q);
    case ExitCmd(p) =>
      if p in s.procs { ExitCorrect(s, p); }
    case _ => StaysResting(s, c);
  }

  // ---- the body of one gate ----

  /** A gate dispatches any number of commands that do not switch, then at most one that may. */
  ghost predicate BodyEnabled(s: State, body: seq<Cmd>)
    requires Resting(s)
    decreases |body|
  {
    body != [] ==>
      && Enabled(s, body[0])
      && (|body| > 1 ==> !Switching(body[0]) && (StaysResting(s, body[0]); BodyEnabled(Exec(s, body[0]).value, body[1..])))
  }

  function ExecBody(s: State, body: seq<Cmd>): Option<State>
    requires Resting(s) && BodyEnabled(s, body)
    decreases |body|
  {
    if body == [] then Some(s)
    else if |body| == 1 then Exec(s, body[0])
    else StaysResting(s, body[0]); ExecBody(Exec(s, body[0]).value, body[1..])
  }

  /** The context that entered stays current unless the thread is gone. */
  lemma {:induction false} ExecKeepsContext(s: State, c: Cmd)
    requires Resting(s) && Enabled(s, c) && Exec(s, c).Some? && s.run in Exec(s, c).value.tcb
    ensures Exec(s, c).value.ctx == s.ctx
  {
    FindNextReady(s);
    match c
    case ExitCmd(p) =>
      if p in s.procs { ExitCorrect(s, p); }
    case _ =>
  }

  lemma {:induction false} BodyInGate(s: State, body: seq<Cmd>)
    requires Resting(s) && BodyEnabled(s, body)
    ensures ExecBody(s, body).Some? ==> var s' := ExecBody(s, body).value;
      InGate(s') && (s.run in s'.tcb ==> s'.ctx == s.ctx)
    decreases |body|
  {
    if |body| == 1 {
      ExecInGate(s, body[0]);
      if ExecBody(s, body).Some? && s.run in ExecBody(s, body).value.tcb { ExecKeepsContext(s, body[0]); }
    } else if |body| > 1 {
      StaysResting(s, body[0]);
      BodyInGate(Exec(s, body[0]).value, body[1..]);
    }
  }

  // ---- frames ----

  /** The initial frames of threads a body creates. */
  function Born(body: seq<Cmd>): map<Tid, Frame> {
    if body == [] then map[]
    else
      var rest := Born(body[1..]);
      match body[0]
      case CreateThreadCmd(t, f) => rest[t := f]
      case CreateProcCmd(_, t, f) => rest[t := f]
      case _ => rest
  }

  lemma {:induction false} ExecThreads(s: State, c: Cmd)
    requires Resting(s) && Enabled(s, c) && Exec(s, c).Some?
    ensures Exec(s, c).value.tcb.Keys <= s.tcb.Keys + Born([c]).Keys
  {
    FindNextReady(s);
    assert [c][1..] == [];
    match c
    case ExitCmd(p) =>
      if p in s.procs {
        ExitCorrect(s, p);
        var s' := Exec(s, c).value;
        forall t | t in s'.tcb.Keys ensures t in s.tcb.Keys { assert t in s'.tcb; }
      }
    case CreateThreadCmd(t, f) => assert Born([c]) == Born([])[t := f];
    case CreateProcCmd(p, t, f) => assert Born([c]) == Born([])[t := f];
    case BlockCmd(t) => SleepThreads(s, t);
    case SleepCmd(q) =>
      if s.tcb[s.run].on.None? {
        EnqueueWf(s, q);
        SleepThreads(Enqueue(s, q), s.run);
      }
    case DeleteCmd(t) => DeleteInGate(s, t);
    case _ =>
  }

  lemma {:induction false} SleepThreads(s: State, t: Tid)
    requires Wf(s)
    ensures Block(s, t).tcb.Keys == s.tcb.Keys
  {
    if t in s.tcb && !s.tcb[t].wake {
      SetTcbWf(s, t, s.tcb[t].(ready := false));
      FindNextReady(SetTcb(s, t, s.tcb[t].(ready := false)));
    }
  }

  lemma {:induction false} BodyThreads(s: State, body: seq<Cmd>)
    requires Resting(s) && BodyEnabled(s, body) && ExecBody(s, body).Some?
    ensures ExecBody(s, body).value.tcb.Keys <= s.tcb.Keys + Born(body).Keys
    decreases |body|
  {
    if |body| == 1 {
      assert body == [body[0]];
      ExecThreads(s, body[0]);
    } else if |body| > 1 {
      StaysResting(s, body[0]);
      ExecThreads(s, body[0]);
      assert [body[0]][1..] == [];
      BodyThreads(Exec(s, body[0]).value, body[1..]);
      assert Born(body).Keys == Born([body[0]]).Keys + Born(body[1..]).Keys;
    }
  }

  /** What the running thread must find in its registers when it next runs: the park of irq.S. */
  function Due(m: Machine, ret: Option<int>): Frame {
    if ret.Some? then m.cpu.(eax := ret.value) else m.cpu
  }

  /** Saved frames of the live threads. */
  function Live(frames: map<Tid, Frame>, tcb: map<Tid, Tcb>): map<Tid, Frame> {
    map t | t in frames && t in tcb :: frames[t]
  }

  /**
   A whole gate; ret is the result of a syscall, None for an interrupt.  The
   result goes to the frame of the context that entered, and only if that
   context is still current and its thread has not been released.
   */
  function GatePass(m: Machine, body: seq<Cmd>, ret: Option<int>): Option<Machine>
    requires Resting(m.st) && BodyEnabled(m.st, body) && m.frames.Keys == m.st.tcb.Keys
  {
    var saved := m.frames[m.st.ctx := m.cpu];
    match ExecBody(m.st, body)
    case None => None
    case Some(s) =>
      BodyInGate(m.st, body);
      BodyThreads(m.st, body);
      var live := Live(Born(body) + saved, s.tcb);
      var parked := if ret.Some? && s.ctx == m.st.ctx && s.ctx in live then live[s.ctx := live[s.ctx].(eax := ret.value)] else live;
      CommitRests(s);
      var s' := Commit(s);
      assert s'.ctx in parked;
      Some(Machine(s', parked, parked[s'.ctx]))
  }

  // ---- whole runs ----

  /** User code, a syscall with its kernel work and result, or an interrupt with its kernel work. */
  datatype Event = User(cpu: Frame) | Syscall(body: seq<Cmd>, ret: int) | Interrupt(body: seq<Cmd>)

  ghost predicate Can(m: Machine, e: Event) {
    && Resting(m.st) && m.frames.Keys == m.st.tcb.Keys
    && (e.Syscall? ==> BodyEnabled(m.st, e.body))
    && (e.Interrupt? ==> BodyEnabled(m.st, e.body))
  }

  function Step(m: Machine, e: Event): Option<Machine>
    requires Can(m, e)
  {
    match e
    case User(cpu) => Some(m.(cpu := cpu))
    case Syscall(body, ret) => GatePass(m, body, Some(ret))
    case Interrupt(body) => GatePass(m, body, None)
  }

  /**
   History: the registers each thread is owed when it runs again.  Only a
   thread's own gate changes what it is owed: its registers at entry, with EAX
   replaced by the result if the gate was a syscall.
   */
  function Owed(owed: map<Tid, Frame>, m: Machine, e: Event, m': Machine): map<Tid, Frame> {
    match e
    case User(cpu) => owed
    case Syscall(body, ret) => Live(Born(body) + owed[m.st.run := Due(m, Some(ret))], m'.st.tcb)
    case Interrupt(body) => Live(Born(body) + owed[m.st.run := Due(m, None)], m'.st.tcb)
  }

  ghost predicate Inv(m: Machine, owed: map<Tid, Frame>) {
    && Resting(m.st)
    && m.frames.Keys == m.st.tcb.Keys && owed.Keys == m.st.tcb.Keys
    && (forall t :: t in owed && t != m.st.run ==> m.frames[t] == owed[t])
  }

  /**
   At every gate exit the loaded page directory, the current context and the
   restored frame belong to thread_run, a live thread, and the registers are
   the ones owed to it: its own result in EAX, never another thread's.
   */
  lemma {:induction false} StepKeeps(m: Machine, owed: map<Tid, Frame>, e: Event)
    requires Inv(m, owed) && Can(m, e) && Step(m, e).Some?
    ensures var m' := Step(m, e).value; var owed' := Owed(owed, m, e, m');
      && Inv(m', owed')
      && (!e.User? ==>
          && m'.st.run in m'.st.tcb && m'.st.ctx == m'.st.run && m'.st.cr3 == m'.st.tcb[m'.st.run].pid
          && m'.cpu == m'.frames[m'.st.run] == owed'[m'.st.run])
  {
    if !e.User? {
      BodyInGate(m.st, e.body);
      BodyThreads(m.st, e.body);
      CommitRests(ExecBody(m.st, e.body).value);
    }
  }

  ghost predicate IsRun(ms: seq<Machine>, es: seq<Event>) {
    && |ms| == |es| + 1
    && Resting(ms[0].st) && ms[0].frames.Keys == ms[0].st.tcb.Keys
    && (forall i :: 0 <= i < |es| ==> Can(ms[i], es[i]) && Step(ms[i], es[i]) == Some(ms[i + 1]))
  }

  function Result(e: Event): Option<int> {
    if e.Syscall? then Some(e.ret) else None
  }

  /**
   Reading the run backwards from state i: the registers thread t had at its
   own last gate, with the result of that gate if it was a syscall; the frame
   it was created with if it never ran; its first saved frame if it existed
   from the start.
   */
  ghost function LastOf(ms: seq<Machine>, es: seq<Event>, i: nat, t: Tid): Frame
    requires IsRun(ms, es) && i <= |es|
  {
    if i == 0 then if t in ms[0].frames then ms[0].frames[t] else Frame(0, 0)
    else if es[i - 1].User? then LastOf(ms, es, i - 1, t)
    else if ms[i - 1].st.run == t then Due(ms[i - 1], Result(es[i - 1]))
    else if t !in ms[i - 1].st.tcb && t in Born(es[i - 1].body) then Born(es[i - 1].body)[t]
    else LastOf(ms, es, i - 1, t)
  }

  ghost function Owings(ms: seq<Machine>, es: seq<Event>, i: nat): map<Tid, Frame>
    requires IsRun(ms, es) && i <= |es|
  {
    map t | t in ms[i].st.tcb :: LastOf(ms, es, i, t)
  }

  lemma {:induction false} RunKeeps(ms: seq<Machine>, es: seq<Event>, i: nat)
    requires IsRun(ms, es) && i <= |es|
    ensures Inv(ms[i], Owings(ms, es, i))
  {
    if i > 0 {
      RunKeeps(ms, es, i - 1);
      var m, e, o := ms[i - 1], es[i - 1], Owings(ms, es, i - 1);
      assert Step(m, e) == Some(ms[i - 1 + 1]);
      StepKeeps(m, o, e);
      OwedIsLast(ms, es, i);
    }
  }

  lemma {:induction false} OwedAt(owed: map<Tid, Frame>, m: Machine, e: Event, m': Machine, t: Tid)
    requires !e.User? && owed.Keys == m.st.tcb.Keys && t in Owed(owed, m, e, m')
    ensures m.st.run != t && t !in m.st.tcb ==> t in Born(e.body)
    ensures Owed(owed, m, e, m')[t] ==
      if m.st.run == t then Due(m, Result(e)) else if t in m.st.tcb then owed[t] else Born(e.body)[t]
  {
  }

  lemma {:induction false} OwedIsLast(ms: seq<Machine>, es: seq<Event>, i: nat)
    requires IsRun(ms, es) && 0 < i <= |es|
    requires Owed(Owings(ms, es, i - 1), ms[i - 1], es[i - 1], ms[i]).Keys == ms[i].st.tcb.Keys
    requires es[i - 1].User? ==> ms[i].st == ms[i - 1].st
    ensures Owed(Owings(ms, es, i - 1), ms[i - 1], es[i - 1], ms[i]) == Owings(ms, es, i)
  {
    var a, b := Owed(Owings(ms, es, i - 1), ms[i - 1], es[i - 1], ms[i]), Owings(ms, es, i);
    forall t | t in b ensures a[t] == b[t] {
      if !es[i - 1].User? { OwedAt(Owings(ms, es, i - 1), ms[i - 1], es[i - 1], ms[i], t); }
    }
  }

  /**
   For every run of user code, syscalls and interrupts: after each gate the
   processor holds exactly the registers its thread last parked, with that
   thread's own syscall result in EAX, on its own page directory.
   */
  lemma {:induction false} EveryGateResumesItsOwn(ms: seq<Machine>, es: seq<Event>, i: nat)
    requires IsRun(ms, es) && i < |es| && !es[i].User?
    ensures var m := ms[i + 1];
      && m.st.run in m.st.tcb && m.st.ctx == m.st.run && m.st.cr3 == m.st.tcb[m.st.run].pid
      && m.cpu == LastOf(ms, es, i + 1, m.st.run)
  {
    RunKeeps(ms, es, i);
    assert Step(ms[i], es[i]) == Some(ms[i + 1]);
    StepKeeps(ms[i], Owings(ms, es, i), es[i]);
    OwedIsLast(ms, es, i + 1);
  }

  // ---- the frames lie in their owners' address spaces ----

  /** As long as the thread that entered lives, its page directory stays loaded until the commit. */
  lemma {:induction false} ExecKeepsDirectory(s: State, c: Cmd)
    requires Resting(s) && Enabled(s, c) && Exec(s, c).Some? && s.run in Exec(s, c).value.tcb
    ensures Exec(s, c).value.cr3 == s.cr3 && Exec(s, c).value.tcb[s.run].pid == s.tcb[s.run].pid
  {
    FindNextReady(s);
    match c
    case ExitCmd(p) =>
      if p in s.procs { ExitCorrect(s, p); }
    case _ =>
  }

  lemma {:induction false} BodyKeepsDirectory(s: State, body: seq<Cmd>)
    requires Resting(s) && BodyEnabled(s, body) && ExecBody(s, body).Some? && s.run in ExecBody(s, body).value.tcb
    ensures ExecBody(s, body).value.cr3 == s.cr3 && ExecBody(s, body).value.tcb[s.run].pid == s.tcb[s.run].pid
    decreases |body|
  {
    if |body| == 1 {
      ExecKeepsDirectory(s, body[0]);
    } else if |body| > 1 {
      StaysResting(s, body[0]);
      ExecKeepsDirectory(s, body[0]);
      BodyKeepsDirectory(Exec(s, body[0]).value, body[1..]);
    }
  }

  /**
   A user thread's frame lies at an address of its own process: the save, the
   park and the restore of every gate each happen with the page directory of
   the frame's owner loaded.
   */
  lemma {:induction false} FramesUnderOwner(m: Machine, body: seq<Cmd>)
    requires Resting(m.st) && BodyEnabled(m.st, body) && m.frames.Keys == m.st.tcb.Keys && ExecBody(m.st, body).Some?
    ensures m.st.ctx in m.st.tcb && m.st.cr3 == m.st.tcb[m.st.ctx].pid
    ensures var s := ExecBody(m.st, body).value;
      && (s.ctx == m.st.ctx && s.ctx in s.tcb ==> s.cr3 == s.tcb[s.ctx].pid)
      && Commit(s).ctx in Commit(s).tcb && Commit(s).cr3 == Commit(s).tcb[Commit(s).ctx].pid
  {
    BodyInGate(m.st, body);
    var s := ExecBody(m.st, body).value;
    if m.st.run in s.tcb { BodyKeepsDirectory(m.st, body); }
    CommitRests(s);
  }
}
