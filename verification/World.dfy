/**
 The memory of the whole machine: the page tables of all processes, the
 regions of each, and the blocks of physical memory that are in use
 (osdev/kernel/mm/vmm.c and pmm.c together).
 */
module World {
  import opened Paging
  import opened VmmRange
  import opened VmmSpec
  import opened Pmm
  import opened Basics

  /** m: all page tables; rs: the regions of each process, by page directory; fs: the used blocks. */
  datatype State = State(m: Mem, rs: map<int, seq<Region>>, fs: seq<bool>)

  // ---- owned memory ----

  /** Region i of process c owns its physical pages. */
  predicate Owns(rs: map<int, seq<Region>>, c: int, i: int) {
    c in rs && 0 <= i < |rs[c]| && rs[c][i].own
  }

  predicate Meets(r: Region, q: Region) {
    r.pa < q.pa + q.size && q.pa < r.pa + r.size
  }

  /** The blocks of r exist and are in use; block 0 is not among them. */
  ghost predicate Taken(fs: seq<bool>, r: Region) {
    && 0 < r.pa / PAGE && r.pa / PAGE + Len(r) <= |fs|
    && (forall b :: r.pa / PAGE <= b < r.pa / PAGE + Len(r) ==> fs[b])
  }

  /** No two owned regions of the machine share physical memory. */
  ghost predicate NoSharing(rs: map<int, seq<Region>>) {
    forall c, i, d, j :: Owns(rs, c, i) && Owns(rs, d, j) && Meets(rs[c][i], rs[d][j]) ==> c == d && i == j
  }

  /**
   What every operation keeps: under every directory the kernel reaches its
   paging structures; each directory but the master's belongs to a
   process, was cloned from the master and agrees with the regions of that
   process; owned blocks are in use and belong to one region only.
   */
  ghost predicate Inv(s: State, master: int) {
    && Wf(s.m) && Reach(s.m) && master in s.m.dirs && !InPool(s.m, master) && WindowClear(s.m, master)
    && master !in s.rs && s.m.dirs.Keys == s.rs.Keys + {master}
    && (forall c :: c in s.rs ==> Homed(s.m, master, c) && Agrees(s.rs[c], s.m, c))
    && (forall c, i :: Owns(s.rs, c, i) ==> RegionOk(s.rs[c][i]) && Taken(s.fs, s.rs[c][i]))
    && NoSharing(s.rs) && (|s.fs| > 0 ==> s.fs[0])
  }

  // ---- the steps ----

  /** What an operation in one process sees: all page tables, its own regions, the used blocks. */
  datatype Part = Part(m: Mem, rs: seq<Region>, fs: seq<bool>)

  function At(s: State, c: int): Part
    requires c in s.rs
  {
    Part(s.m, s.rs[c], s.fs)
  }

  /** Region r, which hides no paging structure, joins the regions of c; if it owns its memory, that was free before. */
  ghost predicate Added(p: Part, p': Part, c: int, r: Region, k: nat) {
    && Joined(p.rs, p.m, r, k, p'.rs, p'.m, c) && HidesNothing(p.m, r)
    && (if r.own then FreeRun(p.fs, r.pa / PAGE, Len(r)) && p'.fs == MarkAll(p.fs, r.pa / PAGE, r.pa / PAGE + Len(r), true)
        else p'.fs == p.fs)
  }

  /** Region k of c goes, and the memory it owns becomes free. */
  ghost predicate Removed(p: Part, p': Part, c: int, k: nat) {
    && Dropped(p.rs, p.m, k, p'.rs, p'.m, c)
    && p'.fs == Freed(p.fs, p.rs[k])
  }

  function Freed(fs: seq<bool>, r: Region): seq<bool> {
    if r.own then MarkAll(fs, r.pa / PAGE, r.pa / PAGE + Len(r), false) else fs
  }

  /** An operation failed; at most a mapping of free pages was given up. */
  ghost predicate Refused(p: Part, p': Part, c: int, r: Region) {
    p'.rs == p.rs && p'.fs == p.fs && Failed(p.rs, p.m, p'.m, c, r) && (p'.m != p.m ==> HidesNothing(p.m, r))
  }

  /** One of the three. */
  ghost predicate Moved(p: Part, p': Part, c: int) {
    || (exists r, k :: Added(p, p', c, r, k))
    || (exists k :: Removed(p, p', c, k))
    || (exists r :: Refused(p, p', c, r))
  }

  /** Of the regions, only those of process c changed. */
  ghost predicate Only(s: State, s': State, c: int) {
    c in s.rs && s'.rs.Keys == s.rs.Keys && forall d :: d in s'.rs && d != c ==> s'.rs[d] == s.rs[d]
  }

  ghost predicate Adds(s: State, s': State, c: int, r: Region, k: nat) {
    Only(s, s', c) && Added(At(s, c), At(s', c), c, r, k)
  }

  ghost predicate Removes(s: State, s': State, c: int, k: nat) {
    Only(s, s', c) && Removed(At(s, c), At(s', c), c, k)
  }

  ghost predicate Fails(s: State, s': State, c: int, r: Region) {
    Only(s, s', c) && Refused(At(s, c), At(s', c), c, r)
  }

  /** Process c begins, without regions. */
  ghost predicate Begins(s: State, s': State, master: int, c: int) {
    Born(s.m, s'.m, master, c) && s'.rs == s.rs[c := []] && s'.fs == s.fs
  }

  /** Process c ends: its directory is gone and the memory of all its owned regions is free. */
  ghost predicate Ends(s: State, s': State, c: int) {
    && c in s.rs && Gone(s.m, s'.m, c) && s'.fs == AllFreed(s.fs, s.rs[c])
    && s'.rs.Keys == s.rs.Keys - {c} && forall d :: d in s'.rs ==> s'.rs[d] == s.rs[d]
  }

  function AllFreed(fs: seq<bool>, rs: seq<Region>): seq<bool>
    decreases rs
  {
    if rs == [] then fs else AllFreed(Freed(fs, rs[0]), rs[1..])
  }

  ghost predicate Next(s: State, s': State, master: int) {
    || (exists c, r, k :: Adds(s, s', c, r, k))
    || (exists c, k :: Removes(s, s', c, k))
    || (exists c, r :: Fails(s, s', c, r))
    || (exists c :: Begins(s, s', master, c))
    || (exists c :: Ends(s, s', c))
    || s' == s
  }

  lemma {:induction false} MovedNext(s: State, s': State, master: int, c: int)
    requires Only(s, s', c) && Moved(At(s, c), At(s', c), c)
    ensures Next(s, s', master)
  {
    if r, k :| Added(At(s, c), At(s', c), c, r, k) {
      assert Adds(s, s', c, r, k);
    } else if k :| Removed(At(s, c), At(s', c), c, k) {
      assert Removes(s, s', c, k);
    } else {
      var r :| Refused(At(s, c), At(s', c), c, r);
      assert Fails(s, s', c, r);
    }
  }

  // ---- what happens in one process leaves the others alone ----

  lemma {:induction false} OthersKeep(s: State, s': State, master: int, c: int)
    requires Inv(s, master) && c in s.rs && Aside(s.m, s'.m, c) && s'.rs.Keys == s.rs.Keys
    requires forall d :: d in s.rs && d != c ==> s'.rs[d] == s.rs[d]
    ensures Wf(s'.m) && master in s'.m.dirs && !InPool(s'.m, master) && WindowClear(s'.m, master) && s'.m.dirs.Keys == s'.rs.Keys + {master}
    ensures forall d :: d in s'.rs ==> Homed(s'.m, master, d)
    ensures forall d :: d in s'.rs && d != c ==> Agrees(s'.rs[d], s'.m, d)
  {
    forall d | d in s'.rs && d != c ensures Agrees(s'.rs[d], s'.m, d) {
      NeighbourAgrees(s.rs[d], s.m, s'.m, d, c);
    }
    forall d | d in s'.rs ensures Homed(s'.m, master, d) {
      assert Homed(s.m, master, d);
    }
  }

  /** Where region i of process d was before r joined process c at k; -1 for r itself. */
  function Before(c: int, k: nat, d: int, i: int): int {
    if d != c || i < k then i else i - 1
  }

  lemma {:induction false} BeforeOwns(s: State, s': State, c: int, r: Region, k: nat, d: int, i: int)
    requires Adds(s, s', c, r, k) && Owns(s'.rs, d, i)
    ensures if d == c && i == k then s'.rs[d][i] == r
            else Owns(s.rs, d, Before(c, k, d, i)) && s.rs[d][Before(c, k, d, i)] == s'.rs[d][i]
  {
  }

  /** Memory that was free meets nothing that was taken. */
  lemma {:induction false} FreeMeetsNone(fs: seq<bool>, r: Region, q: Region)
    requires RegionOk(r) && RegionOk(q) && FreeRun(fs, r.pa / PAGE, Len(r)) && Taken(fs, q)
    ensures !Meets(r, q) && !Meets(q, r)
  {
    assert r.pa == PAGE * (r.pa / PAGE) && r.size == PAGE * Len(r) && q.pa == PAGE * (q.pa / PAGE) && q.size == PAGE * Len(q);
    var b := if r.pa / PAGE < q.pa / PAGE then q.pa / PAGE else r.pa / PAGE;
    assert r.pa / PAGE <= b < r.pa / PAGE + Len(r) ==> !fs[b];
    assert q.pa / PAGE <= b < q.pa / PAGE + Len(q) ==> fs[b];
  }

  lemma {:induction false} AddsNoSharing(s: State, s': State, master: int, c: int, r: Region, k: nat)
    requires Inv(s, master) && Adds(s, s', c, r, k)
    ensures NoSharing(s'.rs)
  {
    forall a, i, d, j | Owns(s'.rs, a, i) && Owns(s'.rs, d, j) && Meets(s'.rs[a][i], s'.rs[d][j]) ensures a == d && i == j {
      BeforeOwns(s, s', c, r, k, a, i);
      BeforeOwns(s, s', c, r, k, d, j);
      if a == c && i == k {
        if !(d == c && j == k) { FreeMeetsNone(s.fs, r, s.rs[d][Before(c, k, d, j)]); }
      } else if d == c && j == k {
        FreeMeetsNone(s.fs, r, s.rs[a][Before(c, k, a, i)]);
      }
    }
  }

  lemma {:induction false} AddsTaken(s: State, s': State, master: int, c: int, r: Region, k: nat)
    requires Inv(s, master) && Adds(s, s', c, r, k)
    ensures forall d, i :: Owns(s'.rs, d, i) ==> RegionOk(s'.rs[d][i]) && Taken(s'.fs, s'.rs[d][i])
    ensures |s'.fs| > 0 ==> s'.fs[0]
  {
    forall d, i | Owns(s'.rs, d, i) ensures RegionOk(s'.rs[d][i]) && Taken(s'.fs, s'.rs[d][i]) {
      BeforeOwns(s, s', c, r, k, d, i);
      if d == c && i == k {
        assert !s.fs[r.pa / PAGE];
      } else {
        assert Taken(s.fs, s.rs[d][Before(c, k, d, i)]);
      }
    }
  }

  lemma {:induction false} AddsKeeps(s: State, s': State, master: int, c: int, r: Region, k: nat)
    requires Inv(s, master) && Adds(s, s', c, r, k)
    ensures Inv(s', master)
  {
    OthersKeep(s, s', master, c);
    JoinedReachExact(s.rs[c], s.m, r, k, s'.rs[c], s'.m, c);
    AddAgrees(s.rs[c], s.m, s'.m, c, r, k);
    AddsTaken(s, s', master, c, r, k);
    AddsNoSharing(s, s', master, c, r, k);
  }

  /** Where region i of process d was before region k of process c went. */
  function Origin(c: int, k: nat, d: int, i: int): int {
    if d != c || i < k then i else i + 1
  }

  lemma {:induction false} OriginOwns(s: State, s': State, c: int, k: nat, d: int, i: int)
    requires Removes(s, s', c, k) && Owns(s'.rs, d, i)
    ensures Owns(s.rs, d, Origin(c, k, d, i)) && s.rs[d][Origin(c, k, d, i)] == s'.rs[d][i]
    ensures !(d == c && Origin(c, k, d, i) == k)
  {
  }

  /** Returning r frees no block of a region that shares nothing with it. */
  lemma {:induction false} StillTaken(fs: seq<bool>, r: Region, q: Region)
    requires RegionOk(r) && RegionOk(q) && Taken(fs, q) && !(r.own && Meets(r, q))
    ensures Taken(Freed(fs, r), q)
  {
    if r.own {
      assert r.pa == PAGE * (r.pa / PAGE) && r.size == PAGE * Len(r) && q.pa == PAGE * (q.pa / PAGE) && q.size == PAGE * Len(q);
    }
  }

  lemma {:induction false} RemovesTaken(s: State, s': State, master: int, c: int, k: nat)
    requires Inv(s, master) && Removes(s, s', c, k)
    ensures forall d, i :: Owns(s'.rs, d, i) ==> RegionOk(s'.rs[d][i]) && Taken(s'.fs, s'.rs[d][i])
    ensures NoSharing(s'.rs) && (|s'.fs| > 0 ==> s'.fs[0])
  {
    forall d, i | Owns(s'.rs, d, i) ensures RegionOk(s'.rs[d][i]) && Taken(s'.fs, s'.rs[d][i]) {
      OriginOwns(s, s', c, k, d, i);
      assert s.rs[c][k].own ==> Owns(s.rs, c, k);
      StillTaken(s.fs, s.rs[c][k], s'.rs[d][i]);
    }
    forall a, i, d, j | Owns(s'.rs, a, i) && Owns(s'.rs, d, j) && Meets(s'.rs[a][i], s'.rs[d][j]) ensures a == d && i == j {
      OriginOwns(s, s', c, k, a, i);
      OriginOwns(s, s', c, k, d, j);
    }
    assert s.rs[c][k].own ==> Owns(s.rs, c, k);
  }

  lemma {:induction false} RemovesKeeps(s: State, s': State, master: int, c: int, k: nat)
    requires Inv(s, master) && Removes(s, s', c, k)
    ensures Inv(s', master)
  {
    OthersKeep(s, s', master, c);
    DroppedReach(s.rs[c], s.m, k, s'.rs[c], s'.m, c);
    var r := s.rs[c][k];
    forall w | Lo(r) <= w < Lo(r) + Len(r) && WINDOW <= w < FRAMES ensures Lookup(s'.m, c, w) == None {
      assert Lookup(s'.m, c, w) == Left(w, r.flags);
    }
    DropAgrees(s.rs[c], s.m, s'.m, c, k);
    RemovesTaken(s, s', master, c, k);
  }

  lemma {:induction false} FailsKeeps(s: State, s': State, master: int, c: int, r: Region)
    requires Inv(s, master) && Fails(s, s', c, r)
    ensures Inv(s', master)
  {
    if s'.m != s.m {
      FailedAside(s.rs[c], s.m, s'.m, c, r);
      FailedReach(s.rs[c], s.m, s'.m, c, r);
      OthersKeep(s, s', master, c);
      UndoneAgrees(s.rs[c], s.m, s'.m, c, r);
    }
  }

  lemma {:induction false} BeginsKeeps(s: State, s': State, master: int, c: int)
    requires Inv(s, master) && Begins(s, s', master, c)
    ensures Inv(s', master)
  {
    BornKeeps(s.m, s'.m, master, c);
    BornReach(s.m, s'.m, master, c);
    NewAgrees(s.m, s'.m, master, c);
    forall d | d in s'.rs && d != c ensures Homed(s'.m, master, d) && Agrees(s'.rs[d], s'.m, d) {
      KeepsAgrees(s.rs[d], s.m, s'.m, d);
    }
    forall d, i | Owns(s'.rs, d, i) ensures Owns(s.rs, d, i) && s.rs[d][i] == s'.rs[d][i] {}
  }

  // ---- a process ends ----

  /** Returning regions that share nothing with q leaves q taken. */
  lemma {:induction false} AllStillTaken(fs: seq<bool>, rs: seq<Region>, q: Region)
    requires RegionOk(q) && Taken(fs, q) && forall i :: 0 <= i < |rs| ==> RegionOk(rs[i]) && !(rs[i].own && Meets(rs[i], q))
    ensures Taken(AllFreed(fs, rs), q)
    decreases rs
  {
    if rs != [] {
      StillTaken(fs, rs[0], q);
      AllStillTaken(Freed(fs, rs[0]), rs[1..], q);
    }
  }

  /** Block b belongs to an owned region of rs. */
  ghost predicate InOwned(rs: seq<Region>, b: int) {
    exists i :: 0 <= i < |rs| && rs[i].own && rs[i].pa / PAGE <= b < rs[i].pa / PAGE + Len(rs[i])
  }

  /** Exactly the blocks of the owned regions are cleared. */
  lemma {:induction false} AllFreedExact(fs: seq<bool>, rs: seq<Region>)
    ensures |AllFreed(fs, rs)| == |fs|
    ensures forall b :: 0 <= b < |fs| ==> (AllFreed(fs, rs)[b] <==> fs[b] && !InOwned(rs, b))
    decreases rs
  {
    if rs != [] {
      var gs := Freed(fs, rs[0]);
      AllFreedExact(gs, rs[1..]);
      forall b | 0 <= b < |fs| ensures AllFreed(fs, rs)[b] <==> fs[b] && !InOwned(rs, b) {
        InOwnedSplit(rs, b);
      }
    }
  }

  lemma {:induction false} InOwnedSplit(rs: seq<Region>, b: int)
    requires rs != []
    ensures InOwned(rs, b) <==> (rs[0].own && rs[0].pa / PAGE <= b < rs[0].pa / PAGE + Len(rs[0])) || InOwned(rs[1..], b)
  {
    if InOwned(rs[1..], b) {
      var i :| 0 <= i < |rs[1..]| && rs[1..][i].own && rs[1..][i].pa / PAGE <= b < rs[1..][i].pa / PAGE + Len(rs[1..][i]);
      assert rs[i + 1] == rs[1..][i];
    }
    if InOwned(rs, b) {
      var i :| 0 <= i < |rs| && rs[i].own && rs[i].pa / PAGE <= b < rs[i].pa / PAGE + Len(rs[i]);
      if i > 0 { assert rs[1..][i - 1] == rs[i]; }
    }
  }

  lemma {:induction false} EndsKeeps(s: State, s': State, master: int, c: int)
    requires Inv(s, master) && Ends(s, s', c)
    ensures Inv(s', master)
  {
    GoneKeeps(s.m, s'.m, c);
    GoneReach(s.m, s'.m, c);
    forall d | d in s'.rs ensures Homed(s'.m, master, d) && Agrees(s'.rs[d], s'.m, d) {
      KeepsAgrees(s.rs[d], s.m, s'.m, d);
    }
    forall d, i | Owns(s'.rs, d, i) ensures Owns(s.rs, d, i) && RegionOk(s'.rs[d][i]) && Taken(s'.fs, s'.rs[d][i]) {
      assert Owns(s.rs, d, i);
      forall j | 0 <= j < |s.rs[c]| ensures RegionOk(s.rs[c][j]) && !(s.rs[c][j].own && Meets(s.rs[c][j], s.rs[d][i])) {
        assert s.rs[c][j].own ==> Owns(s.rs, c, j);
      }
      AllStillTaken(s.fs, s.rs[c], s.rs[d][i]);
    }
    AllFreedExact(s.fs, s.rs[c]);
    forall i | 0 <= i < |s.rs[c]| && s.rs[c][i].own ensures 0 < s.rs[c][i].pa / PAGE {
      assert Owns(s.rs, c, i);
    }
  }

  // ---- the counter ----

  /** The pages that the owned regions hold together. */
  function OwnedPages(rs: seq<Region>): int {
    if rs == [] then 0 else (if rs[0].own then Len(rs[0]) else 0) + OwnedPages(rs[1..])
  }

  lemma {:induction false} CountCleared(fs: seq<bool>, lo: int, n: nat)
    requires 0 <= lo && lo + n <= |fs| && forall b :: lo <= b < lo + n ==> fs[b]
    ensures CountFree(MarkAll(fs, lo, lo + n, false)) == CountFree(fs) + n
  {
    if n == 0 {
      assert MarkAll(fs, lo, lo, false) == fs;
    } else {
      CountCleared(fs, lo, n - 1);
      MarkOneMore(fs, lo, lo + n - 1, false);
      CountUpdate(MarkAll(fs, lo, lo + n - 1, false), lo + n - 1, false);
    }
  }

  /** Regions that are taken and share nothing: returning them raises the count of free blocks by their pages. */
  lemma {:induction false} AllFreedCount(fs: seq<bool>, rs: seq<Region>)
    requires forall i :: 0 <= i < |rs| && rs[i].own ==> RegionOk(rs[i]) && Taken(fs, rs[i])
    requires forall i, j :: 0 <= i < j < |rs| && rs[i].own && rs[j].own ==> !Meets(rs[i], rs[j])
    ensures CountFree(AllFreed(fs, rs)) == CountFree(fs) + OwnedPages(rs)
    decreases rs
  {
    if rs != [] {
      var r := rs[0];
      forall i | 0 <= i < |rs[1..]| && rs[1..][i].own ensures RegionOk(rs[1..][i]) && Taken(Freed(fs, r), rs[1..][i]) {
        assert rs[1..][i] == rs[i + 1];
        if r.own { StillTaken(fs, r, rs[i + 1]); }
      }
      AllFreedCount(Freed(fs, r), rs[1..]);
      if r.own { CountCleared(fs, r.pa / PAGE, Len(r)); }
    }
  }

  /** The end of a process raises free_blocks by exactly the pages its regions own. */
  lemma {:induction false} EndsCount(s: State, s': State, master: int, c: int)
    requires Inv(s, master) && Ends(s, s', c)
    ensures CountFree(s'.fs) == CountFree(s.fs) + OwnedPages(s.rs[c])
    ensures |s'.fs| == |s.fs| && forall b :: 0 <= b < |s.fs| ==> (s'.fs[b] <==> s.fs[b] && !InOwned(s.rs[c], b))
  {
    forall i | 0 <= i < |s.rs[c]| && s.rs[c][i].own ensures Owns(s.rs, c, i) {}
    AllFreedCount(s.fs, s.rs[c]);
    AllFreedExact(s.fs, s.rs[c]);
  }

  // ---- every run ----

  lemma {:induction false} NextKeeps(s: State, s': State, master: int)
    requires Inv(s, master) && Next(s, s', master)
    ensures Inv(s', master)
  {
    if c, r, k :| Adds(s, s', c, r, k) {
      AddsKeeps(s, s', master, c, r, k);
    } else if c, k :| Removes(s, s', c, k) {
      RemovesKeeps(s, s', master, c, k);
    } else if c, r :| Fails(s, s', c, r) {
      FailsKeeps(s, s', master, c, r);
    } else if c :| Begins(s, s', master, c) {
      BeginsKeeps(s, s', master, c);
    } else if c :| Ends(s, s', c) {
      EndsKeeps(s, s', master, c);
    }
  }

  ghost predicate Run(t: seq<State>, master: int) {
    t != [] && forall i :: 0 < i < |t| ==> Next(t[i - 1], t[i], master)
  }

  /** Whatever processes begin, map, unmap and end: the invariant holds after every step. */
  lemma {:induction false} RunKeeps(t: seq<State>, master: int, n: nat)
    requires Run(t, master) && Inv(t[0], master) && n < |t|
    ensures Inv(t[n], master)
  {
    if n > 0 {
      RunKeeps(t, master, n - 1);
      NextKeeps(t[n - 1], t[n], master);
    }
  }

  // ---- what the invariant gives ----

  /**
   In every state of every run, whichever directory is loaded, the kernel's
   access to any directory or table through its own address reaches it.
   */
  lemma {:induction false} RunReaches(t: seq<State>, master: int, n: nat, d: int, f: int)
    requires Run(t, master) && Inv(t[0], master) && n < |t|
    requires d in t[n].m.dirs && (f in t[n].m.dirs || f in t[n].m.tabs)
    ensures Wf(t[n].m) && 0 <= f < FRAMES && Hit(t[n].m, d, f) == Some(f)
  {
    RunKeeps(t, master, n);
    assert PagingFrame(t[n].m, f) && Sees(t[n].m, d, f);
  }

  /** In every state of every run, every address in a region of any process leads where the region says. */
  lemma {:induction false} RunTranslates(t: seq<State>, master: int, n: nat, c: int, i: nat, va: int)
    requires Run(t, master) && Inv(t[0], master) && n < |t|
    requires c in t[n].rs && i < |t[n].rs[c]| && Contains(t[n].rs[c][i], va)
    ensures Wf(t[n].m) && c in t[n].m.dirs && 0 <= va < LIMIT
    ensures var r := t[n].rs[c][i]; Translate(t[n].m, c, va) == if r.flags.present then Some((r.pa + (va - r.start)) % LIMIT) else None
  {
    RunKeeps(t, master, n);
    assert RegionOk(t[n].rs[c][i]);
    TranslateAgrees(t[n].rs[c], t[n].m, c, i, va);
  }

  /** And two addresses in owned regions lead to the same byte only if they are the same address of the same process. */
  lemma {:induction false} RunIsolates(t: seq<State>, master: int, n: nat, c: int, i: nat, va: int, d: int, j: nat, vb: int)
    requires Run(t, master) && Inv(t[0], master) && n < |t|
    requires Owns(t[n].rs, c, i) && Contains(t[n].rs[c][i], va) && t[n].rs[c][i].flags.present
    requires Owns(t[n].rs, d, j) && Contains(t[n].rs[d][j], vb) && t[n].rs[d][j].flags.present
    requires |t[n].fs| <= FRAMES
    ensures Wf(t[n].m) && c in t[n].m.dirs && d in t[n].m.dirs && 0 <= va < LIMIT && 0 <= vb < LIMIT
    ensures Translate(t[n].m, c, va) == Translate(t[n].m, d, vb) ==> c == d && va == vb
  {
    RunTranslates(t, master, n, c, i, va);
    RunTranslates(t, master, n, d, j, vb);
    RunKeeps(t, master, n);
    var r, q := t[n].rs[c][i], t[n].rs[d][j];
    BelowLimit(t[n].fs, r);
    BelowLimit(t[n].fs, q);
    SameByte(r, q, va, vb);
  }

  /** Two addresses lead to the same byte only where their regions meet, in one region only if they are equal. */
  lemma {:induction false} SameByte(r: Region, q: Region, va: int, vb: int)
    requires RegionOk(r) && RegionOk(q) && r.pa + r.size <= LIMIT && q.pa + q.size <= LIMIT && Contains(r, va) && Contains(q, vb)
    ensures (r.pa + (va - r.start)) % LIMIT == (q.pa + (vb - q.start)) % LIMIT ==> Meets(r, q) && (r == q ==> va == vb)
  {
    assert 0 <= r.pa + (va - r.start) < LIMIT && 0 <= q.pa + (vb - q.start) < LIMIT;
  }

  lemma {:induction false} BelowLimit(fs: seq<bool>, r: Region)
    requires RegionOk(r) && Taken(fs, r) && |fs| <= FRAMES
    ensures r.pa + r.size <= LIMIT
  {
    assert r.pa == PAGE * (r.pa / PAGE) && r.size == PAGE * Len(r);
  }

  // ---- regions that do not own their memory ----

  /** Region j of d owns nothing and lies in the memory that region i of c owns, as shm_share makes it. */
  ghost predicate Borrows(s: State, d: int, j: int, c: int, i: int) {
    && Owns(s.rs, c, i) && d in s.rs && 0 <= j < |s.rs[d]| && !s.rs[d][j].own
    && s.rs[c][i].pa <= s.rs[d][j].pa && s.rs[d][j].pa + s.rs[d][j].size <= s.rs[c][i].pa + s.rs[c][i].size
  }

  predicate Has(s: State, c: int, q: Region) {
    c in s.rs && q in s.rs[c]
  }

  /** A borrowed region shares bytes with no owned region but its source. */
  lemma {:induction false} BorrowedIsolates(s: State, master: int, d: int, j: nat, va: int, c: int, i: nat, e: int, l: nat, vb: int)
    requires Inv(s, master) && Borrows(s, d, j, c, i) && Contains(s.rs[d][j], va) && s.rs[d][j].flags.present
    requires Owns(s.rs, e, l) && Contains(s.rs[e][l], vb) && s.rs[e][l].flags.present && |s.fs| <= FRAMES
    ensures Wf(s.m) && d in s.m.dirs && e in s.m.dirs && 0 <= va < LIMIT && 0 <= vb < LIMIT
    ensures Translate(s.m, d, va) == Translate(s.m, e, vb) <==>
      e == c && l == i && s.rs[d][j].pa + (va - s.rs[d][j].start) == s.rs[c][i].pa + (vb - s.rs[c][i].start)
  {
    var r, q, o := s.rs[d][j], s.rs[e][l], s.rs[c][i];
    assert RegionOk(r) && RegionOk(q) && RegionOk(o);
    TranslateAgrees(s.rs[d], s.m, d, j, va);
    TranslateAgrees(s.rs[e], s.m, e, l, vb);
    BelowLimit(s.fs, o);
    BelowLimit(s.fs, q);
    NoWrap(r, va);
    NoWrap(q, vb);
    if r.pa + (va - r.start) == q.pa + (vb - q.start) { SourceOnly(s, master, d, j, va, c, i, e, l, vb); }
  }

  lemma {:induction false} NoWrap(r: Region, va: int)
    requires RegionOk(r) && r.pa + r.size <= LIMIT && Contains(r, va)
    ensures (r.pa + (va - r.start)) % LIMIT == r.pa + (va - r.start)
  {
  }

  lemma {:induction false} SourceOnly(s: State, master: int, d: int, j: nat, va: int, c: int, i: nat, e: int, l: nat, vb: int)
    requires Inv(s, master) && Borrows(s, d, j, c, i) && Contains(s.rs[d][j], va) && Owns(s.rs, e, l) && Contains(s.rs[e][l], vb)
    requires s.rs[d][j].pa + (va - s.rs[d][j].start) == s.rs[e][l].pa + (vb - s.rs[e][l].start)
    ensures e == c && l == i
  {
    assert Meets(s.rs[c][i], s.rs[e][l]);
  }

  lemma {:induction false} OneGoes(rs: seq<Region>, k: nat, q: Region)
    requires k < |rs| && q in rs && q != rs[k]
    ensures q in Minus(rs, k)
  {
    var i :| 0 <= i < |rs| && rs[i] == q;
    assert Minus(rs, k)[if i < k then i else i - 1] == q;
  }

  lemma {:induction false} OneComes(rs: seq<Region>, r: Region, k: nat, q: Region)
    requires k <= |rs| && q in rs
    ensures q in With(rs, r, k)
  {
    var i :| 0 <= i < |rs| && rs[i] == q;
    assert With(rs, r, k)[if i < k then i else i + 1] == q;
  }

  /** Sorted disjoint regions are pairwise different. */
  lemma {:induction false} GoneForGood(rs: seq<Region>, k: nat)
    requires Ordered(rs) && k < |rs|
    ensures rs[k] !in Minus(rs, k)
  {
    forall i | 0 <= i < |rs| && i != k ensures rs[i] != rs[k] {
      assert RegionOk(rs[i]) && RegionOk(rs[k]);
      assert if i < k then End(rs[i]) <= rs[k].start else End(rs[k]) <= rs[i].start;
    }
  }

  /** The blocks of r, inside those of q, are free once q's are. */
  lemma {:induction false} InsideFreed(fs: seq<bool>, gs: seq<bool>, q: Region, r: Region)
    requires RegionOk(r) && RegionOk(q) && Taken(fs, q) && q.pa <= r.pa && r.pa + r.size <= q.pa + q.size && |gs| == |fs|
    requires forall b :: q.pa / PAGE <= b < q.pa / PAGE + Len(q) ==> !gs[b]
    ensures FreeRun(gs, r.pa / PAGE, Len(r)) && !Taken(gs, r)
  {
    assert r.pa == PAGE * (r.pa / PAGE) && r.size == PAGE * Len(r) && q.pa == PAGE * (q.pa / PAGE) && q.size == PAGE * Len(q);
    assert !gs[r.pa / PAGE];
  }

  lemma {:induction false} InsideTaken(fs: seq<bool>, q: Region, r: Region)
    requires RegionOk(r) && RegionOk(q) && Taken(fs, q) && q.pa <= r.pa && r.pa + r.size <= q.pa + q.size
    ensures Taken(fs, r)
  {
    assert r.pa == PAGE * (r.pa / PAGE) && r.size == PAGE * Len(r) && q.pa == PAGE * (q.pa / PAGE) && q.size == PAGE * Len(q);
  }

  lemma {:induction false} RemovedOwner(s: State, s': State, master: int, c: int, k: nat, q: Region, r: Region)
    requires Inv(s, master) && Removes(s, s', c, k) && s.rs[c][k] == q && q.own && RegionOk(r) && q.pa <= r.pa && r.pa + r.size <= q.pa + q.size
    ensures FreeRun(s'.fs, r.pa / PAGE, Len(r)) && !Taken(s'.fs, r) && !Has(s', c, q)
  {
    assert Owns(s.rs, c, k);
    InsideFreed(s.fs, s'.fs, q, r);
    GoneForGood(s.rs[c], k);
  }

  lemma {:induction false} EndedOwner(s: State, s': State, master: int, c: int, q: Region, r: Region)
    requires Inv(s, master) && Ends(s, s', c) && q in s.rs[c] && q.own && RegionOk(r) && q.pa <= r.pa && r.pa + r.size <= q.pa + q.size
    ensures FreeRun(s'.fs, r.pa / PAGE, Len(r)) && !Taken(s'.fs, r) && !Has(s', c, q)
  {
    var i :| 0 <= i < |s.rs[c]| && s.rs[c][i] == q;
    assert Owns(s.rs, c, i);
    AllFreedExact(s.fs, s.rs[c]);
    forall b | q.pa / PAGE <= b < q.pa / PAGE + Len(q) ensures InOwned(s.rs[c], b) {}
    InsideFreed(s.fs, s'.fs, q, r);
  }

  /** A step that neither removes q from c nor ends c leaves it there. */
  lemma {:induction false} OwnerStays(s: State, s': State, master: int, c: int, q: Region)
    requires Inv(s, master) && Next(s, s', master) && Has(s, c, q)
    requires !Ends(s, s', c) && forall k: nat :: Removes(s, s', c, k) ==> s.rs[c][k] != q
    ensures Has(s', c, q)
  {
    if e, r, k :| Adds(s, s', e, r, k) {
      if e == c { OneComes(s.rs[c], r, k, q); }
    } else if e, k :| Removes(s, s', e, k) {
      if e == c { OneGoes(s.rs[c], k, q); }
    }
  }

  /**
   One step later the memory of a borrowed region is still in use exactly when
   its source still has the region that owns it; otherwise all of it is free
   for the next allocation, whoever makes it.
   */
  lemma {:induction false} BorrowedExact(s: State, s': State, master: int, d: int, j: nat, c: int, i: nat)
    requires Inv(s, master) && Next(s, s', master) && Borrows(s, d, j, c, i)
    ensures Taken(s'.fs, s.rs[d][j]) <==> Has(s', c, s.rs[c][i])
    ensures !Has(s', c, s.rs[c][i]) ==> FreeRun(s'.fs, s.rs[d][j].pa / PAGE, Len(s.rs[d][j]))
  {
    var r, q := s.rs[d][j], s.rs[c][i];
    assert q in s.rs[c] && RegionOk(r) && RegionOk(q);
    NextKeeps(s, s', master);
    if Ends(s, s', c) {
      EndedOwner(s, s', master, c, q, r);
    } else if k: nat :| Removes(s, s', c, k) && s.rs[c][k] == q {
      RemovedOwner(s, s', master, c, k, q, r);
    } else {
      OwnerStays(s, s', master, c, q);
      var l :| 0 <= l < |s'.rs[c]| && s'.rs[c][l] == q;
      assert Owns(s'.rs, c, l);
      InsideTaken(s'.fs, q, r);
    }
  }

  /** The two addresses lead to the same byte. */
  ghost predicate Together(m: Mem, d: int, va: int, e: int, vb: int) {
    && Wf(m) && d in m.dirs && e in m.dirs && 0 <= va < LIMIT && 0 <= vb < LIMIT
    && Translate(m, d, va) == Translate(m, e, vb)
  }

  /**
   A share outlives its source: process c ends while d still maps its memory,
   process e allocates that memory, and from then on the two meet there.
   */
  lemma {:induction false} ShareOutlivesSource(s: State, s1: State, s2: State, master: int, d: int, j: nat, c: int, i: nat, e: int, q: Region, k: nat, x: int)
    requires Inv(s, master) && Borrows(s, d, j, c, i) && d != c && Ends(s, s1, c) && Reuses(s1, s2, d, s.rs[d][j], e, q, k, x)
    ensures FreeRun(s1.fs, s.rs[d][j].pa / PAGE, Len(s.rs[d][j]))
    ensures Inv(s2, master) && d in s2.rs && s2.rs[d] == s.rs[d]
    ensures Together(s2.m, d, s.rs[d][j].start + x, e, q.start + x)
  {
    SourceEnds(s, s1, master, d, j, c, i);
    NextOwnerMeets(s1, s2, master, d, j, s.rs[d][j], e, q, k, x);
  }

  /** Process e, not d, gets the memory of d's region r as an owned region q; byte x lies in both. */
  ghost predicate Reuses(s: State, s': State, d: int, r: Region, e: int, q: Region, k: nat, x: int) {
    && e != d && Adds(s, s', e, q, k) && q.own && q.pa == r.pa
    && q.flags.present && r.flags.present && 0 <= x < q.size && x < r.size
  }

  lemma {:induction false} SourceEnds(s: State, s1: State, master: int, d: int, j: nat, c: int, i: nat)
    requires Inv(s, master) && Borrows(s, d, j, c, i) && d != c && Ends(s, s1, c)
    ensures Inv(s1, master) && d in s1.rs && s1.rs[d] == s.rs[d] && FreeRun(s1.fs, s.rs[d][j].pa / PAGE, Len(s.rs[d][j]))
  {
    assert s.rs[c][i] in s.rs[c] && RegionOk(s.rs[d][j]);
    EndedOwner(s, s1, master, c, s.rs[c][i], s.rs[d][j]);
    EndsKeeps(s, s1, master, c);
  }

  lemma {:induction false} NextOwnerMeets(s: State, s': State, master: int, d: int, j: nat, r: Region, e: int, q: Region, k: nat, x: int)
    requires Inv(s, master) && d in s.rs && j < |s.rs[d]| && s.rs[d][j] == r && Reuses(s, s', d, r, e, q, k, x)
    ensures Inv(s', master) && d in s'.rs && s'.rs[d] == s.rs[d] && Together(s'.m, d, r.start + x, e, q.start + x)
  {
    AddsKeeps(s, s', master, e, q, k);
    assert s'.rs[e][k] == q;
    MeetThere(s', master, d, j, e, k, x);
  }

  /** Two regions at the same physical address lead to the same bytes. */
  lemma {:induction false} MeetThere(s: State, master: int, d: int, j: nat, e: int, k: nat, x: int)
    requires Inv(s, master) && d in s.rs && j < |s.rs[d]| && e in s.rs && k < |s.rs[e]| && s.rs[d][j].pa == s.rs[e][k].pa
    requires s.rs[d][j].flags.present && s.rs[e][k].flags.present && 0 <= x < s.rs[d][j].size && x < s.rs[e][k].size
    ensures Together(s.m, d, s.rs[d][j].start + x, e, s.rs[e][k].start + x)
  {
    TranslateAgrees(s.rs[d], s.m, d, j, s.rs[d][j].start + x);
    TranslateAgrees(s.rs[e], s.m, e, k, s.rs[e][k].start + x);
  }
}
