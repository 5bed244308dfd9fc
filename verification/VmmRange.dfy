/**
 Mapping and unmapping runs of pages under directory entries that are nobody
 else's, as the loops of osdev/kernel/mm/vmm.c do, and directories coming and going.
 */
module VmmRange {
  import opened Paging
  import Pmm
  import opened Basics

  /** The user area above the shared user heap, USER_HEAP_END, as a page number. */
  const WINDOW := 0xC_1000

  /** A directory entry that can take a mapping without touching anybody else: absent, a 4 MB page, or a table nothing else uses. */
  ghost predicate Apt(m: Mem, c: int, i: int) {
    Wf(m) && c in m.dirs && 0 <= i < 1024 && (Table(m.dirs[c][i]) ==> Sole(m, c, i))
  }

  /** The entries under pages v to v + n - 1 are of that kind. */
  ghost predicate AptRun(m: Mem, c: int, v: int, n: int) {
    forall w :: v <= w < v + n ==> Apt(m, c, w / 1024)
  }

  /** They are tables nothing else uses. */
  ghost predicate SoleRun(m: Mem, c: int, v: int, n: int)
    requires Wf(m) && c in m.dirs && 0 <= v && v + n <= FRAMES
  {
    forall w :: v <= w < v + n ==> Sole(m, c, w / 1024)
  }

  /** In the window a process has only such tables, and no 4 MB page. */
  ghost predicate Own(m: Mem, c: int) {
    && Wf(m) && c in m.dirs
    && (forall i :: WINDOW / 1024 <= i < 1024 ==> Apt(m, c, i) && !(m.dirs[c][i].present && m.dirs[c][i].big))
  }

  /** The directory has no entry in the window. */
  ghost predicate WindowClear(m: Mem, c: int)
    requires Wf(m) && c in m.dirs
  {
    forall i :: WINDOW / 1024 <= i < 1024 ==> !m.dirs[c][i].present
  }

  /**
   Directory c was cloned from master: it sits in a used slot of the pool that
   is no table, and each entry is the master's or leads to a table of its own.
   */
  ghost predicate Homed(m: Mem, master: int, c: int) {
    && Wf(m) && master in m.dirs && c in m.dirs && c != master
    && InPool(m, c) && m.used[c - m.pool] && c !in m.tabs
    && (forall i :: 0 <= i < 1024 ==> m.dirs[c][i] == m.dirs[master][i] || Sole(m, c, i))
  }

  /** The teardown of such a directory gives back tables that nobody else uses. */
  lemma {:induction false} HomedSeparate(m: Mem, master: int, c: int)
    requires Homed(m, master, c)
    ensures Separate(m, master, c)
  {
  }

  /** What changes in directory c leave to everybody: aptness, tables, origins. */
  ghost predicate Stable(m: Mem, m': Mem, c: int) {
    && Wf(m) && Wf(m') && m'.dirs.Keys == m.dirs.Keys && m'.pool == m.pool
    && (forall e, i :: Apt(m, e, i) ==> Apt(m', e, i))
    && (forall e, i :: e in m.dirs && 0 <= i < 1024 && Table(m.dirs[e][i]) ==> m'.dirs[e][i] == m.dirs[e][i])
    && (forall e :: Own(m, e) ==> Own(m', e))
    && (forall a, e :: a != c && Homed(m, a, e) ==> Homed(m', a, e))
    && (forall e :: e in m.dirs && e != c ==> m'.dirs[e] == m.dirs[e])
  }

  /** Every page but those in [v, v + n) of directory c translates as before. */
  ghost predicate SameBut(m: Mem, m': Mem, c: int, v: int, n: nat) {
    && Stable(m, m', c)
    && (forall d, w :: d in m.dirs && 0 <= w < FRAMES && !(d == c && v <= w < v + n) ==> Lookup(m', d, w) == Lookup(m, d, w))
  }

  /** No directory but c translates anything differently. */
  ghost predicate Aside(m: Mem, m': Mem, c: int) {
    && Stable(m, m', c)
    && (forall d, w :: d in m.dirs && d != c && 0 <= w < FRAMES ==> Lookup(m', d, w) == Lookup(m, d, w))
  }

  lemma {:induction false} AsideTrans(m: Mem, b: Mem, m': Mem, c: int)
    requires Aside(m, b, c) && Aside(b, m', c)
    ensures Aside(m, m', c)
  {
    forall d, w | d in m.dirs && d != c && 0 <= w < FRAMES ensures Lookup(m', d, w) == Lookup(m, d, w) {
      assert Lookup(b, d, w) == Lookup(m, d, w);
    }
  }

  /** Under an apt entry no page shares its table entry with another. */
  lemma {:induction false} AptEntry(m: Mem, c: int, v: int)
    requires 0 <= v < FRAMES && Apt(m, c, v / 1024)
    ensures forall d, w :: d in m.dirs && 0 <= w < FRAMES && Aliases(m, d, w, c, v) ==> d == c && w == v
  {
    forall d, w | d in m.dirs && 0 <= w < FRAMES && Aliases(m, d, w, c, v) ensures d == c && w == v {
      assert w == w / 1024 * 1024 + w % 1024 && v == v / 1024 * 1024 + v % 1024;
    }
  }

  /** All other pages survive whatever is mapped at page v. */
  ghost predicate SparesAll(m: Mem, c: int, v: int)
    requires Wf(m) && c in m.dirs && 0 <= v < FRAMES
  {
    forall d, w, frame, fl ::
      d in m.dirs && 0 <= w < FRAMES && !(d == c && w == v) && 0 <= frame < FRAMES && MapPage(m, c, v, frame, fl).Some? ==>
        Unmoved(m, MapPage(m, c, v, frame, fl).value, d, w)
  }

  /** The guard is exact: mapping at page v disturbs nobody, whatever is mapped, exactly when its entry is apt. */
  lemma {:induction false} AptExact(m: Mem, c: int, v: int)
    requires Wf(m) && c in m.dirs && 0 <= v < FRAMES
    ensures Apt(m, c, v / 1024) <==> SparesAll(m, c, v)
  {
    if Apt(m, c, v / 1024) {
      AptEntry(m, c, v);
      forall d, w, frame, fl | d in m.dirs && 0 <= w < FRAMES && !(d == c && w == v) && 0 <= frame < FRAMES && MapPage(m, c, v, frame, fl).Some?
        ensures Unmoved(m, MapPage(m, c, v, frame, fl).value, d, w)
      {
        MapSpares(m, c, v, d, w);
      }
    } else {
      var d, j :| d in m.dirs && 0 <= j < 1024 && Table(m.dirs[d][j]) && m.dirs[d][j].frame == m.dirs[c][v / 1024].frame && !(d == c && j == v / 1024);
      var w := j * 1024 + v % 1024;
      assert w / 1024 == j && w % 1024 == v % 1024;
      assert Aliases(m, d, w, c, v);
      MapSpares(m, c, v, d, w);
    }
  }

  /** One entry of c becomes a table in a slot that was free; everything else about the directories stays. */
  ghost predicate Grown(m: Mem, m': Mem, c: int, i: int, q: Pde) {
    && Wf(m) && Wf(m') && c in m.dirs && 0 <= i < 1024 && m'.pool == m.pool
    && !Table(m.dirs[c][i]) && Table(q) && q.frame !in m.tabs && InPool(m, q.frame) && !m.used[q.frame - m.pool]
    && m'.dirs == m.dirs[c := m.dirs[c][i := q]] && m'.tabs.Keys == m.tabs.Keys + {q.frame}
    && m'.used == m.used[q.frame - m.pool := true]
  }

  /** A mapping grows its directory, or leaves all directories alone. */
  lemma {:induction false} MapGrows(m: Mem, c: int, v: int, frame: int, fl: Flags)
    requires Wf(m) && c in m.dirs && 0 <= v < FRAMES && MapPage(m, c, v, frame, fl).Some?
    ensures var m' := MapPage(m, c, v, frame, fl).value;
      && Wf(m')
      && if Table(m.dirs[c][v / 1024]) then m'.dirs == m.dirs && m'.used == m.used && m'.tabs.Keys == m.tabs.Keys && m'.pool == m.pool
         else Grown(m, m', c, v / 1024, m'.dirs[c][v / 1024])
  {
    MapOnly(m, c, v, frame, fl);
    PoolAllocCorrect(m);
    TabledOnly(m, c, v, fl);
  }

  /** No table in use has the frame of a new one. */
  lemma {:induction false} TablesKnown(m: Mem, d: int, j: int)
    requires Wf(m) && d in m.dirs && 0 <= j < 1024 && Table(m.dirs[d][j])
    ensures m.dirs[d][j].frame in m.tabs
  {
    assert PdeOk(m, m.dirs[d][j]);
  }

  lemma {:induction false} GrownSole(m: Mem, m': Mem, c: int, i: int, q: Pde, e: int, j: int)
    requires Grown(m, m', c, i, q) && e in m.dirs && 0 <= j < 1024 && ((e == c && j == i) || Sole(m, e, j))
    ensures Sole(m', e, j)
  {
    forall d, k | d in m.dirs && 0 <= k < 1024 && Table(m.dirs[d][k]) ensures m.dirs[d][k].frame in m.tabs { TablesKnown(m, d, k); }
  }

  lemma {:induction false} GrownStable(m: Mem, m': Mem, c: int, i: int, q: Pde)
    requires Grown(m, m', c, i, q)
    ensures Stable(m, m', c)
  {
    forall e, j | Apt(m, e, j) ensures Apt(m', e, j) {
      if (e == c && j == i) || Table(m.dirs[e][j]) { GrownSole(m, m', c, i, q, e, j); }
    }
    forall e | Own(m, e) ensures Own(m', e) {
      forall j | WINDOW / 1024 <= j < 1024 ensures Apt(m', e, j) && !(m'.dirs[e][j].present && m'.dirs[e][j].big) {
        assert Apt(m, e, j);
      }
    }
    forall a, e | a != c && Homed(m, a, e) ensures Homed(m', a, e) {
      forall j | 0 <= j < 1024 ensures m'.dirs[e][j] == m'.dirs[a][j] || Sole(m', e, j) {
        if (e == c && j == i) || Sole(m, e, j) { GrownSole(m, m', c, i, q, e, j); }
      }
    }
  }

  /** Changes inside tables leave all of that alone. */
  lemma {:induction false} SameDirsStable(m: Mem, m': Mem, c: int)
    requires Wf(m) && Wf(m') && m'.dirs == m.dirs && m'.used == m.used && m'.tabs.Keys == m.tabs.Keys && m'.pool == m.pool
    ensures Stable(m, m', c)
  {
    forall e, j | e in m.dirs && 0 <= j < 1024 && Sole(m, e, j) ensures Sole(m', e, j) {}
    forall e, j | Apt(m, e, j) ensures Apt(m', e, j) {}
  }

  /** One page under an apt entry: nothing else changes anywhere. */
  lemma {:induction false} MapOwn(m: Mem, c: int, v: int, frame: int, fl: Flags)
    requires 0 <= v < FRAMES && Apt(m, c, v / 1024) && MapPage(m, c, v, frame, fl).Some?
    ensures var m' := MapPage(m, c, v, frame, fl).value;
      && SameBut(m, m', c, v, 1) && Sole(m', c, v / 1024)
      && Lookup(m', c, v) == (if fl.present then Some(Page(frame, fl.user && TableUser(m.dirs[c][v / 1024], fl), fl.rw)) else None)
  {
    AptEntry(m, c, v);
    MapOnly(m, c, v, frame, fl);
    MapGrows(m, c, v, frame, fl);
    var m' := MapPage(m, c, v, frame, fl).value;
    if Table(m.dirs[c][v / 1024]) {
      SameDirsStable(m, m', c);
      assert Apt(m', c, v / 1024);
    } else {
      GrownStable(m, m', c, v / 1024, m'.dirs[c][v / 1024]);
      GrownSole(m, m', c, v / 1024, m'.dirs[c][v / 1024], c, v / 1024);
    }
  }

  lemma {:induction false} UnmapOwn(m: Mem, c: int, v: int)
    requires Wf(m) && c in m.dirs && 0 <= v < FRAMES && Sole(m, c, v / 1024)
    ensures Fine(m, c, v)
    ensures var m' := UnmapPage(m, c, v);
      SameBut(m, m', c, v, 1) && Lookup(m', c, v) == if Lookup(m, c, v).Some? then Rest(v) else None
  {
    AptEntry(m, c, v);
    UnmapOnly(m, c, v);
    SameDirsStable(m, UnmapPage(m, c, v), c);
  }

  // ---- directories come and go ----

  /** To directory e nothing happened: it reads the same translations through tables that are as much its own as before. */
  ghost predicate Keeps(m: Mem, m': Mem, e: int) {
    && Wf(m) && Wf(m') && e in m.dirs && e in m'.dirs && m'.dirs[e] == m.dirs[e]
    && (forall i :: Apt(m, e, i) ==> Apt(m', e, i))
    && (forall w :: 0 <= w < FRAMES ==> Lookup(m', e, w) == Lookup(m, e, w))
  }

  /** A free slot became directory c, a copy of the master. */
  ghost predicate Born(m: Mem, m': Mem, master: int, c: int) {
    && Wf(m) && master in m.dirs && c !in m.dirs && c !in m.tabs && InPool(m, c) && !m.used[c - m.pool]
    && m' == m.(dirs := m.dirs[c := m.dirs[master]], used := m.used[c - m.pool := true])
  }

  lemma {:induction false} BornWf(m: Mem, m': Mem, master: int, c: int)
    requires Born(m, m', master, c)
    ensures Wf(m')
    ensures forall e, w :: e in m.dirs && 0 <= w < FRAMES ==> Lookup(m', e, w) == Lookup(m, e, w)
    ensures forall w :: 0 <= w < FRAMES ==> Lookup(m', c, w) == Lookup(m, master, w)
  {
    forall d, i | d in m'.dirs && 0 <= i < 1024 ensures PdeOk(m', m'.dirs[d][i]) {
      assert PdeOk(m, m.dirs[if d == c then master else d][i]);
    }
  }

  /** A table that only e uses, e not being the master, is not in the copy. */
  lemma {:induction false} BornSole(m: Mem, m': Mem, master: int, c: int, e: int, i: int)
    requires Born(m, m', master, c) && Wf(m') && e in m.dirs && e != master && 0 <= i < 1024 && Sole(m, e, i)
    ensures Sole(m', e, i)
  {
    assert forall j :: 0 <= j < 1024 && Table(m.dirs[master][j]) ==> m.dirs[master][j].frame != m.dirs[e][i].frame;
  }

  /** The new directory is homed, and every other process keeps what it has. */
  lemma {:induction false} BornKeeps(m: Mem, m': Mem, master: int, c: int)
    requires Born(m, m', master, c)
    ensures Homed(m', master, c)
    ensures forall e :: e in m.dirs && e != master ==> Keeps(m, m', e)
    ensures forall e :: e != master && Homed(m, master, e) ==> Homed(m', master, e)
  {
    BornWf(m, m', master, c);
    forall e | e in m.dirs && e != master ensures Keeps(m, m', e) {
      forall i | Apt(m, e, i) ensures Apt(m', e, i) {
        if Table(m.dirs[e][i]) { BornSole(m, m', master, c, e, i); }
      }
    }
    forall e | e != master && Homed(m, master, e) ensures Homed(m', master, e) {
      forall i | 0 <= i < 1024 ensures m'.dirs[e][i] == m'.dirs[master][i] || Sole(m', e, i) {
        if Sole(m, e, i) { BornSole(m, m', master, c, e, i); }
      }
    }
  }

  /** Directory c is gone, and to the others nothing happened. */
  ghost predicate Gone(m: Mem, m': Mem, c: int) {
    && Wf(m) && Wf(m') && c in m.dirs && m'.dirs == m.dirs - {c} && m'.pool == m.pool && m'.tabs.Keys <= m.tabs.Keys
    && (forall d, w :: d in m'.dirs && 0 <= w < FRAMES ==> Lookup(m', d, w) == Lookup(m, d, w))
    && (forall d :: d in m'.dirs && InPool(m, d) && d !in m.tabs && m.used[d - m.pool] ==> m'.used[d - m.pool])
  }

  lemma {:induction false} GoneKeeps(m: Mem, m': Mem, c: int)
    requires Gone(m, m', c)
    ensures forall e :: e in m'.dirs ==> Keeps(m, m', e)
    ensures forall a, e :: a != c && e != c && Homed(m, a, e) ==> Homed(m', a, e)
  {
    forall e, i | e in m'.dirs && 0 <= i < 1024 && Sole(m, e, i) ensures Sole(m', e, i) {}
    forall e | e in m'.dirs ensures Keeps(m, m', e) {
      forall i | Apt(m, e, i) ensures Apt(m', e, i) {}
    }
    forall a, e | a != c && e != c && Homed(m, a, e) ensures Homed(m', a, e) {
      forall i | 0 <= i < 1024 ensures m'.dirs[e][i] == m'.dirs[a][i] || Sole(m', e, i) {
        assert m.dirs[e][i] == m.dirs[a][i] || Sole(m, e, i);
      }
    }
  }

  lemma {:induction false} AsideKeeps(m: Mem, m': Mem, e: int, c: int)
    requires Aside(m, m', c) && e in m.dirs && e != c
    ensures Keeps(m, m', e)
  {
  }

  // ---- the kernel's own way to the tables ----

  /** Frames that hold paging structures: the slots of the pool and the directories. */
  predicate PagingFrame(m: Mem, f: int) {
    InPool(m, f) || f in m.dirs
  }

  /** The frame that an access through the address of frame f reaches under directory d. */
  ghost function Hit(m: Mem, d: int, f: int): Option<int>
    requires Wf(m) && d in m.dirs && 0 <= f < FRAMES
  {
    match Lookup(m, d, f)
    case None => None
    case Some(p) => Some(p.frame)
  }

  /** Under directory d the address of frame f, which lies in the identity band, leads to frame f. */
  ghost predicate Sees(m: Mem, d: int, f: int) {
    Wf(m) && d in m.dirs && 0 <= f < USER_HEAP && Hit(m, d, f) == Some(f)
  }

  /** Whatever directory is loaded, pdir_of and ptbl_of_pde lead to the directories and tables they name. */
  ghost predicate Reach(m: Mem) {
    Wf(m) && forall d, f :: d in m.dirs && PagingFrame(m, f) ==> Sees(m, d, f)
  }

  /** Identity-mapped 4 MB pages over all paging structures, as arch_paging_init makes them, give that. */
  lemma {:induction false} IdentityReach(m: Mem, k: int)
    requires Wf(m) && 0 <= k && 1024 * k <= USER_HEAP && (forall f :: PagingFrame(m, f) ==> 0 <= f < 1024 * k)
    requires forall d, i :: d in m.dirs && 0 <= i < k ==> m.dirs[d][i].present && m.dirs[d][i].big && m.dirs[d][i].frame == 1024 * i
    ensures Reach(m)
  {
    forall d, f | d in m.dirs && PagingFrame(m, f) ensures Sees(m, d, f) {
      assert m.dirs[d][f / 1024].frame == 1024 * (f / 1024);
    }
  }

  /** Mapping page v to this frame hides no paging structure. */
  predicate ClearPage(m: Mem, v: int, frame: int, fl: Flags) {
    PagingFrame(m, v) ==> fl.present && frame == v
  }

  ghost predicate ClearRun(m: Mem, v: int, f: int, n: int, fl: Flags) {
    forall w :: v <= w < v + n && PagingFrame(m, w) ==> fl.present && (f + (w - v)) % FRAMES == w
  }

  /** Changes to pages of c that leave the paging structures among them in sight. */
  lemma {:induction false} ReachElsewhere(m: Mem, m': Mem, c: int, v: int, n: nat)
    requires Reach(m) && SameBut(m, m', c, v, n) && forall w :: v <= w < v + n && PagingFrame(m, w) ==> Sees(m', c, w)
    ensures Reach(m')
  {
    forall d, f | d in m'.dirs && PagingFrame(m', f) ensures Sees(m', d, f) {
      assert PagingFrame(m, f) && Sees(m, d, f);
      if !(d == c && v <= f < v + n) { assert Lookup(m', d, f) == Lookup(m, d, f); }
    }
  }

  /** After a page is mapped the kernel reaches all its tables exactly when the page hides none of them. */
  lemma {:induction false} MapReachExact(m: Mem, c: int, v: int, frame: int, fl: Flags)
    requires Reach(m) && 0 <= v < FRAMES && 0 <= frame < FRAMES && Apt(m, c, v / 1024) && MapPage(m, c, v, frame, fl).Some?
    ensures Reach(MapPage(m, c, v, frame, fl).value) <==> ClearPage(m, v, frame, fl)
  {
    MapOwn(m, c, v, frame, fl);
    var m' := MapPage(m, c, v, frame, fl).value;
    if ClearPage(m, v, frame, fl) {
      if PagingFrame(m, v) { assert Sees(m, c, v); }
      ReachElsewhere(m, m', c, v, 1);
    } else {
      assert PagingFrame(m', v) && !Sees(m', c, v);
    }
  }

  /** Unmapping leaves the identity page where paging structures are. */
  lemma {:induction false} UnmapReach(m: Mem, c: int, v: int)
    requires Reach(m) && c in m.dirs && 0 <= v < FRAMES && Sole(m, c, v / 1024)
    ensures Fine(m, c, v) && Reach(UnmapPage(m, c, v))
  {
    UnmapOwn(m, c, v);
    if PagingFrame(m, v) { assert Sees(m, c, v); }
    ReachElsewhere(m, UnmapPage(m, c, v), c, v, 1);
  }

  /** A cloned directory reaches what the master reaches. */
  lemma {:induction false} BornReach(m: Mem, m': Mem, master: int, c: int)
    requires Reach(m) && Born(m, m', master, c)
    ensures Reach(m')
  {
    BornWf(m, m', master, c);
    forall d, f | d in m'.dirs && PagingFrame(m', f) ensures Sees(m', d, f) {
      assert PagingFrame(m, f);
      assert Sees(m, if d == c then master else d, f);
    }
  }

  lemma {:induction false} GoneReach(m: Mem, m': Mem, c: int)
    requires Reach(m) && Gone(m, m', c)
    ensures Reach(m')
  {
    forall d, f | d in m'.dirs && PagingFrame(m', f) ensures Sees(m', d, f) {
      assert PagingFrame(m, f) && Sees(m, d, f);
    }
  }

  // ---- the tables a run needs ----

  /** Page v + n - 1 is the first of the run under its directory entry. */
  predicate FirstUnder(v: int, n: nat) {
    n == 1 || (n > 1 && (v + n - 1) % 1024 == 0)
  }

  /** How many entries under the run hold no table yet. */
  function Needed(m: Mem, c: int, v: int, n: nat): int
    requires c in m.dirs && |m.dirs[c]| == 1024 && 0 <= v && v + n <= FRAMES
  {
    if n == 0 then 0
    else Needed(m, c, v, n - 1) + if FirstUnder(v, n) && !Table(m.dirs[c][(v + n - 1) / 1024]) then 1 else 0
  }

  lemma {:induction false} NeededGrows(m: Mem, c: int, v: int, i: nat, n: nat)
    requires c in m.dirs && |m.dirs[c]| == 1024 && 0 <= v && v + n <= FRAMES && i <= n
    ensures Needed(m, c, v, i) <= Needed(m, c, v, n)
    decreases n
  {
    if i < n { NeededGrows(m, c, v, i, n - 1); }
  }

  /** Entry i of c holds a table afterwards, in a slot taken for it if there was none; the other entries of c are as before. */
  ghost predicate Took(m: Mem, m': Mem, c: int, i: int) {
    && Wf(m) && Wf(m') && c in m.dirs && c in m'.dirs && 0 <= i < 1024 && Table(m'.dirs[c][i])
    && Pmm.CountFree(m'.used) == Pmm.CountFree(m.used) - (if Table(m.dirs[c][i]) then 0 else 1)
    && (forall j :: 0 <= j < 1024 && j != i ==> m'.dirs[c][j] == m.dirs[c][j])
  }

  /** A mapping takes a slot exactly when its entry holds no table. */
  lemma {:induction false} MapTakes(m: Mem, c: int, v: int, frame: int, fl: Flags)
    requires Wf(m) && c in m.dirs && 0 <= v < FRAMES
    ensures MapPage(m, c, v, frame, fl).Some? <==> Table(m.dirs[c][v / 1024]) || Pmm.CountFree(m.used) > 0
    ensures MapPage(m, c, v, frame, fl).Some? ==> Took(m, MapPage(m, c, v, frame, fl).value, c, v / 1024)
  {
    MapOnly(m, c, v, frame, fl);
    NoneFree(m.used);
    if MapPage(m, c, v, frame, fl).Some? {
      MapGrows(m, c, v, frame, fl);
      var m' := MapPage(m, c, v, frame, fl).value;
      if !Table(m.dirs[c][v / 1024]) { Pmm.CountUpdate(m.used, m'.dirs[c][v / 1024].frame - m.pool, true); }
    }
  }

  lemma {:induction false} NoneFree(used: seq<bool>)
    ensures Pmm.CountFree(used) >= 0 && (Pmm.CountFree(used) == 0 <==> forall i :: 0 <= i < |used| ==> used[i])
  {
    if used != [] { NoneFree(used[..|used| - 1]); }
  }

  // ---- runs of pages ----

  /**
   Page w of a run that takes v, v + 1, ... to f, f + 1, ... translates as the
   flags say; ring 3 may use it if both its flags and its table allow it.
   */
  ghost predicate Mapped(m: Mem, c: int, v: int, f: int, w: int, fl: Flags)
    requires Wf(m) && c in m.dirs && 0 <= w < FRAMES
  {
    var p := Lookup(m, c, w);
    if !fl.present then p == None
    else p.Some? && p.value.frame == (f + (w - v)) % FRAMES && p.value.rw == fl.rw && (p.value.user ==> fl.user)
  }

  lemma {:induction false} OneMore(m: Mem, b: Mem, b': Mem, c: int, v: int, n: nat)
    requires n > 0 && SameBut(m, b, c, v, n - 1) && SameBut(b, b', c, v + n - 1, 1)
    ensures SameBut(m, b', c, v, n)
  {
    forall d, w | d in m.dirs && 0 <= w < FRAMES && !(d == c && v <= w < v + n) ensures Lookup(b', d, w) == Lookup(m, d, w) {
      assert Lookup(b, d, w) == Lookup(m, d, w);
    }
  }

  lemma {:induction false} OneMoreMapped(m: Mem, b: Mem, c: int, v: int, f: int, n: nat, fl: Flags)
    requires n > 0 && SameBut(m, b, c, v + n - 1, 1) && c in m.dirs && 0 <= v && v + n <= FRAMES
    requires forall w :: v <= w < v + n - 1 ==> Mapped(m, c, v, f, w, fl)
    requires Mapped(b, c, v, f, v + n - 1, fl)
    ensures forall w :: v <= w < v + n ==> Mapped(b, c, v, f, w, fl)
  {
    forall w | v <= w < v + n ensures Mapped(b, c, v, f, w, fl) {
      if w < v + n - 1 {
        assert Mapped(m, c, v, f, w, fl) && Lookup(b, c, w) == Lookup(m, c, w);
      }
    }
  }

  /** What a page mapped with these flags shows after it is unmapped. */
  function Left(w: int, fl: Flags): Option<Page> {
    if fl.present then Rest(w) else None
  }

  /** The pages of the run show that already before they are mapped. */
  ghost predicate AtRest(m: Mem, c: int, v: int, n: int, fl: Flags)
    requires Wf(m) && c in m.dirs && 0 <= v && v + n <= FRAMES
  {
    forall w :: v <= w < v + n ==> Lookup(m, c, w) == Left(w, fl)
  }

  /** Tables stay, so a run of own tables stays one. */
  lemma {:induction false} SoleStays(m: Mem, m': Mem, c: int, e: int, i: int)
    requires Stable(m, m', c) && e in m.dirs && 0 <= i < 1024 && Sole(m, e, i)
    ensures Sole(m', e, i)
  {
    assert Apt(m, e, i);
    assert Apt(m', e, i);
  }

  lemma {:induction false} SoleRunStays(m: Mem, m': Mem, c: int, v: int, n: nat)
    requires Stable(m, m', c) && c in m.dirs && 0 <= v && v + n <= FRAMES && SoleRun(m, c, v, n)
    ensures SoleRun(m', c, v, n)
  {
    forall w | v <= w < v + n ensures Sole(m', c, w / 1024) {
      assert Sole(m, c, w / 1024);
      SoleStays(m, m', c, c, w / 1024);
    }
  }

  /** A run was given up: each of its pages is as before, or shows what unmapping leaves. */
  ghost predicate Undone(m: Mem, m': Mem, c: int, v: int, n: nat, fl: Flags) {
    && SameBut(m, m', c, v, n) && c in m.dirs && 0 <= v && v + n <= FRAMES
    && (forall w :: v <= w < v + n ==> Lookup(m', c, w) == Lookup(m, c, w) || Lookup(m', c, w) == Left(w, fl))
  }

  /** Giving up a run that was at rest before leaves nothing changed. */
  lemma {:induction false} UndoneAtRest(m: Mem, m': Mem, c: int, v: int, n: nat, fl: Flags)
    requires Undone(m, m', c, v, n, fl) && AtRest(m, c, v, n, fl)
    ensures SameBut(m, m', c, v, 0)
  {
    forall d, w | d in m.dirs && 0 <= w < FRAMES ensures Lookup(m', d, w) == Lookup(m, d, w) {
      if d == c && v <= w < v + n { assert Lookup(m, c, w) == Left(w, fl); }
    }
  }

  lemma {:induction false} Chain(m: Mem, b: Mem, r: Mem, c: int, v: int, n: nat, k: nat)
    requires SameBut(m, b, c, v, k) && SameBut(b, r, c, v, k) && k <= n
    ensures SameBut(m, r, c, v, n)
  {
    forall d, w | d in m.dirs && 0 <= w < FRAMES && !(d == c && v <= w < v + n) ensures Lookup(r, d, w) == Lookup(m, d, w) {
      assert Lookup(b, d, w) == Lookup(m, d, w);
    }
  }
}

/** The page loops of osdev/kernel/mm/vmm.c over the page tables. */
module VmmPages {
  import opened Paging
  import opened Pmm
  import opened PagingImpl
  import opened VmmRange
  import opened Basics

  ghost predicate Exhausted(used: seq<bool>) {
    forall i :: 0 <= i < |used| ==> used[i]
  }

  /** What is left of the pool after i pages of the run. */
  ghost predicate Counted(m: Mem, b: Mem, c: int, v: int, i: nat)
    requires Wf(m) && c in m.dirs && 0 <= v && v + i <= FRAMES
  {
    && Wf(b) && c in b.dirs && CountFree(b.used) == CountFree(m.used) - Needed(m, c, v, i)
    && (forall j :: 0 <= j < 1024 && (i == 0 || j > (v + i - 1) / 1024) ==> b.dirs[c][j] == m.dirs[c][j])
    && (i > 0 ==> Table(b.dirs[c][(v + i - 1) / 1024]))
  }

  /** The entry of the next page holds a table exactly as it did before the run, or because the page before put it there. */
  lemma {:induction false} CountNext(m: Mem, b: Mem, b': Mem, c: int, v: int, i: nat)
    requires Wf(m) && c in m.dirs && 0 <= v && v + i < FRAMES && Counted(m, b, c, v, i)
    requires Took(b, b', c, (v + i) / 1024) || (b' == b && !Table(b.dirs[c][(v + i) / 1024]) && CountFree(b.used) <= 0)
    ensures if Took(b, b', c, (v + i) / 1024) then Counted(m, b', c, v, i + 1) else CountFree(m.used) < Needed(m, c, v, i + 1)
  {
    NextEntry(m, b, c, v, i);
  }

  lemma {:induction false} NextEntry(m: Mem, b: Mem, c: int, v: int, i: nat)
    requires Wf(m) && c in m.dirs && 0 <= v && v + i < FRAMES && Counted(m, b, c, v, i)
    ensures Table(b.dirs[c][(v + i) / 1024]) <==> !FirstUnder(v, i + 1) || Table(m.dirs[c][(v + i) / 1024])
    ensures i > 0 ==> (v + i - 1) / 1024 <= (v + i) / 1024
  {
    if i > 0 { assert (v + i) / 1024 == (v + i - 1) / 1024 + if (v + i) % 1024 == 0 then 1 else 0; }
  }

  /** Page v, the one behind the first i of a run that began at page r over the tables u. */
  method MapOne(pt: PageTables, c: int, v: int, frame: int, fl: Flags, ghost u: Mem, ghost r: int, ghost i: nat) returns (ok: bool)
    requires 0 <= v < FRAMES && Apt(pt.View(), c, v / 1024) && 0 <= frame < FRAMES
    requires Reach(pt.View()) && ClearPage(pt.View(), v, frame, fl)
    requires Wf(u) && c in u.dirs && 0 <= r && v == r + i && Counted(u, pt.View(), c, r, i)
    modifies pt
    ensures Reach(pt.View())
    ensures if ok then Counted(u, pt.View(), c, r, i + 1) else CountFree(u.used) < Needed(u, c, r, i + 1)
    ensures ok ==> SameBut(old(pt.View()), pt.View(), c, v, 1) && Sole(pt.View(), c, v / 1024) && Mapped(pt.View(), c, v, frame, v, fl)
    ensures !ok ==> pt.View() == old(pt.View()) && Exhausted(pt.used)
  {
    ghost var m := pt.View();
    MapTakes(m, c, v, frame, fl);
    MapOnly(m, c, v, frame, fl);
    ok := pt.Map4kb(c, v, frame, fl);
    if ok {
      MapOwn(m, c, v, frame, fl);
      MapReachExact(m, c, v, frame, fl);
    }
    CountNext(u, m, pt.View(), c, r, i);
  }

  method UnmapOne(pt: PageTables, c: int, v: int)
    requires Reach(pt.View()) && c in pt.dirs && 0 <= v < FRAMES && Sole(pt.View(), c, v / 1024)
    modifies pt
    ensures Reach(pt.View()) && SameBut(old(pt.View()), pt.View(), c, v, 1)
    ensures Lookup(pt.View(), c, v) == if old(Lookup(pt.View(), c, v)).Some? then Rest(v) else None
    ensures pt.dirs == old(pt.dirs) && pt.used == old(pt.used) && pt.tabs.Keys == old(pt.tabs).Keys
  {
    UnmapOwn(pt.View(), c, v);
    UnmapOnly(pt.View(), c, v);
    UnmapReach(pt.View(), c, v);
    pt.Unmap4kb(c, v);
  }

  /** The run is unmapped: each page that was mapped shows its resting value, nothing else changes. */
  method UnmapRun(pt: PageTables, c: int, v: int, n: nat)
    requires Reach(pt.View()) && c in pt.dirs && 0 <= v && v + n <= FRAMES && SoleRun(pt.View(), c, v, n)
    modifies pt
    ensures Reach(pt.View()) && SameBut(old(pt.View()), pt.View(), c, v, n)
    ensures forall w :: v <= w < v + n ==> Lookup(pt.View(), c, w) == if old(Lookup(pt.View(), c, w)).Some? then Rest(w) else None
    ensures pt.dirs == old(pt.dirs) && pt.used == old(pt.used) && pt.tabs.Keys == old(pt.tabs).Keys
  {
    ghost var m := pt.View();
    SameDirsStable(m, m, c);
    for i := 0 to n
      invariant Reach(pt.View()) && pt.dirs == m.dirs && pt.used == m.used && pt.tabs.Keys == m.tabs.Keys
      invariant SameBut(m, pt.View(), c, v, i)
      invariant forall w :: v <= w < v + i ==> Lookup(pt.View(), c, w) == if Lookup(m, c, w).Some? then Rest(w) else None
    {
      ghost var b := pt.View();
      assert Sole(m, c, (v + i) / 1024);
      SoleStays(m, b, c, c, (v + i) / 1024);
      UnmapOne(pt, c, v + i);
      OneMore(m, b, pt.View(), c, v, i + 1);
    }
  }

  /**
   A run is mapped whole exactly when the pool has a slot for every table it
   needs; otherwise the pool is exhausted and the run is given up. At every
   page the kernel reaches all its tables.
   */
  method MapRun(pt: PageTables, c: int, v: int, f: int, n: nat, fl: Flags) returns (ok: bool)
    requires Reach(pt.View()) && c in pt.dirs && 0 <= v && v + n <= FRAMES && AptRun(pt.View(), c, v, n) && ClearRun(pt.View(), v, f, n, fl)
    modifies pt
    ensures Reach(pt.View()) && SameBut(old(pt.View()), pt.View(), c, v, n)
    ensures ok <==> old(Needed(pt.View(), c, v, n)) <= old(CountFree(pt.used))
    ensures ok ==> SoleRun(pt.View(), c, v, n) && forall w :: v <= w < v + n ==> Mapped(pt.View(), c, v, f, w, fl)
    ensures !ok ==> Exhausted(pt.used) && Undone(old(pt.View()), pt.View(), c, v, n, fl)
  {
    ghost var m := pt.View();
    SameDirsStable(m, m, c);
    NoneFree(m.used);
    for i := 0 to n
      invariant Mapping(m, pt.View(), c, v, f, i, fl) && Counted(m, pt.View(), c, v, i)
    {
      var done := MapNext(pt, c, v, f, i, fl, m, n);
      if !done {
        NeededGrows(m, c, v, i + 1, n);
        return false;
      }
    }
    NoneFree(pt.used);
    return true;
  }

  /** The first i pages of the run are mapped. */
  ghost predicate Mapping(m: Mem, b: Mem, c: int, v: int, f: int, i: nat, fl: Flags) {
    && Reach(b) && SameBut(m, b, c, v, i) && c in m.dirs && 0 <= v && v + i <= FRAMES && SoleRun(b, c, v, i)
    && (forall w :: v <= w < v + i ==> Mapped(b, c, v, f, w, fl))
  }

  lemma {:induction false} MappingNext(m: Mem, b: Mem, b': Mem, c: int, v: int, f: int, i: nat, fl: Flags)
    requires Mapping(m, b, c, v, f, i, fl) && v + i < FRAMES && Reach(b') && SameBut(b, b', c, v + i, 1)
    requires Sole(b', c, (v + i) / 1024) && Mapped(b', c, v + i, (f + i) % FRAMES, v + i, fl)
    ensures Mapping(m, b', c, v, f, i + 1, fl)
  {
    OneMore(m, b, b', c, v, i + 1);
    OneMoreMapped(b, b', c, v, f, i + 1, fl);
    SoleRunStays(b, b', c, v, i);
  }

  /** The next page, or the run is given up. */
  method MapNext(pt: PageTables, c: int, v: int, f: int, i: nat, fl: Flags, ghost m: Mem, ghost n: nat) returns (ok: bool)
    requires i < n && v + n <= FRAMES && AptRun(m, c, v, n) && ClearRun(m, v, f, n, fl)
    requires Mapping(m, pt.View(), c, v, f, i, fl) && Counted(m, pt.View(), c, v, i)
    modifies pt
    ensures ok ==> Mapping(m, pt.View(), c, v, f, i + 1, fl) && Counted(m, pt.View(), c, v, i + 1)
    ensures !ok ==> Reach(pt.View()) && Exhausted(pt.used) && Undone(m, pt.View(), c, v, n, fl) && CountFree(m.used) < Needed(m, c, v, i + 1)
  {
    ghost var b := pt.View();
    assert Apt(m, c, (v + i) / 1024);
    assert PagingFrame(b, v + i) ==> PagingFrame(m, v + i);
    ok := MapOne(pt, c, v + i, (f + i) % FRAMES, fl, m, v, i);
    if ok {
      MappingNext(m, b, pt.View(), c, v, f, i, fl);
    } else {
      RollBack(pt, c, v, i, f, fl, m, n);
    }
  }

  /** Unmapping what was mapped so far. */
  method RollBack(pt: PageTables, c: int, v: int, k: nat, f: int, fl: Flags, ghost m: Mem, ghost n: nat)
    requires 0 <= v && k <= n && v + n <= FRAMES && Mapping(m, pt.View(), c, v, f, k, fl)
    modifies pt
    ensures Reach(pt.View()) && Undone(m, pt.View(), c, v, n, fl) && pt.used == old(pt.used)
  {
    ghost var b := pt.View();
    UnmapRun(pt, c, v, k);
    Chain(m, b, pt.View(), c, v, n, k);
    forall w | v <= w < v + n ensures Lookup(pt.View(), c, w) == Lookup(m, c, w) || Lookup(pt.View(), c, w) == Left(w, fl) {
      if w < v + k {
        assert Mapped(b, c, v, f, w, fl);
      } else {
        assert Lookup(b, c, w) == Lookup(m, c, w);
      }
    }
  }
}
