/**
 Two-level i386 page tables (osdev/arch/i386/paging.c) and the translation the
 processor reads from them: 32-bit paging with 4 KB and 4 MB pages, where the
 rights of an address are the conjunction over both levels (sections 4.3 and
 4.6 of the Intel SDM, volume 3A).
 */
module Paging {
  import opened Basics

  /** Caching bits, copied but never read by the translation. */
  datatype Attr = Attr(pwt: bool, pcd: bool, glob: bool)

  datatype Pde = Pde(present: bool, rw: bool, user: bool, big: bool, attr: Attr, frame: int)
  datatype Pte = Pte(present: bool, rw: bool, user: bool, attr: Attr, frame: int)

  /** The PTE_PRESENT, PTE_RW and PTE_USER bits of a flags word. */
  datatype Flags = Flags(present: bool, rw: bool, user: bool)

  /** Where a page leads and with which rights. */
  datatype Page = Page(frame: int, user: bool, rw: bool)

  const PLAIN := Attr(false, false, false)
  const NO_PDE := Pde(false, false, false, false, PLAIN, 0)
  const NO_PTE := Pte(false, false, false, PLAIN, 0)
  const SLOTS := 2048
  const FRAMES := 0x10_0000

  /** USER_HEAP_BASE as a page number. */
  const USER_HEAP := 0xC_0000

  /**
   dirs: page directories by address; tabs: page tables by frame number;
   used: the paging-structures pool, one flag for each slot; pool: the frame
   number of its first slot.
   */
  datatype Mem = Mem(dirs: map<int, seq<Pde>>, tabs: map<int, seq<Pte>>, used: seq<bool>, pool: int)

  /** A zeroed page table. */
  function Empty(): seq<Pte> {
    seq(1024, i => NO_PTE)
  }

  predicate InPool(m: Mem, f: int) {
    m.pool <= f < m.pool + |m.used|
  }

  ghost predicate PdeOk(m: Mem, p: Pde) {
    p.present ==> if p.big then p.frame % 1024 == 0 && 0 <= p.frame < FRAMES else p.rw && p.frame in m.tabs
  }

  /** Tables are in the pool's used slots, big pages are 4 MB aligned. */
  ghost predicate Wf(m: Mem) {
    && |m.used| == SLOTS
    && (forall c :: c in m.dirs ==> |m.dirs[c]| == 1024)
    && (forall f :: f in m.tabs ==> |m.tabs[f]| == 1024 && InPool(m, f) && m.used[f - m.pool])
    && (forall c, i :: c in m.dirs && 0 <= i < 1024 ==> PdeOk(m, m.dirs[c][i]))
  }

  // ---- the translation ----

  /** What a directory entry says about page number v of its 4 MB. */
  function Through(tabs: map<int, seq<Pte>>, p: Pde, v: int): Option<Page>
    requires p.present && !p.big ==> p.frame in tabs && |tabs[p.frame]| == 1024
  {
    if !p.present then None
    else if p.big then Some(Page(p.frame / 1024 * 1024 + v % 1024, p.user, p.rw))
    else
      var t := tabs[p.frame][v % 1024];
      if !t.present then None else Some(Page(t.frame, p.user && t.user, p.rw && t.rw))
  }

  /** The page number v under directory c. */
  ghost function Lookup(m: Mem, c: int, v: int): Option<Page>
    requires Wf(m) && c in m.dirs && 0 <= v < FRAMES
  {
    assert PdeOk(m, m.dirs[c][v / 1024]);
    Through(m.tabs, m.dirs[c][v / 1024], v)
  }

  /** The physical address of a virtual address. */
  ghost function Translate(m: Mem, c: int, va: int): Option<int>
    requires Wf(m) && c in m.dirs && 0 <= va < 0x1_0000_0000
  {
    match Lookup(m, c, va / 4096)
    case None => None
    case Some(p) => Some(p.frame * 4096 + va % 4096)
  }

  // ---- arch_paging_pool_alloc ----

  function FirstFree(used: seq<bool>, i: nat): (r: nat)
    requires i <= |used|
    ensures i <= r <= |used| && (r < |used| ==> !used[r])
    ensures forall j :: i <= j < r ==> used[j]
    decreases |used| - i
  {
    if i == |used| || !used[i] then i else FirstFree(used, i + 1)
  }

  /** A slot of the pool: its number and the pool with the slot taken. */
  function PoolAlloc(m: Mem): Option<(Mem, int)>
  {
    var i := FirstFree(m.used, 0);
    if i == |m.used| then None else Some((m.(used := m.used[i := true]), m.pool + i))
  }

  /** The lowest free slot, and refused exactly when there is none. */
  lemma {:induction false} PoolAllocCorrect(m: Mem)
    requires Wf(m)
    ensures PoolAlloc(m).None? <==> forall i :: 0 <= i < |m.used| ==> m.used[i]
    ensures PoolAlloc(m).Some? ==> var (m', f) := PoolAlloc(m).value;
      && Wf(m') && InPool(m, f) && !m.used[f - m.pool] && f !in m.tabs
      && m' == m.(used := m.used[f - m.pool := true])
      && (forall i :: 0 <= i < f - m.pool ==> m.used[i])
  {
    if PoolAlloc(m).Some? {
      var (m', f) := PoolAlloc(m).value;
      forall c, i | c in m'.dirs && 0 <= i < 1024 ensures PdeOk(m', m'.dirs[c][i]) {
        assert PdeOk(m, m.dirs[c][i]);
      }
    }
  }

  // ---- split_4mb_pde ----

  function SplitEntry(p: Pde, k: int): Pte {
    Pte(p.present, p.rw, p.user, p.attr, (p.frame + k) % FRAMES)
  }

  function SplitTable(p: Pde): seq<Pte> {
    seq(1024, k => SplitEntry(p, k))
  }

  function SplitPde(p: Pde, user: bool, f: int): Pde {
    Pde(true, true, p.user || user, false, p.attr, f)
  }

  /** A directory entry that is written at one place. */
  function SetPde(m: Mem, c: int, i: int, p: Pde): Mem
    requires c in m.dirs && 0 <= i < |m.dirs[c]|
  {
    m.(dirs := m.dirs[c := m.dirs[c][i := p]])
  }

  function Split(m: Mem, c: int, i: int, user: bool): Option<Mem>
    requires c in m.dirs && 0 <= i < |m.dirs[c]|
  {
    var p := m.dirs[c][i];
    if !p.present || !p.big then None
    else
      match PoolAlloc(m)
      case None => None
      case Some(a) => Some(Install(a.0, c, i, SplitPde(p, user, a.1), SplitTable(p)))
  }

  /** A table of 4 KB entries says what the 4 MB entry said, exactly for 4 MB aligned frames. */
  lemma {:induction false} SplitExact(p: Pde, user: bool, f: int, tabs: map<int, seq<Pte>>)
    requires p.present && p.big && 0 <= p.frame < FRAMES && f in tabs && tabs[f] == SplitTable(p)
    ensures (forall v :: 0 <= v < 1024 ==> Through(tabs, SplitPde(p, user, f), v) == Through(tabs, p, v)) <==> p.frame % 1024 == 0
    ensures SplitPde(p, user, f).attr == p.attr && forall k :: 0 <= k < 1024 ==> tabs[f][k].attr == p.attr
  {
    var q := SplitPde(p, user, f);
    if p.frame % 1024 == 0 {
      forall v | 0 <= v < 1024 ensures Through(tabs, q, v) == Through(tabs, p, v) {
        assert tabs[f][v] == SplitEntry(p, v);
      }
    } else {
      assert tabs[f][0] == SplitEntry(p, 0);
      assert Through(tabs, q, 0) != Through(tabs, p, 0);
    }
  }

  /** Writing a fresh table and an entry that points to it. */
  function Install(m: Mem, c: int, i: int, p: Pde, t: seq<Pte>): Mem
    requires c in m.dirs && 0 <= i < |m.dirs[c]|
  {
    SetPde(m, c, i, p).(tabs := m.tabs[p.frame := t])
  }

  /** It touches only what goes through that entry. */
  lemma {:induction false} InstallOnly(m: Mem, c: int, i: int, p: Pde, t: seq<Pte>)
    requires Wf(m) && c in m.dirs && 0 <= i < 1024 && |t| == 1024
    requires p.present && !p.big && p.rw && InPool(m, p.frame) && m.used[p.frame - m.pool] && p.frame !in m.tabs
    ensures var m' := Install(m, c, i, p, t);
      && Wf(m')
      && (forall d, v :: d in m.dirs && 0 <= v < FRAMES ==>
            Lookup(m', d, v) == if d == c && v / 1024 == i then Through(m'.tabs, p, v) else Lookup(m, d, v))
  {
    var m' := Install(m, c, i, p, t);
    forall d, j | d in m'.dirs && 0 <= j < 1024 ensures PdeOk(m', m'.dirs[d][j]) {
      assert PdeOk(m, m.dirs[d][j]);
    }
    forall d, v | d in m.dirs && 0 <= v < FRAMES
      ensures Lookup(m', d, v) == if d == c && v / 1024 == i then Through(m'.tabs, p, v) else Lookup(m, d, v)
    {
      assert PdeOk(m, m.dirs[d][v / 1024]);
    }
  }

  /** Splitting changes the translation of no address in any directory. */
  lemma {:induction false} SplitPreserves(m: Mem, c: int, i: int, user: bool)
    requires Wf(m) && c in m.dirs && 0 <= i < 1024 && Split(m, c, i, user).Some?
    ensures var m' := Split(m, c, i, user).value;
      && Wf(m')
      && (forall d, v :: d in m.dirs && 0 <= v < FRAMES ==> Lookup(m', d, v) == Lookup(m, d, v))
  {
    var p := m.dirs[c][i];
    PoolAllocCorrect(m);
    var (a, f) := PoolAlloc(m).value;
    var m' := Split(m, c, i, user).value;
    assert PdeOk(m, p);
    InstallOnly(a, c, i, SplitPde(p, user, f), SplitTable(p));
    forall d, v | d in m.dirs && 0 <= v < FRAMES ensures Lookup(m', d, v) == Lookup(m, d, v) {
      assert Lookup(a, d, v) == Lookup(m, d, v);
      if d == c && v / 1024 == i {
        SplitAt(p, user, f, m'.tabs, v);
      }
    }
  }

  lemma {:induction false} SplitAt(p: Pde, user: bool, f: int, tabs: map<int, seq<Pte>>, v: int)
    requires p.present && p.big && 0 <= p.frame < FRAMES && f in tabs && tabs[f] == SplitTable(p) && p.frame % 1024 == 0
    ensures Through(tabs, SplitPde(p, user, f), v) == Through(tabs, p, v)
  {
    assert tabs[f][v % 1024] == SplitEntry(p, v % 1024);
  }

  // ---- arch_map_4kb ----

  /** The entry for the table a mapping creates in an empty 4 MB. */
  function TablePde(user: bool, f: int): Pde {
    Pde(true, true, user, false, PLAIN, f)
  }

  /** A directory in which the 4 MB of page v has a table of 4 KB entries. */
  function Tabled(m: Mem, c: int, v: int, fl: Flags): Option<Mem>
    requires c in m.dirs && |m.dirs[c]| == 1024 && 0 <= v < FRAMES
  {
    var i := v / 1024;
    var p := m.dirs[c][i];
    if p.present && p.big then Split(m, c, i, fl.user)
    else if p.present then Some(m)
    else
      match PoolAlloc(m)
      case None => None
      case Some(a) => Some(Install(a.0, c, i, TablePde(fl.user, a.1), Empty()))
  }

  /** Whether that table is open to user pages. */
  function TableUser(p: Pde, fl: Flags): bool {
    if !p.present then fl.user else if p.big then p.user || fl.user else p.user
  }

  /** Writing one table entry. */
  function SetPte(m: Mem, f: int, k: int, t: Pte): Mem
    requires f in m.tabs && 0 <= k < |m.tabs[f]|
  {
    m.(tabs := m.tabs[f := m.tabs[f][k := t]])
  }

  function MapPage(m: Mem, c: int, v: int, frame: int, fl: Flags): Option<Mem>
    requires Wf(m) && c in m.dirs && 0 <= v < FRAMES
  {
    match Tabled(m, c, v, fl)
    case None => None
    case Some(b) =>
      TabledOnly(m, c, v, fl);
      Some(SetPte(b, b.dirs[c][v / 1024].frame, v % 1024, Pte(fl.present, fl.rw, fl.user, PLAIN, frame)))
  }

  /** Making room for the entry changes no translation. */
  lemma {:induction false} TabledOnly(m: Mem, c: int, v: int, fl: Flags)
    requires Wf(m) && c in m.dirs && 0 <= v < FRAMES && Tabled(m, c, v, fl).Some?
    ensures var b := Tabled(m, c, v, fl).value; var p := m.dirs[c][v / 1024];
      && Wf(b) && b.dirs.Keys == m.dirs.Keys
      && (forall d, w :: d in m.dirs && 0 <= w < FRAMES ==> Lookup(b, d, w) == Lookup(m, d, w))
      && (var q := b.dirs[c][v / 1024];
         && q.present && !q.big && q.rw && q.frame in b.tabs && |b.tabs[q.frame]| == 1024
         && q.user == TableUser(p, fl))
  {
    var i := v / 1024;
    var p := m.dirs[c][i];
    assert PdeOk(m, p);
    if p.present && p.big {
      SplitPreserves(m, c, i, fl.user);
    } else if !p.present {
      PoolAllocCorrect(m);
      var (a, f) := PoolAlloc(m).value;
      InstallOnly(a, c, i, TablePde(fl.user, f), Empty());
      forall d, w | d in m.dirs && 0 <= w < FRAMES ensures Lookup(Tabled(m, c, v, fl).value, d, w) == Lookup(m, d, w) {
        assert Lookup(a, d, w) == Lookup(m, d, w);
        assert Empty()[w % 1024] == NO_PTE;
      }
    }
  }

  /** Page w of directory d and page v of directory c are read from one and the same table entry. */
  predicate Aliases(m: Mem, d: int, w: int, c: int, v: int)
    requires d in m.dirs && |m.dirs[d]| == 1024 && c in m.dirs && |m.dirs[c]| == 1024 && 0 <= v < FRAMES && 0 <= w < FRAMES
  {
    var p, q := m.dirs[d][w / 1024], m.dirs[c][v / 1024];
    w % 1024 == v % 1024 && p.present && !p.big && q.present && !q.big && p.frame == q.frame
  }

  /** What a table entry says under a directory entry; directory entries of tables are writable. */
  function Seen(p: Pde, t: Pte): Option<Page> {
    if t.present then Some(Page(t.frame, p.user && t.user, t.rw)) else None
  }

  /** Writing the entry of (c, v) shows in exactly the pages read through that entry. */
  lemma {:induction false} SetPteOnly(m: Mem, c: int, v: int, t: Pte)
    requires Wf(m) && c in m.dirs && 0 <= v < FRAMES && m.dirs[c][v / 1024].present && !m.dirs[c][v / 1024].big
    ensures PdeOk(m, m.dirs[c][v / 1024])
    ensures var m' := SetPte(m, m.dirs[c][v / 1024].frame, v % 1024, t);
      && Wf(m')
      && (forall d, w :: d in m.dirs && 0 <= w < FRAMES ==>
            Lookup(m', d, w) == if Aliases(m, d, w, c, v) then Seen(m.dirs[d][w / 1024], t) else Lookup(m, d, w))
  {
    var p := m.dirs[c][v / 1024];
    assert PdeOk(m, p);
    var m' := SetPte(m, p.frame, v % 1024, t);
    forall d, i | d in m'.dirs && 0 <= i < 1024 ensures PdeOk(m', m'.dirs[d][i]) {
      assert PdeOk(m, m.dirs[d][i]);
    }
    forall d, w | d in m.dirs && 0 <= w < FRAMES
      ensures Lookup(m', d, w) == if Aliases(m, d, w, c, v) then Seen(m.dirs[d][w / 1024], t) else Lookup(m, d, w)
    {
      assert PdeOk(m, m.dirs[d][w / 1024]);
    }
  }

  /**
   Mapping one page: it translates to the given frame, writable as asked; so
   does every page of any directory that is read through the same table entry;
   no other page changes. Nothing changes when the pool is exhausted, the only
   failure.
   */
  lemma {:induction false} MapOnly(m: Mem, c: int, v: int, frame: int, fl: Flags)
    requires Wf(m) && c in m.dirs && 0 <= v < FRAMES
    ensures MapPage(m, c, v, frame, fl).None? <==>
      (!m.dirs[c][v / 1024].present || m.dirs[c][v / 1024].big) && forall i :: 0 <= i < |m.used| ==> m.used[i]
    ensures MapPage(m, c, v, frame, fl).Some? ==> var m' := MapPage(m, c, v, frame, fl).value;
      && Wf(m') && m'.dirs.Keys == m.dirs.Keys && Fine(m', c, v)
      && Lookup(m', c, v) == (if fl.present then Some(Page(frame, fl.user && TableUser(m.dirs[c][v / 1024], fl), fl.rw)) else None)
      && (forall d, w :: d in m.dirs && 0 <= w < FRAMES && !(d == c && w == v) ==>
            Lookup(m', d, w) ==
              if !Aliases(m, d, w, c, v) then Lookup(m, d, w)
              else if fl.present then Some(Page(frame, fl.user && m.dirs[d][w / 1024].user, fl.rw)) else None)
  {
    PoolAllocCorrect(m);
    if MapPage(m, c, v, frame, fl).Some? {
      TabledOnly(m, c, v, fl);
      var b := Tabled(m, c, v, fl).value;
      var t := Pte(fl.present, fl.rw, fl.user, PLAIN, frame);
      SetPteOnly(b, c, v, t);
      var m' := MapPage(m, c, v, frame, fl).value;
      assert Aliases(b, c, v, c, v);
      forall d, w | d in m.dirs && 0 <= w < FRAMES && !(d == c && w == v)
        ensures Lookup(m', d, w) == if Aliases(m, d, w, c, v) then Seen(m.dirs[d][w / 1024], t) else Lookup(m, d, w)
      {
        SameAliases(m, c, v, fl, d, w);
      }
    }
  }

  /**
   A page of another directory survives every mapping of page v exactly when
   it is not read through the same table entry.
   */
  lemma {:induction false} MapSpares(m: Mem, c: int, v: int, d: int, w: int)
    requires Wf(m) && c in m.dirs && 0 <= v < FRAMES && d in m.dirs && 0 <= w < FRAMES && !(d == c && w == v)
    ensures !Aliases(m, d, w, c, v) <==>
      forall frame: int, fl: Flags :: 0 <= frame < FRAMES && MapPage(m, c, v, frame, fl).Some? ==> Unmoved(m, MapPage(m, c, v, frame, fl).value, d, w)
  {
    forall frame: int, fl: Flags | MapPage(m, c, v, frame, fl).Some? && !Aliases(m, d, w, c, v)
      ensures Unmoved(m, MapPage(m, c, v, frame, fl).value, d, w)
    {
      MapOnly(m, c, v, frame, fl);
    }
    if Aliases(m, d, w, c, v) {
      var was := Lookup(m, d, w);
      var frame := if was.Some? && was.value.frame == 0 then 1 else 0;
      var fl := Flags(true, true, true);
      MapOnly(m, c, v, frame, fl);
      assert !Unmoved(m, MapPage(m, c, v, frame, fl).value, d, w);
    }
  }

  ghost predicate Unmoved(m: Mem, m': Mem, d: int, w: int) {
    Wf(m) && Wf(m') && d in m.dirs && d in m'.dirs && 0 <= w < FRAMES && Lookup(m', d, w) == Lookup(m, d, w)
  }

  /** Making room for the entry makes no page share it that did not before. */
  lemma {:induction false} SameAliases(m: Mem, c: int, v: int, fl: Flags, d: int, w: int)
    requires Wf(m) && c in m.dirs && 0 <= v < FRAMES && Tabled(m, c, v, fl).Some?
    requires d in m.dirs && 0 <= w < FRAMES && !(d == c && w == v)
    ensures var b := Tabled(m, c, v, fl).value;
      && d in b.dirs && |b.dirs[d]| == 1024 && c in b.dirs && |b.dirs[c]| == 1024
      && (Aliases(b, d, w, c, v) <==> Aliases(m, d, w, c, v))
      && (Aliases(m, d, w, c, v) ==> b == m)
  {
    PoolAllocCorrect(m);
    assert PdeOk(m, m.dirs[d][w / 1024]);
    assert v == v / 1024 * 1024 + v % 1024 && w == w / 1024 * 1024 + w % 1024;
  }

  /** The page is open to ring 3 as asked, exactly unless an older table in its way is closed. */
  lemma {:induction false} MapGrantsUser(m: Mem, c: int, v: int, frame: int, fl: Flags)
    requires Wf(m) && c in m.dirs && 0 <= v < FRAMES && fl.present && MapPage(m, c, v, frame, fl).Some?
    ensures Wf(MapPage(m, c, v, frame, fl).value)
    ensures Lookup(MapPage(m, c, v, frame, fl).value, c, v) == Some(Page(frame, fl.user, fl.rw)) <==>
      var p := m.dirs[c][v / 1024]; !(fl.user && p.present && !p.big && !p.user)
  {
    MapOnly(m, c, v, frame, fl);
  }

  /** A directory whose first 4 MB has an empty table closed to ring 3. */
  function ClosedTable(): Mem {
    Mem(map[1 := seq(1024, i => if i == 0 then TablePde(false, 100) else NO_PDE)], map[100 := Empty()], seq(SLOTS, i => i == 0), 100)
  }

  /** A user page mapped there cannot be used by ring 3. */
  lemma {:induction false} UserPageStaysClosed()
    ensures Wf(ClosedTable())
    ensures var r := MapPage(ClosedTable(), 1, 0, 5, Flags(true, true, true));
      r.Some? && Wf(r.value) && 1 in r.value.dirs && Lookup(r.value, 1, 0) == Some(Page(5, false, true))
  {
    var m := ClosedTable();
    forall c, i | c in m.dirs && 0 <= i < 1024 ensures PdeOk(m, m.dirs[c][i]) {
      assert m.dirs[c][i] == if i == 0 then TablePde(false, 100) else NO_PDE;
    }
    assert m.dirs[1][0] == TablePde(false, 100);
    MapOnly(m, 1, 0, 5, Flags(true, true, true));
  }

  // ---- arch_unmap_4kb ----

  /** The code reads a table under the directory entry, so that entry must not be a 4 MB page. */
  predicate Fine(m: Mem, c: int, v: int)
    requires c in m.dirs && |m.dirs[c]| == 1024 && 0 <= v < FRAMES
  {
    !(m.dirs[c][v / 1024].present && m.dirs[c][v / 1024].big)
  }

  function UnmapPage(m: Mem, c: int, v: int): Mem
    requires Wf(m) && c in m.dirs && 0 <= v < FRAMES && Fine(m, c, v)
  {
    var p := m.dirs[c][v / 1024];
    if !p.present then m
    else
      assert PdeOk(m, p);
      if !m.tabs[p.frame][v % 1024].present then m
      else SetPte(m, p.frame, v % 1024, if v < USER_HEAP then Pte(true, true, false, PLAIN, v) else NO_PTE)
  }

  /** What unmapping a mapped page leaves: nothing, or the supervisor identity page below USER_HEAP_BASE. */
  function Rest(v: int): Option<Page> {
    if v < USER_HEAP then Some(Page(v, false, true)) else None
  }

  /** Unmapping leaves that in every page read through the entry, and changes no other. */
  lemma {:induction false} UnmapOnly(m: Mem, c: int, v: int)
    requires Wf(m) && c in m.dirs && 0 <= v < FRAMES && Fine(m, c, v)
    ensures var m' := UnmapPage(m, c, v);
      && Wf(m') && m'.dirs == m.dirs && m'.used == m.used && m'.tabs.Keys == m.tabs.Keys && m'.pool == m.pool
      && Lookup(m', c, v) == (if Lookup(m, c, v).Some? then Rest(v) else None)
      && (forall d, w :: d in m.dirs && 0 <= w < FRAMES ==>
            Lookup(m', d, w) == if Lookup(m, c, v).Some? && Aliases(m, d, w, c, v) then Rest(v) else Lookup(m, d, w))
  {
    var p := m.dirs[c][v / 1024];
    assert PdeOk(m, p);
    if p.present && m.tabs[p.frame][v % 1024].present {
      SetPteOnly(m, c, v, if v < USER_HEAP then Pte(true, true, false, PLAIN, v) else NO_PTE);
      assert Aliases(m, c, v, c, v);
    }
  }

  /**
   Map then unmap gives the old translation back exactly when the page was
   unmapped above USER_HEAP_BASE or the kernel's identity page below it.
   */
  lemma {:induction false} MapUnmapRestores(m: Mem, c: int, v: int, frame: int, fl: Flags)
    requires Wf(m) && c in m.dirs && 0 <= v < FRAMES && fl.present && MapPage(m, c, v, frame, fl).Some?
    ensures var m' := MapPage(m, c, v, frame, fl).value;
      && Wf(m') && c in m'.dirs && Fine(m', c, v) && Wf(UnmapPage(m', c, v))
      && (Lookup(UnmapPage(m', c, v), c, v) == Lookup(m, c, v) <==>
            Lookup(m, c, v) == Rest(v))
  {
    MapOnly(m, c, v, frame, fl);
    TabledOnly(m, c, v, fl);
    UnmapOnly(MapPage(m, c, v, frame, fl).value, c, v);
  }

  // ---- directories come and go ----

  /** USER_SPACE_TOP as an index into the directory. */
  const TOP := 960

  /** arch_clone_kernel_pde. */
  function Clone(m: Mem, master: int, c: int): Mem
    requires master in m.dirs
  {
    m.(dirs := m.dirs[c := m.dirs[master]])
  }

  /** A cloned directory translates every address like the master, and no other directory changes. */
  lemma {:induction false} CloneCorrect(m: Mem, master: int, c: int)
    requires Wf(m) && master in m.dirs && c != master
    ensures var m' := Clone(m, master, c);
      && Wf(m')
      && (forall v :: 0 <= v < FRAMES ==> Lookup(m', c, v) == Lookup(m, master, v))
      && (forall d, v :: d in m.dirs && d != c && 0 <= v < FRAMES ==> Lookup(m', d, v) == Lookup(m, d, v))
  {
    var m' := Clone(m, master, c);
    forall d, i | d in m'.dirs && 0 <= i < 1024 ensures PdeOk(m', m'.dirs[d][i]) {
      assert d != c ==> PdeOk(m, m.dirs[d][i]);
      assert PdeOk(m, m.dirs[master][i]);
    }
  }

  /** The entries arch_destroy_address_space gives back. */
  predicate Private(m: Mem, master: int, c: int, i: int)
    requires master in m.dirs && |m.dirs[master]| == 1024 && c in m.dirs && |m.dirs[c]| == 1024 && 0 <= i < 1024
  {
    i < TOP && m.dirs[c][i].present && m.dirs[c][i].frame != m.dirs[master][i].frame
  }

  /** arch_paging_pool_free: frames outside the pool are ignored. */
  function PoolFree(m: Mem, f: int): Mem {
    if InPool(m, f) then m.(used := m.used[f - m.pool := false], tabs := m.tabs - {f}) else m
  }

  /** The directory c with its first i entries given back. */
  function Destroy(m: Mem, master: int, c: int, i: nat): Mem
    requires master in m.dirs && |m.dirs[master]| == 1024 && c in m.dirs && |m.dirs[c]| == 1024 && c != master && i <= TOP
    ensures var r := Destroy(m, master, c, i); r.dirs.Keys == m.dirs.Keys && r.dirs[master] == m.dirs[master] && |r.dirs[c]| == 1024
    ensures Destroy(m, master, c, i).dirs[c][i..] == m.dirs[c][i..]
  {
    if i == 0 then m
    else
      var r := Destroy(m, master, c, i - 1);
      assert r.dirs[c][i - 1] == r.dirs[c][i - 1..][0] == m.dirs[c][i - 1..][0];
      assert r.dirs[c][i..] == r.dirs[c][i - 1..][1..] == m.dirs[c][i - 1..][1..];
      if Private(r, master, c, i - 1) then SetPde(PoolFree(r, r.dirs[c][i - 1].frame), c, i - 1, NO_PDE) else r
  }

  predicate Table(p: Pde) {
    p.present && !p.big
  }

  /** Entry i of directory c leads to a table that no other entry of any directory leads to. */
  ghost predicate Sole(m: Mem, c: int, i: int)
    requires Wf(m) && c in m.dirs && 0 <= i < 1024
  {
    && Table(m.dirs[c][i])
    && (forall d, j :: d in m.dirs && 0 <= j < 1024 && Table(m.dirs[d][j]) && m.dirs[d][j].frame == m.dirs[c][i].frame ==> d == c && j == i)
  }

  /** Every private entry of c is a table that nothing else points to. */
  ghost predicate Separate(m: Mem, master: int, c: int)
    requires Wf(m) && master in m.dirs && c in m.dirs
  {
    forall i :: 0 <= i < TOP && Private(m, master, c, i) ==> Sole(m, c, i)
  }

  /** Giving back the i-th entry, when it is private, hurts nobody else. */
  lemma {:induction false} FreeEntry(m: Mem, master: int, c: int, i: int)
    requires Wf(m) && master in m.dirs && c in m.dirs && c != master && 0 <= i < TOP && Separate(m, master, c) && Private(m, master, c, i)
    ensures PdeOk(m, m.dirs[c][i])
    ensures var f := m.dirs[c][i].frame; var m' := SetPde(PoolFree(m, f), c, i, NO_PDE);
      && InPool(m, f) && m.used[f - m.pool]
      && Wf(m') && Separate(m', master, c)
      && (forall d, v :: d in m.dirs && d != c && 0 <= v < FRAMES ==> Lookup(m', d, v) == Lookup(m, d, v))
  {
    var p := m.dirs[c][i];
    assert PdeOk(m, p);
    var m' := SetPde(PoolFree(m, p.frame), c, i, NO_PDE);
    forall d, j | d in m'.dirs && 0 <= j < 1024 ensures PdeOk(m', m'.dirs[d][j]) {
      assert PdeOk(m, m.dirs[d][j]);
    }
    forall j | 0 <= j < TOP && Private(m', master, c, j) ensures Private(m, master, c, j) {}
    forall d, v | d in m.dirs && d != c && 0 <= v < FRAMES ensures Lookup(m', d, v) == Lookup(m, d, v) {
      assert PdeOk(m, m.dirs[d][v / 1024]);
    }
  }

  /**
   Tearing a directory down gives back to the pool exactly the slots of its
   private tables and changes no translation of any other directory.
   */
  lemma {:induction false} DestroyCorrect(m: Mem, master: int, c: int, i: nat)
    requires Wf(m) && master in m.dirs && c in m.dirs && c != master && i <= TOP && Separate(m, master, c)
    ensures var m' := Destroy(m, master, c, i);
      && Wf(m') && Separate(m', master, c) && m'.pool == m.pool
      && (forall d, v :: d in m.dirs && d != c && 0 <= v < FRAMES ==> Lookup(m', d, v) == Lookup(m, d, v))
      && (forall k :: 0 <= k < SLOTS ==> (m'.used[k] <==> m.used[k] && !Returned(m, master, c, i, m.pool + k)))
  {
    if i > 0 {
      DestroyCorrect(m, master, c, i - 1);
      var r := Destroy(m, master, c, i - 1);
      assert r.dirs[c][i - 1] == r.dirs[c][i - 1..][0] == m.dirs[c][i - 1..][0];
      if Private(r, master, c, i - 1) {
        FreeEntry(r, master, c, i - 1);
      }
    }
  }

  /** Frame f is the table of one of the first n entries, a private one. */
  ghost predicate Returned(m: Mem, master: int, c: int, n: nat, f: int)
    requires master in m.dirs && |m.dirs[master]| == 1024 && c in m.dirs && |m.dirs[c]| == 1024 && n <= TOP
  {
    exists i :: 0 <= i < n && Private(m, master, c, i) && m.dirs[c][i].frame == f
  }

  /**
   Every table that only c uses is returned exactly when none of them lies at
   USER_SPACE_TOP or above and none carries the master's frame number.
   */
  lemma {:induction false} TeardownExact(m: Mem, master: int, c: int)
    requires Wf(m) && master in m.dirs && c in m.dirs && c != master && Separate(m, master, c)
    ensures var m' := Destroy(m, master, c, TOP);
      && |m'.used| == SLOTS
      && ((forall i :: 0 <= i < 1024 && Sole(m, c, i) ==> InPool(m, m.dirs[c][i].frame) && !m'.used[m.dirs[c][i].frame - m.pool]) <==>
           (forall i :: 0 <= i < 1024 && Sole(m, c, i) ==> i < TOP && m.dirs[c][i].frame != m.dirs[master][i].frame))
  {
    DestroyCorrect(m, master, c, TOP);
    var m' := Destroy(m, master, c, TOP);
    forall i | 0 <= i < 1024 && Sole(m, c, i)
      ensures InPool(m, m.dirs[c][i].frame) && (!m'.used[m.dirs[c][i].frame - m.pool] <==> Private(m, master, c, i))
    {
      SoleReturned(m, master, c, i);
    }
  }

  lemma {:induction false} SoleReturned(m: Mem, master: int, c: int, i: int)
    requires Wf(m) && master in m.dirs && c in m.dirs && c != master && 0 <= i < 1024 && Sole(m, c, i) && Separate(m, master, c)
    ensures var f := m.dirs[c][i].frame; InPool(m, f) && m.used[f - m.pool] && (Returned(m, master, c, TOP, f) <==> Private(m, master, c, i))
  {
    assert PdeOk(m, m.dirs[c][i]);
    if Returned(m, master, c, TOP, m.dirs[c][i].frame) {
      var j :| 0 <= j < TOP && Private(m, master, c, j) && m.dirs[c][j].frame == m.dirs[c][i].frame;
      assert Sole(m, c, j);
    }
  }

  /** Directory 2 has one table, at USER_SPACE_TOP. */
  function HighTable(): Mem {
    Mem(map[1 := seq(1024, i => NO_PDE), 2 := seq(1024, i => if i == TOP then TablePde(true, 100) else NO_PDE)],
        map[100 := Empty()], seq(SLOTS, i => i == 0), 100)
  }

  /** Its slot stays used after the teardown, and no other directory leads to it. */
  lemma {:induction false} HighTableLeaks()
    ensures Wf(HighTable()) && Sole(HighTable(), 2, TOP) && Separate(HighTable(), 1, 2)
    ensures |Destroy(HighTable(), 1, 2, TOP).used| == SLOTS && Destroy(HighTable(), 1, 2, TOP).used[0]
  {
    var m := HighTable();
    forall i | 0 <= i < 1024
      ensures m.dirs[1][i] == NO_PDE && m.dirs[2][i] == if i == TOP then TablePde(true, 100) else NO_PDE
    {
    }
    forall c, i | c in m.dirs && 0 <= i < 1024 ensures PdeOk(m, m.dirs[c][i]) {}
    assert Sole(m, 2, TOP);
    SoleReturned(m, 1, 2, TOP);
    DestroyCorrect(m, 1, 2, TOP);
    assert m.pool + 0 == 100;
  }
}
