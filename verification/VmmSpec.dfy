/**
 The regions of an address space in address order (osdev/kernel/mm/vmm.c):
 where a new one goes, which one an address belongs to, and how they agree
 with the page tables.
 */
module VmmSpec {
  import opened Paging
  import opened VmmRange
  import Pmm
  import opened Basics

  const PAGE := 4096
  const LIMIT := 0x1_0000_0000

  /** USER_ANON_BASE. */
  const ANON := 0xD000_0000

  /** `vmm_region`: own says whether the pages belong to the region (own_phys). */
  datatype Region = Region(start: int, size: int, flags: Flags, pa: int, own: bool)

  function End(r: Region): int {
    r.start + r.size
  }

  /** Whole pages that end below the 4 GB limit. */
  predicate RegionOk(r: Region) {
    r.start % PAGE == 0 && r.size % PAGE == 0 && r.pa % PAGE == 0 && 0 <= r.start && 0 < r.size && End(r) < LIMIT && 0 <= r.pa < LIMIT
  }

  /** Sorted and pairwise disjoint. */
  ghost predicate Ordered(rs: seq<Region>) {
    && (forall i :: 0 <= i < |rs| ==> RegionOk(rs[i]))
    && (forall i, j :: 0 <= i < j < |rs| ==> End(rs[i]) <= rs[j].start)
  }

  predicate Contains(r: Region, va: int) {
    r.start <= va < End(r)
  }

  // ---- finding a region ----

  /** The linear scan of the region list. */
  function FindAt(rs: seq<Region>, va: int, i: nat): (r: Option<nat>)
    requires i <= |rs|
    ensures r.Some? ==> i <= r.value < |rs| && Contains(rs[r.value], va)
    ensures r.None? ==> forall j :: i <= j < |rs| ==> !Contains(rs[j], va)
    decreases |rs| - i
  {
    if i == |rs| then None else if Contains(rs[i], va) then Some(i) else FindAt(rs, va, i + 1)
  }

  /** The physical address the regions give va, 0 if there is none or va is 0. */
  function PaOf(rs: seq<Region>, va: int): int {
    if va == 0 then 0
    else match FindAt(rs, va, 0)
      case None => 0
      case Some(i) => (rs[i].pa + (va - rs[i].start)) % LIMIT
  }

  /** Whichever way a region is found that holds the address, the scan finds the same. */
  lemma {:induction false} FoundIsUnique(rs: seq<Region>, va: int, k: nat)
    requires Ordered(rs) && k < |rs| && Contains(rs[k], va)
    ensures FindAt(rs, va, 0) == Some(k)
  {
    assert FindAt(rs, va, 0).Some?;
  }

  /** vmm_rbtree_key_cmp: the null key is refused, so address 0 is never found. */
  function KeyCmp(va: int, r: Region): int {
    if va == 0 then -1 else if Contains(r, va) then 0 else if va < r.start then -1 else 1
  }

  /** Along sorted regions the comparison turns from positive over zero to negative. */
  lemma {:induction false} KeyCmpSplits(rs: seq<Region>, va: int, i: nat, j: nat)
    requires Ordered(rs) && i < j < |rs| && va >= 0
    ensures KeyCmp(va, rs[i]) < 0 ==> KeyCmp(va, rs[j]) < 0
    ensures KeyCmp(va, rs[j]) > 0 ==> KeyCmp(va, rs[i]) > 0
  {
    assert End(rs[i]) <= rs[j].start;
  }

  // ---- choosing an address ----

  /** The scan for a gap of n bytes behind region i or a later one. */
  function Gap(rs: seq<Region>, n: int, i: nat): Option<int>
    requires i < |rs|
    decreases |rs| - i
  {
    var va := End(rs[i]);
    if n > LIMIT - 1 - va then None
    else if i + 1 == |rs| || va + n <= rs[i + 1].start then Some(va)
    else Gap(rs, n, i + 1)
  }

  /** n bytes are free from the end of region k on. */
  predicate FreeBehind(rs: seq<Region>, n: int, k: int)
    requires 0 <= k < |rs|
  {
    End(rs[k]) + n < LIMIT && (k + 1 < |rs| ==> End(rs[k]) + n <= rs[k + 1].start)
  }

  ghost predicate FirstGap(rs: seq<Region>, n: int, i: int, k: int)
    requires 0 <= i <= k < |rs|
  {
    FreeBehind(rs, n, k) && forall j :: i <= j < k ==> !FreeBehind(rs, n, j)
  }

  /** The scan takes the first gap that fits behind some region, and fails exactly when none fits. */
  lemma {:induction false} GapCorrect(rs: seq<Region>, n: int, i: nat)
    requires Ordered(rs) && i < |rs| && n > 0
    ensures Gap(rs, n, i).None? <==> forall k :: i <= k < |rs| ==> !FreeBehind(rs, n, k)
    ensures Gap(rs, n, i).Some? ==> exists k :: i <= k < |rs| && FirstGap(rs, n, i, k) && Gap(rs, n, i).value == End(rs[k])
    decreases |rs| - i
  {
    var va := End(rs[i]);
    if n > LIMIT - 1 - va {
      forall k | i <= k < |rs| ensures !FreeBehind(rs, n, k) {
        if k > i {
          assert va <= rs[k].start && RegionOk(rs[k]);
        }
      }
    } else if i + 1 < |rs| && va + n > rs[i + 1].start {
      GapCorrect(rs, n, i + 1);
    } else {
      assert FirstGap(rs, n, i, i);
    }
  }

  /** A region that overlaps none of rs. */
  ghost predicate Free(rs: seq<Region>, r: Region) {
    forall i :: 0 <= i < |rs| ==> End(rs[i]) <= r.start || End(r) <= rs[i].start
  }

  /** What lies behind region k up to its gap is free. */
  lemma {:induction false} BehindIsFree(rs: seq<Region>, r: Region, k: nat)
    requires Ordered(rs) && k < |rs| && r.start == End(rs[k]) && FreeBehind(rs, r.size, k)
    ensures Free(rs, r) && r.start > rs[0].start
  {
    forall i | 0 <= i < |rs| ensures End(rs[i]) <= r.start || End(r) <= rs[i].start {
      if i < k {
        assert End(rs[i]) <= rs[k].start && RegionOk(rs[k]);
      } else if i > k + 1 {
        assert End(rs[k + 1]) <= rs[i].start && RegionOk(rs[k + 1]);
      }
    }
    if k > 0 { assert End(rs[0]) <= rs[k].start && RegionOk(rs[0]); }
  }

  /** The gap found holds the new region, page-aligned and below the limit. */
  lemma {:induction false} GapIsFree(rs: seq<Region>, r: Region)
    requires Ordered(rs) && rs != [] && r.size > 0 && r.size % PAGE == 0 && r.pa % PAGE == 0 && 0 <= r.pa < LIMIT
    requires Gap(rs, r.size, 0) == Some(r.start)
    ensures RegionOk(r) && Free(rs, r) && r.start > rs[0].start
  {
    GapCorrect(rs, r.size, 0);
    var k :| 0 <= k < |rs| && FirstGap(rs, r.size, 0, k) && r.start == End(rs[k]);
    NextRegionOk(rs[k], r);
    BehindIsFree(rs, r, k);
  }

  lemma {:induction false} NextRegionOk(q: Region, r: Region)
    requires RegionOk(q) && r.start == End(q) && End(r) < LIMIT
    requires r.size > 0 && r.size % PAGE == 0 && r.pa % PAGE == 0 && 0 <= r.pa < LIMIT
    ensures RegionOk(r)
  {
    assert End(q) == PAGE * (q.start / PAGE + q.size / PAGE);
  }

  /** In an empty tree the anchored region is sound exactly up to 0x2ffff pages. */
  lemma {:induction false} AnchorExact(r: Region)
    requires r.start == ANON && r.size > 0 && r.size % PAGE == 0 && r.pa % PAGE == 0 && 0 <= r.pa < LIMIT
    ensures RegionOk(r) <==> r.size / PAGE < 0x3_0000
  {
  }

  // ---- vmm_map_fixed's overlap test ----

  /** The test as written, on 32-bit sums. */
  predicate Clashes(r: Region, vs: int, size: int) {
    vs < End(r) % LIMIT && r.start < (vs + size) % LIMIT
  }

  predicate Overlaps(r: Region, vs: int, size: int) {
    vs < End(r) && r.start < vs + size
  }

  /** The test is right for every region exactly when the new range does not wrap, the last page apart. */
  lemma {:induction false} ClashExact(vs: int, size: int)
    requires 0 <= vs < LIMIT && vs % PAGE == 0 && 0 < size < LIMIT && size % PAGE == 0
    ensures (forall r :: RegionOk(r) ==> (Clashes(r, vs, size) <==> Overlaps(r, vs, size))) <==> vs + size < LIMIT || vs == LIMIT - PAGE
  {
    if vs + size >= LIMIT && vs != LIMIT - PAGE {
      var r := Region(vs, PAGE, Flags(true, true, true), 0, false);
      assert RegionOk(r) && Overlaps(r, vs, size) && !Clashes(r, vs, size);
    }
  }

  // ---- insertion and removal ----

  /** Where vmm_rbtree_node_cmp puts a region: behind every smaller start. */
  ghost predicate Placed(rs: seq<Region>, r: Region, k: nat) {
    && k <= |rs|
    && (k > 0 ==> rs[k - 1].start <= r.start)
    && (k < |rs| ==> r.start < rs[k].start)
  }

  function With(rs: seq<Region>, r: Region, k: nat): seq<Region>
    requires k <= |rs|
  {
    rs[..k] + [r] + rs[k..]
  }

  function Minus(rs: seq<Region>, k: nat): seq<Region>
    requires k < |rs|
  {
    rs[..k] + rs[k + 1..]
  }

  /** The regions before the place end below r, those behind it begin above. */
  lemma {:induction false} WithSides(rs: seq<Region>, r: Region, k: nat)
    requires Ordered(rs) && RegionOk(r) && Free(rs, r) && Placed(rs, r, k)
    ensures forall i :: 0 <= i < |rs| ==> if i < k then End(rs[i]) <= r.start else End(r) <= rs[i].start
  {
    forall i | 0 <= i < |rs| ensures if i < k then End(rs[i]) <= r.start else End(r) <= rs[i].start {
      assert RegionOk(rs[i]);
      if i < k - 1 {
        assert End(rs[i]) <= rs[k - 1].start;
      } else if i > k {
        assert End(rs[k]) <= rs[i].start && RegionOk(rs[k]);
      }
    }
  }

  lemma {:induction false} WithOrdered(rs: seq<Region>, r: Region, k: nat)
    requires Ordered(rs) && RegionOk(r) && Free(rs, r) && Placed(rs, r, k)
    ensures Ordered(With(rs, r, k))
  {
    var q := With(rs, r, k);
    WithSides(rs, r, k);
    forall i, j | 0 <= i < j < |q| ensures End(q[i]) <= q[j].start {
      if i < k {
        assert q[i] == rs[i];
      } else if i > k {
        assert q[i] == rs[i - 1] && q[j] == rs[j - 1];
      }
    }
  }

  lemma {:induction false} MinusOrdered(rs: seq<Region>, k: nat)
    requires Ordered(rs) && k < |rs|
    ensures Ordered(Minus(rs, k))
  {
  }

  // ---- agreement with the page tables ----

  function Lo(r: Region): int {
    r.start / PAGE
  }

  function Len(r: Region): int {
    r.size / PAGE
  }

  /** The region hides no paging structure from the kernel: it covers none, or maps it to itself. */
  ghost predicate HidesNothing(m: Mem, r: Region) {
    ClearRun(m, Lo(r), r.pa / PAGE, Len(r), r.flags)
  }

  /** The region can be mapped without touching anybody else's tables or hiding the kernel's own. */
  ghost predicate Fit(m: Mem, c: int, r: Region) {
    AptRun(m, c, Lo(r), Len(r)) && HidesNothing(m, r)
  }

  /** The pool has a slot for every table the region needs. */
  ghost predicate Affordable(m: Mem, c: int, r: Region) {
    Wf(m) && c in m.dirs && RegionOk(r) && Needed(m, c, Lo(r), Len(r)) <= Pmm.CountFree(m.used)
  }

  /** Every page of the region translates to its physical address plus offset. */
  ghost predicate Backed(m: Mem, c: int, r: Region)
    requires Wf(m) && c in m.dirs && RegionOk(r)
  {
    forall w :: Lo(r) <= w < Lo(r) + Len(r) ==> Mapped(m, c, Lo(r), r.pa / PAGE, w, r.flags)
  }

  predicate InRegion(r: Region, w: int) {
    Lo(r) <= w < Lo(r) + Len(r)
  }

  /** The region's pages are backed, through tables that nothing else uses. */
  ghost predicate Held(m: Mem, c: int, r: Region)
    requires Wf(m) && c in m.dirs && RegionOk(r)
  {
    SoleRun(m, c, Lo(r), Len(r)) && Backed(m, c, r)
  }

  /** Regions and page tables agree: every region is backed, and pages of the window outside all regions are not mapped. */
  ghost predicate Agrees(rs: seq<Region>, m: Mem, c: int) {
    && Own(m, c) && Ordered(rs)
    && (forall i :: 0 <= i < |rs| ==> Held(m, c, rs[i]))
    && (forall w :: WINDOW <= w < FRAMES && (forall i :: 0 <= i < |rs| ==> !InRegion(rs[i], w)) ==> Lookup(m, c, w) == None)
  }

  /** A free range in the window can be mapped, and its pages are at rest. */
  lemma {:induction false} WindowReady(rs: seq<Region>, m: Mem, c: int, r: Region)
    requires Agrees(rs, m, c) && RegionOk(r) && Free(rs, r) && WINDOW * PAGE <= r.start
    ensures AptRun(m, c, Lo(r), Len(r)) && AtRest(m, c, Lo(r), Len(r), r.flags)
  {
    forall w | Lo(r) <= w < Lo(r) + Len(r) ensures Apt(m, c, w / 1024) && Lookup(m, c, w) == Left(w, r.flags) {
      forall i | 0 <= i < |rs| ensures !InRegion(rs[i], w) {
        assert RegionOk(rs[i]);
      }
    }
  }

  /** A region none of whose pages changed is still held. */
  lemma {:induction false} StillHeld(m: Mem, m': Mem, e: int, r: Region, c: int)
    requires Stable(m, m', c) && e in m.dirs && RegionOk(r) && Held(m, e, r)
    requires forall w :: InRegion(r, w) ==> Lookup(m', e, w) == Lookup(m, e, w)
    ensures Held(m', e, r)
  {
    forall w | Lo(r) <= w < Lo(r) + Len(r) ensures Mapped(m', e, Lo(r), r.pa / PAGE, w, r.flags) && Sole(m', e, w / 1024) {
      assert InRegion(r, w);
      assert Mapped(m, e, Lo(r), r.pa / PAGE, w, r.flags) && Lookup(m', e, w) == Lookup(m, e, w);
      assert Sole(m, e, w / 1024);
      SoleStays(m, m', c, e, w / 1024);
    }
  }

  /** Adding a region together with its mappings keeps the agreement. */
  lemma {:induction false} AddAgrees(rs: seq<Region>, m: Mem, m': Mem, c: int, r: Region, k: nat)
    requires Agrees(rs, m, c) && RegionOk(r) && Free(rs, r) && Placed(rs, r, k)
    requires SameBut(m, m', c, Lo(r), Len(r)) && Held(m', c, r)
    ensures Agrees(With(rs, r, k), m', c)
  {
    WithOrdered(rs, r, k);
    var q := With(rs, r, k);
    forall i | 0 <= i < |rs| ensures Held(m', c, rs[i]) {
      assert RegionOk(rs[i]);
      StillHeld(m, m', c, rs[i], c);
    }
    forall w | WINDOW <= w < FRAMES && forall i :: 0 <= i < |q| ==> !InRegion(q[i], w) ensures Lookup(m', c, w) == None {
      assert !InRegion(q[k], w);
      forall i | 0 <= i < |rs| ensures !InRegion(rs[i], w) {
        assert !InRegion(q[if i < k then i else i + 1], w);
      }
      assert Lookup(m', c, w) == Lookup(m, c, w);
    }
  }

  /** Removing a region and clearing its pages keeps the agreement. */
  lemma {:induction false} DropAgrees(rs: seq<Region>, m: Mem, m': Mem, c: int, k: nat)
    requires Agrees(rs, m, c) && k < |rs|
    requires SameBut(m, m', c, Lo(rs[k]), Len(rs[k]))
    requires forall w :: Lo(rs[k]) <= w < Lo(rs[k]) + Len(rs[k]) && WINDOW <= w < FRAMES ==> Lookup(m', c, w) == None
    ensures Agrees(Minus(rs, k), m', c)
  {
    MinusOrdered(rs, k);
    var q, r := Minus(rs, k), rs[k];
    assert RegionOk(r);
    forall i | 0 <= i < |rs| && i != k ensures Held(m', c, rs[i]) {
      assert RegionOk(rs[i]);
      assert if i < k then End(rs[i]) <= r.start else End(r) <= rs[i].start;
      StillHeld(m, m', c, rs[i], c);
    }
    forall w | WINDOW <= w < FRAMES && forall i :: 0 <= i < |q| ==> !InRegion(q[i], w) ensures Lookup(m', c, w) == None {
      if !InRegion(r, w) {
        forall i | 0 <= i < |rs| ensures !InRegion(rs[i], w) {
          if i != k { assert !InRegion(q[if i < k then i else i - 1], w); }
        }
        assert Lookup(m', c, w) == Lookup(m, c, w);
      }
    }
  }

  /** Giving a mapping of free pages up does not disturb the agreement. */
  lemma {:induction false} UndoneAgrees(rs: seq<Region>, m: Mem, m': Mem, c: int, r: Region)
    requires Agrees(rs, m, c) && RegionOk(r) && Free(rs, r) && Undone(m, m', c, Lo(r), Len(r), r.flags)
    ensures Agrees(rs, m', c)
  {
    forall i | 0 <= i < |rs| ensures Held(m', c, rs[i]) {
      assert RegionOk(rs[i]);
      StillHeld(m, m', c, rs[i], c);
    }
    forall w | WINDOW <= w < FRAMES && forall i :: 0 <= i < |rs| ==> !InRegion(rs[i], w) ensures Lookup(m', c, w) == None {
      assert Lookup(m, c, w) == None;
    }
  }

  /** A new directory agrees with having no regions. */
  lemma {:induction false} NewAgrees(m: Mem, m': Mem, master: int, c: int)
    requires Born(m, m', master, c) && WindowClear(m, master)
    ensures Agrees([], m', c)
  {
    BornWf(m, m', master, c);
  }

  // ---- what the operations do ----

  /** Region r, free before, has joined the regions at its place, its pages lead to its memory, and only they changed. */
  ghost predicate Joined(rs: seq<Region>, m: Mem, r: Region, k: nat, rs': seq<Region>, m': Mem, c: int) {
    && RegionOk(r) && Free(rs, r) && Placed(rs, r, k) && rs' == With(rs, r, k)
    && SameBut(m, m', c, Lo(r), Len(r)) && c in m.dirs && Held(m', c, r)
  }

  /** Region k is gone, its pages show what unmapping leaves, and only they changed. */
  ghost predicate Dropped(rs: seq<Region>, m: Mem, k: nat, rs': seq<Region>, m': Mem, c: int) {
    && k < |rs| && RegionOk(rs[k]) && rs' == Minus(rs, k) && c in m.dirs
    && SameBut(m, m', c, Lo(rs[k]), Len(rs[k])) && AtRest(m', c, Lo(rs[k]), Len(rs[k]), rs[k].flags)
  }

  /** Nothing happened, or the mapping of r, which no region overlaps, was given up part-way. */
  ghost predicate Failed(rs: seq<Region>, m: Mem, m': Mem, c: int, r: Region) {
    m' == m || (RegionOk(r) && Free(rs, r) && Undone(m, m', c, Lo(r), Len(r), r.flags))
  }

  /** Neither way does another directory notice. */
  lemma {:induction false} FailedAside(rs: seq<Region>, m: Mem, m': Mem, c: int, r: Region)
    requires Wf(m) && Failed(rs, m, m', c, r)
    ensures Aside(m, m', c)
  {
    if m' == m { SameDirsStable(m, m, c); }
  }

  /** Where vmm_alloc_pages and vmm_mmap_reserve put n bytes; an empty tree is anchored at USER_ANON_BASE by the former. */
  function Chosen(rs: seq<Region>, n: int): Option<int> {
    if rs == [] then Some(ANON) else Gap(rs, n, 0)
  }

  /** The region meant to go there. */
  function Attempt(rs: seq<Region>, n: int, fl: Flags, pa: int, own: bool): Region {
    var at := Chosen(rs, n);
    Region(if at.Some? then at.value else 0, n, fl, pa, own)
  }

  /** It could not be added: without an address nothing happened, else the mapping was given up. */
  ghost predicate NotAdded(rs: seq<Region>, m: Mem, m': Mem, c: int, r: Region) {
    Failed(rs, m, m', c, r) && (Chosen(rs, r.size).None? ==> m' == m)
  }

  /** The address chosen is free, if it can hold the region at all. */
  lemma {:induction false} ChosenIsFree(rs: seq<Region>, r: Region)
    requires Ordered(rs) && r.size > 0 && r.size % PAGE == 0 && r.pa % PAGE == 0 && 0 <= r.pa < LIMIT
    requires Chosen(rs, r.size) == Some(r.start) && (rs == [] ==> r.size / PAGE < 0x3_0000)
    ensures RegionOk(r) && Free(rs, r) && (rs == [] || rs[0].start < r.start) && (rs == [] ==> r.start == ANON)
  {
    if rs == [] {
      AnchorExact(r);
    } else {
      GapIsFree(rs, r);
    }
  }

  ghost predicate InWindow(rs: seq<Region>) {
    forall i :: 0 <= i < |rs| ==> WINDOW * PAGE <= rs[i].start
  }

  /** The region meant to go to the address chosen can be mapped there. */
  ghost predicate Roomy(rs: seq<Region>, m: Mem, c: int, n: int, fl: Flags, pa: int) {
    Chosen(rs, n).Some? ==> Fit(m, c, Attempt(rs, n, fl, pa, false))
  }

  /** Without covering any paging structure, whatever memory it gets. */
  ghost predicate Spacious(rs: seq<Region>, m: Mem, c: int, n: int) {
    var at := Chosen(rs, n);
    at.Some? ==> AptRun(m, c, at.value / PAGE, n / PAGE) && Off(m, at.value / PAGE, n / PAGE)
  }

  ghost predicate Off(m: Mem, v: int, n: int) {
    forall w :: v <= w < v + n ==> !PagingFrame(m, w)
  }

  /** With all regions in the window the address chosen can be mapped, and giving up changes nothing. */
  lemma {:induction false} ChosenIsApt(rs: seq<Region>, m: Mem, c: int, r: Region)
    requires Agrees(rs, m, c) && Reach(m) && InWindow(rs) && r.size > 0 && r.size % PAGE == 0 && r.pa % PAGE == 0 && 0 <= r.pa < LIMIT
    requires Chosen(rs, r.size) == Some(r.start) && (rs == [] ==> r.size / PAGE < 0x3_0000)
    ensures Spacious(rs, m, c, r.size) && Roomy(rs, m, c, r.size, r.flags, r.pa) && RegionOk(r) && AtRest(m, c, Lo(r), Len(r), r.flags)
  {
    ChosenIsFree(rs, r);
    WindowReady(rs, m, c, r);
    WindowOff(m, c, r);
  }

  /** No paging structure lies in the window. */
  lemma {:induction false} WindowOff(m: Mem, c: int, r: Region)
    requires Reach(m) && c in m.dirs && RegionOk(r) && WINDOW * PAGE <= r.start
    ensures Off(m, Lo(r), Len(r))
  {
    forall w | PagingFrame(m, w) ensures w < USER_HEAP { LowFrame(m, c, w); }
  }

  lemma {:induction false} LowFrame(m: Mem, c: int, f: int)
    requires Reach(m) && c in m.dirs && PagingFrame(m, f)
    ensures 0 <= f < USER_HEAP
  {
    assert Sees(m, c, f);
  }

  // ---- the kernel keeps reaching its tables ----

  /** After a region joins, the kernel still reaches its tables exactly when the region covers none of them or maps it to itself. */
  lemma {:induction false} JoinedReachExact(rs: seq<Region>, m: Mem, r: Region, k: nat, rs': seq<Region>, m': Mem, c: int)
    requires Reach(m) && Joined(rs, m, r, k, rs', m', c)
    ensures Reach(m') <==> HidesNothing(m, r)
  {
    forall w | InRegion(r, w) ensures Mapped(m', c, Lo(r), r.pa / PAGE, w, r.flags) && (PagingFrame(m', w) <==> PagingFrame(m, w)) {}
    if HidesNothing(m, r) {
      forall w | Lo(r) <= w < Lo(r) + Len(r) && PagingFrame(m, w) ensures Sees(m', c, w) {
        assert InRegion(r, w) && Sees(m, c, w);
      }
      ReachElsewhere(m, m', c, Lo(r), Len(r));
    }
    if Reach(m') {
      forall w | Lo(r) <= w < Lo(r) + Len(r) && PagingFrame(m, w) ensures r.flags.present && (r.pa / PAGE + (w - Lo(r))) % FRAMES == w {
        assert InRegion(r, w) && PagingFrame(m', w) && Sees(m', c, w);
      }
    }
  }

  /** When a region goes its pages in the identity band lead to themselves again. */
  lemma {:induction false} DroppedReach(rs: seq<Region>, m: Mem, k: nat, rs': seq<Region>, m': Mem, c: int)
    requires Reach(m) && Dropped(rs, m, k, rs', m', c) && Held(m, c, rs[k])
    ensures Reach(m')
  {
    var r := rs[k];
    forall w | Lo(r) <= w < Lo(r) + Len(r) && PagingFrame(m, w) ensures Sees(m', c, w) {
      assert Sees(m, c, w) && Mapped(m, c, Lo(r), r.pa / PAGE, w, r.flags);
      assert Lookup(m', c, w) == Left(w, r.flags);
    }
    ReachElsewhere(m, m', c, Lo(r), Len(r));
  }

  /** So they do when a mapping that would have hidden nothing is given up. */
  lemma {:induction false} FailedReach(rs: seq<Region>, m: Mem, m': Mem, c: int, r: Region)
    requires Reach(m) && Failed(rs, m, m', c, r) && (m' != m ==> HidesNothing(m, r))
    ensures Reach(m')
  {
    if m' != m {
      forall w | Lo(r) <= w < Lo(r) + Len(r) && PagingFrame(m, w) ensures Sees(m', c, w) {
        assert Sees(m, c, w);
      }
      ReachElsewhere(m, m', c, Lo(r), Len(r));
    }
  }

  /** Giving up then leaves every translation as it was. */
  lemma {:induction false} FailedAtRest(rs: seq<Region>, m: Mem, m': Mem, c: int, r: Region)
    requires Wf(m) && c in m.dirs && Failed(rs, m, m', c, r) && RegionOk(r) && AtRest(m, c, Lo(r), Len(r), r.flags)
    ensures SameBut(m, m', c, 0, 0)
  {
    if m' == m {
      SameDirsStable(m, m, c);
    } else {
      UndoneAtRest(m, m', c, Lo(r), Len(r), r.flags);
    }
  }

  /** A directory to which nothing happened still agrees with its regions. */
  lemma {:induction false} KeepsAgrees(rs: seq<Region>, m: Mem, m': Mem, e: int)
    requires Agrees(rs, m, e) && Keeps(m, m', e)
    ensures Agrees(rs, m', e)
  {
    forall i | WINDOW / 1024 <= i < 1024 ensures Apt(m', e, i) {
      assert Apt(m, e, i);
    }
    forall i | 0 <= i < |rs| ensures Held(m', e, rs[i]) {
      KeepsHeld(m, m', e, rs[i]);
    }
  }

  lemma {:induction false} KeepsHeld(m: Mem, m': Mem, e: int, r: Region)
    requires Keeps(m, m', e) && RegionOk(r) && Held(m, e, r)
    ensures Held(m', e, r)
  {
    forall w | Lo(r) <= w < Lo(r) + Len(r) ensures Mapped(m', e, Lo(r), r.pa / PAGE, w, r.flags) && Sole(m', e, w / 1024) {
      assert Mapped(m, e, Lo(r), r.pa / PAGE, w, r.flags) && Lookup(m', e, w) == Lookup(m, e, w);
      assert Sole(m, e, w / 1024);
      assert Apt(m, e, w / 1024);
      assert Apt(m', e, w / 1024);
    }
  }

  /** What happens in one address space does not disturb another. */
  lemma {:induction false} NeighbourAgrees(rs: seq<Region>, m: Mem, m': Mem, e: int, c: int)
    requires Agrees(rs, m, e) && e != c && Aside(m, m', c)
    ensures Agrees(rs, m', e)
  {
    AsideKeeps(m, m', e, c);
    KeepsAgrees(rs, m, m', e);
  }

  lemma {:induction false} WholePages(a: int, r: int)
    requires 0 <= r < PAGE
    ensures (PAGE * a + r) % LIMIT == PAGE * (a % FRAMES) + r
  {
    assert PAGE * a + r == LIMIT * (a / FRAMES) + (PAGE * (a % FRAMES) + r);
  }

  /** For every address in a region the processor finds the physical address the region stands for. */
  lemma {:induction false} TranslateAgrees(rs: seq<Region>, m: Mem, c: int, i: nat, va: int)
    requires Agrees(rs, m, c) && i < |rs| && Contains(rs[i], va)
    ensures Translate(m, c, va) == if rs[i].flags.present then Some((rs[i].pa + (va - rs[i].start)) % LIMIT) else None
  {
    var r, w := rs[i], va / PAGE;
    assert RegionOk(r) && Held(m, c, r);
    assert Mapped(m, c, Lo(r), r.pa / PAGE, w, r.flags);
    assert r.pa + (va - r.start) == PAGE * (r.pa / PAGE + (w - Lo(r))) + va % PAGE;
    WholePages(r.pa / PAGE + (w - Lo(r)), va % PAGE);
  }

  /** And an address of the window outside every region is not mapped. */
  lemma {:induction false} OutsideUnmapped(rs: seq<Region>, m: Mem, c: int, va: int)
    requires Agrees(rs, m, c) && WINDOW * PAGE <= va < LIMIT && forall i :: 0 <= i < |rs| ==> !Contains(rs[i], va)
    ensures Translate(m, c, va) == None
  {
    forall i | 0 <= i < |rs| ensures !InRegion(rs[i], va / PAGE) {
      assert RegionOk(rs[i]);
    }
  }

  // ---- tables that are not one's own ----

  /**
   A region read through a table that another directory uses as well does not
   survive a mapping there: its page then leads to the other's frame.
   */
  lemma {:induction false} SharedTableClash(m: Mem, d: int, r: Region, c: int, v: int, w: int, frame: int, fl: Flags)
    requires Wf(m) && d in m.dirs && c in m.dirs && 0 <= v < FRAMES && RegionOk(r) && Backed(m, d, r) && r.flags.present && fl.present
    requires InRegion(r, w) && d != c && Aliases(m, d, w, c, v) && frame != (r.pa / PAGE + (w - Lo(r))) % FRAMES
    ensures MapPage(m, c, v, frame, fl).Some? && Wf(MapPage(m, c, v, frame, fl).value) && d in MapPage(m, c, v, frame, fl).value.dirs
    ensures !Backed(MapPage(m, c, v, frame, fl).value, d, r)
  {
    MapOnly(m, c, v, frame, fl);
    var m' := MapPage(m, c, v, frame, fl).value;
    assert !Mapped(m', d, Lo(r), r.pa / PAGE, w, r.flags);
  }

  /**
   Two processes, directories 2 and 3, cloned from a master whose user heap
   has a table: all three read 0xC0000000 through it.
   */
  function SharedHeap(): Mem {
    var dir := seq(1024, i => if i == USER_HEAP / 1024 then TablePde(true, 100) else NO_PDE);
    Mem(map[1 := dir, 2 := dir, 3 := dir], map[100 := Empty()], seq(SLOTS, i => i < 3), 100)
  }

  lemma {:induction false} SharedHeapWf()
    ensures Wf(SharedHeap())
    ensures forall d :: d in SharedHeap().dirs ==> SharedHeap().dirs[d][USER_HEAP / 1024] == TablePde(true, 100)
  {
    var m := SharedHeap();
    forall d, i | d in m.dirs && 0 <= i < 1024 ensures PdeOk(m, m.dirs[d][i]) {
      assert m.dirs[d][i] == if i == USER_HEAP / 1024 then TablePde(true, 100) else NO_PDE;
    }
  }

  /** Each maps a segment at 0xC0000000: the second mapping takes the first one's page over. */
  lemma {:induction false} TwoProcessesAtUserHeap()
    ensures Wf(SharedHeap()) && 2 in SharedHeap().dirs && 3 in SharedHeap().dirs
    ensures var fl := Flags(true, true, true); var a := MapPage(SharedHeap(), 2, USER_HEAP, 5, fl);
      && a.Some? && Wf(a.value) && a.value.dirs.Keys == {1, 2, 3}
      && var r := Region(USER_HEAP * PAGE, PAGE, fl, 5 * PAGE, true); var b := MapPage(a.value, 3, USER_HEAP, 6, fl);
        && RegionOk(r) && Backed(a.value, 2, r)
        && b.Some? && Wf(b.value) && 2 in b.value.dirs && !Backed(b.value, 2, r)
  {
    SharedHeapWf();
    var m, fl := SharedHeap(), Flags(true, true, true);
    MapOnly(m, 2, USER_HEAP, 5, fl);
    var a := MapPage(m, 2, USER_HEAP, 5, fl).value;
    assert a.dirs == m.dirs;
    var r := Region(USER_HEAP * PAGE, PAGE, fl, 5 * PAGE, true);
    assert Backed(a, 2, r);
    SharedTableClash(a, 2, r, 3, USER_HEAP, USER_HEAP, 6, fl);
  }

  // ---- a segment over the paging pool ----

  /** The master at frame 5 and a process whose directory is slot 0 of a pool at 4 MB, both with the first 12 MB identity-mapped. */
  function PoolAt4Mb(): Mem {
    var dir := seq(1024, i => if 0 <= i < 3 then Pde(true, true, false, true, PLAIN, 1024 * i) else NO_PDE);
    Mem(map[5 := dir, 1024 := dir], map[], seq(SLOTS, i => i == 0), 1024)
  }

  lemma {:induction false} PoolAt4MbReach()
    ensures Reach(PoolAt4Mb()) && Homed(PoolAt4Mb(), 5, 1024)
    ensures forall d, i :: d in PoolAt4Mb().dirs && 0 <= i < 1024 ==>
      PoolAt4Mb().dirs[d][i] == if i < 3 then Pde(true, true, false, true, PLAIN, 1024 * i) else NO_PDE
  {
    var m := PoolAt4Mb();
    forall d, i | d in m.dirs && 0 <= i < 1024 ensures PdeOk(m, m.dirs[d][i]) {}
    IdentityReach(m, 3);
  }

  /** A page of an ELF segment is mapped where the process's own directory lies. */
  ghost function SegmentLoaded(): Mem {
    match MapPage(PoolAt4Mb(), 1024, 1024, 9999, Flags(true, true, true))
    case Some(m) => m
    case None => PoolAt4Mb()
  }

  lemma {:induction false} SegmentIsMapped()
    ensures MapPage(PoolAt4Mb(), 1024, 1024, 9999, Flags(true, true, true)) == Some(SegmentLoaded())
    ensures Wf(SegmentLoaded()) && SegmentLoaded().dirs.Keys == {5, 1024}
  {
    var m, fl := PoolAt4Mb(), Flags(true, true, true);
    PoolAt4MbReach();
    MapTakes(m, 1024, 1024, 9999, fl);
    NoneFree(m.used);
    assert !m.used[1];
    MapGrows(m, 1024, 1024, 9999, fl);
  }

  /**
   The entry under it can be split, yet afterwards the kernel's accesses to
   that directory end in the segment's memory, and whatever they write there,
   no page of the process that was not mapped before becomes mapped.
   */
  lemma {:induction false} SegmentOverDirectory(after: Mem)
    requires Wf(after) && 1024 in after.dirs && 1024 in SegmentLoaded().dirs && after.dirs[1024] == SegmentLoaded().dirs[1024]
    ensures Reach(PoolAt4Mb()) && AptRun(PoolAt4Mb(), 1024, 1024, 1)
    ensures MapPage(PoolAt4Mb(), 1024, 1024, 9999, Flags(true, true, true)) == Some(SegmentLoaded())
    ensures Wf(SegmentLoaded()) && Hit(SegmentLoaded(), 1024, 1024) == Some(9999) && !Reach(SegmentLoaded())
    ensures Lookup(after, 1024, WINDOW) == None
  {
    PoolAt4MbReach();
    SegmentIsMapped();
    var m, fl := PoolAt4Mb(), Flags(true, true, true);
    MapOwn(m, 1024, 1024, 9999, fl);
    MapReachExact(m, 1024, 1024, 9999, fl);
    MapGrows(m, 1024, 1024, 9999, fl);
    assert m.dirs[1024][WINDOW / 1024] == NO_PDE;
  }
}
