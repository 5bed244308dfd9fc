/**
 Sharing memory between processes (osdev/kernel/ipc/shm.c): a grant, a mapping
 and their undoing over the target's capabilities, regions and page tables.
 */
module Shm {
  import opened Paging
  import opened PagingImpl
  import opened VmmRange
  import opened VmmSpec
  import opened VmmImpl
  import opened Caps
  import opened Errno
  import opened Basics

  const PTE_USER_PAGE: bv32 := 7
  const USER_PAGE := Flags(true, true, true)

  /** The parts of a process that sharing touches. */
  class Process {
    const space: AddressSpace
    const table: CapTable
    const privileged: bool

    constructor (space: AddressSpace, table: CapTable, privileged: bool)
      ensures this.space == space && this.table == table && this.privileged == privileged
    {
      this.space, this.table, this.privileged := space, table, privileged;
    }

    /** CAP_IPC, which kernel processes do not need. */
    method MayShare() returns (ok: bool)
      ensures ok == (privileged || Holds(table.caps, Ipc(1)))
    {
      if privileged {
        return true;
      }
      var ret := table.Check(Ipc(1));
      return ret == 0;
    }
  }

  /** Two processes of one machine: the same one, or with nothing in common but the page tables. */
  ghost predicate Apart(curr: Process, target: Process)
    reads curr, target
  {
    && curr.space.pt == target.space.pt
    && (curr != target ==> curr.table != target.table && curr.space != target.space && curr.space.tree != target.space.tree && curr.space.cr3 != target.space.cr3)
  }

  /** The aligned size as computed, in 32 bits. */
  function AlignedSize(pa: int, size: int): int {
    (size + pa % PAGE + (PAGE - 1)) % LIMIT / PAGE * PAGE
  }

  /** The capability a share of [pa, pa + size) grants. */
  function ShareCap(pa: int, size: int): Cap {
    MapMem(pa - pa % PAGE, AlignedSize(pa, size), PTE_USER_PAGE)
  }

  /**
   When the grant is in place the check of vmm_map_memory passes exactly for
   the sizes whose alignment does not wrap, unless another grant covers it.
   */
  lemma {:induction false} GrantCoversMap(pa: int, size: int)
    requires 0 <= pa < LIMIT && 0 < size < LIMIT
    ensures Allows(ShareCap(pa, size), MapMem(pa, size, PTE_USER_PAGE)) <==> size + pa % PAGE + (PAGE - 1) < LIMIT
  {
  }

  lemma {:induction false} GrantAllows(caps: seq<Cap>, pa: int, size: int)
    requires 0 <= pa < LIMIT && 0 < size < LIMIT && size + pa % PAGE + (PAGE - 1) < LIMIT
    ensures Holds([ShareCap(pa, size)] + caps, MapMem(pa, size, PTE_USER_PAGE))
  {
    GrantCoversMap(pa, size);
    assert ([ShareCap(pa, size)] + caps)[0] == ShareCap(pa, size);
  }

  /** What a share did to its target: one capability in front, one region with its pages. */
  ghost predicate Shared(caps: seq<Cap>, rs: seq<Region>, m: Mem, caps': seq<Cap>, rs': seq<Region>, m': Mem,
                         c: int, pa: int, size: int, va: int, k: nat) {
    && caps' == [ShareCap(pa, size)] + caps && ShareCap(pa, size) !in caps
    && Joined(rs, m, MapsTo(pa, size, USER_PAGE, va), k, rs', m', c)
    && MapsTo(pa, size, USER_PAGE, va) == Candidate(rs, pa, size) && Chosen(rs, Aligned(pa, size)).Some?
    && size > 0 && 0 <= pa < LIMIT && 0 <= va < LIMIT && Aligned(pa, size) == AlignedSize(pa, size)
  }

  /** The region a mapping of [pa, pa + size) would take; only its start depends on what is free. */
  function Candidate(rs: seq<Region>, pa: int, size: int): Region {
    Attempt(rs, Aligned(pa, size), USER_PAGE, pa - pa % PAGE, false)
  }

  /** That region can be mapped where it would go. */
  ghost predicate RoomFor(rs: seq<Region>, m: Mem, c: int, pa: int, size: int) {
    Roomy(rs, m, c, Aligned(pa, size), USER_PAGE, pa - pa % PAGE)
  }

  /** Nothing about the target changed, except that pages of the region it would have taken may have gone to rest. */
  ghost predicate Untouched(caps: seq<Cap>, rs: seq<Region>, m: Mem, caps': seq<Cap>, rs': seq<Region>, m': Mem, c: int, pa: int, size: int) {
    caps' == caps && rs' == rs && NotAdded(rs, m, m', c, Candidate(rs, pa, size))
  }

  /** With all regions in the window they were at rest, so every translation is as before. */
  lemma {:induction false} UntouchedInWindow(caps: seq<Cap>, rs: seq<Region>, m: Mem, caps': seq<Cap>, rs': seq<Region>, m': Mem, c: int, pa: int, size: int)
    requires Untouched(caps, rs, m, caps', rs', m', c, pa, size) && Agrees(rs, m, c) && Reach(m) && InWindow(rs) && rs != [] && 0 <= pa < LIMIT && size > 0
    ensures SameBut(m, m', c, 0, 0)
  {
    var r := Candidate(rs, pa, size);
    AlignedOk(pa, size);
    if m' == m {
      SameDirsStable(m, m, c);
    } else {
      ChosenIsApt(rs, m, c, r);
      FailedAtRest(rs, m, m', c, r);
    }
  }

  /** The source range: the physical address of va and whether the pages around lie in its region. */
  method Source(curr: Process, va: int, size: int) returns (ok: bool, pa: int)
    requires curr.space.Valid() && 0 <= va < LIMIT && 0 < size < LIMIT
    ensures 0 <= pa < LIMIT && pa == PaOf(curr.space.Regions(), va)
    ensures ok <==> Sharable(curr.space.Regions(), va, size)
  {
    pa := curr.space.VaToPa(va);
    if pa == 0 {
      return false, 0;
    }
    var node;
    ghost var i;
    node, i := curr.space.Scan(va);
    if node == 0 {
      return false, pa;
    }
    var r := curr.space.regions[node];
    assert r == curr.space.Regions()[i] && RegionOk(r);
    SpansExact(curr.space.Regions(), i, va, size);
    var apa := pa - pa % PAGE;
    if apa < r.pa || AlignedSize(pa, size) > (r.size - (apa - r.pa)) % LIMIT {
      return false, pa;
    }
    return true, pa;
  }

  /** The source is mapped, not at physical address 0, and one region has all the pages to be shared. */
  ghost predicate Sharable(rs: seq<Region>, va: int, size: int) {
    PaOf(rs, va) != 0 && exists i :: 0 <= i < |rs| && Spans(rs[i], va, PaOf(rs, va), size)
  }

  /** The 32-bit comparisons of shm_share decide exactly that. */
  lemma {:induction false} SpansExact(rs: seq<Region>, i: nat, va: int, size: int)
    requires Ordered(rs) && i < |rs| && RegionOk(rs[i]) && Contains(rs[i], va) && FindAt(rs, va, 0) == Some(i) && va != 0 && 0 < size < LIMIT
    ensures var r, pa := rs[i], PaOf(rs, va);
      (exists j :: 0 <= j < |rs| && Spans(rs[j], va, pa, size)) <==>
      !(pa - pa % PAGE < r.pa || AlignedSize(pa, size) > (r.size - (pa - pa % PAGE - r.pa)) % LIMIT)
  {
    var r, pa := rs[i], PaOf(rs, va);
    SpansRegion(r, va, pa, size);
    forall j | 0 <= j < |rs| && Spans(rs[j], va, pa, size) ensures j == i {
      FoundIsUnique(rs, va, j);
    }
  }

  lemma {:induction false} SpansRegion(r: Region, va: int, pa: int, size: int)
    requires RegionOk(r) && Contains(r, va) && pa == (r.pa + (va - r.start)) % LIMIT && 0 < size < LIMIT
    ensures Spans(r, va, pa, size) <==> !(pa - pa % PAGE < r.pa || AlignedSize(pa, size) > (r.size - (pa - pa % PAGE - r.pa)) % LIMIT)
  {
    var off := va - r.start;
    if r.pa + off < LIMIT {
      assert pa == r.pa + off;
      assert 0 < r.size - (pa - pa % PAGE - r.pa) < LIMIT;
    } else {
      assert pa == r.pa + off - LIMIT;
    }
  }

  /** va lies in r at physical address pa, and the shared pages do not reach out of r's physical range. */
  ghost predicate Spans(r: Region, va: int, pa: int, size: int) {
    && Contains(r, va) && pa == r.pa + (va - r.start)
    && r.pa <= pa - pa % PAGE && pa - pa % PAGE + AlignedSize(pa, size) <= r.pa + r.size
  }

  /** What the two steps on the target return, decided by what they find there. */
  ghost function GrantRet(caps: seq<Cap>, rs: seq<Region>, m: Mem, c: int, pa: int, size: int, mem: bool, n: Ptr): int {
    if AlignedSize(pa, size) == 0 || pa - pa % PAGE + AlignedSize(pa, size) >= LIMIT then E_INVAL
    else if ShareCap(pa, size) in caps then E_EXISTS
    else if !mem then E_NOMEM
    else if n != 0 && size + pa % PAGE + (PAGE - 1) < LIMIT && Chosen(rs, Aligned(pa, size)).Some? && Affordable(m, c, Candidate(rs, pa, size)) then 0
    else E_LIMIT
  }

  lemma {:induction false} GrantRetExact(caps: seq<Cap>, rs: seq<Region>, m: Mem, c: int, pa: int, size: int, mem: bool, n: Ptr)
    requires 0 <= pa < LIMIT && 0 < size < LIMIT
    ensures var g := Grant(caps, ShareCap(pa, size), mem).1;
      && (g != 0 ==> GrantRet(caps, rs, m, c, pa, size, mem, n) == g)
      && (g == 0 ==>
            GrantRet(caps, rs, m, c, pa, size, mem, n) ==
            if Mappable(rs, m, c, pa, size, Holds([ShareCap(pa, size)] + caps, MapMem(pa, size, PTE_USER_PAGE)), n) then 0 else E_LIMIT)
  {
    if size + pa % PAGE + (PAGE - 1) < LIMIT { GrantAllows(caps, pa, size); }
  }

  /** What shm_share returns. */
  ghost function ShareRet(may: bool, source: seq<Region>, caps: seq<Cap>, rs: seq<Region>, m: Mem, c: int, va: int, size: int, mem: bool, n: Ptr): int {
    if size == 0 then E_INVAL
    else if !may then E_PERM
    else if !Sharable(source, va, size) then E_INVAL
    else GrantRet(caps, rs, m, c, PaOf(source, va), size, mem, n)
  }

  /** shm_share on a target that has a region; n and mem are the outcomes of its allocations. */
  method Share(curr: Process, target: Process, va: int, size: int, mem: bool, n: Ptr) returns (ret: int, out: int, ghost k: nat)
    requires Apart(curr, target) && curr.space.Valid() && target.space.Valid() && target.space.Regions() != []
    requires 0 <= va < LIMIT && 0 <= size < LIMIT
    requires n != 0 ==> n != target.space.tree.nil && n !in target.space.regions
    requires RoomFor(target.space.Regions(), target.space.pt.View(), target.space.cr3, PaOf(curr.space.Regions(), va), size)
    modifies target.space, target.space.tree, target.space.pt, target.table
    ensures target.space.Valid() && curr.space.Valid()
    ensures ret == ShareRet(curr.privileged || Holds(old(curr.table.caps), Ipc(1)), old(curr.space.Regions()), old(target.table.caps),
                            old(target.space.Regions()), old(target.space.pt.View()), target.space.cr3, va, size, mem, n)
    ensures ret == 0 ==>
      && Shared(old(target.table.caps), old(target.space.Regions()), old(target.space.pt.View()),
                target.table.caps, target.space.Regions(), target.space.pt.View(), target.space.cr3, PaOf(old(curr.space.Regions()), va), size, out, k)
      && Sharable(old(curr.space.Regions()), va, size)
    ensures ret != 0 ==>
      Untouched(old(target.table.caps), old(target.space.Regions()), old(target.space.pt.View()),
                target.table.caps, target.space.Regions(), target.space.pt.View(), target.space.cr3, PaOf(old(curr.space.Regions()), va), size)
  {
    out, k := 0, 0;
    if size == 0 {
      return E_INVAL, 0, 0;
    }
    var may := curr.MayShare();
    if !may {
      return E_PERM, 0, 0;
    }
    var ok, pa := Source(curr, va, size);
    if !ok {
      return E_INVAL, 0, 0;
    }
    ret, out, k := GrantAndMap(curr, target, pa, size, mem, n);
  }

  /** The two steps on the target, with the roll-back of the grant. */
  method GrantAndMap(curr: Process, target: Process, pa: int, size: int, mem: bool, n: Ptr) returns (ret: int, out: int, ghost k: nat)
    requires Apart(curr, target) && curr.space.Valid() && target.space.Valid() && target.space.Regions() != []
    requires 0 <= pa < LIMIT && 0 < size < LIMIT && RoomFor(target.space.Regions(), target.space.pt.View(), target.space.cr3, pa, size)
    requires n != 0 ==> n != target.space.tree.nil && n !in target.space.regions
    modifies target.space, target.space.tree, target.space.pt, target.table
    ensures target.space.Valid() && curr.space.Valid()
    ensures ret == GrantRet(old(target.table.caps), old(target.space.Regions()), old(target.space.pt.View()), target.space.cr3, pa, size, mem, n)
    ensures ret == 0 ==>
      Shared(old(target.table.caps), old(target.space.Regions()), old(target.space.pt.View()),
             target.table.caps, target.space.Regions(), target.space.pt.View(), target.space.cr3, pa, size, out, k)
    ensures ret != 0 ==>
      Untouched(old(target.table.caps), old(target.space.Regions()), old(target.space.pt.View()),
                target.table.caps, target.space.Regions(), target.space.pt.View(), target.space.cr3, pa, size)
  {
    out, k := 0, 0;
    ghost var caps := target.table.caps;
    var c := ShareCap(pa, size);
    GrantRetExact(caps, target.space.Regions(), target.space.pt.View(), target.space.cr3, pa, size, mem, n);
    ret := target.table.CapGrant(c, mem);
    if ret != 0 {
      return;
    }
    GrantRevoke(caps, c, mem);
    var allowed := target.table.Check(MapMem(pa, size, PTE_USER_PAGE));
    ret, out, k := MapGranted(curr, target, pa, size, allowed == 0, n, caps);
    OutcomeShared(ret, caps, old(target.space.Regions()), old(target.space.pt.View()), target.space.Regions(), target.space.pt.View(),
                  target.space.cr3, pa, size, out, k);
  }

  /** The mapping with the grant in place; if it fails the grant is revoked. */
  method MapGranted(curr: Process, target: Process, pa: int, size: int, allowed: bool, n: Ptr, ghost caps: seq<Cap>) returns (ret: int, out: int, ghost k: nat)
    requires Apart(curr, target) && curr.space.Valid() && target.space.Valid() && target.space.Regions() != []
    requires 0 <= pa < LIMIT && 0 < size < LIMIT && RoomFor(target.space.Regions(), target.space.pt.View(), target.space.cr3, pa, size)
    requires n != 0 ==> n != target.space.tree.nil && n !in target.space.regions
    requires var c := ShareCap(pa, size); target.table.caps == [c] + caps && Revoke(target.table.caps, c) == caps
    modifies target.space, target.space.tree, target.space.pt, target.table
    ensures target.space.Valid() && curr.space.Valid() && target.table.caps == if ret == 0 then [ShareCap(pa, size)] + caps else caps
    ensures Outcome(ret, old(target.space.Regions()), old(target.space.pt.View()), target.space.Regions(), target.space.pt.View(),
                    target.space.cr3, pa, size, out, k)
    ensures ret == if Mappable(old(target.space.Regions()), old(target.space.pt.View()), target.space.cr3, pa, size, allowed, n) then 0 else E_LIMIT
  {
    ret, out, k := MapInto(curr, target.space, pa, size, allowed, n);
    if ret != 0 {
      target.table.CapRevoke(ShareCap(pa, size));
      ret := E_LIMIT;
    }
  }

  lemma {:induction false} OutcomeShared(ret: int, caps: seq<Cap>, rs: seq<Region>, m: Mem, rs': seq<Region>, m': Mem, c: int,
                                         pa: int, size: int, out: int, k: nat)
    requires Outcome(ret, rs, m, rs', m', c, pa, size, out, k) && ShareCap(pa, size) !in caps && 0 <= pa < LIMIT && size > 0
    ensures if ret == 0 then Shared(caps, rs, m, [ShareCap(pa, size)] + caps, rs', m', c, pa, size, out, k)
            else Untouched(caps, rs, m, caps, rs', m', c, pa, size)
  {
  }

  lemma {:induction false} MapsToBounds(pa: int, size: int, va: int)
    requires 0 <= pa < LIMIT && 0 < size <= LIMIT - 1 - pa % PAGE - (PAGE - 1) && RegionOk(MapsTo(pa, size, USER_PAGE, va))
    ensures Aligned(pa, size) == AlignedSize(pa, size) && 0 <= va < LIMIT
  {
    AlignedOk(pa, size);
  }

  /** What vmm_map_memory in the target did, or failed to do. */
  ghost predicate Outcome(ret: int, rs: seq<Region>, m: Mem, rs': seq<Region>, m': Mem, c: int, pa: int, size: int, out: int, k: nat) {
    if ret == 0 then
      && Joined(rs, m, MapsTo(pa, size, USER_PAGE, out), k, rs', m', c)
      && MapsTo(pa, size, USER_PAGE, out) == Candidate(rs, pa, size) && Chosen(rs, Aligned(pa, size)).Some?
      && Aligned(pa, size) == AlignedSize(pa, size) && 0 <= out < LIMIT
    else
      Untouched([], rs, m, [], rs', m', c, pa, size)
  }

  /** Whether vmm_map_memory will map. */
  ghost predicate Mappable(rs: seq<Region>, m: Mem, c: int, pa: int, size: int, allowed: bool, n: Ptr) {
    && allowed && size + pa % PAGE + (PAGE - 1) < LIMIT && n != 0
    && Chosen(rs, Aligned(pa, size)).Some? && Affordable(m, c, Candidate(rs, pa, size))
  }

  lemma {:induction false} OutcomeAside(ret: int, rs: seq<Region>, m: Mem, rs': seq<Region>, m': Mem, c: int, pa: int, size: int, out: int, k: nat)
    requires Wf(m) && Outcome(ret, rs, m, rs', m', c, pa, size, out, k)
    ensures Aside(m, m', c)
  {
    if ret != 0 { FailedAside(rs, m, m', c, Candidate(rs, pa, size)); }
  }

  /** vmm_map_memory in the target. */
  method MapTarget(space: AddressSpace, pa: int, size: int, allowed: bool, n: Ptr) returns (ret: int, out: int, ghost k: nat)
    requires space.Valid() && space.Regions() != []
    requires 0 <= pa < LIMIT && 0 < size < LIMIT && RoomFor(space.Regions(), space.pt.View(), space.cr3, pa, size)
    requires n != 0 ==> n != space.tree.nil && n !in space.regions
    modifies space, space.tree, space.pt
    ensures space.Valid()
    ensures Outcome(ret, old(space.Regions()), old(space.pt.View()), space.Regions(), space.pt.View(), space.cr3, pa, size, out, k)
    ensures ret == 0 <==> Mappable(old(space.Regions()), old(space.pt.View()), space.cr3, pa, size, allowed, n)
  {
    ret, out, k := space.MapMemory(pa, size, USER_PAGE, allowed, n);
    if ret == 0 {
      MapsToBounds(pa, size, out);
    }
  }

  /** The caller's own address space stays valid. */
  method MapInto(curr: Process, space: AddressSpace, pa: int, size: int, allowed: bool, n: Ptr) returns (ret: int, out: int, ghost k: nat)
    requires curr.space.Valid() && space.Valid() && space.Regions() != [] && space.pt == curr.space.pt
    requires space != curr.space ==> space.tree != curr.space.tree && space.cr3 != curr.space.cr3
    requires 0 <= pa < LIMIT && 0 < size < LIMIT && RoomFor(space.Regions(), space.pt.View(), space.cr3, pa, size)
    requires n != 0 ==> n != space.tree.nil && n !in space.regions
    modifies space, space.tree, space.pt
    ensures space.Valid() && curr.space.Valid()
    ensures Outcome(ret, old(space.Regions()), old(space.pt.View()), space.Regions(), space.pt.View(), space.cr3, pa, size, out, k)
    ensures ret == 0 <==> Mappable(old(space.Regions()), old(space.pt.View()), space.cr3, pa, size, allowed, n)
  {
    ghost var rs, m := space.Regions(), space.pt.View();
    ret, out, k := MapTarget(space, pa, size, allowed, n);
    OutcomeAside(ret, rs, m, space.Regions(), space.pt.View(), space.cr3, pa, size, out, k);
    if space != curr.space {
      NeighbourAgrees(old(curr.space.Regions()), m, space.pt.View(), curr.space.cr3, space.cr3);
    }
  }

  /** Region i is gone with its pages and the grant equal to its range; older capabilities stay. */
  ghost predicate Unshared(caps: seq<Cap>, rs: seq<Region>, m: Mem, caps': seq<Cap>, rs': seq<Region>, m': Mem, c: int, i: nat) {
    && i < |rs| && Dropped(rs, m, i, rs', m', c)
    && caps' == Revoke(caps, RegionCap(rs[i]))
  }

  function RegionCap(r: Region): Cap {
    MapMem(r.pa, r.size, PTE_USER_PAGE)
  }

  /** shm_unshare. */
  method Unshare(curr: Process, target: Process, va: int) returns (ret: int)
    requires Apart(curr, target) && curr.space.Valid() && target.space.Valid() && 0 <= va < LIMIT
    modifies target.space, target.space.tree, target.space.pt, target.table
    ensures target.space.Valid()
    ensures match FindAt(old(target.space.Regions()), va, 0)
      case None => ret == if curr.privileged || Holds(old(curr.table.caps), Ipc(1)) then E_NOTFOUND else E_PERM
      case Some(i) =>
        var r := old(target.space.Regions())[i];
        && (ret != 0 ==> ret == if curr.privileged || Holds(old(curr.table.caps), Ipc(1)) then E_LIMIT else E_PERM)
        && (ret == 0 <==> (curr.privileged || Holds(old(curr.table.caps), Ipc(1))) && !r.own && Holds(old(target.table.caps), MapMem(r.pa, r.size, 0)))
        && (ret == 0 ==>
              Unshared(old(target.table.caps), old(target.space.Regions()), old(target.space.pt.View()),
                       target.table.caps, target.space.Regions(), target.space.pt.View(), target.space.cr3, i))
    ensures ret != 0 ==>
      && target.table.caps == old(target.table.caps) && target.space.Regions() == old(target.space.Regions())
      && target.space.pt.View() == old(target.space.pt.View())
  {
    var may := curr.MayShare();
    if !may {
      return E_PERM;
    }
    var node;
    ghost var i;
    node, i := target.space.Scan(va);
    if node == 0 {
      return E_NOTFOUND;
    }
    var r := target.space.regions[node];
    assert r == target.space.Regions()[i];
    var gone := UnshareRegion(target, r, i);
    return if gone then 0 else E_LIMIT;
  }

  /** The steps on the region found: check, unmap, revoke. */
  method UnshareRegion(target: Process, r: Region, ghost i: nat) returns (gone: bool)
    requires target.space.Valid() && i < |target.space.Regions()| && target.space.Regions()[i] == r
    modifies target.space, target.space.tree, target.space.pt, target.table
    ensures target.space.Valid() && gone == (!r.own && Holds(old(target.table.caps), MapMem(r.pa, r.size, 0)))
    ensures gone ==>
      Unshared(old(target.table.caps), old(target.space.Regions()), old(target.space.pt.View()),
               target.table.caps, target.space.Regions(), target.space.pt.View(), target.space.cr3, i)
    ensures !gone ==>
      && target.table.caps == old(target.table.caps) && target.space.Regions() == old(target.space.Regions())
      && target.space.pt.View() == old(target.space.pt.View())
  {
    var allowed := target.table.Check(MapMem(r.pa, r.size, 0));
    gone := UnmapWhole(target.space, r, allowed == 0, i);
    if gone {
      target.table.CapRevoke(RegionCap(r));
    }
  }

  /** vmm_unmap_memory from the aligned start of region i with its full size. */
  method UnmapWhole(space: AddressSpace, r: Region, allowed: bool, ghost i: nat) returns (gone: bool)
    requires space.Valid() && i < |space.Regions()| && space.Regions()[i] == r
    modifies space, space.tree, space.pt
    ensures space.Valid() && gone == (allowed && !r.own)
    ensures gone ==> Dropped(old(space.Regions()), old(space.pt.View()), i, space.Regions(), space.pt.View(), space.cr3)
    ensures !gone ==> space.Regions() == old(space.Regions()) && space.pt.View() == old(space.pt.View())
  {
    assert RegionOk(r);
    FoundIsUnique(space.Regions(), r.start, i);
    var ret := space.UnmapMemory(r.start, r.size, allowed);
    return ret == 0;
  }

  /** The region of a share holds the address it returned. */
  lemma {:induction false} SharedIsFound(rs: seq<Region>, m: Mem, rs': seq<Region>, m': Mem, c: int, pa: int, size: int, va: int, k: nat)
    requires Joined(rs, m, MapsTo(pa, size, USER_PAGE, va), k, rs', m', c) && Ordered(rs) && size > 0 && 0 <= pa < LIMIT
    ensures FindAt(rs', va, 0) == Some(k) && rs'[k] == MapsTo(pa, size, USER_PAGE, va) && Minus(rs', k) == rs
  {
    var r := MapsTo(pa, size, USER_PAGE, va);
    WithOrdered(rs, r, k);
    AlignedOk(pa, size);
    assert rs'[k] == r && Contains(r, va);
    FoundIsUnique(rs', va, k);
    WithMinus(rs, r, k);
  }

  /**
   Share, then unshare: the capabilities and regions are those before the
   share, and so are the translations exactly when the pages were at rest.
   */
  lemma {:induction false} ShareUnshare(caps: seq<Cap>, rs: seq<Region>, m: Mem, caps1: seq<Cap>, rs1: seq<Region>, m1: Mem,
                                        caps2: seq<Cap>, rs2: seq<Region>, m2: Mem, c: int, pa: int, size: int, va: int, k: nat)
    requires Agrees(rs, m, c) && Shared(caps, rs, m, caps1, rs1, m1, c, pa, size, va, k)
    requires FindAt(rs1, va, 0).Some? && Unshared(caps1, rs1, m1, caps2, rs2, m2, c, FindAt(rs1, va, 0).value)
    ensures Untouched(caps, rs, m, caps2, rs2, m2, c, pa, size) && RegionOk(Candidate(rs, pa, size))
    ensures var r := Candidate(rs, pa, size); SameBut(m, m2, c, 0, 0) <==> AtRest(m, c, Lo(r), Len(r), USER_PAGE)
  {
    SharedIsFound(rs, m, rs1, m1, c, pa, size, va, k);
    var r := Candidate(rs, pa, size);
    assert RegionCap(r) == ShareCap(pa, size);
    assert Grant(caps, ShareCap(pa, size), true) == (caps1, 0) || !Grantable(ShareCap(pa, size));
    assert ([ShareCap(pa, size)] + caps)[1..] == caps;
    Chain(m, m1, m2, c, Lo(r), Len(r), Len(r));
    if AtRest(m, c, Lo(r), Len(r), USER_PAGE) {
      UndoneAtRest(m, m2, c, Lo(r), Len(r), USER_PAGE);
    }
  }

  lemma {:induction false} MoreHold(caps: seq<Cap>, c: Cap, x: Cap)
    ensures Holds(caps, x) ==> Holds([c] + caps, x)
  {
    if Holds(caps, x) {
      var i :| 0 <= i < |caps| && Allows(caps[i], x);
      assert ([c] + caps)[i + 1] == caps[i];
    }
  }

  /** The first steps of PORTAL_CTRL_CALL when its request cannot be allocated: share and take back. */
  method ShareAndTakeBack(curr: Process, target: Process, va: int, size: int, mem: bool, n: Ptr) returns (ret: int)
    requires Apart(curr, target) && curr.space.Valid() && target.space.Valid() && target.space.Regions() != []
    requires 0 <= va < LIMIT && 0 <= size < LIMIT
    requires n != 0 ==> n != target.space.tree.nil && n !in target.space.regions
    requires RoomFor(target.space.Regions(), target.space.pt.View(), target.space.cr3, PaOf(curr.space.Regions(), va), size)
    modifies target.space, target.space.tree, target.space.pt, target.table
    ensures target.space.Valid()
    ensures Untouched(old(target.table.caps), old(target.space.Regions()), old(target.space.pt.View()),
                      target.table.caps, target.space.Regions(), target.space.pt.View(), target.space.cr3, PaOf(old(curr.space.Regions()), va), size)
  {
    ghost var caps, rs, m, pa := target.table.caps, target.space.Regions(), target.space.pt.View(), PaOf(curr.space.Regions(), va);
    var out;
    ghost var k;
    ret, out, k := Share(curr, target, va, size, mem, n);
    if ret != 0 {
      return;
    }
    MoreHold(caps, ShareCap(pa, size), Ipc(1));
    TakeBack(curr, target, caps, rs, m, pa, size, out, k);
    ret := E_NOMEM;
  }

  /** Unsharing what was shared succeeds and restores the target. */
  method TakeBack(curr: Process, target: Process, ghost caps: seq<Cap>, ghost rs: seq<Region>, ghost m: Mem,
                  ghost pa: int, ghost size: int, out: int, ghost k: nat)
    requires Apart(curr, target) && curr.space.Valid() && target.space.Valid()
    requires curr.privileged || Holds(curr.table.caps, Ipc(1))
    requires Agrees(rs, m, target.space.cr3)
    requires Shared(caps, rs, m, target.table.caps, target.space.Regions(), target.space.pt.View(), target.space.cr3, pa, size, out, k)
    modifies target.space, target.space.tree, target.space.pt, target.table
    ensures target.space.Valid()
    ensures Untouched(caps, rs, m, target.table.caps, target.space.Regions(), target.space.pt.View(), target.space.cr3, pa, size)
  {
    ghost var caps1, rs1, m1 := target.table.caps, target.space.Regions(), target.space.pt.View();
    SharedIsFound(rs, m, rs1, m1, target.space.cr3, pa, size, out, k);
    assert Allows(caps1[0], MapMem(rs1[k].pa, rs1[k].size, 0));
    var back := Unshare(curr, target, out);
    ShareUnshare(caps, rs, m, caps1, rs1, m1, target.table.caps, target.space.Regions(), target.space.pt.View(), target.space.cr3, pa, size, out, k);
  }
}
