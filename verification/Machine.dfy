/**
 The address spaces of all processes over one set of page tables and one
 physical memory: vmm_create, the mapping calls and vmm_destroy together with
 the pmm_alloc_pages and pmm_free_pages calls around them.
 */
module Machine {
  import opened Paging
  import opened PagingImpl
  import opened VmmRange
  import opened VmmPages
  import opened VmmSpec
  import opened VmmImpl
  import opened Pmm
  import opened PmmImpl
  import opened World
  import opened Errno
  import opened Basics

  class Machine {
    const pt: PageTables
    const pm: PhysicalMemory
    const master: int
    /** The address spaces, by page directory. */
    var spaces: map<int, AddressSpace>

    ghost function Trees(): set<object>
      reads this
    {
      set c | c in spaces :: spaces[c].tree
    }

    /** The spaces work on these page tables, and no two of them share a tree. */
    ghost predicate Joint()
      reads this, spaces.Values, Trees()
    {
      && (forall c :: c in spaces ==> spaces[c].Linked() && spaces[c].cr3 == c && spaces[c].pt == pt)
      && (forall c, d :: c in spaces && d in spaces && c != d ==> spaces[c] != spaces[d] && spaces[c].tree != spaces[d].tree)
    }

    ghost function All(): map<int, seq<Region>>
      requires Joint()
      reads this, spaces.Values, Trees()
    {
      map c | c in spaces :: spaces[c].Regions()
    }

    ghost function View(): State
      requires Joint() && pm.Ok()
      reads this, spaces.Values, Trees(), pt, pm, pm.bitmap
    {
      State(pt.View(), All(), pm.Flags())
    }

    /** The machine has at most 4 GB, and its memory keeps the invariant. */
    ghost predicate Ok()
      reads this, spaces.Values, Trees(), pt, pm, pm.bitmap
    {
      Joint() && pm.Ok() && pm.total <= FRAMES && Inv(View(), master)
    }

    /** The kernel is up, no process has begun. */
    constructor (pt: PageTables, pm: PhysicalMemory, master: int)
      requires Reach(pt.View()) && pt.dirs.Keys == {master} && !InPool(pt.View(), master) && WindowClear(pt.View(), master)
      requires pm.Ok() && pm.total <= FRAMES && (pm.total > 0 ==> pm.Flags()[0])
      ensures Ok() && spaces == map[] && this.pt == pt && this.pm == pm && this.master == master
    {
      this.pt, this.pm, this.master := pt, pm, master;
      spaces := map[];
    }

    /** The space of a new process joins the others. */
    method Enrol(a: AddressSpace)
      requires Joint() && a.Linked() && a.Regions() == [] && a.pt == pt && a.cr3 !in spaces
      requires forall c :: c in spaces ==> spaces[c] != a && spaces[c].tree != a.tree
      modifies this
      ensures Joint() && All() == old(All())[a.cr3 := []]
    {
      spaces := spaces[a.cr3 := a];
    }

    /** vmm_create and the entry of the new space. */
    method Begin(nil: Ptr) returns (c: Option<int>)
      requires Joint() && pm.Ok() && nil != 0 && Reach(pt.View()) && master in pt.dirs && WindowClear(pt.View(), master)
      requires pt.dirs.Keys == spaces.Keys + {master} && forall f :: InPool(pt.View(), f) && f in pt.dirs ==> pt.used[f - pt.pool]
      modifies this, pt
      ensures Joint() && pm.Ok()
      ensures c.None? ==> View() == old(View()) && Exhausted(pt.used)
      ensures c.Some? ==> Begins(old(View()), View(), master, c.value)
    {
      var a := Create(pt, master, nil);
      if a == null {
        assert All() == old(All());
        return None;
      }
      assert All() == old(All());
      Enrol(a);
      return Some(a.cr3);
    }

    /** vmm_create for a new process. */
    method Spawn(nil: Ptr) returns (c: Option<int>)
      requires Ok() && nil != 0
      modifies this, pt
      ensures Ok()
      ensures c.None? ==> View() == old(View()) && Exhausted(pt.used)
      ensures c.Some? ==> Begins(old(View()), View(), master, c.value)
    {
      ghost var s := View();
      DirectoriesHeld(s, master);
      c := Begin(nil);
      if c.Some? {
        BeginsKeeps(s, View(), master, c.value);
      }
    }

    /** A call in process c: of the spaces, only its own changes. */
    method Call(c: int, op: Op)
      requires Joint() && Sized(pm) && c in spaces && Ready(spaces[c], op)
      modifies spaces[c], spaces[c].tree, pt, pm, pm.bitmap
      ensures Joint() && pm.Ok()
      ensures Only(old(View()), View(), c) && Effect(op, old(At(View(), c)), At(View(), c), c)
    {
      ghost var rest := set d | d in spaces && d != c :: spaces[d];
      PerformBeside(spaces[c], pm, op, rest);
      assert forall d :: d in spaces && d != c ==> spaces[d] in rest;
    }

    /** Any mapping call of any process does what the state it finds decides, to that process only, and keeps the invariant. */
    method Do(c: int, op: Op)
      requires Ok() && c in spaces && Ready(spaces[c], op)
      modifies spaces[c], spaces[c].tree, pt, pm, pm.bitmap
      ensures Ok() && Next(old(View()), View(), master)
      ensures Only(old(View()), View(), c) && Effect(op, old(At(View(), c)), At(View(), c), c)
    {
      ghost var s := View();
      Call(c, op);
      EffectMoves(op, At(s, c), At(View(), c), c);
      MovedNext(s, View(), master, c);
      NextKeeps(s, View(), master);
    }

    /** The space of process c leaves the others. */
    method Strike(c: int)
      requires Joint() && c in spaces
      modifies this
      ensures Joint() && spaces == old(spaces) - {c} && All() == old(All()) - {c}
    {
      spaces := spaces - {c};
    }

    /** vmm_destroy of a space already struck, and the return of its memory. */
    method TearDown(a: AddressSpace)
      requires Joint() && pm.Ok() && a.pt == pt && a.Valid() && Homed(pt.View(), master, a.cr3)
      requires forall c :: c in spaces ==> spaces[c] != a && spaces[c].tree != a.tree
      modifies a, a.tree, pt, pm, pm.bitmap
      ensures Joint() && pm.Ok() && Gone(old(pt.View()), pt.View(), a.cr3) && pm.Flags() == AllFreed(old(pm.Flags()), old(a.Regions()))
      ensures forall d :: d in All() ==> All()[d] == old(All())[d]
      ensures SlotsBack(old(pt.View()), pt.View(), master, a.cr3)
    {
      ghost var rest := set d | d in spaces :: spaces[d];
      DestroyBeside(a, pm, master, rest);
      assert forall d :: d in spaces ==> spaces[d] in rest;
    }

    /** The end of a process. */
    method End(c: int)
      requires Joint() && pm.Ok() && c in spaces && spaces[c].Valid() && Homed(pt.View(), master, c)
      modifies this, spaces[c], spaces[c].tree, pt, pm, pm.bitmap
      ensures Joint() && pm.Ok() && Ends(old(View()), View(), c)
      ensures SlotsBack(old(pt.View()), pt.View(), master, c)
    {
      var a := spaces[c];
      Strike(c);
      TearDown(a);
    }

    /**
     vmm_destroy: the memory of the owned regions is free again, no other
     block and no other process is touched, and of the pool exactly the
     directory and its private tables below USER_SPACE_TOP come back.
     */
    method Kill(c: int)
      requires Ok() && c in spaces
      modifies this, spaces[c], spaces[c].tree, pt, pm, pm.bitmap
      ensures Ok() && Ends(old(View()), View(), c)
      ensures pm.free == old(pm.free) + OwnedPages(old(spaces[c].Regions()))
      ensures SlotsBack(old(pt.View()), pt.View(), master, c)
    {
      ghost var s := View();
      assert Homed(s.m, master, c) && Agrees(s.rs[c], s.m, c);
      End(c);
      EndsKeeps(s, View(), master, c);
      EndsCount(s, View(), master, c);
    }
  }

  /** The mapping calls, with the outcomes of kmalloc (n) and of the capability checks. */
  datatype Op =
    | Alloc(cnt: int, fl: Flags, n: Ptr)
    | Free(va: int)
    | Map(pa: int, size: int, fl: Flags, permitted: bool, n: Ptr)
    | Unmap(va: int, size: int, permitted: bool)
    | Load(vs: int, cnt: int, fl: Flags, granted: bool, permitted: bool, n: Ptr)
    | MapAt(pa: int, vs: int, size: int, fl: Flags, permitted: bool, n: Ptr)
    | UnmapAt(va: int, size: int, permitted: bool)

  /** kmalloc gives a record that is not in use. */
  ghost predicate NewNode(a: AddressSpace, n: Ptr)
    reads a
  {
    n != 0 ==> n != a.tree.nil && n !in a.regions
  }

  /** The arguments are 32-bit words, and the directory entries under a new region can take it. */
  ghost predicate Ready(a: AddressSpace, op: Op)
    reads a, a.tree, a.pt
  {
    && a.Valid()
    && match op
       case Alloc(cnt, fl, n) => 0 <= cnt && NewNode(a, n) && (a.Regions() == [] ==> cnt < 0x3_0000) && Spacious(a.Regions(), a.pt.View(), a.cr3, cnt * PAGE)
       case Free(va) => true
       case Map(pa, size, fl, permitted, n) =>
         0 <= pa < LIMIT && 0 <= size < LIMIT && NewNode(a, n) && a.Regions() != []
         && Roomy(a.Regions(), a.pt.View(), a.cr3, Aligned(pa, size), fl, pa - pa % PAGE)
       case Unmap(va, size, permitted) => 0 <= va < LIMIT && 0 <= size < LIMIT
       case Load(vs, cnt, fl, granted, permitted, n) =>
         0 <= vs && 0 <= cnt && vs % PAGE == 0 && vs + cnt * PAGE < LIMIT && NewNode(a, n) && AptRun(a.pt.View(), a.cr3, vs / PAGE, cnt) && Off(a.pt.View(), vs / PAGE, cnt)
       case MapAt(pa, vs, size, fl, permitted, n) =>
         0 <= pa < LIMIT && 0 <= vs && 0 <= size && vs + size < LIMIT && NewNode(a, n) && Fit(a.pt.View(), a.cr3, Region(vs, size, fl, pa, false))
       case UnmapAt(va, size, permitted) => 0 <= va < LIMIT && 0 <= size < LIMIT
  }

  ghost function PartOf(a: AddressSpace, pm: PhysicalMemory): Part
    requires a.Linked() && pm.Ok()
    reads a, a.tree, a.pt, pm, pm.bitmap
  {
    Part(a.pt.View(), a.Regions(), pm.Flags())
  }

  /** pa is the address of the lowest run of cnt free blocks, 0 if there is none. */
  ghost predicate Pages(fs: seq<bool>, cnt: int, pa: int) {
    if pa == 0 then cnt == 0 || forall s :: 0 <= s < |fs| ==> !FreeRun(fs, s, cnt)
    else cnt > 0 && pa % PAGE == 0 && LowestRun(fs, pa / PAGE, cnt)
  }

  /** Region r joins the regions of c exactly if ok. */
  ghost predicate Gives(ok: bool, p: Part, p': Part, c: int, r: Region) {
    if ok then exists k :: Added(p, p', c, r, k) else Refused(p, p', c, r)
  }

  /** Whether r finds an address among the regions and enough free paging structures. */
  ghost predicate Placed(p: Part, c: int, r: Region) {
    Chosen(p.rs, r.size).Some? && Affordable(p.m, c, r)
  }

  /** Whether r fits where it is and finds enough free paging structures. */
  ghost predicate Fixed(p: Part, c: int, r: Region) {
    r.pa % PAGE == 0 && r.start % PAGE == 0 && r.size > 0 && r.size % PAGE == 0 && VmmSpec.Free(p.rs, r) && Affordable(p.m, c, r)
  }

  /** The region a call releases, if it releases one. */
  ghost function Released(op: Op, rs: seq<Region>): Option<nat>
    requires op.Free? || op.Unmap? || op.UnmapAt?
  {
    match FindAt(rs, op.va, 0)
    case None => None
    case Some(i) =>
      if match op
         case Free(va) => rs[i].own
         case Unmap(va, size, permitted) => permitted && Releases(rs[i], va, size)
         case UnmapAt(va, size, permitted) => permitted && va + size <= End(rs[i])
         case _ => false
      then Some(i) else None
  }

  /** pmm_alloc_pages and vmm_alloc_pages. */
  ghost predicate Fetches(cnt: int, fl: Flags, n: Ptr, p: Part, p': Part, c: int) {
    exists pa :: Pages(p.fs, cnt, pa) &&
      var r := Attempt(p.rs, cnt * PAGE, fl, pa, true); Gives(pa != 0 && n != 0 && Placed(p, c, r), p, p', c, r)
  }

  /** vmm_map_memory. */
  ghost predicate Maps(pa: int, size: int, fl: Flags, permitted: bool, n: Ptr, p: Part, p': Part, c: int) {
    var r := Attempt(p.rs, Aligned(pa, size), fl, pa - pa % PAGE, false);
    Gives(permitted && 0 < size <= LIMIT - 1 - pa % PAGE - (PAGE - 1) && n != 0 && Placed(p, c, r), p, p', c, r)
  }

  /** The ELF loader. */
  ghost predicate Loads(vs: int, cnt: int, fl: Flags, allowed: bool, n: Ptr, p: Part, p': Part, c: int) {
    exists pa :: Pages(p.fs, cnt, pa) &&
      var r := Region(vs, cnt * PAGE, fl, pa, true); Gives(pa != 0 && allowed && n != 0 && Fixed(p, c, r), p, p', c, r)
  }

  /** What a call does to its process, decided by the state it finds. */
  ghost predicate Effect(op: Op, p: Part, p': Part, c: int) {
    match op
    case Alloc(cnt, fl, n) => Fetches(cnt, fl, n, p, p', c)
    case Map(pa, size, fl, permitted, n) => Maps(pa, size, fl, permitted, n, p, p', c)
    case Load(vs, cnt, fl, granted, permitted, n) => Loads(vs, cnt, fl, granted && permitted, n, p, p', c)
    case MapAt(pa, vs, size, fl, permitted, n) =>
      var r := Region(vs, size, fl, pa, false); Gives(permitted && n != 0 && Fixed(p, c, r), p, p', c, r)
    case _ => Takes(Released(op, p.rs), p, p', c)
  }

  /** Region i is released, if there is one; otherwise nothing changes. */
  ghost predicate Takes(at: Option<nat>, p: Part, p': Part, c: int) {
    match at
    case None => p' == p
    case Some(i) => i < |p.rs| && Removed(p, p', c, i)
  }

  lemma {:induction false} EffectMoves(op: Op, p: Part, p': Part, c: int)
    requires Effect(op, p, p', c)
    ensures Moved(p, p', c)
  {
    match op
    case Alloc(cnt, fl, n) =>
    case Map(pa, size, fl, permitted, n) =>
    case Load(vs, cnt, fl, granted, permitted, n) =>
    case MapAt(pa, vs, size, fl, permitted, n) =>
    case _ => if Released(op, p.rs).None? { assert Refused(p, p', c, Region(0, 0, Flags(true, true, true), 0, false)); }
  }

  /** Other spaces with trees of their own do not notice. */
  method PerformBeside(a: AddressSpace, pm: PhysicalMemory, op: Op, ghost rest: set<AddressSpace>)
    requires Sized(pm) && Ready(a, op) && forall b :: b in rest ==> b != a && b.tree != a.tree && b.Linked()
    modifies a, a.tree, a.pt, pm, pm.bitmap
    ensures a.Linked() && pm.Ok() && Effect(op, old(PartOf(a, pm)), PartOf(a, pm), a.cr3)
    ensures forall b :: b in rest ==> b.Linked() && b.Regions() == old(b.Regions())
  {
    Perform(a, pm, op);
  }

  /** One call in one address space. */
  method Perform(a: AddressSpace, pm: PhysicalMemory, op: Op)
    requires Sized(pm) && Ready(a, op)
    modifies a, a.tree, a.pt, pm, pm.bitmap
    ensures a.Linked() && pm.Ok() && Effect(op, old(PartOf(a, pm)), PartOf(a, pm), a.cr3)
  {
    if op.Free? || op.Unmap? || op.UnmapAt? {
      Take(a, pm, op);
    } else {
      Give(a, pm, op);
    }
  }

  /** The calls that make a region. */
  method Give(a: AddressSpace, pm: PhysicalMemory, op: Op)
    requires Sized(pm) && Ready(a, op) && (op.Alloc? || op.Map? || op.Load? || op.MapAt?)
    modifies a, a.tree, a.pt, pm, pm.bitmap
    ensures a.Linked() && pm.Ok() && Effect(op, old(PartOf(a, pm)), PartOf(a, pm), a.cr3)
  {
    match op {
      case Alloc(cnt, fl, n) => var va := FetchInto(a, pm, cnt, fl, n);
      case Map(pa, size, fl, permitted, n) => MapInto(a, pm, pa, size, fl, permitted, n);
      case Load(vs, cnt, fl, granted, permitted, n) => var ret := LoadInto(a, pm, vs, cnt, fl, granted, permitted, n);
      case MapAt(pa, vs, size, fl, permitted, n) => MapAtIn(a, pm, pa, vs, size, fl, permitted, n);
    }
  }

  /** The calls that take one away. */
  method Take(a: AddressSpace, pm: PhysicalMemory, op: Op)
    requires Sized(pm) && Ready(a, op) && (op.Free? || op.Unmap? || op.UnmapAt?)
    modifies a, a.tree, a.pt, pm, pm.bitmap
    ensures a.Linked() && pm.Ok() && Effect(op, old(PartOf(a, pm)), PartOf(a, pm), a.cr3)
  {
    match op {
      case Free(va) => FreeFrom(a, pm, va);
      case Unmap(va, size, permitted) => UnmapFrom(a, pm, va, size, permitted);
      case UnmapAt(va, size, permitted) => UnmapAtIn(a, pm, va, size, permitted);
    }
  }

  /** pmm_alloc_pages and vmm_alloc_pages, whose failure returns the pages. */
  method FetchInto(a: AddressSpace, pm: PhysicalMemory, cnt: int, fl: Flags, n: Ptr) returns (va: int)
    requires a.Valid() && Sized(pm) && cnt >= 0 && NewNode(a, n)
    requires a.Regions() == [] ==> cnt < 0x3_0000
    requires Spacious(a.Regions(), a.pt.View(), a.cr3, cnt * PAGE)
    modifies a, a.tree, a.pt, pm, pm.bitmap
    ensures a.Valid() && pm.Ok() && Fetches(cnt, fl, n, old(PartOf(a, pm)), PartOf(a, pm), a.cr3)
    ensures va != 0 ==> exists pa, k :: Added(old(PartOf(a, pm)), PartOf(a, pm), a.cr3, Region(va, cnt * PAGE, fl, pa, true), k)
    ensures va == 0 ==> exists r :: Refused(old(PartOf(a, pm)), PartOf(a, pm), a.cr3, r)
  {
    ghost var p := PartOf(a, pm);
    var pa := TakePages(pm, cnt);
    SpaciousRoomy(p.rs, p.m, a.cr3, cnt * PAGE, fl, pa);
    va := FetchAt(a, pm, cnt, fl, pa, n, p);
  }

  /** The same once the pages at pa are taken, 0 if none were. */
  method FetchAt(a: AddressSpace, pm: PhysicalMemory, cnt: int, fl: Flags, pa: int, n: Ptr, ghost p: Part) returns (va: int)
    requires a.Valid() && pm.Ok() && cnt >= 0 && NewNode(a, n) && 0 <= pa < LIMIT && pa % PAGE == 0
    requires a.Regions() == [] ==> cnt < 0x3_0000
    requires Roomy(a.Regions(), a.pt.View(), a.cr3, cnt * PAGE, fl, pa)
    requires p.m == a.pt.View() && p.rs == a.Regions() && |p.fs| <= FRAMES
    requires if pa == 0 then pm.Flags() == p.fs
      else cnt > 0 && FreeRun(p.fs, pa / PAGE, cnt) && pm.Flags() == MarkAll(p.fs, pa / PAGE, pa / PAGE + cnt, true)
    modifies a, a.tree, a.pt, pm, pm.bitmap
    ensures a.Valid() && pm.Ok()
    ensures va != 0 ==> exists k :: Added(p, PartOf(a, pm), a.cr3, Region(va, cnt * PAGE, fl, pa, true), k)
    ensures va == 0 ==> Refused(p, PartOf(a, pm), a.cr3, Attempt(p.rs, cnt * PAGE, fl, pa, true))
    ensures var r := Attempt(p.rs, cnt * PAGE, fl, pa, true); Gives(pa != 0 && n != 0 && Placed(p, a.cr3, r), p, PartOf(a, pm), a.cr3, r)
  {
    assert cnt * PAGE / PAGE == cnt;
    var freed;
    ghost var k;
    va, freed, k := a.AllocPages(cnt, fl, pa, n);
    if va == 0 {
      ReturnPages(pm, freed, pa, cnt, p.fs);
      assert Refused(p, PartOf(a, pm), a.cr3, Attempt(p.rs, cnt * PAGE, fl, pa, true));
    } else {
      assert Added(p, PartOf(a, pm), a.cr3, Region(va, cnt * PAGE, fl, pa, true), k);
    }
  }

  /** vmm_free_pages. */
  method FreeFrom(a: AddressSpace, pm: PhysicalMemory, va: int)
    requires a.Valid() && Sized(pm)
    modifies a, a.tree, a.pt, pm, pm.bitmap
    ensures a.Valid() && pm.Ok() && Takes(Released(Op.Free(va), old(a.Regions())), old(PartOf(a, pm)), PartOf(a, pm), a.cr3)
  {
    ghost var p := PartOf(a, pm);
    var freed := a.FreePages(va);
    ghost var at := FindAt(p.rs, va, 0);
    if freed != [] {
      ReturnRegion(pm, freed, p.rs[at.value]);
      assert Removed(p, PartOf(a, pm), a.cr3, at.value);
    }
  }

  /** The pages just taken go back, if there were any. */
  method ReturnPages(pm: PhysicalMemory, freed: seq<Block>, pa: int, cnt: int, ghost fs: seq<bool>)
    requires pm.Ok() && freed == (if cnt == 0 || pa == 0 then [] else [Block(pa, cnt)]) && 0 <= pa < LIMIT && 0 <= cnt
    requires if pa == 0 then pm.Flags() == fs else cnt > 0 && |fs| <= FRAMES && FreeRun(fs, pa / PAGE, cnt) && pm.Flags() == MarkAll(fs, pa / PAGE, pa / PAGE + cnt, true)
    modifies pm, pm.bitmap
    ensures pm.Ok() && pm.Flags() == fs
  {
    if freed != [] {
      AllocFree(fs, pa / PAGE, cnt);
      pm.FreePages(freed[0].pa, freed[0].pages);
    }
  }

  /** pmm_free_pages of what a region owned. */
  method ReturnRegion(pm: PhysicalMemory, freed: seq<Block>, ghost r: Region)
    requires pm.Ok() && RegionOk(r) && freed == if r.own then [Block(r.pa, r.size / PAGE)] else []
    modifies pm, pm.bitmap
    ensures pm.Ok() && pm.Flags() == Freed(old(pm.Flags()), r)
  {
    if freed != [] {
      pm.FreePages(freed[0].pa, freed[0].pages);
    }
  }

  /** vmm_map_memory. */
  method MapInto(a: AddressSpace, pm: PhysicalMemory, pa: int, size: int, fl: Flags, permitted: bool, n: Ptr)
    requires a.Valid() && pm.Ok() && 0 <= pa < LIMIT && 0 <= size < LIMIT && NewNode(a, n) && a.Regions() != []
    requires Roomy(a.Regions(), a.pt.View(), a.cr3, Aligned(pa, size), fl, pa - pa % PAGE)
    modifies a, a.tree, a.pt
    ensures a.Valid() && pm.Ok() && Maps(pa, size, fl, permitted, n, old(PartOf(a, pm)), PartOf(a, pm), a.cr3)
  {
    ghost var p := PartOf(a, pm);
    var ret, va;
    ghost var k;
    ret, va, k := a.MapMemory(pa, size, fl, permitted, n);
    if ret == 0 {
      assert Added(p, PartOf(a, pm), a.cr3, MapsTo(pa, size, fl, va), k);
    } else {
      assert Refused(p, PartOf(a, pm), a.cr3, Attempt(p.rs, Aligned(pa, size), fl, pa - pa % PAGE, false));
    }
  }

  /** vmm_unmap_memory, which never releases an owned region. */
  method UnmapFrom(a: AddressSpace, pm: PhysicalMemory, va: int, size: int, permitted: bool)
    requires a.Valid() && pm.Ok() && 0 <= va < LIMIT && 0 <= size < LIMIT
    modifies a, a.tree, a.pt
    ensures a.Valid() && pm.Ok() && Takes(Released(Unmap(va, size, permitted), old(a.Regions())), old(PartOf(a, pm)), PartOf(a, pm), a.cr3)
  {
    ghost var p := PartOf(a, pm);
    var ret := a.UnmapMemory(va, size, permitted);
    if ret == 0 {
      assert Removed(p, PartOf(a, pm), a.cr3, FindAt(p.rs, va, 0).value);
    }
  }

  /** The ELF loader's pages for one segment: taken, mapped at its address as the process's own, returned on failure. */
  method LoadInto(a: AddressSpace, pm: PhysicalMemory, vs: int, cnt: int, fl: Flags, granted: bool, permitted: bool, n: Ptr) returns (ret: int)
    requires a.Valid() && Sized(pm) && 0 <= vs && 0 <= cnt && vs % PAGE == 0 && vs + cnt * PAGE < LIMIT && NewNode(a, n)
    requires AptRun(a.pt.View(), a.cr3, vs / PAGE, cnt) && Off(a.pt.View(), vs / PAGE, cnt)
    modifies a, a.tree, a.pt, pm, pm.bitmap
    ensures a.Valid() && pm.Ok() && Loads(vs, cnt, fl, granted && permitted, n, old(PartOf(a, pm)), PartOf(a, pm), a.cr3)
    ensures ret == 0 ==> exists pa, k :: Added(old(PartOf(a, pm)), PartOf(a, pm), a.cr3, Region(vs, cnt * PAGE, fl, pa, true), k)
    ensures ret != 0 ==> exists r :: Refused(old(PartOf(a, pm)), PartOf(a, pm), a.cr3, r)
  {
    ghost var p := PartOf(a, pm);
    var pa := TakePages(pm, cnt);
    ghost var r := Region(vs, cnt * PAGE, fl, pa, true);
    if pa == 0 {
      assert Refused(p, PartOf(a, pm), a.cr3, r);
      return E_NOMEM;
    }
    if !granted {
      ReturnPages(pm, [Block(pa, cnt)], pa, cnt, p.fs);
      assert Refused(p, PartOf(a, pm), a.cr3, r);
      return E_PERM;
    }
    OffHidesNothing(p.m, r);
    ret := LoadAt(a, pm, pa, vs, cnt, fl, permitted, n, p);
  }

  /** The same once the pages at pa are taken. */
  method LoadAt(a: AddressSpace, pm: PhysicalMemory, pa: int, vs: int, cnt: int, fl: Flags, permitted: bool, n: Ptr, ghost p: Part) returns (ret: int)
    requires a.Valid() && pm.Ok() && 0 <= vs && 0 < cnt && vs % PAGE == 0 && vs + cnt * PAGE < LIMIT && NewNode(a, n) && 0 < pa < LIMIT && pa % PAGE == 0
    requires Fit(a.pt.View(), a.cr3, Region(vs, cnt * PAGE, fl, pa, true))
    requires p.m == a.pt.View() && p.rs == a.Regions() && |p.fs| <= FRAMES
    requires FreeRun(p.fs, pa / PAGE, cnt) && pm.Flags() == MarkAll(p.fs, pa / PAGE, pa / PAGE + cnt, true)
    modifies a, a.tree, a.pt, pm, pm.bitmap
    ensures a.Valid() && pm.Ok()
    ensures var r := Region(vs, cnt * PAGE, fl, pa, true);
      (ret == 0 <==> permitted && n != 0 && Fixed(p, a.cr3, r)) && Gives(ret == 0, p, PartOf(a, pm), a.cr3, r)
  {
    assert cnt * PAGE / PAGE == cnt;
    ghost var r := Region(vs, cnt * PAGE, fl, pa, true);
    ghost var k;
    ret, k := a.MapFixed(pa, vs, cnt * PAGE, fl, true, permitted, n);
    if ret != 0 {
      ReturnPages(pm, [Block(pa, cnt)], pa, cnt, p.fs);
      assert Refused(p, PartOf(a, pm), a.cr3, r);
      return E_LIMIT;
    }
    assert Added(p, PartOf(a, pm), a.cr3, r, k);
  }

  lemma {:induction false} OffHidesNothing(m: Mem, r: Region)
    requires Off(m, Lo(r), Len(r))
    ensures HidesNothing(m, r)
  {
  }

  lemma {:induction false} SpaciousRoomy(rs: seq<Region>, m: Mem, c: int, n: int, fl: Flags, pa: int)
    requires Spacious(rs, m, c, n)
    ensures Roomy(rs, m, c, n, fl, pa)
  {
  }

  /** vmm_map_fixed of memory the process does not own. */
  method MapAtIn(a: AddressSpace, pm: PhysicalMemory, pa: int, vs: int, size: int, fl: Flags, permitted: bool, n: Ptr)
    requires a.Valid() && pm.Ok() && 0 <= pa < LIMIT && 0 <= vs && 0 <= size && vs + size < LIMIT && NewNode(a, n)
    requires Fit(a.pt.View(), a.cr3, Region(vs, size, fl, pa, false))
    modifies a, a.tree, a.pt
    ensures a.Valid() && pm.Ok()
    ensures var r := Region(vs, size, fl, pa, false);
      Gives(permitted && n != 0 && Fixed(old(PartOf(a, pm)), a.cr3, r), old(PartOf(a, pm)), PartOf(a, pm), a.cr3, r)
  {
    ghost var p := PartOf(a, pm);
    var ret;
    ghost var k;
    ret, k := a.MapFixed(pa, vs, size, fl, false, permitted, n);
    if ret == 0 {
      assert Added(p, PartOf(a, pm), a.cr3, Region(vs, size, fl, pa, false), k);
    } else {
      assert Refused(p, PartOf(a, pm), a.cr3, Region(vs, size, fl, pa, false));
    }
  }

  /** vmm_unmap_fixed. */
  method UnmapAtIn(a: AddressSpace, pm: PhysicalMemory, va: int, size: int, permitted: bool)
    requires a.Valid() && Sized(pm) && 0 <= va < LIMIT && 0 <= size < LIMIT
    modifies a, a.tree, a.pt, pm, pm.bitmap
    ensures a.Valid() && pm.Ok() && Takes(Released(UnmapAt(va, size, permitted), old(a.Regions())), old(PartOf(a, pm)), PartOf(a, pm), a.cr3)
  {
    ghost var p := PartOf(a, pm);
    var ret, freed := a.UnmapFixed(va, size, permitted);
    ghost var at := FindAt(p.rs, va, 0);
    if ret == 0 {
      ReturnRegion(pm, freed, p.rs[at.value]);
      assert Removed(p, PartOf(a, pm), a.cr3, at.value);
    }
  }

  /** pmm_init ran: at most 4 GB, and block 0 is reserved. */
  ghost predicate Sized(pm: PhysicalMemory)
    reads pm, pm.bitmap
  {
    pm.Ok() && pm.total <= FRAMES && (pm.total > 0 ==> pm.Flags()[0])
  }

  /** pmm_alloc_pages as its callers see it: an address, 0 for failure. */
  method TakePages(pm: PhysicalMemory, cnt: int) returns (pa: int)
    requires Sized(pm) && cnt >= 0
    modifies pm, pm.bitmap
    ensures Sized(pm) && 0 <= pa < LIMIT && pa % PAGE == 0
    ensures Pages(old(pm.Flags()), cnt, pa)
    ensures pa == 0 ==> pm.Flags() == old(pm.Flags())
    ensures pa != 0 ==> pm.Flags() == MarkAll(old(pm.Flags()), pa / PAGE, pa / PAGE + cnt, true)
  {
    var start := pm.AllocPages(cnt);
    if start.None? {
      return 0;
    }
    return start.value * PAGE;
  }

  /** The flags after pmm_free_pages of each block in turn. */
  function Cleared(fs: seq<bool>, bs: seq<Block>): seq<bool>
    decreases bs
  {
    if bs == [] then fs else Cleared(MarkAll(fs, bs[0].pa / PAGE, bs[0].pa / PAGE + bs[0].pages, false), bs[1..])
  }

  ghost predicate BlockOk(b: Block) {
    0 <= b.pa < LIMIT && 0 <= b.pages < FRAMES
  }

  method GiveOne(pm: PhysicalMemory, b: Block)
    requires pm.Ok() && BlockOk(b)
    modifies pm, pm.bitmap
    ensures pm.Ok() && pm.Flags() == MarkAll(old(pm.Flags()), b.pa / PAGE, b.pa / PAGE + b.pages, false)
  {
    assert b.pa / PAGE < FRAMES && b.pa / PAGE + b.pages < WORD;
    pm.FreePages(b.pa, b.pages);
  }

  method GiveBack(pm: PhysicalMemory, bs: seq<Block>)
    requires pm.Ok() && forall i :: 0 <= i < |bs| ==> BlockOk(bs[i])
    modifies pm, pm.bitmap
    ensures pm.Ok() && pm.Flags() == Cleared(old(pm.Flags()), bs)
  {
    var i := 0;
    while i < |bs|
      invariant 0 <= i <= |bs| && pm.Ok()
      invariant Cleared(pm.Flags(), bs[i..]) == Cleared(old(pm.Flags()), bs)
    {
      assert bs[i..][0] == bs[i] && bs[i..][1..] == bs[i + 1..];
      assert BlockOk(bs[i]);
      GiveOne(pm, bs[i]);
      i := i + 1;
    }
  }

  /** Of the used slots exactly the directory and its private tables below USER_SPACE_TOP are free afterwards. */
  ghost predicate SlotsBack(m: Mem, m': Mem, master: int, c: int) {
    && Wf(m) && Wf(m') && master in m.dirs && c in m.dirs && m'.pool == m.pool
    && forall k :: 0 <= k < SLOTS ==> (m'.used[k] <==> m.used[k] && !Paging.Returned(m, master, c, TOP, m.pool + k) && m.pool + k != c)
  }

  /** Other spaces with trees of their own do not notice. */
  method DestroyBeside(a: AddressSpace, pm: PhysicalMemory, master: int, ghost rest: set<AddressSpace>)
    requires a.Valid() && pm.Ok() && Homed(a.pt.View(), master, a.cr3)
    requires forall b :: b in rest ==> b != a && b.tree != a.tree && b.Linked()
    modifies a, a.tree, a.pt, pm, pm.bitmap
    ensures pm.Ok() && pm.Flags() == AllFreed(old(pm.Flags()), old(a.Regions()))
    ensures Gone(old(a.pt.View()), a.pt.View(), a.cr3) && SlotsBack(old(a.pt.View()), a.pt.View(), master, a.cr3)
    ensures forall b :: b in rest ==> b.Linked() && b.Regions() == old(b.Regions())
  {
    ghost var rs := a.Regions();
    var freed := a.Destroy(master);
    GiveBackOwned(pm, freed, rs);
  }

  /** The blocks of all owned regions go back. */
  method GiveBackOwned(pm: PhysicalMemory, freed: seq<Block>, ghost rs: seq<Region>)
    requires pm.Ok() && freed == OwnBlocks(rs) && forall i :: 0 <= i < |rs| ==> RegionOk(rs[i])
    modifies pm, pm.bitmap
    ensures pm.Ok() && pm.Flags() == AllFreed(old(pm.Flags()), rs)
  {
    OwnBlocksFreed(pm.Flags(), rs);
    GiveBack(pm, freed);
  }

  /** Returning the owned blocks one by one frees the memory of all owned regions. */
  lemma {:induction false} OwnBlocksFreed(fs: seq<bool>, rs: seq<Region>)
    requires forall i :: 0 <= i < |rs| ==> RegionOk(rs[i])
    ensures Cleared(fs, OwnBlocks(rs)) == AllFreed(fs, rs)
    ensures forall i :: 0 <= i < |OwnBlocks(rs)| ==> BlockOk(OwnBlocks(rs)[i])
    decreases rs
  {
    if rs != [] {
      OwnBlocksFreed(Freed(fs, rs[0]), rs[1..]);
      if rs[0].own {
        assert OwnBlocks(rs) == [Block(rs[0].pa, Len(rs[0]))] + OwnBlocks(rs[1..]);
        assert OwnBlocks(rs)[1..] == OwnBlocks(rs[1..]) && OwnBlocks(rs)[0] == Block(rs[0].pa, Len(rs[0]));
      } else {
        assert OwnBlocks(rs) == OwnBlocks(rs[1..]);
      }
    }
  }

  lemma {:induction false} DirectoriesHeld(s: State, master: int)
    requires Inv(s, master)
    ensures forall f :: InPool(s.m, f) && f in s.m.dirs ==> s.m.used[f - s.m.pool]
  {
    forall f | InPool(s.m, f) && f in s.m.dirs ensures s.m.used[f - s.m.pool] {
      assert Homed(s.m, master, f);
    }
  }
}
