/**
 Address spaces (osdev/kernel/mm/vmm.c): a red-black tree of regions over the
 process's page directory. Allocation outcomes (pmm_alloc_pages, kmalloc) and
 capability checks are parameters; the calls of pmm_free_pages are returned.
 */
module VmmImpl {
  import opened Paging
  import opened PagingImpl
  import opened VmmRange
  import opened VmmPages
  import opened VmmSpec
  import RbModel
  import opened RbTreeImpl
  import opened Errno
  import opened Basics

  type Ptr = RbModel.Ptr

  ghost predicate Covers(s: seq<Ptr>, of: map<Ptr, Region>) {
    forall i :: 0 <= i < |s| ==> s[i] in of
  }

  /** The regions of the nodes s, in order. */
  ghost function Image(s: seq<Ptr>, of: map<Ptr, Region>): (r: seq<Region>)
    requires Covers(s, of)
    ensures |r| == |s| && forall i :: 0 <= i < |s| ==> r[i] == of[s[i]]
  {
    seq(|s|, i requires 0 <= i < |s| => of[s[i]])
  }

  lemma {:induction false} ImageWith(s: seq<Ptr>, of: map<Ptr, Region>, n: Ptr, r: Region, k: nat)
    requires Covers(s, of) && n !in of && k <= |s|
    ensures var s' := s[..k] + [n] + s[k..]; Covers(s', of[n := r]) && Image(s', of[n := r]) == With(Image(s, of), r, k)
  {
    var s' := s[..k] + [n] + s[k..];
    var q, q' := Image(s, of), Image(s', of[n := r]);
    forall i | 0 <= i < |s'| ensures q'[i] == With(q, r, k)[i] {
      if i < k {
        assert s'[i] == s[i] && q[i] == of[s[i]];
      } else if i > k {
        assert s'[i] == s[i - 1] && q[i - 1] == of[s[i - 1]];
      }
    }
  }

  lemma {:induction false} ImageMinus(s: seq<Ptr>, of: map<Ptr, Region>, k: nat)
    requires Covers(s, of) && NoDup(s) && k < |s|
    ensures var s' := s[..k] + s[k + 1..]; Covers(s', of - {s[k]}) && Image(s', of - {s[k]}) == Minus(Image(s, of), k)
  {
    var s', of' := s[..k] + s[k + 1..], of - {s[k]};
    forall i | 0 <= i < |s'| ensures s'[i] in of' && of'[s'[i]] == Minus(Image(s, of), k)[i] {
      if i < k {
        assert s'[i] == s[i];
      } else {
        assert s'[i] == s[i + 1];
      }
    }
  }

  /** vmm_rbtree_node_cmp. */
  function NodeCmp(of: map<Ptr, Region>, x: Ptr, y: Ptr): int {
    if x !in of || y !in of then -1
    else if of[x].start < of[y].start then -1 else if of[x].start > of[y].start then 1 else 0
  }

  /** A block handed to pmm_free_pages: its address and its page count. */
  datatype Block = Block(pa: int, pages: int)

  class AddressSpace {
    const tree: RbTree
    const pt: PageTables
    const cr3: int
    /** The region around each node of the tree. */
    var regions: map<Ptr, Region>

    ghost predicate Linked()
      reads this, tree
    {
      tree.Valid() && Covers(tree.Elems(), regions)
    }

    ghost function Regions(): seq<Region>
      requires Linked()
      reads this, tree
    {
      Image(tree.Elems(), regions)
    }

    /** Sorted disjoint regions that agree with the page tables. */
    ghost predicate Valid()
      reads this, tree, pt
    {
      Linked() && Agrees(Regions(), pt.View(), cr3) && Reach(pt.View())
    }

    constructor (tree: RbTree, pt: PageTables, cr3: int)
      requires tree.Valid() && tree.Elems() == [] && Agrees([], pt.View(), cr3) && Reach(pt.View())
      ensures Valid() && Regions() == [] && this.tree == tree && this.pt == pt && this.cr3 == cr3
    {
      this.tree, this.pt, this.cr3 := tree, pt, cr3;
      regions := map[];
    }

    /** rbtree_insert of a region just filled in. */
    method InsertRegion(n: Ptr, r: Region) returns (ghost k: nat)
      requires Linked() && n != 0 && n != tree.nil && n !in regions
      modifies this, tree
      ensures Linked() && Placed(old(Regions()), r, k) && Regions() == With(old(Regions()), r, k)
      ensures n in regions && k < |tree.Elems()| && tree.Elems()[k] == n
      ensures regions == old(regions)[n := r]
    {
      ghost var s := tree.Elems();
      tree.ElemsDistinct();
      regions := regions[n := r];
      var of := regions;
      assert n !in s;
      k := tree.Insert(n, (x, y) => NodeCmp(of, x, y));
      ImageWith(s, old(regions), n, r, k);
    }

    /** rbtree_delete and kfree. */
    method DeleteRegion(n: Ptr, ghost k: nat)
      requires Linked() && k < |tree.Elems()| && tree.Elems()[k] == n
      modifies this, tree
      ensures Linked() && Regions() == Minus(old(Regions()), k) && regions == old(regions) - {n}
      ensures tree.Elems() == old(tree.Elems())[..k] + old(tree.Elems())[k + 1..]
    {
      ghost var s := tree.Elems();
      tree.ElemsDistinct();
      assert n in s;
      ghost var at := tree.Delete(n);
      assert at == k;
      regions := regions - {n};
      ImageMinus(s, old(regions), k);
    }

    /**
     The body shared by vmm_alloc_pages and vmm_map_fixed: insert the region,
     map its pages, and on failure unmap and delete. It fails exactly when the
     pool has too few slots for its tables, and then gives the region up.
     */
    method AddRegion(n: Ptr, r: Region) returns (ok: bool, ghost k: nat)
      requires Valid() && n != 0 && n != tree.nil && n !in regions
      requires RegionOk(r) && Free(Regions(), r) && Fit(pt.View(), cr3, r)
      modifies this, tree, pt
      ensures Valid()
      ensures ok <==> Affordable(old(pt.View()), cr3, r)
      ensures ok ==> Joined(old(Regions()), old(pt.View()), r, k, Regions(), pt.View(), cr3) && regions == old(regions)[n := r]
      ensures !ok ==> Regions() == old(Regions()) && regions == old(regions) && Exhausted(pt.used) && Failed(old(Regions()), old(pt.View()), pt.View(), cr3, r)
    {
      ghost var rs, m := Regions(), pt.View();
      k := InsertRegion(n, r);
      ok := MapRun(pt, cr3, r.start / PAGE, r.pa / PAGE, r.size / PAGE, r.flags);
      if ok {
        AddAgrees(rs, m, pt.View(), cr3, r, k);
      } else {
        UndoInsert(n, r, rs, k);
        UndoneAgrees(rs, m, pt.View(), cr3, r);
      }
    }

    method UndoInsert(n: Ptr, r: Region, ghost rs: seq<Region>, ghost k: nat)
      requires Linked() && k <= |rs| && Regions() == With(rs, r, k) && k < |tree.Elems()| && tree.Elems()[k] == n
      modifies this, tree
      ensures Linked() && Regions() == rs && regions == old(regions) - {n}
    {
      DeleteRegion(n, k);
      WithMinus(rs, r, k);
    }

    /** Unmap a region's pages and delete it. */
    method DropRegion(n: Ptr, ghost k: nat)
      requires Valid() && k < |tree.Elems()| && tree.Elems()[k] == n
      modifies this, tree, pt
      ensures Valid() && regions == old(regions) - {n} && Dropped(old(Regions()), old(pt.View()), k, Regions(), pt.View(), cr3)
      ensures tree.Elems() == old(tree.Elems())[..k] + old(tree.Elems())[k + 1..] && pt.dirs == old(pt.dirs) && pt.used == old(pt.used) && pt.tabs.Keys == old(pt.tabs).Keys
    {
      ghost var rs, m := Regions(), pt.View();
      var r := regions[n];
      assert rs[k] == r && RegionOk(r) && Held(m, cr3, r);
      UnmapRun(pt, cr3, r.start / PAGE, r.size / PAGE);
      BackedRests(m, pt.View(), cr3, r);
      DeleteRegion(n, k);
      DropAgrees(rs, m, pt.View(), cr3, k);
    }

    lemma {:induction false} NotNull(i: nat)
      requires tree.Valid()
      ensures i < |tree.Elems()| ==> tree.Elems()[i] != 0
    {
      tree.ElemsDistinct();
      if i < |tree.Elems()| { assert tree.Elems()[i] in tree.Elems(); }
    }

    /** The search for a free address in a tree that is not empty. */
    method FindGap(n: int) returns (va: Option<int>)
      requires Valid() && tree.Elems() != [] && n > 0
      ensures va == Gap(Regions(), n, 0)
    {
      var node := tree.First();
      ghost var i := 0;
      while true
        invariant i < |tree.Elems()| && tree.Elems()[i] == node
        invariant Gap(Regions(), n, 0) == Gap(Regions(), n, i)
        decreases |tree.Elems()| - i
      {
        var cur := regions[node];
        assert cur == Regions()[i] && RegionOk(cur);
        var next := tree.Next(node, i);
        NotNull(i + 1);
        var at := RoundUp(cur.start + cur.size);
        RoundUpEnd(cur);
        if next != 0 {
          if n > LIMIT - 1 - at {
            return None;
          }
          assert regions[next] == Regions()[i + 1];
          if at + n <= regions[next].start {
            return Some(at);
          }
        } else {
          if cur.start > LIMIT - 1 - cur.size || at == 0 || n > LIMIT - 1 - at {
            return None;
          }
          return Some(at);
        }
        node, i := next, i + 1;
      }
    }

    /**
     vmm_alloc_pages: pa is what pmm_alloc_pages gave, n what kmalloc gave, 0
     for failure. The directory entries under the address chosen are apt, as
     they always are when all regions lie in the window.
     */
    method AllocPages(cnt: int, fl: Flags, pa: int, n: Ptr) returns (va: int, freed: seq<Block>, ghost k: nat)
      requires Valid() && 0 <= cnt && 0 <= pa < LIMIT && pa % PAGE == 0
      requires n != 0 ==> n != tree.nil && n !in regions
      requires Regions() == [] ==> cnt < 0x3_0000
      requires Roomy(Regions(), pt.View(), cr3, cnt * PAGE, fl, pa)
      modifies this, tree, pt
      ensures Valid()
      ensures va != 0 ==> var r := Attempt(old(Regions()), cnt * PAGE, fl, pa, true);
        && cnt > 0 && pa != 0 && freed == [] && Chosen(old(Regions()), cnt * PAGE) == Some(va)
        && Joined(old(Regions()), old(pt.View()), r, k, Regions(), pt.View(), cr3)
      ensures va != 0 <==>
        (cnt > 0 && pa != 0 && n != 0 && Chosen(old(Regions()), cnt * PAGE).Some?
         && Affordable(old(pt.View()), cr3, Attempt(old(Regions()), cnt * PAGE, fl, pa, true)))
      ensures va == 0 ==>
        && Regions() == old(Regions()) && freed == (if cnt == 0 || pa == 0 then [] else [Block(pa, cnt)])
        && NotAdded(old(Regions()), old(pt.View()), pt.View(), cr3, Attempt(old(Regions()), cnt * PAGE, fl, pa, true))
    {
      va, freed, k := 0, [], 0;
      if cnt == 0 || pa == 0 {
        return;
      }
      if n == 0 {
        freed := [Block(pa, cnt)];
        return;
      }
      var at := ANON;
      if tree.root != tree.nil {
        var g := FindGap(cnt * PAGE);
        if g.None? {
          freed := [Block(pa, cnt)];
          return;
        }
        at := g.value;
      }
      var r := Region(at, cnt * PAGE, fl, pa, true);
      ChosenIsFree(Regions(), r);
      var ok;
      ok, k := AddRegion(n, r);
      if ok {
        va := at;
      } else {
        freed := [Block(pa, cnt)];
      }
    }

    /** The first region that holds va and is owned as asked, or 0. */
    method ScanOwned(va: int, own: bool) returns (node: Ptr, ghost i: nat)
      requires Linked()
      ensures node != 0 ==> i < |tree.Elems()| && tree.Elems()[i] == node && Contains(Regions()[i], va) && Regions()[i].own == own
      ensures node == 0 ==> forall j :: 0 <= j < |Regions()| ==> !(Contains(Regions()[j], va) && Regions()[j].own == own)
    {
      node := tree.First();
      i := 0;
      NotNull(0);
      while node != 0
        invariant i <= |tree.Elems()| && (node != 0 ==> i < |tree.Elems()| && tree.Elems()[i] == node)
        invariant node == 0 ==> i == |tree.Elems()|
        invariant forall j :: 0 <= j < i ==> !(Contains(Regions()[j], va) && Regions()[j].own == own)
        decreases |tree.Elems()| - i
      {
        assert regions[node] == Regions()[i];
        if regions[node].own == own && regions[node].start <= va && regions[node].start + regions[node].size > va {
          return;
        }
        node := tree.Next(node, i);
        i := i + 1;
        NotNull(i);
      }
    }

    /** vmm_lookup_region's scan. */
    method Scan(va: int) returns (node: Ptr, ghost i: nat)
      requires Linked()
      ensures node != 0 ==> i < |tree.Elems()| && tree.Elems()[i] == node && FindAt(Regions(), va, 0) == Some(i)
      ensures node == 0 ==> FindAt(Regions(), va, 0) == None
    {
      node := tree.First();
      i := 0;
      NotNull(0);
      while node != 0
        invariant i <= |tree.Elems()| && (node != 0 ==> i < |tree.Elems()| && tree.Elems()[i] == node)
        invariant node == 0 ==> i == |tree.Elems()|
        invariant FindAt(Regions(), va, 0) == FindAt(Regions(), va, i)
        decreases |tree.Elems()| - i
      {
        assert regions[node] == Regions()[i];
        if regions[node].start <= va && regions[node].start + regions[node].size > va {
          return;
        }
        node := tree.Next(node, i);
        i := i + 1;
        NotNull(i);
      }
    }

    /** vmm_free_pages. */
    method FreePages(va: int) returns (freed: seq<Block>)
      requires Valid()
      modifies this, tree, pt
      ensures Valid()
      ensures match FindAt(old(Regions()), va, 0)
        case None => freed == [] && Regions() == old(Regions()) && pt.View() == old(pt.View())
        case Some(i) =>
          var r := old(Regions())[i];
          if r.own then
            freed == [Block(r.pa, r.size / PAGE)] && Dropped(old(Regions()), old(pt.View()), i, Regions(), pt.View(), cr3)
          else freed == [] && Regions() == old(Regions()) && pt.View() == old(pt.View())
    {
      freed := [];
      var node;
      ghost var i;
      node, i := ScanOwned(va, true);
      if node != 0 {
        var r := regions[node];
        assert r == Regions()[i];
        FoundIsUnique(Regions(), va, i);
        DropRegion(node, i);
        freed := [Block(r.pa, r.size / PAGE)];
      }
    }

    /** vmm_mmap_release: a mapping is released as a whole; requests beyond it are refused. */
    method Release(va: int, size: int) returns (ok: bool, start: int, length: int, ghost i: nat)
      requires Linked() && Ordered(Regions()) && 0 <= va < LIMIT && 0 <= size < LIMIT
      modifies this, tree
      ensures Linked()
      ensures ok <==> exists j :: 0 <= j < |old(Regions())| && Releases(old(Regions())[j], va, size)
      ensures ok ==> i < |old(Regions())| && Releases(old(Regions())[i], va, size) && Regions() == Minus(old(Regions()), i)
      ensures ok ==> start == old(Regions())[i].start && length == old(Regions())[i].size && i < |old(tree.Elems())| && regions == old(regions) - {old(tree.Elems())[i]}
      ensures !ok ==> Regions() == old(Regions()) && regions == old(regions)
    {
      ok, start, length := false, 0, 0;
      var node;
      ghost var rs := Regions();
      node, i := ScanOwned(va, false);
      assert Regions() == rs;
      if node == 0 {
        return;
      }
      var r := regions[node];
      assert r == Regions()[i];
      FoundIsUnique(Regions(), va, i);
      assert forall j :: 0 <= j < |Regions()| && Contains(Regions()[j], va) ==> j == i by {
        forall j | 0 <= j < |Regions()| && Contains(Regions()[j], va) ensures j == i {
          FoundIsUnique(Regions(), va, j);
        }
      }
      if size > r.size || (va + size) % LIMIT < va || (va + size) % LIMIT > r.start + r.size {
        return;
      }
      DeleteRegion(node, i);
      ok, start, length := true, r.start, r.size;
    }

    /** vmm_mmap_reserve on a tree that is not empty, then the mapping loop; n is what kmalloc gave. */
    method MapWhole(pa: int, length: int, fl: Flags, n: Ptr) returns (ok: bool, at: int, ghost k: nat)
      requires Valid() && Regions() != [] && 0 <= pa < LIMIT && pa % PAGE == 0 && 0 < length && length % PAGE == 0
      requires n != 0 ==> n != tree.nil && n !in regions
      requires Roomy(Regions(), pt.View(), cr3, length, fl, pa)
      modifies this, tree, pt
      ensures Valid()
      ensures ok <==> n != 0 && Chosen(old(Regions()), length).Some? && Affordable(old(pt.View()), cr3, Attempt(old(Regions()), length, fl, pa, false))
      ensures ok ==> Chosen(old(Regions()), length) == Some(at)
      ensures ok ==> n != 0 && Joined(old(Regions()), old(pt.View()), Region(at, length, fl, pa, false), k, Regions(), pt.View(), cr3)
      ensures ok ==> regions == old(regions)[n := Region(at, length, fl, pa, false)]
      ensures !ok ==> Regions() == old(Regions()) && regions == old(regions) && NotMapped(old(Regions()), old(pt.View()), pa, length, fl, n, pt.View(), cr3)
    {
      k := 0;
      var g := FindGap(length);
      if g.None? || n == 0 {
        return false, 0, 0;
      }
      at := g.value;
      var r := Region(at, length, fl, pa, false);
      ChosenIsFree(Regions(), r);
      ok, k := ReserveAndMap(n, r);
    }

    /** vmm_map_memory: whole pages around [pa, pa + size). */
    method MapMemory(pa: int, size: int, fl: Flags, permitted: bool, n: Ptr) returns (ret: int, va: int, ghost k: nat)
      requires Valid() && Regions() != [] && 0 <= pa < LIMIT && 0 <= size < LIMIT
      requires n != 0 ==> n != tree.nil && n !in regions
      requires Roomy(Regions(), pt.View(), cr3, Aligned(pa, size), fl, pa - pa % PAGE)
      modifies this, tree, pt
      ensures Valid()
      ensures ret == 0 ==> permitted && size > 0 && n != 0 && regions == old(regions)[n := MapsTo(pa, size, fl, va)]
      ensures ret == 0 ==> Joined(old(Regions()), old(pt.View()), MapsTo(pa, size, fl, va), k, Regions(), pt.View(), cr3)
      ensures ret == 0 ==> Chosen(old(Regions()), Aligned(pa, size)) == Some(va - pa % PAGE)
      ensures ret != 0 ==> Regions() == old(Regions()) && regions == old(regions)
      ensures ret != 0 && ret != E_NOMEM ==> pt.View() == old(pt.View())
      ensures ret == E_NOMEM ==> NotMapped(old(Regions()), old(pt.View()), pa - pa % PAGE, Aligned(pa, size), fl, n, pt.View(), cr3)
      ensures ret == (if !permitted then E_PERM else if size == 0 || size > LIMIT - 1 - pa % PAGE - (PAGE - 1) then E_INVAL
                      else if n != 0 && Chosen(old(Regions()), Aligned(pa, size)).Some?
                        && Affordable(old(pt.View()), cr3, Attempt(old(Regions()), Aligned(pa, size), fl, pa - pa % PAGE, false)) then 0
                      else E_NOMEM)
    {
      ret, va, k := 0, 0, 0;
      if !permitted {
        ret := E_PERM;
        return;
      }
      if size == 0 || size > LIMIT - 1 - pa % PAGE - (PAGE - 1) {
        ret := E_INVAL;
        return;
      }
      AlignedOk(pa, size);
      var ok, at;
      ok, at, k := MapWhole(pa - pa % PAGE, Aligned(pa, size), fl, n);
      if !ok {
        ret := E_NOMEM;
        return;
      }
      va := at + pa % PAGE;
    }

    /** Insert, map, and on failure unmap and release through the scan. */
    method ReserveAndMap(n: Ptr, r: Region) returns (ok: bool, ghost k: nat)
      requires Valid() && n != 0 && n != tree.nil && n !in regions
      requires RegionOk(r) && Free(Regions(), r) && Fit(pt.View(), cr3, r) && !r.own
      modifies this, tree, pt
      ensures Valid()
      ensures ok <==> Affordable(old(pt.View()), cr3, r)
      ensures ok ==> Joined(old(Regions()), old(pt.View()), r, k, Regions(), pt.View(), cr3) && regions == old(regions)[n := r]
      ensures !ok ==> Regions() == old(Regions()) && regions == old(regions) && Exhausted(pt.used) && Failed(old(Regions()), old(pt.View()), pt.View(), cr3, r)
    {
      ghost var rs, m := Regions(), pt.View();
      WithOrderedAll(rs, r);
      k := InsertRegion(n, r);
      ok := MapRun(pt, cr3, r.start / PAGE, r.pa / PAGE, r.size / PAGE, r.flags);
      if ok {
        AddAgrees(rs, m, pt.View(), cr3, r, k);
      } else {
        UndoReserve(n, r, rs, k);
        UndoneAgrees(rs, m, pt.View(), cr3, r);
      }
    }

    /** vmm_mmap_release of a region just inserted finds that region. */
    method UndoReserve(n: Ptr, r: Region, ghost rs: seq<Region>, ghost k: nat)
      requires Linked() && k <= |rs| && Regions() == With(rs, r, k) && Ordered(Regions()) && !r.own
      requires k < |tree.Elems()| && tree.Elems()[k] == n
      modifies this, tree
      ensures Linked() && Regions() == rs && regions == old(regions) - {n}
    {
      ghost var q := Regions();
      assert q[k] == r && RegionOk(r);
      var done, start, length;
      ghost var i;
      assert Releases(q[k], r.start, 0);
      done, start, length, i := Release(r.start, 0);
      FoundIsUnique(q, r.start, k);
      FoundIsUnique(q, r.start, i);
      WithMinus(rs, r, k);
    }

    /** vmm_unmap_memory. */
    method UnmapMemory(va: int, size: int, permitted: bool) returns (ret: int)
      requires Valid() && 0 <= va < LIMIT && 0 <= size < LIMIT
      modifies this, tree, pt
      ensures Valid()
      ensures match FindAt(old(Regions()), va, 0)
        case None => ret == E_NOTFOUND
        case Some(i) =>
          var r := old(Regions())[i];
          && ret == (if !permitted then E_PERM else if !Releases(r, va, size) then E_INVAL else 0)
          && (ret == 0 ==> Dropped(old(Regions()), old(pt.View()), i, Regions(), pt.View(), cr3))
      ensures ret != 0 ==> Regions() == old(Regions()) && pt.View() == old(pt.View())
    {
      ghost var rs, m := Regions(), pt.View();
      var node;
      ghost var i;
      node, i := Scan(va);
      if node == 0 {
        return E_NOTFOUND;
      }
      if !permitted {
        return E_PERM;
      }
      var ok, start, length;
      ghost var j;
      ok, start, length, j := Release(va, size);
      if !ok {
        return E_INVAL;
      }
      FoundIsUnique(rs, va, j);
      assert RegionOk(rs[i]) && Held(m, cr3, rs[i]);
      UnmapRun(pt, cr3, start / PAGE, length / PAGE);
      BackedRests(m, pt.View(), cr3, rs[i]);
      DropAgrees(rs, m, pt.View(), cr3, i);
      return 0;
    }

    /** Whether some region meets [vs, vs + size). */
    method ScanClash(vs: int, size: int) returns (found: bool)
      requires Linked()
      ensures found <==> exists i :: 0 <= i < |Regions()| && Clashes(Regions()[i], vs, size)
    {
      var node := tree.First();
      ghost var i := 0;
      NotNull(0);
      while node != 0
        invariant i <= |tree.Elems()| && (node != 0 ==> i < |tree.Elems()| && tree.Elems()[i] == node)
        invariant node == 0 ==> i == |tree.Elems()|
        invariant forall j :: 0 <= j < i ==> !Clashes(Regions()[j], vs, size)
        decreases |tree.Elems()| - i
      {
        assert regions[node] == Regions()[i];
        if Clashes(regions[node], vs, size) {
          return true;
        }
        node := tree.Next(node, i);
        i := i + 1;
        NotNull(i);
      }
      return false;
    }

    /**
     vmm_map_fixed of a range that does not wrap, anywhere the directory
     entries are absent, 4 MB pages or tables nothing else uses, and no paging
     structure of the kernel is hidden.
     */
    method MapFixed(pa: int, vs: int, size: int, fl: Flags, own: bool, permitted: bool, n: Ptr) returns (ret: int, ghost k: nat)
      requires Valid() && 0 <= pa < LIMIT && 0 <= vs && 0 <= size && vs + size < LIMIT
      requires Fit(pt.View(), cr3, Region(vs, size, fl, pa, own))
      requires n != 0 ==> n != tree.nil && n !in regions
      modifies this, tree, pt
      ensures Valid()
      ensures ret == 0 ==> Joined(old(Regions()), old(pt.View()), Region(vs, size, fl, pa, own), k, Regions(), pt.View(), cr3)
      ensures ret != 0 ==> Regions() == old(Regions()) && regions == old(regions)
      ensures ret != 0 && ret != E_LIMIT ==> pt.View() == old(pt.View())
      ensures ret == E_LIMIT ==> Exhausted(pt.used) && Failed(old(Regions()), old(pt.View()), pt.View(), cr3, Region(vs, size, fl, pa, own))
      ensures ret == 0 ==> regions == old(regions)[n := Region(vs, size, fl, pa, own)]
      ensures ret == (if pa % PAGE != 0 || vs % PAGE != 0 || size == 0 || size % PAGE != 0 then E_INVAL
                      else if !permitted then E_PERM
                      else if n == 0 then E_NOMEM
                      else if !Free(old(Regions()), Region(vs, size, fl, pa, own)) then E_EXISTS
                      else if Affordable(old(pt.View()), cr3, Region(vs, size, fl, pa, own)) then 0 else E_LIMIT)
    {
      k := 0;
      if pa % PAGE != 0 || vs % PAGE != 0 || size == 0 || size % PAGE != 0 {
        return E_INVAL, 0;
      }
      if !permitted {
        return E_PERM, 0;
      }
      if n == 0 {
        return E_NOMEM, 0;
      }
      var r := Region(vs, size, fl, pa, own);
      var clash := ScanClash(vs, size);
      ClashIsOverlap(Regions(), r);
      if clash {
        return E_EXISTS, 0;
      }
      var ok;
      ok, k := AddRegion(n, r);
      ret := if ok then 0 else E_LIMIT;
    }

    /** vmm_unmap_fixed: owned pages go back to the allocator. */
    method UnmapFixed(va: int, size: int, permitted: bool) returns (ret: int, freed: seq<Block>)
      requires Valid() && 0 <= va < LIMIT && 0 <= size < LIMIT
      modifies this, tree, pt
      ensures Valid()
      ensures match FindAt(old(Regions()), va, 0)
        case None => ret == E_NOTFOUND
        case Some(i) =>
          var r := old(Regions())[i];
          && ret == (if !permitted then E_PERM else if va + size > End(r) then E_INVAL else 0)
          && (ret == 0 ==> Dropped(old(Regions()), old(pt.View()), i, Regions(), pt.View(), cr3))
          && (ret == 0 ==> freed == if r.own then [Block(r.pa, r.size / PAGE)] else [])
      ensures ret != 0 ==> freed == [] && Regions() == old(Regions()) && pt.View() == old(pt.View())
    {
      freed := [];
      var node;
      ghost var i;
      node, i := Scan(va);
      if node == 0 {
        return E_NOTFOUND, [];
      }
      if !permitted {
        return E_PERM, [];
      }
      node, i := Scan(va);
      var r := regions[node];
      assert r == Regions()[i] && RegionOk(r);
      if size > r.size || (va + size) % LIMIT < va || (va + size) % LIMIT > r.start + r.size {
        return E_INVAL, [];
      }
      DropRegion(node, i);
      freed := if r.own then [Block(r.pa, r.size / PAGE)] else [];
      ret := 0;
    }

    /** rbtree_search with the interval comparator finds what the linear scan finds, except at address 0. */
    method SearchRegion(va: int) returns (node: Ptr, ghost i: nat)
      requires Valid() && 0 <= va < LIMIT
      ensures node != 0 ==> i < |tree.Elems()| && tree.Elems()[i] == node && FindAt(Regions(), va, 0) == Some(i)
      ensures node == 0 <==> va == 0 || FindAt(Regions(), va, 0) == None
    {
      var of := regions;
      ghost var s, rs := tree.Elems(), Regions();
      var cmp := (n: Ptr) => if n in of then KeyCmp(va, of[n]) else -1;
      assert Splits(cmp, s) by {
        forall i, j | 0 <= i < j < |s| ensures (cmp(s[i]) < 0 ==> cmp(s[j]) < 0) && (cmp(s[j]) > 0 ==> cmp(s[i]) > 0) {
          KeyCmpSplits(rs, va, i, j);
        }
      }
      ghost var steps;
      node, steps := tree.Search(cmp);
      i := 0;
      if node == 0 {
        forall j | 0 <= j < |rs| ensures KeyCmp(va, rs[j]) != 0 {
          var x := s[j];
          assert x in s;
        }
      } else {
        i :| 0 <= i < |s| && s[i] == node;
        assert KeyCmp(va, rs[i]) == 0;
        FoundIsUnique(rs, va, i);
        tree.ElemsDistinct();
      }
    }

    /** vmm_vcb_va_to_pa. */
    method VaToPa(va: int) returns (pa: int)
      requires Valid() && 0 <= va < LIMIT
      ensures pa == PaOf(Regions(), va)
    {
      var node;
      ghost var i;
      node, i := SearchRegion(va);
      if node == 0 {
        return 0;
      }
      assert regions[node] == Regions()[i];
      return (regions[node].pa + (va - regions[node].start)) % LIMIT;
    }

    /** One visit of the walk: the successor is read before the node is deleted. */
    method DropFirst() returns (next: Ptr, block: seq<Block>)
      requires Valid() && tree.Elems() != []
      modifies this, tree, pt
      ensures Valid() && Regions() == old(Regions())[1..]
      ensures next == if Regions() == [] then 0 else tree.Elems()[0]
      ensures next == 0 ==> Regions() == []
      ensures var r := old(Regions())[0]; block == if r.own then [Block(r.pa, r.size / PAGE)] else []
      ensures pt.dirs == old(pt.dirs) && pt.used == old(pt.used) && pt.tabs.Keys == old(pt.tabs).Keys && Aside(old(pt.View()), pt.View(), cr3)
    {
      var pos := tree.First();
      next := tree.Next(pos, 0);
      NotNull(1);
      var r := regions[pos];
      assert r == Regions()[0];
      DropRegion(pos, 0);
      block := if r.own then [Block(r.pa, r.size / PAGE)] else [];
    }

    /**
     vmm_destroy's walk: every region is visited once although each visit
     deletes it from the tree being walked, and exactly the blocks of the owned
     regions go back to the allocator, each once and in address order.
     */
    method DestroyRegions() returns (freed: seq<Block>)
      requires Valid()
      modifies this, tree, pt
      ensures Valid() && Regions() == [] && freed == OwnBlocks(old(Regions()))
      ensures Aside(old(pt.View()), pt.View(), cr3)
      ensures pt.dirs == old(pt.dirs) && pt.used == old(pt.used) && pt.tabs.Keys == old(pt.tabs).Keys
    {
      ghost var m, all := pt.View(), OwnBlocks(Regions());
      freed := [];
      var pos := tree.First();
      NotNull(0);
      while pos != 0
        invariant Valid() && Walking(pos, freed, m, all)
        decreases |Regions()|
      {
        pos, freed := Visit(freed, m, all);
      }
    }

    /** Where the walk stands: at the first region left, with the blocks of the others returned. */
    ghost predicate Walking(pos: Ptr, freed: seq<Block>, m: Mem, all: seq<Block>)
      requires Linked()
      reads this, tree, pt
    {
      && pos == (if Regions() == [] then 0 else tree.Elems()[0]) && (pos == 0 ==> Regions() == [])
      && freed + OwnBlocks(Regions()) == all
      && pt.dirs == m.dirs && pt.used == m.used && pt.tabs.Keys == m.tabs.Keys && Aside(m, pt.View(), cr3)
    }

    /** The loop body: release the first region and step to the next. */
    method Visit(was: seq<Block>, ghost m: Mem, ghost all: seq<Block>) returns (pos: Ptr, freed: seq<Block>)
      requires Valid() && tree.Elems() != [] && Walking(tree.Elems()[0], was, m, all)
      modifies this, tree, pt
      ensures Valid() && Walking(pos, freed, m, all) && |Regions()| < |old(Regions())|
    {
      ghost var b, rest := pt.View(), OwnBlocks(Regions()[1..]);
      var block;
      pos, block := DropFirst();
      assert was + (block + rest) == (was + block) + rest;
      freed := was + block;
      AsideTrans(m, b, pt.View(), cr3);
    }

    /**
     vmm_destroy: the owned blocks go back to the allocator and the directory
     with its private tables below USER_SPACE_TOP to the pool, nothing else; to
     every other directory nothing happened.
     */
    method Destroy(master: int) returns (freed: seq<Block>)
      requires Valid() && Homed(pt.View(), master, cr3)
      modifies this, tree, pt
      ensures freed == OwnBlocks(old(Regions()))
      ensures Gone(old(pt.View()), pt.View(), cr3) && Reach(pt.View())
      ensures forall k :: 0 <= k < SLOTS ==>
        (pt.used[k] <==> old(pt.used)[k] && !Returned(old(pt.View()), master, cr3, TOP, pt.pool + k) && pt.pool + k != cr3)
    {
      ghost var m := pt.View();
      freed := DestroyRegions();
      ghost var b := pt.View();
      GiveBackTables(pt, master, cr3);
      AsideGone(m, b, pt.View(), cr3);
      GoneReach(m, pt.View(), cr3);
    }
  }

  /** What happened in a directory before it went does not matter to the others. */
  lemma {:induction false} AsideGone(m: Mem, b: Mem, m': Mem, c: int)
    requires Aside(m, b, c) && b.dirs == m.dirs && b.used == m.used && b.tabs.Keys == m.tabs.Keys && Gone(b, m', c)
    ensures Gone(m, m', c)
  {
    forall d, w | d in m'.dirs && 0 <= w < FRAMES ensures Lookup(m', d, w) == Lookup(m, d, w) {
      assert Lookup(b, d, w) == Lookup(m, d, w);
    }
  }

  /** arch_destroy_address_space and the return of the directory itself. */
  method GiveBackTables(pt: PageTables, master: int, c: int)
    requires Homed(pt.View(), master, c)
    modifies pt
    ensures Gone(old(pt.View()), pt.View(), c)
    ensures forall k :: 0 <= k < SLOTS ==>
      (pt.used[k] <==> old(pt.used)[k] && !Returned(old(pt.View()), master, c, TOP, pt.pool + k) && pt.pool + k != c)
  {
    ghost var b := pt.View();
    HomedSeparate(b, master, c);
    DestroyCorrect(b, master, c, TOP);
    pt.DestroySpace(master, c);
    DestroyTables(b, master, c, TOP);
    pt.FreeDirectory(c);
    forall d | d in pt.dirs && InPool(b, d) && d !in b.tabs && b.used[d - b.pool] ensures pt.used[d - b.pool] {
      ReturnedIsTable(b, master, c, d);
    }
  }

  lemma {:induction false} ReturnedIsTable(m: Mem, master: int, c: int, d: int)
    requires Homed(m, master, c) && d !in m.tabs
    ensures !Returned(m, master, c, TOP, d)
  {
    forall i | 0 <= i < TOP && Private(m, master, c, i) ensures m.dirs[c][i].frame in m.tabs {
      assert Sole(m, c, i);
      TablesKnown(m, c, i);
    }
  }

  lemma {:induction false} DestroyTables(m: Mem, master: int, c: int, i: nat)
    requires master in m.dirs && |m.dirs[master]| == 1024 && c in m.dirs && |m.dirs[c]| == 1024 && c != master && i <= TOP
    ensures var m' := Paging.Destroy(m, master, c, i); m'.tabs.Keys <= m.tabs.Keys && m'.dirs - {c} == m.dirs - {c} && m'.pool == m.pool
  {
    if i > 0 { DestroyTables(m, master, c, i - 1); }
  }

  lemma {:induction false} ClashIsOverlap(rs: seq<Region>, r: Region)
    requires Ordered(rs) && RegionOk(r)
    ensures (exists i :: 0 <= i < |rs| && Clashes(rs[i], r.start, r.size)) <==> !Free(rs, r)
  {
    forall i | 0 <= i < |rs| ensures Clashes(rs[i], r.start, r.size) <==> !(End(rs[i]) <= r.start || End(r) <= rs[i].start) {
      ClashExact(r.start, r.size);
      assert RegionOk(rs[i]);
    }
  }

  /** The blocks the owned regions hold, in address order. */
  function OwnBlocks(rs: seq<Region>): seq<Block> {
    if rs == [] then []
    else (if rs[0].own then [Block(rs[0].pa, rs[0].size / PAGE)] else []) + OwnBlocks(rs[1..])
  }

  /** The region vmm_map_memory makes for [pa, pa + size) when it returns va. */
  function MapsTo(pa: int, size: int, fl: Flags, va: int): Region {
    Region(va - pa % PAGE, Aligned(pa, size), fl, pa - pa % PAGE, false)
  }

  /** Why vmm_map_memory ran out: no record, no gap, or no page table; in the last case the mapping is given up. */
  ghost predicate NotMapped(rs: seq<Region>, m: Mem, pa: int, length: int, fl: Flags, n: Ptr, m': Mem, c: int) {
    && NotAdded(rs, m, m', c, Attempt(rs, length, fl, pa, false))
    && (n == 0 || Chosen(rs, length).None? || Exhausted(m'.used)) && (n == 0 ==> m' == m)
  }

  /** Unmapping the pages of a held region leaves them at rest. */
  lemma {:induction false} BackedRests(m: Mem, m': Mem, c: int, r: Region)
    requires Wf(m) && Wf(m') && c in m.dirs && c in m'.dirs && RegionOk(r) && Held(m, c, r)
    requires forall w :: Lo(r) <= w < Lo(r) + Len(r) ==> Lookup(m', c, w) == if Lookup(m, c, w).Some? then Rest(w) else None
    ensures AtRest(m', c, Lo(r), Len(r), r.flags)
  {
    forall w | Lo(r) <= w < Lo(r) + Len(r) ensures Lookup(m', c, w) == Left(w, r.flags) {
      assert Mapped(m, c, Lo(r), r.pa / PAGE, w, r.flags);
    }
  }

  /** The part of a region that is released: not owned, and the request stays inside it. */
  predicate Releases(r: Region, va: int, size: int) {
    !r.own && Contains(r, va) && size <= r.size && va + size <= End(r)
  }

  /** The byte count of the pages that [pa, pa + size) touches. */
  function Aligned(pa: int, size: int): int {
    (size + pa % PAGE + (PAGE - 1)) / PAGE * PAGE
  }

  lemma {:induction false} AlignedOk(pa: int, size: int)
    requires 0 <= pa < LIMIT && 0 < size
    ensures Aligned(pa, size) > 0 && Aligned(pa, size) % PAGE == 0 && (pa - pa % PAGE) % PAGE == 0 && 0 <= pa - pa % PAGE
    ensures pa % PAGE + size <= Aligned(pa, size) < pa % PAGE + size + PAGE
  {
  }

  lemma {:induction false} WithOrderedAll(rs: seq<Region>, r: Region)
    requires Ordered(rs) && RegionOk(r) && Free(rs, r)
    ensures forall k: nat :: Placed(rs, r, k) ==> Ordered(With(rs, r, k))
  {
    forall k: nat | Placed(rs, r, k) ensures Ordered(With(rs, r, k)) { WithOrdered(rs, r, k); }
  }

  /** (x + PAGE_SIZE - 1) & ~(PAGE_SIZE - 1) in 32 bits. */
  function RoundUp(x: int): int {
    (x + PAGE - 1) % LIMIT / PAGE * PAGE
  }

  lemma {:induction false} RoundUpEnd(r: Region)
    requires RegionOk(r)
    ensures RoundUp(End(r)) == End(r) > 0
  {
    assert End(r) == PAGE * (r.start / PAGE + r.size / PAGE);
  }

  lemma {:induction false} WithMinus(rs: seq<Region>, r: Region, k: nat)
    requires k <= |rs|
    ensures Minus(With(rs, r, k), k) == rs
  {
  }

  /**
   vmm_create: a free slot becomes a copy of the master, to every other
   process nothing happens, and no region exists yet. The master maps nothing
   in the window, and directories in the pool hold their slots.
   */
  method Create(pt: PageTables, master: int, nil: Ptr) returns (space: AddressSpace?)
    requires Reach(pt.View()) && master in pt.dirs && nil != 0 && WindowClear(pt.View(), master)
    requires forall f :: InPool(pt.View(), f) && f in pt.dirs ==> pt.used[f - pt.pool]
    modifies pt
    ensures space == null ==> pt.View() == old(pt.View()) && Exhausted(pt.used)
    ensures space != null ==>
      && fresh(space) && fresh(space.tree) && space.pt == pt && space.Valid() && space.Regions() == []
      && Born(old(pt.View()), pt.View(), master, space.cr3)
  {
    var tree := new RbTree(nil);
    ghost var m := pt.View();
    PoolAllocCorrect(m);
    var f := pt.AllocSlot();
    if f.None? {
      return null;
    }
    pt.CloneKernel(master, f.value);
    NewAgrees(m, pt.View(), master, f.value);
    BornReach(m, pt.View(), master, f.value);
    space := new AddressSpace(tree, pt, f.value);
  }
}
