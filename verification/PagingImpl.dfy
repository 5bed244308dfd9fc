/** osdev/arch/i386/paging.c writing directory and table entries in place. */
module PagingImpl {
  import opened Paging
  import opened Basics

  class PageTables {
    var dirs: map<int, seq<Pde>>
    var tabs: map<int, seq<Pte>>
    var used: seq<bool>
    const pool: int

    ghost function View(): Mem
      reads this
    {
      Mem(dirs, tabs, used, pool)
    }

    /** An empty pool and the zeroed master directory. */
    constructor (master: int, pool: int)
      ensures Wf(View()) && dirs.Keys == {master} && forall v :: 0 <= v < FRAMES ==> Lookup(View(), master, v) == None
    {
      dirs, tabs := map[master := seq(1024, i => NO_PDE)], map[];
      used := seq(SLOTS, i => false);
      this.pool := pool;
    }

    method AllocSlot() returns (f: Option<int>)
      modifies this`used
      ensures match PoolAlloc(old(View()))
        case None => f == None && View() == old(View())
        case Some(a) => f == Some(a.1) && View() == a.0
    {
      var i := 0;
      while i < |used|
        invariant i <= |used| && used == old(used)
        invariant FirstFree(used, 0) == FirstFree(used, i)
      {
        if !used[i] {
          used := used[i := true];
          return Some(pool + i);
        }
        i := i + 1;
      }
      return None;
    }

    method FreeSlot(f: int)
      modifies this`used, this`tabs
      ensures View() == PoolFree(old(View()), f)
    {
      if f < pool || f >= pool + |used| {
        return;
      }
      used := used[f - pool := false];
      tabs := tabs - {f};
    }

    method WritePde(c: int, i: int, p: Pde)
      requires c in dirs && 0 <= i < |dirs[c]|
      modifies this`dirs
      ensures View() == SetPde(old(View()), c, i, p)
    {
      dirs := dirs[c := dirs[c][i := p]];
    }

    /** arch_map_4mb; addresses are given as page numbers. */
    method Map4mb(c: int, v: int, frame: int, fl: Flags, attr: Attr)
      requires Wf(View()) && c in dirs && 0 <= v < FRAMES && 0 <= frame < FRAMES
      modifies this`dirs
      ensures Wf(View()) && dirs.Keys == old(dirs.Keys)
      ensures v % 1024 != 0 || frame % 1024 != 0 ==> View() == old(View())
      ensures v % 1024 == 0 && frame % 1024 == 0 ==> forall d, w :: d in dirs && 0 <= w < FRAMES ==>
        Lookup(View(), d, w) ==
          if d == c && v <= w < v + 1024 then (if fl.present then Some(Page(frame + (w - v), fl.user, fl.rw)) else None)
          else old(Lookup(View(), d, w))
    {
      if v % 1024 != 0 || frame % 1024 != 0 {
        return;
      }
      ghost var m := View();
      WritePde(c, v / 1024, Pde(fl.present, fl.rw, fl.user, true, attr, frame));
      forall d, i | d in dirs && 0 <= i < 1024 ensures PdeOk(View(), dirs[d][i]) {
        assert PdeOk(m, m.dirs[d][i]);
      }
      forall d, w | d in dirs && 0 <= w < FRAMES
        ensures Lookup(View(), d, w) ==
          if d == c && v <= w < v + 1024 then (if fl.present then Some(Page(frame + (w - v), fl.user, fl.rw)) else None)
          else Lookup(m, d, w)
      {
        assert PdeOk(m, m.dirs[d][w / 1024]);
        assert v <= w < v + 1024 <==> w / 1024 == v / 1024;
      }
    }

    /** The 1024 entries that replace a 4 MB page. */
    method FillTable(p: Pde) returns (t: seq<Pte>)
      ensures t == SplitTable(p)
    {
      t := [];
      for i := 0 to 1024
        invariant |t| == i && forall k :: 0 <= k < i ==> t[k] == SplitEntry(p, k)
      {
        t := t + [SplitEntry(p, i)];
      }
    }

    method SplitBig(c: int, i: int, user: bool) returns (ok: bool)
      requires c in dirs && 0 <= i < |dirs[c]|
      modifies this
      ensures ok == Split(old(View()), c, i, user).Some?
      ensures View() == if ok then Split(old(View()), c, i, user).value else old(View())
    {
      var p := dirs[c][i];
      if !p.present || !p.big {
        return false;
      }
      var f := AllocSlot();
      if f.None? {
        return false;
      }
      var t := FillTable(p);
      WritePde(c, i, SplitPde(p, user, f.value));
      tabs := tabs[f.value := t];
      return true;
    }

    /** The first half of arch_map_4kb. */
    method EnsureTable(c: int, v: int, fl: Flags) returns (ok: bool)
      requires c in dirs && |dirs[c]| == 1024 && 0 <= v < FRAMES
      modifies this
      ensures ok == Tabled(old(View()), c, v, fl).Some?
      ensures View() == if ok then Tabled(old(View()), c, v, fl).value else old(View())
    {
      var i := v / 1024;
      if dirs[c][i].present && dirs[c][i].big {
        ok := SplitBig(c, i, fl.user);
        return;
      }
      if !dirs[c][i].present {
        var f := AllocSlot();
        if f.None? {
          return false;
        }
        WritePde(c, i, TablePde(fl.user, f.value));
        tabs := tabs[f.value := Empty()];
      }
      return true;
    }

    method Map4kb(c: int, v: int, frame: int, fl: Flags) returns (ok: bool)
      requires Wf(View()) && c in dirs && 0 <= v < FRAMES
      modifies this
      ensures ok == MapPage(old(View()), c, v, frame, fl).Some?
      ensures View() == if ok then MapPage(old(View()), c, v, frame, fl).value else old(View())
    {
      ghost var m := View();
      ok := EnsureTable(c, v, fl);
      if ok {
        TabledOnly(m, c, v, fl);
        var f := dirs[c][v / 1024].frame;
        tabs := tabs[f := tabs[f][v % 1024 := Pte(fl.present, fl.rw, fl.user, PLAIN, frame)]];
      }
    }

    method Unmap4kb(c: int, v: int)
      requires Wf(View()) && c in dirs && 0 <= v < FRAMES && Fine(View(), c, v)
      modifies this`tabs
      ensures View() == UnmapPage(old(View()), c, v)
    {
      var p := dirs[c][v / 1024];
      assert PdeOk(View(), p);
      if !p.present || !tabs[p.frame][v % 1024].present {
        return;
      }
      if v < USER_HEAP {
        tabs := tabs[p.frame := tabs[p.frame][v % 1024 := Pte(true, true, false, PLAIN, v)]];
        return;
      }
      tabs := tabs[p.frame := tabs[p.frame][v % 1024 := NO_PTE]];
    }

    method CloneKernel(master: int, c: int)
      requires master in dirs && |dirs[master]| == 1024
      modifies this`dirs
      ensures View() == Clone(old(View()), master, c)
    {
      var t: seq<Pde> := [];
      for i := 0 to 1024
        invariant |t| == i && forall k :: 0 <= k < i ==> t[k] == dirs[master][k]
      {
        t := t + [dirs[master][i]];
      }
      assert t == dirs[master];
      dirs := dirs[c := t];
    }

    method DestroySpace(master: int, c: int)
      requires master in dirs && |dirs[master]| == 1024 && c in dirs && |dirs[c]| == 1024 && c != master
      modifies this
      ensures View() == Destroy(old(View()), master, c, TOP)
    {
      for i := 0 to TOP
        invariant View() == Destroy(old(View()), master, c, i)
      {
        var p := dirs[c][i];
        if p.present && p.frame != dirs[master][i].frame {
          FreeSlot(p.frame);
          WritePde(c, i, NO_PDE);
        }
      }
    }

    /** The slot of a page directory goes back to the pool. */
    method FreeDirectory(c: int)
      requires Wf(View()) && c in dirs && c !in tabs
      modifies this
      ensures Wf(View()) && dirs == old(dirs) - {c} && tabs == old(tabs)
      ensures used == if InPool(old(View()), c) then old(used)[c - pool := false] else old(used)
      ensures forall d, v :: d in dirs && 0 <= v < FRAMES ==> Lookup(View(), d, v) == old(Lookup(View(), d, v))
    {
      ghost var m := View();
      FreeSlot(c);
      dirs := dirs - {c};
      assert tabs == m.tabs;
      forall d, i | d in dirs && 0 <= i < 1024 ensures PdeOk(View(), dirs[d][i]) {
        assert PdeOk(m, m.dirs[d][i]);
      }
    }
  }
}
