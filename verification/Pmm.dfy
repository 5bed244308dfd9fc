/** The bitmap of physical blocks (osdev/kernel/mm/pmm.c) and the flags it stands for. */
module Pmm {

  const BLOCK := 4096
  const WORD := 0x1_0000_0000

  // ---- one byte ----

  /** bitmap_test, bitmap_set and bitmap_clear on the byte that holds the block. */
  predicate Test(b: bv8, k: nat)
    requires k < 8
  {
    (b >> k) & 1 == 1
  }

  function Set(b: bv8, k: nat): bv8
    requires k < 8
  {
    b | (1 << k)
  }

  function Clear(b: bv8, k: nat): bv8
    requires k < 8
  {
    b & !(1 << k)
  }

  /** The k-th bit changes and no other. */
  lemma {:induction false} OneBit(b: bv8, k: nat, j: nat)
    requires k < 8 && j < 8
    ensures Test(Set(b, k), j) <==> j == k || Test(b, j)
    ensures Test(Clear(b, k), j) <==> j != k && Test(b, j)
  {
    Mask(k, j);
    OrBit(b, 1 << k, j);
    AndNotBit(b, 1 << k, j);
  }

  lemma {:induction false} Mask(k: nat, j: nat)
    requires k < 8 && j < 8
    ensures Test(1 << k, j) <==> j == k
  {
    if k == 0 { assert (1 as bv8) << k == 1; }
    else if k == 1 { assert (1 as bv8) << k == 2; }
    else if k == 2 { assert (1 as bv8) << k == 4; }
    else if k == 3 { assert (1 as bv8) << k == 8; }
    else if k == 4 { assert (1 as bv8) << k == 16; }
    else if k == 5 { assert (1 as bv8) << k == 32; }
    else if k == 6 { assert (1 as bv8) << k == 64; }
    else { assert (1 as bv8) << k == 128; }
  }

  lemma {:induction false} OrBit(b: bv8, mask: bv8, j: nat)
    requires j < 8
    ensures Test(b | mask, j) <==> Test(mask, j) || Test(b, j)
  {
  }

  lemma {:induction false} AndNotBit(b: bv8, mask: bv8, j: nat)
    requires j < 8
    ensures Test(b & !mask, j) <==> !Test(mask, j) && Test(b, j)
  {
  }

  // ---- the whole bitmap ----

  /** Block i of the bitmap. */
  predicate Bit(bs: seq<bv8>, i: nat)
    requires i < 8 * |bs|
  {
    Test(bs[i / 8], i % 8)
  }

  /** The flags of the first n blocks: true for used. */
  function Bits(bs: seq<bv8>, n: nat): (r: seq<bool>)
    requires n <= 8 * |bs|
    ensures |r| == n && forall i :: 0 <= i < n ==> r[i] == Bit(bs, i)
  {
    seq(n, i requires 0 <= i < n => Bit(bs, i))
  }

  lemma {:induction false} SetFlag(bs: seq<bv8>, n: nat, i: nat)
    requires n <= 8 * |bs| && i < n
    ensures Bits(bs[i / 8 := Set(bs[i / 8], i % 8)], n) == Bits(bs, n)[i := true]
  {
    var bs' := bs[i / 8 := Set(bs[i / 8], i % 8)];
    forall j | 0 <= j < n ensures Bits(bs', n)[j] == Bits(bs, n)[i := true][j] {
      OneBit(bs[i / 8], i % 8, j % 8);
      assert j == i <==> j / 8 == i / 8 && j % 8 == i % 8;
    }
  }

  lemma {:induction false} ClearFlag(bs: seq<bv8>, n: nat, i: nat)
    requires n <= 8 * |bs| && i < n
    ensures Bits(bs[i / 8 := Clear(bs[i / 8], i % 8)], n) == Bits(bs, n)[i := false]
  {
    var bs' := bs[i / 8 := Clear(bs[i / 8], i % 8)];
    forall j | 0 <= j < n ensures Bits(bs', n)[j] == Bits(bs, n)[i := false][j] {
      OneBit(bs[i / 8], i % 8, j % 8);
      assert j == i <==> j / 8 == i / 8 && j % 8 == i % 8;
    }
  }

  // ---- counting ----

  function CountFree(fs: seq<bool>): int {
    if fs == [] then 0 else CountFree(fs[..|fs| - 1]) + if fs[|fs| - 1] then 0 else 1
  }

  lemma {:induction false} CountUpdate(fs: seq<bool>, i: nat, v: bool)
    requires i < |fs|
    ensures CountFree(fs[i := v]) == CountFree(fs) + (if fs[i] then 1 else 0) - (if v then 1 else 0)
    decreases |fs|
  {
    var n := |fs| - 1;
    if i == n {
      assert fs[i := v][..n] == fs[..n];
    } else {
      assert fs[i := v][..n] == fs[..n][i := v];
      CountUpdate(fs[..n], i, v);
    }
  }

  lemma {:induction false} CountAllUsed(n: nat)
    ensures CountFree(seq(n, i => true)) == 0
  {
    if n > 0 {
      assert seq(n, i => true)[..n - 1] == seq(n - 1, i => true);
      CountAllUsed(n - 1);
    }
  }

  // ---- runs ----

  /** Blocks lo to hi - 1 all marked v. */
  function MarkAll(fs: seq<bool>, lo: int, hi: int, v: bool): (r: seq<bool>)
    ensures |r| == |fs| && forall i :: 0 <= i < |fs| ==> r[i] == if lo <= i < hi then v else fs[i]
  {
    seq(|fs|, i requires 0 <= i < |fs| => if lo <= i < hi then v else fs[i])
  }

  lemma {:induction false} MarkOneMore(fs: seq<bool>, lo: int, hi: int, v: bool)
    requires lo <= hi && 0 <= hi < |fs|
    ensures MarkAll(fs, lo, hi, v)[hi := v] == MarkAll(fs, lo, hi + 1, v)
  {
  }

  ghost predicate FreeRun(fs: seq<bool>, s: int, n: int) {
    0 <= s && s + n <= |fs| && forall j :: s <= j < s + n ==> !fs[j]
  }

  /** The lowest run of n free blocks. */
  ghost predicate LowestRun(fs: seq<bool>, s: int, n: int) {
    FreeRun(fs, s, n) && forall t :: 0 <= t < s ==> !FreeRun(fs, t, n)
  }

  /** Allocating a run and freeing it gives every flag back. */
  lemma {:induction false} AllocFree(fs: seq<bool>, s: int, n: nat)
    requires FreeRun(fs, s, n)
    ensures MarkAll(MarkAll(fs, s, s + n, true), s, s + n, false) == fs
  {
    var q := MarkAll(MarkAll(fs, s, s + n, true), s, s + n, false);
    forall i | 0 <= i < |fs| ensures q[i] == fs[i] {}
  }
}

/** osdev/kernel/mm/pmm.c on its byte array. */
module PmmImpl {
  import opened Pmm
  import opened Basics

  class PhysicalMemory {
    const bitmap: array<bv8>
    const total: nat
    /** free_blocks. */
    var free: int

    ghost predicate Ok()
      reads this, bitmap
    {
      total <= 8 * bitmap.Length && free == CountFree(Flags())
    }

    ghost function Flags(): seq<bool>
      requires total <= 8 * bitmap.Length
      reads this, bitmap
    {
      Bits(bitmap[..], total)
    }

    /** pmm_init: blocks below the end of the bitmap stay reserved. */
    constructor (memory: nat, bitmapAddr: nat)
      ensures Ok() && total == memory / BLOCK && fresh(bitmap)
      ensures var reserved := (bitmapAddr + BLOCK - 1) / BLOCK + ((total + 7) / 8 + BLOCK - 1) / BLOCK;
        forall i :: 0 <= i < total ==> (Flags()[i] <==> i < reserved)
    {
      var n := memory / BLOCK;
      total := n;
      bitmap := new bv8[(n + 7) / 8](i => 0xFF);
      free := 0;
      new;
      var reserved := (bitmapAddr + BLOCK - 1) / BLOCK + ((total + 7) / 8 + BLOCK - 1) / BLOCK;
      AllOnes(bitmap[..], total);
      CountAllUsed(total);
      ReleaseFrom(reserved);
    }

    /** The loop of pmm_init over a bitmap that is all ones. */
    method ReleaseFrom(reserved: nat)
      requires Ok() && Flags() == seq(total, k => true)
      modifies this, bitmap
      ensures Ok() && Flags() == MarkAll(old(Flags()), reserved, total, false)
    {
      ghost var fs := Flags();
      var i := reserved;
      assert reserved < total ==> MarkAll(fs, reserved, reserved, false) == fs;
      while i < total
        invariant Ok() && reserved <= i && (i <= total ==> Flags() == MarkAll(fs, reserved, i, false)) && (i > total ==> i == reserved && Flags() == fs)
      {
        FreeBlock(i);
        assert MarkAll(MarkAll(fs, reserved, i, false), i, i + 1, false) == MarkAll(fs, reserved, i + 1, false);
        i := i + 1;
      }
    }

    method TestBlock(i: nat) returns (used: bool)
      requires i < total <= 8 * bitmap.Length
      ensures used == Flags()[i]
    {
      return Test(bitmap[i / 8], i % 8);
    }

    method SetBlock(i: nat)
      requires i < total <= 8 * bitmap.Length
      modifies bitmap
      ensures Flags() == old(Flags())[i := true]
      ensures CountFree(Flags()) == old(CountFree(Flags())) - if old(Flags())[i] then 0 else 1
    {
      SetFlag(bitmap[..], total, i);
      CountUpdate(Flags(), i, true);
      bitmap[i / 8] := Set(bitmap[i / 8], i % 8);
      assert bitmap[..] == old(bitmap[..])[i / 8 := Set(old(bitmap[i / 8]), i % 8)];
    }

    method ClearBlock(i: nat)
      requires i < total <= 8 * bitmap.Length
      modifies bitmap
      ensures Flags() == old(Flags())[i := false]
      ensures CountFree(Flags()) == old(CountFree(Flags())) + if old(Flags())[i] then 1 else 0
    {
      ClearFlag(bitmap[..], total, i);
      CountUpdate(Flags(), i, false);
      bitmap[i / 8] := Clear(bitmap[i / 8], i % 8);
      assert bitmap[..] == old(bitmap[..])[i / 8 := Clear(old(bitmap[i / 8]), i % 8)];
    }

    /** Blocks lo to hi - 1 that are free become used. */
    method MarkUsed(paddr: nat, size: nat)
      requires Ok() && paddr < WORD && size < WORD
      modifies this, bitmap
      ensures Ok()
      ensures Flags() == if paddr == 0 || size == 0 then old(Flags())
                         else MarkAll(old(Flags()), paddr / BLOCK, (paddr + size + BLOCK - 1) % WORD / BLOCK, true)
    {
      if paddr == 0 || size == 0 {
        return;
      }
      ghost var fs := Flags();
      var block := paddr / BLOCK;
      var end := (paddr + size + BLOCK - 1) % WORD / BLOCK;
      var last := if end > total then total else end;
      ghost var lo := block;
      assert MarkAll(fs, lo, block, true) == fs;
      while block < last
        invariant lo <= block && Ok() && (block > last ==> block == lo) && Flags() == MarkAll(fs, lo, block, true)
      {
        TakeBlock(block);
        assert MarkAll(MarkAll(fs, lo, block, true), block, block + 1, true) == MarkAll(fs, lo, block + 1, true);
        block := block + 1;
      }
      assert MarkAll(fs, lo, block, true) == MarkAll(fs, lo, end, true);
    }

    /** Take block i if it is free. */
    method TakeBlock(i: nat)
      requires Ok() && i < total
      modifies this, bitmap
      ensures Ok() && Flags() == MarkAll(old(Flags()), i, i + 1, true)
    {
      ghost var fs := Flags();
      var used := TestBlock(i);
      if !used {
        SetBlock(i);
        free := free - 1;
      }
      assert Flags() == MarkAll(fs, i, i + 1, true);
    }

    /** pmm_alloc_page: the lowest free block, if there is one. */
    method AllocPage() returns (page: Option<nat>)
      requires Ok()
      modifies this, bitmap
      ensures Ok()
      ensures match page
        case None => Flags() == old(Flags()) && forall i :: 0 <= i < total ==> old(Flags())[i]
        case Some(b) => b < total && !old(Flags())[b] && (forall j :: 0 <= j < b ==> old(Flags())[j]) && Flags() == old(Flags())[b := true]
    {
      var i := 0;
      while i < total
        invariant 0 <= i <= total && Ok() && Flags() == old(Flags()) && forall j :: 0 <= j < i ==> Flags()[j]
      {
        var used := TestBlock(i);
        if !used {
          SetBlock(i);
          free := free - 1;
          return Some(i);
        }
        i := i + 1;
      }
      return None;
    }

    /** Give block i back if it is a used block of the machine. */
    method FreeBlock(i: nat)
      requires Ok()
      modifies this, bitmap
      ensures Ok() && Flags() == MarkAll(old(Flags()), i, i + 1, false)
    {
      ghost var fs := Flags();
      if i < total {
        var used := TestBlock(i);
        if used {
          ClearBlock(i);
          free := free + 1;
        }
      }
      assert Flags() == MarkAll(fs, i, i + 1, false);
    }

    /** pmm_free_page. */
    method FreePage(paddr: nat)
      requires Ok()
      modifies this, bitmap
      ensures Ok() && Flags() == MarkAll(old(Flags()), paddr / BLOCK, paddr / BLOCK + 1, false)
    {
      FreeBlock(paddr / BLOCK);
    }

    /** The scan of pmm_alloc_pages: a counter that restarts at every used block finds the lowest run. */
    method FindRun(n: nat) returns (start: Option<nat>)
      requires Ok() && n > 0
      ensures match start
        case None => forall s :: 0 <= s < total ==> !FreeRun(Flags(), s, n)
        case Some(s) => LowestRun(Flags(), s, n)
    {
      var first, found, i := 0, 0, 0;
      while i < total
        invariant 0 <= i <= total && 0 <= found < n && found <= i && (found > 0 ==> first == i - found)
        invariant FreeRun(Flags(), i - found, found)
        invariant forall s :: 0 <= s < i - found ==> !FreeRun(Flags(), s, n)
      {
        var used := TestBlock(i);
        if !used {
          if found == 0 {
            first := i;
          }
          found := found + 1;
          if found == n {
            return Some(first);
          }
        } else {
          forall s | 0 <= s < i + 1 ensures !FreeRun(Flags(), s, n) {}
          found := 0;
        }
        i := i + 1;
      }
      return None;
    }

    /** pmm_alloc_pages: succeeds exactly when a run of n free blocks exists, takes the lowest, marks only it. */
    method AllocPages(n: nat) returns (start: Option<nat>)
      requires Ok()
      modifies this, bitmap
      ensures Ok()
      ensures match start
        case None => Flags() == old(Flags()) && (n == 0 || forall s :: 0 <= s < total ==> !FreeRun(old(Flags()), s, n))
        case Some(s) => n > 0 && LowestRun(old(Flags()), s, n) && Flags() == MarkAll(old(Flags()), s, s + n, true) && free == old(free) - n
    {
      if n == 0 {
        return None;
      }
      ghost var fs := Flags();
      start := FindRun(n);
      if start.None? {
        return;
      }
      var s := start.value;
      assert MarkAll(fs, s, s, true) == fs;
      for j := s to s + n
        invariant free == old(free) && CountFree(Flags()) == free - (j - s) && Flags() == MarkAll(fs, s, j, true)
      {
        MarkOneMore(fs, s, j, true);
        SetBlock(j);
      }
      free := free - n;
    }

    /** pmm_free_pages: used blocks of the range become free, the counter grows by as many. */
    method FreePages(paddr: nat, n: nat)
      requires Ok() && paddr < WORD && n < WORD
      modifies this, bitmap
      ensures Ok()
      ensures Flags() == MarkAll(old(Flags()), paddr / BLOCK, (paddr / BLOCK + n) % WORD, false)
    {
      ghost var fs := Flags();
      var s := paddr / BLOCK;
      var end := (s + n) % WORD;
      assert MarkAll(fs, s, s, false) == fs;
      if n == 0 {
        return;
      }
      var i := s;
      while i < end
        invariant s <= i && (i > end ==> i == s) && Ok() && Flags() == MarkAll(fs, s, i, false)
      {
        FreeBlock(i);
        assert MarkAll(MarkAll(fs, s, i, false), i, i + 1, false) == MarkAll(fs, s, i + 1, false);
        i := i + 1;
      }
      assert MarkAll(fs, s, i, false) == MarkAll(fs, s, end, false);
    }
  }

  lemma {:induction false} AllOnes(bs: seq<bv8>, n: nat)
    requires n <= 8 * |bs| && forall i :: 0 <= i < |bs| ==> bs[i] == 0xFF
    ensures Bits(bs, n) == seq(n, i => true)
  {
    forall j | 0 <= j < n ensures Bit(bs, j) {
      OnesAt(j % 8);
    }
  }

  lemma {:induction false} OnesAt(k: nat)
    requires k < 8
    ensures Test(0xFF, k)
  {
  }
}
