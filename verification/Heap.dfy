/**
 The first-fit heap with coalescing (osdev/kernel/mm/heap.c): a list of chunks,
 each a header followed by its payload, that covers the pool without gaps.
 */
module Heap {
  import opened Basics

  /** HEAP_TOTAL_SIZE, HEAP_ALIGN and the rounded size of a chunk header (four 32-bit words). */
  const TOTAL := 0x100_0000
  const ALIGN := 8
  const HDR := 16

  datatype Chunk = Chunk(addr: int, size: int, used: bool)

  function RoundUp(n: int): (r: int)
    ensures r % ALIGN == 0 && n <= r < n + ALIGN
  {
    (n + ALIGN - 1) / ALIGN * ALIGN
  }

  // ---- the invariant ----

  /** The chunks lie end to end from a to e. */
  ghost predicate Tiles(cs: seq<Chunk>, a: int, e: int) {
    if cs == [] then a == e
    else cs[0].addr == a && cs[0].size >= 0 && cs[0].size % ALIGN == 0 && Tiles(cs[1..], a + HDR + cs[0].size, e)
  }

  /** No two neighbours are both free. */
  ghost predicate Merged(cs: seq<Chunk>) {
    forall i :: 0 <= i < |cs| - 1 ==> cs[i].used || cs[i + 1].used
  }

  /** Header plus payload of every free chunk. */
  function FreeBytes(cs: seq<Chunk>): int {
    if cs == [] then 0 else (if cs[0].used then 0 else HDR + cs[0].size) + FreeBytes(cs[1..])
  }

  ghost predicate Valid(cs: seq<Chunk>, base: int) {
    base % ALIGN == 0 && Tiles(cs, base, base + TOTAL) && Merged(cs)
  }

  /** kheap_init. */
  function Initial(base: int): seq<Chunk> {
    [Chunk(base, TOTAL - HDR, false)]
  }

  lemma {:induction false} InitialValid(base: int)
    requires base % ALIGN == 0
    ensures Valid(Initial(base), base) && FreeBytes(Initial(base)) == TOTAL
  {
    assert Initial(base)[1..] == [];
  }

  lemma {:induction false} FreeBytesSplit(a: seq<Chunk>, b: seq<Chunk>)
    ensures FreeBytes(a + b) == FreeBytes(a) + FreeBytes(b)
  {
    if a == [] {
      assert a + b == b;
    } else {
      assert (a + b)[1..] == a[1..] + b;
      FreeBytesSplit(a[1..], b);
    }
  }

  /** Chunks keep inside the pool, aligned, in address order. */
  lemma {:induction false} TilesAt(cs: seq<Chunk>, a: int, e: int, i: nat)
    requires Tiles(cs, a, e) && a % ALIGN == 0 && i < |cs|
    ensures a <= cs[i].addr && cs[i].addr % ALIGN == 0 && cs[i].size >= 0 && cs[i].size % ALIGN == 0
    ensures cs[i].addr + HDR + cs[i].size <= e
    ensures i + 1 < |cs| ==> cs[i + 1].addr == cs[i].addr + HDR + cs[i].size
    ensures i > 0 ==> a < cs[i].addr
  {
    if i > 0 {
      TilesAt(cs[1..], a + HDR + cs[0].size, e, i - 1);
    } else {
      TilesEnd(cs[1..], a + HDR + cs[0].size, e);
    }
  }

  lemma {:induction false} TilesEnd(cs: seq<Chunk>, a: int, e: int)
    requires Tiles(cs, a, e)
    ensures a <= e
  {
    if cs != [] { TilesEnd(cs[1..], a + HDR + cs[0].size, e); }
  }

  /** Two chunks do not share a byte. */
  lemma {:induction false} TilesDisjoint(cs: seq<Chunk>, a: int, e: int, i: nat, j: nat)
    requires Tiles(cs, a, e) && a % ALIGN == 0 && i < j < |cs|
    ensures cs[i].addr + HDR + cs[i].size <= cs[j].addr && cs[i].addr < cs[j].addr
  {
    TilesAt(cs, a, e, i);
    TilesAt(cs, a, e, j - 1);
    if i < j - 1 {
      TilesDisjoint(cs, a, e, i, j - 1);
    }
  }

  // ---- allocation ----

  /** The first free chunk of at least n bytes. */
  function FirstFit(cs: seq<Chunk>, n: int, i: nat): (r: nat)
    requires i <= |cs|
    ensures i <= r <= |cs| && (r < |cs| ==> Fits(cs[r], n)) && forall j :: i <= j < r ==> !Fits(cs[j], n)
    decreases |cs| - i
  {
    if i == |cs| || Fits(cs[i], n) then i else FirstFit(cs, n, i + 1)
  }

  predicate Fits(c: Chunk, n: int) {
    c.size >= n && !c.used
  }

  /** Chunk i is cut: its front of n bytes payload is used, the rest is a free chunk. */
  function Cut(cs: seq<Chunk>, i: nat, n: int): seq<Chunk>
    requires i < |cs|
  {
    cs[..i] + [Chunk(cs[i].addr, n, true), Chunk(cs[i].addr + HDR + n, cs[i].size - HDR - n, false)] + cs[i + 1..]
  }

  lemma {:induction false} CutTiles(cs: seq<Chunk>, i: nat, n: int, a: int, e: int)
    requires Tiles(cs, a, e) && i < |cs| && cs[i].size >= HDR + n && n >= 0 && n % ALIGN == 0
    ensures Tiles(Cut(cs, i, n), a, e)
    decreases i
  {
    var q := Cut(cs, i, n);
    if i == 0 {
      assert q[1..] == [q[1]] + cs[1..];
      assert ([q[1]] + cs[1..])[1..] == cs[1..];
      assert Tiles([q[1]] + cs[1..], a + HDR + n, e);
    } else {
      CutTiles(cs[1..], i - 1, n, a + HDR + cs[0].size, e);
      assert q[1..] == Cut(cs[1..], i - 1, n);
    }
  }

  lemma {:induction false} CutBytes(cs: seq<Chunk>, i: nat, n: int)
    requires i < |cs| && !cs[i].used
    ensures FreeBytes(Cut(cs, i, n)) == FreeBytes(cs) - HDR - n
  {
    var p := [Chunk(cs[i].addr, n, true), Chunk(cs[i].addr + HDR + n, cs[i].size - HDR - n, false)];
    assert p[1..] == [p[1]] && p[1..][1..] == [];
    assert cs == cs[..i] + [cs[i]] + cs[i + 1..];
    FreeBytesSplit(cs[..i] + [cs[i]], cs[i + 1..]);
    FreeBytesSplit(cs[..i], [cs[i]]);
    FreeBytesSplit(cs[..i] + p, cs[i + 1..]);
    FreeBytesSplit(cs[..i], p);
  }

  lemma {:induction false} CutMerged(cs: seq<Chunk>, i: nat, n: int)
    requires Merged(cs) && i < |cs| && !cs[i].used
    ensures Merged(Cut(cs, i, n))
  {
    var q := Cut(cs, i, n);
    forall j | 0 <= j < |q| - 1 ensures q[j].used || q[j + 1].used {
      if j + 1 < i {
        assert q[j] == cs[j] && q[j + 1] == cs[j + 1];
      } else if j > i {
        assert q[j + 1] == cs[j] && (j > i + 1 ==> q[j] == cs[j - 1]);
      }
    }
  }

  // ---- release ----

  /** Chunk i takes over the chunk behind it. */
  function Join(cs: seq<Chunk>, i: nat): seq<Chunk>
    requires i + 1 < |cs|
  {
    cs[..i] + [cs[i].(size := cs[i].size + HDR + cs[i + 1].size)] + cs[i + 2..]
  }

  lemma {:induction false} JoinTiles(cs: seq<Chunk>, i: nat, a: int, e: int)
    requires Tiles(cs, a, e) && i + 1 < |cs|
    ensures Tiles(Join(cs, i), a, e)
    decreases i
  {
    var q := Join(cs, i);
    if i == 0 {
      assert Tiles(cs[1..], a + HDR + cs[0].size, e) && cs[1..][1..] == cs[2..];
      assert q[1..] == cs[2..];
    } else {
      JoinTiles(cs[1..], i - 1, a + HDR + cs[0].size, e);
      assert q[1..] == Join(cs[1..], i - 1);
    }
  }

  function SetUsed(cs: seq<Chunk>, i: nat, used: bool): seq<Chunk>
    requires i < |cs|
  {
    cs[i := cs[i].(used := used)]
  }

  lemma {:induction false} SetUsedTiles(cs: seq<Chunk>, i: nat, used: bool, a: int, e: int)
    requires Tiles(cs, a, e) && i < |cs|
    ensures Tiles(SetUsed(cs, i, used), a, e)
    decreases i
  {
    if i == 0 {
      assert SetUsed(cs, 0, used)[1..] == cs[1..];
    } else {
      SetUsedTiles(cs[1..], i - 1, used, a + HDR + cs[0].size, e);
      assert SetUsed(cs, i, used)[1..] == SetUsed(cs[1..], i - 1, used);
    }
  }

  /** heap_free of chunk i: merge with the next, then with the previous, then mark free. */
  function Free(cs: seq<Chunk>, i: nat): seq<Chunk>
    requires i < |cs|
  {
    if !cs[i].used then cs
    else
      var d := if i + 1 < |cs| && !cs[i + 1].used then Join(cs, i) else cs;
      if i > 0 && !d[i - 1].used then SetUsed(Join(d, i - 1), i - 1, false) else SetUsed(d, i, false)
  }

  lemma {:induction false} FreeTiles(cs: seq<Chunk>, i: nat, a: int, e: int)
    requires Tiles(cs, a, e) && i < |cs|
    ensures Tiles(Free(cs, i), a, e)
  {
    if cs[i].used {
      var d := if i + 1 < |cs| && !cs[i + 1].used then Join(cs, i) else cs;
      if d != cs { JoinTiles(cs, i, a, e); }
      if i > 0 && !d[i - 1].used {
        JoinTiles(d, i - 1, a, e);
        SetUsedTiles(Join(d, i - 1), i - 1, false, a, e);
      } else {
        SetUsedTiles(d, i, false, a, e);
      }
    }
  }

  /** Free replaces the chunks l to r - 1, all free but i, by the free chunk f. */
  ghost predicate Replaced(cs: seq<Chunk>, i: nat, l: nat, r: nat, f: Chunk) {
    && i < |cs| && i <= l + 1 && l <= i < r <= |cs| && r <= i + 2 && Free(cs, i) == cs[..l] + [f] + cs[r..]
    && !f.used && (l < i ==> !cs[l].used) && (r == i + 2 ==> !cs[i + 1].used)
    && (l > 0 ==> i == l + 1 || cs[l - 1].used) && (r < |cs| ==> r == i + 2 || cs[r].used)
    && HDR + f.size == FreeBytes(cs[l..i]) + HDR + cs[i].size + FreeBytes(cs[i + 1..r])
  }

  lemma {:induction false} Slices(cs: seq<Chunk>, i: nat, g: Chunk, r: nat)
    requires i < r <= |cs|
    ensures var d := cs[..i] + [g] + cs[r..]; d[i] == g && d[i + 1..] == cs[r..] && d[..i] == cs[..i]
    ensures i > 0 ==> var d := cs[..i] + [g] + cs[r..]; d[i - 1] == cs[i - 1] && d[..i - 1] == cs[..i - 1]
  {
  }

  /** Marking the chunk that took over its neighbour. */
  lemma {:induction false} JoinFreed(d: seq<Chunk>, l: nat)
    requires l + 1 < |d|
    ensures SetUsed(Join(d, l), l, false) == d[..l] + [Chunk(d[l].addr, d[l].size + HDR + d[l + 1].size, false)] + d[l + 2..]
  {
  }

  lemma {:induction false} OneBytes(cs: seq<Chunk>, i: nat)
    requires i < |cs| && !cs[i].used
    ensures FreeBytes(cs[i..i + 1]) == HDR + cs[i].size && FreeBytes(cs[i..i]) == 0
  {
    assert cs[i..i + 1] == [cs[i]] && cs[i..i + 1][1..] == [];
  }

  lemma {:induction false} FreeParts(cs: seq<Chunk>, i: nat) returns (l: nat, r: nat, f: Chunk)
    requires i < |cs| && cs[i].used
    ensures Replaced(cs, i, l, r, f)
  {
    var next := i + 1 < |cs| && !cs[i + 1].used;
    var d := if next then Join(cs, i) else cs;
    r := if next then i + 2 else i + 1;
    var g := d[i];
    assert d == cs[..i] + [g] + cs[r..];
    Slices(cs, i, g, r);
    if next { OneBytes(cs, i + 1); }
    if i > 0 && !cs[i - 1].used {
      l := i - 1;
      f := Chunk(cs[l].addr, cs[l].size + HDR + g.size, false);
      OneBytes(cs, l);
      JoinFreed(d, l);
    } else {
      l := i;
      f := g.(used := false);
      Slices(cs, i, f, r);
      assert SetUsed(d, i, false) == cs[..i] + [f] + cs[r..];
    }
  }

  lemma {:induction false} FreeMerged(cs: seq<Chunk>, i: nat)
    requires Merged(cs) && i < |cs| && cs[i].used
    ensures Merged(Free(cs, i))
  {
    var l, r, f := FreeParts(cs, i);
    var q := cs[..l] + [f] + cs[r..];
    forall j | 0 <= j < |q| - 1 ensures q[j].used || q[j + 1].used {
      if j + 1 < l {
        assert cs[j].used || cs[j + 1].used;
      } else if j + 1 == l {
        assert q[j] == cs[l - 1];
      } else if j == l {
        assert q[j + 1] == cs[r];
      } else {
        assert q[j] == cs[j - l - 1 + r] && q[j + 1] == cs[j - l + r];
      }
    }
  }

  /** The counter grows by header plus payload, whatever is merged. */
  lemma {:induction false} FreeCounts(cs: seq<Chunk>, i: nat)
    requires i < |cs| && cs[i].used
    ensures FreeBytes(Free(cs, i)) == FreeBytes(cs) + HDR + cs[i].size
  {
    var l, r, f := FreeParts(cs, i);
    FreeBytesSplit(cs[..l] + [f], cs[r..]);
    FreeBytesSplit(cs[..l], [f]);
    Three(cs, l, r);
    Three(cs[l..r], i - l, i - l + 1);
    assert cs[l..r][..i - l] == cs[l..i] && cs[l..r][i - l..i - l + 1] == [cs[i]] && cs[l..r][i - l + 1..] == cs[i + 1..r];
  }

  lemma {:induction false} Three(cs: seq<Chunk>, l: nat, r: nat)
    requires l <= r <= |cs|
    ensures FreeBytes(cs) == FreeBytes(cs[..l]) + FreeBytes(cs[l..r]) + FreeBytes(cs[r..])
  {
    assert cs == cs[..r] + cs[r..] && cs[..r] == cs[..l] + cs[l..r];
    FreeBytesSplit(cs[..r], cs[r..]);
    FreeBytesSplit(cs[..l], cs[l..r]);
  }

  // ---- live blocks ----

  /** The chunks in use; a payload lies behind its chunk's header. */
  function Live(cs: seq<Chunk>): set<Chunk> {
    set c | c in cs && c.used
  }

  /** Chunks left and right of a replaced stretch. */
  lemma {:induction false} AroundIn(cs: seq<Chunk>, l: nat, r: nat, f: Chunk, c: Chunk)
    requires l <= r <= |cs| && c != f
    ensures c in cs[..l] + [f] + cs[r..] <==> exists k :: 0 <= k < |cs| && (k < l || r <= k) && cs[k] == c
  {
    var q := cs[..l] + [f] + cs[r..];
    if c in q {
      var j :| 0 <= j < |q| && q[j] == c;
      assert c == cs[if j < l then j else j - l - 1 + r];
    }
    if k :| 0 <= k < |cs| && (k < l || r <= k) && cs[k] == c {
      assert c == q[if k < l then k else k - r + l + 1];
    }
  }

  /** Exactly the freed block stops being live, and every other keeps its place and size. */
  lemma {:induction false} FreeLive(cs: seq<Chunk>, i: nat, a: int, e: int)
    requires Tiles(cs, a, e) && a % ALIGN == 0 && i < |cs| && cs[i].used
    ensures Live(Free(cs, i)) == Live(cs) - {cs[i]}
  {
    var l, r, f := FreeParts(cs, i);
    forall c: Chunk | c.used ensures c in Free(cs, i) <==> c in cs && c != cs[i] {
      AroundIn(cs, l, r, f, c);
      forall k | 0 <= k < |cs| && k != i ensures cs[k] != cs[i] {
        if k < i { TilesDisjoint(cs, a, e, k, i); } else { TilesDisjoint(cs, a, e, i, k); }
      }
    }
  }

  /** A new block was not live before, and the live blocks stay. */
  lemma {:induction false} CutLive(cs: seq<Chunk>, i: nat, n: int)
    requires i < |cs| && !cs[i].used
    ensures Live(Cut(cs, i, n)) == Live(cs) + {Chunk(cs[i].addr, n, true)}
  {
    var q := Cut(cs, i, n);
    forall c ensures c in q && c.used <==> (c in cs && c.used) || c == q[i] {
      if c in q && c.used {
        var j :| 0 <= j < |q| && q[j] == c;
        assert j < i ==> c == cs[j];
        assert j > i + 1 ==> c == cs[j - 1];
      }
      if c in cs && c.used {
        var k :| 0 <= k < |cs| && cs[k] == c;
        assert c == q[if k < i then k else k + 1];
      }
    }
  }

  // ---- freeing everything ----

  lemma {:induction false} MergedPair(cs: seq<Chunk>, i: nat)
    requires Merged(cs) && i + 1 < |cs|
    ensures cs[i].used || cs[i + 1].used
  {
  }

  /** With nothing in use the heap is the single initial chunk. */
  lemma {:induction false} NothingLive(cs: seq<Chunk>, base: int)
    requires Valid(cs, base) && Live(cs) == {}
    ensures cs == Initial(base)
  {
    forall i | 0 <= i < |cs| ensures !cs[i].used {
      var c := cs[i];
      assert c in cs && c !in Live(cs);
    }
    if |cs| >= 2 { MergedPair(cs, 0); }
    assert Tiles(cs[1..], base + HDR + cs[0].size, base + TOTAL) && cs[1..] == [];
    assert cs == [cs[0]];
  }

  /** heap_free of a sequence of blocks, one after the other. */
  ghost function FreeEach(cs: seq<Chunk>, blocks: seq<Chunk>): seq<Chunk>
    decreases |blocks|
  {
    if blocks == [] || blocks[0] !in cs then cs
    else FreeEach(Free(cs, IndexOf(cs, blocks[0])), blocks[1..])
  }

  function IndexOf(cs: seq<Chunk>, c: Chunk): (i: nat)
    requires c in cs
    ensures i < |cs| && cs[i] == c
  {
    if cs[0] == c then 0 else 1 + IndexOf(cs[1..], c)
  }

  /** Freeing all live blocks, in any order, gives the initial heap back. */
  lemma {:induction false} FreeAll(cs: seq<Chunk>, base: int, blocks: seq<Chunk>)
    requires Valid(cs, base) && (forall c :: c in blocks <==> c in Live(cs))
    requires forall i, j :: 0 <= i < j < |blocks| ==> blocks[i] != blocks[j]
    ensures FreeEach(cs, blocks) == Initial(base)
    decreases |blocks|
  {
    if blocks == [] {
      assert forall x :: x in Live(cs) ==> x in blocks;
      NothingLive(cs, base);
    } else {
      var c := blocks[0];
      assert c in blocks;
      var i := IndexOf(cs, c);
      FreeTiles(cs, i, base, base + TOTAL);
      FreeMerged(cs, i);
      FreeLive(cs, i, base, base + TOTAL);
      forall x ensures x in blocks[1..] <==> x in Live(Free(cs, i)) {
        if x in blocks[1..] {
          var k :| 0 <= k < |blocks| - 1 && blocks[1..][k] == x;
          assert blocks[k + 1] == x;
          assert x in blocks;
        }
        if x in blocks && x != c { assert blocks == [c] + blocks[1..]; }
      }
      FreeAll(Free(cs, i), base, blocks[1..]);
    }
  }

  // ---- headers that left the list ----

  const WORD := 0x1_0000_0000

  /** The size and used words of a header. */
  datatype Header = Header(size: int, used: bool)

  /**
   The pool: the chunks on the list, the headers that merging took off the
   list and that still stand in free memory, and avail_size.
   */
  datatype Pool = Pool(chunks: seq<Chunk>, stale: map<int, Header>, avail: int)

  /** The header at k, with the bytes it claims, lies in the payload of chunk c. */
  predicate Inside(c: Chunk, k: int, h: Header) {
    c.addr + HDR <= k && h.size >= 0 && k + HDR + h.size <= c.addr + HDR + c.size
  }

  ghost predicate InFree(cs: seq<Chunk>, k: int, h: Header) {
    exists i :: 0 <= i < |cs| && !cs[i].used && Inside(cs[i], k, h)
  }

  ghost predicate StaleOk(cs: seq<Chunk>, stale: map<int, Header>) {
    forall k :: k in stale ==> InFree(cs, k, stale[k])
  }

  predicate NextFree(cs: seq<Chunk>, i: nat)
    requires i < |cs|
  {
    i + 1 < |cs| && !cs[i + 1].used
  }

  predicate PrevFree(cs: seq<Chunk>, i: nat)
    requires i < |cs|
  {
    i > 0 && !cs[i - 1].used
  }

  /** What the header of chunk i claims after it took over the next chunk. */
  function Grown(cs: seq<Chunk>, i: nat): int
    requires i < |cs|
  {
    if NextFree(cs, i) then cs[i].size + HDR + cs[i + 1].size else cs[i].size
  }

  /** The headers that freeing chunk i takes off the list: that of a merged chunk i is never marked free. */
  function Shed(cs: seq<Chunk>, i: nat): map<int, Header>
    requires i < |cs|
  {
    (if NextFree(cs, i) then map[cs[i + 1].addr := Header(cs[i + 1].size, false)] else map[]) +
    (if PrevFree(cs, i) then map[cs[i].addr := Header(Grown(cs, i), true)] else map[])
  }

  function FindChunk(cs: seq<Chunk>, a: int, i: nat): (r: Option<nat>)
    requires i <= |cs|
    ensures r.Some? ==> i <= r.value < |cs| && cs[r.value].addr == a
    ensures r.None? ==> forall k :: i <= k < |cs| ==> cs[k].addr != a
    decreases |cs| - i
  {
    if i == |cs| then None else if cs[i].addr == a then Some(i) else FindChunk(cs, a, i + 1)
  }

  /** heap_free where the header at a is on the list, off it, or unknown. */
  function FreeAt(p: Pool, a: int): Pool {
    match FindChunk(p.chunks, a, 0)
    case Some(i) =>
      if !p.chunks[i].used then p
      else Pool(Free(p.chunks, i), p.stale + Shed(p.chunks, i), (p.avail + HDR + p.chunks[i].size) % WORD)
    case None =>
      if a !in p.stale || !p.stale[a].used then p
      else p.(stale := p.stale[a := p.stale[a].(used := false)], avail := (p.avail + HDR + p.stale[a].size) % WORD)
  }

  /** The headers a block of n bytes cut off at a does not write over, nor the header behind it. */
  function Spared(stale: map<int, Header>, a: int, n: int): map<int, Header> {
    map k | k in stale && (k + HDR <= a || a + HDR + n + HDR <= k) :: stale[k]
  }

  predicate Byte(a: int, n: int, x: int) {
    a <= x < a + n
  }

  /** Known stays exactly a header none of whose bytes is written. */
  lemma {:induction false} SparedExact(stale: map<int, Header>, a: int, n: nat, k: int)
    requires k in stale
    ensures k in Spared(stale, a, n) <==> forall x :: Byte(k, HDR, x) ==> !Byte(a, HDR + n + HDR, x)
    ensures k in Spared(stale, a, n) ==> Spared(stale, a, n)[k] == stale[k]
  {
    if forall x :: Byte(k, HDR, x) ==> !Byte(a, HDR + n + HDR, x) {
      assert Byte(k, HDR, k) && (k <= a < k + HDR ==> Byte(k, HDR, a));
    }
  }

  function Start(base: int): Pool {
    Pool(Initial(base), map[], TOTAL)
  }

  /** heap_malloc: the pool and the address returned, 0 for failure. */
  function MallocAt(p: Pool, size: int): (Pool, int) {
    var n := RoundUp(size);
    var i := FirstFit(p.chunks, HDR + n, 0);
    if size > TOTAL || HDR + n > p.avail || i == |p.chunks| then (p, 0)
    else (Pool(Cut(p.chunks, i, n), Spared(p.stale, p.chunks[i].addr, n), p.avail - HDR - n), p.chunks[i].addr + HDR)
  }

  lemma {:induction false} FindIsAt(cs: seq<Chunk>, base: int, i: nat)
    requires base % ALIGN == 0 && Tiles(cs, base, base + TOTAL) && i < |cs|
    ensures FindChunk(cs, cs[i].addr, 0) == Some(i)
  {
    var k := FindChunk(cs, cs[i].addr, 0).value;
    if k < i { TilesDisjoint(cs, base, base + TOTAL, k, i); } else if i < k { TilesDisjoint(cs, base, base + TOTAL, i, k); }
  }

  /** A header inside a payload is not on the list. */
  lemma {:induction false} StaleOffList(cs: seq<Chunk>, base: int, k: int, h: Header)
    requires base % ALIGN == 0 && Tiles(cs, base, base + TOTAL) && InFree(cs, k, h)
    ensures FindChunk(cs, k, 0) == None
  {
    var i :| 0 <= i < |cs| && !cs[i].used && Inside(cs[i], k, h);
    forall j | 0 <= j < |cs| ensures cs[j].addr != k {
      if j < i { TilesDisjoint(cs, base, base + TOTAL, j, i); } else if i < j { TilesDisjoint(cs, base, base + TOTAL, i, j); }
    }
  }

  /** Chunks before l and from r on are still there. */
  lemma {:induction false} SpliceAt(cs: seq<Chunk>, l: nat, r: nat, f: Chunk, j: nat)
    requires l < r <= |cs| && j < |cs|
    ensures var q := cs[..l] + [f] + cs[r..];
      l < |q| && q[l] == f && (j < l ==> q[j] == cs[j]) && (j >= r ==> j - r + l + 1 < |q| && q[j - r + l + 1] == cs[j])
  {
  }

  lemma {:induction false} FoundInFree(cs: seq<Chunk>, j: nat, k: int, h: Header)
    requires j < |cs| && !cs[j].used && Inside(cs[j], k, h)
    ensures InFree(cs, k, h)
  {
  }

  /** What lies in a free chunk lies in a free chunk after chunk i is freed. */
  lemma {:induction false} StillInside(cs: seq<Chunk>, base: int, i: nat, k: int, h: Header)
    requires base % ALIGN == 0 && Tiles(cs, base, base + TOTAL) && i < |cs| && cs[i].used && InFree(cs, k, h)
    ensures InFree(Free(cs, i), k, h)
  {
    var l, r, f := FreeParts(cs, i);
    FreedSpan(cs, base, i, l, r, f);
    var j :| 0 <= j < |cs| && !cs[j].used && Inside(cs[j], k, h);
    SpliceAt(cs, l, r, f, j);
    if l <= j < r { SpanCovers(cs, base, l, r, j); }
    FoundInFree(Free(cs, i), if j < l then j else if j < r then l else j - r + l + 1, k, h);
  }

  /** The chunk that replaces l to r - 1 begins where the first and ends where the last of them did. */
  lemma {:induction false} FreedSpan(cs: seq<Chunk>, base: int, i: nat, l: nat, r: nat, f: Chunk)
    requires base % ALIGN == 0 && Tiles(cs, base, base + TOTAL) && Replaced(cs, i, l, r, f) && cs[i].used
    ensures f.addr == cs[l].addr && f.addr + HDR + f.size == cs[r - 1].addr + HDR + cs[r - 1].size
  {
    FreeTiles(cs, i, base, base + TOTAL);
    Border(cs, base, base + TOTAL, l);
    Border(Free(cs, i), base, base + TOTAL, l);
    assert Free(cs, i)[..l] == cs[..l];
    TilesAt(cs, base, base + TOTAL, r - 1);
    if r < |cs| {
      TilesAt(Free(cs, i), base, base + TOTAL, l);
      assert Free(cs, i)[l + 1] == cs[r];
    } else {
      LastEnds(cs, base, base + TOTAL);
      LastEnds(Free(cs, i), base, base + TOTAL);
      assert Free(cs, i)[|Free(cs, i)| - 1] == f;
    }
  }

  /** Where chunk l begins depends on the chunks before it only. */
  lemma {:induction false} Border(cs: seq<Chunk>, a: int, e: int, l: nat)
    requires Tiles(cs, a, e) && l < |cs|
    ensures cs[l].addr == a + Bytes(cs[..l])
    decreases l
  {
    if l > 0 {
      Border(cs[1..], a + HDR + cs[0].size, e, l - 1);
      assert cs[..l][1..] == cs[1..][..l - 1];
    }
  }

  function Bytes(cs: seq<Chunk>): int {
    if cs == [] then 0 else HDR + cs[0].size + Bytes(cs[1..])
  }

  lemma {:induction false} LastEnds(cs: seq<Chunk>, a: int, e: int)
    requires Tiles(cs, a, e) && cs != []
    ensures var c := cs[|cs| - 1]; c.addr + HDR + c.size == e
  {
    if |cs| > 1 {
      LastEnds(cs[1..], a + HDR + cs[0].size, e);
    } else {
      assert cs[1..] == [];
    }
  }

  lemma {:induction false} SpanCovers(cs: seq<Chunk>, base: int, l: nat, r: nat, j: nat)
    requires base % ALIGN == 0 && Tiles(cs, base, base + TOTAL) && l <= j < r <= |cs|
    ensures cs[l].addr <= cs[j].addr && cs[j].addr + HDR + cs[j].size <= cs[r - 1].addr + HDR + cs[r - 1].size
  {
    if l < j { TilesDisjoint(cs, base, base + TOTAL, l, j); }
    if j < r - 1 {
      TilesDisjoint(cs, base, base + TOTAL, j, r - 1);
      TilesAt(cs, base, base + TOTAL, r - 1);
    }
  }

  /** The headers taken off the list lie in the chunk that took them over. */
  lemma {:induction false} ShedInside(cs: seq<Chunk>, base: int, i: nat, k: int)
    requires base % ALIGN == 0 && Tiles(cs, base, base + TOTAL) && i < |cs| && cs[i].used && k in Shed(cs, i)
    ensures InFree(Free(cs, i), k, Shed(cs, i)[k])
  {
    var l, r, f := FreeParts(cs, i);
    FreedSpan(cs, base, i, l, r, f);
    TilesAt(cs, base, base + TOTAL, i);
    TilesAt(cs, base, base + TOTAL, l);
    if i + 1 < |cs| { TilesAt(cs, base, base + TOTAL, i + 1); }
    assert Free(cs, i)[l] == f;
    assert Inside(f, k, Shed(cs, i)[k]);
  }

  lemma {:induction false} FreeKeepsStale(cs: seq<Chunk>, stale: map<int, Header>, base: int, i: nat)
    requires base % ALIGN == 0 && Tiles(cs, base, base + TOTAL) && i < |cs| && cs[i].used && StaleOk(cs, stale)
    ensures StaleOk(Free(cs, i), stale + Shed(cs, i))
  {
    forall k | k in stale + Shed(cs, i) ensures InFree(Free(cs, i), k, (stale + Shed(cs, i))[k]) {
      if k in Shed(cs, i) { ShedInside(cs, base, i, k); } else { StillInside(cs, base, i, k, stale[k]); }
    }
  }

  /** What a new block spares lies behind it, in the chunk that was cut off, or in another free chunk. */
  lemma {:induction false} CutKeepsStale(cs: seq<Chunk>, stale: map<int, Header>, base: int, i: nat, n: int)
    requires base % ALIGN == 0 && Tiles(cs, base, base + TOTAL) && i < |cs| && !cs[i].used && StaleOk(cs, stale) && 0 <= n && HDR + n <= cs[i].size
    ensures StaleOk(Cut(cs, i, n), Spared(stale, cs[i].addr, n))
  {
    var q, kept := Cut(cs, i, n), Spared(stale, cs[i].addr, n);
    forall k | k in kept ensures InFree(q, k, kept[k]) {
      var j :| 0 <= j < |cs| && !cs[j].used && Inside(cs[j], k, stale[k]);
      if j < i {
        assert q[j] == cs[j];
      } else if j > i {
        assert q[j + 1] == cs[j];
      } else {
        assert Inside(q[i + 1], k, kept[k]);
      }
    }
  }

  // ---- freeing twice ----

  /** Where the header of a block is after it was freed: off the list and still used, or on it and free. */
  lemma {:induction false} FreedOnce(p: Pool, base: int, i: nat)
    requires Valid(p.chunks, base) && i < |p.chunks| && p.chunks[i].used
    ensures var a := p.chunks[i].addr; var q := FreeAt(p, a); var k := FindChunk(q.chunks, a, 0);
      if PrevFree(p.chunks, i) then k.None? && a in q.stale && q.stale[a] == Header(Grown(p.chunks, i), true)
      else k.Some? && !q.chunks[k.value].used
  {
    var cs, a := p.chunks, p.chunks[i].addr;
    FindIsAt(cs, base, i);
    FreeTiles(cs, i, base, base + TOTAL);
    if PrevFree(cs, i) {
      assert Shed(cs, i)[a] == Header(Grown(cs, i), true);
      ShedInside(cs, base, i, a);
      StaleOffList(Free(cs, i), base, a, Header(Grown(cs, i), true));
    } else {
      var l, r, f := FreeParts(cs, i);
      FreedSpan(cs, base, i, l, r, f);
      SpliceAt(cs, l, r, f, i);
      FindIsAt(Free(cs, i), base, l);
    }
  }

  /**
   A second free of a block just freed changes nothing exactly when the chunk
   before the block was in use or there was none; otherwise the header that
   merging took off the list still says used, and the block is counted again.
   */
  lemma {:induction false} SecondFree(p: Pool, base: int, i: nat)
    requires Valid(p.chunks, base) && i < |p.chunks| && p.chunks[i].used
    ensures var a := p.chunks[i].addr; var q := FreeAt(p, a);
      && FreeAt(q, a).chunks == q.chunks
      && (FreeAt(q, a) == q <==> !PrevFree(p.chunks, i))
      && (PrevFree(p.chunks, i) ==> FreeAt(q, a).avail == (q.avail + HDR + Grown(p.chunks, i)) % WORD)
  {
    FreedOnce(p, base, i);
  }

  /** Two blocks of 8 bytes are allocated and freed in order, the second one twice. */
  function TwiceFreed(): Pool {
    FreeAt(FreeAt(FreeAt(MallocAt(MallocAt(Start(0x1000), 8).0, 8).0, 0x1000), 0x1018), 0x1018)
  }

  /** The whole pool is one free chunk, yet avail_size counts the second block and all behind it twice. */
  lemma {:induction false} TwiceFreedCount()
    ensures TwiceFreed().chunks == Initial(0x1000) && FreeBytes(TwiceFreed().chunks) == TOTAL
    ensures TwiceFreed().avail == TOTAL + (TOTAL - 24)
  {
    var c0, c1 := Chunk(0x1000, 8, true), Chunk(0x1018, 8, true);
    var rest, tail := Chunk(0x1018, TOTAL - HDR - 24, false), Chunk(0x1030, TOTAL - HDR - 48, false);
    FirstBlock(c0, rest);
    SecondBlock(c0, c1, rest, tail);
    FirstFreed(c0, c1, tail);
    TwiceFreedEnd(Pool([c0.(used := false), c1, tail], map[], TOTAL - 24), c0.(used := false), c1, tail);
    InitialValid(0x1000);
  }

  lemma {:induction false} FirstBlock(c0: Chunk, rest: Chunk)
    requires c0 == Chunk(0x1000, 8, true) && rest == Chunk(0x1018, TOTAL - HDR - 24, false)
    ensures MallocAt(Start(0x1000), 8) == (Pool([c0, rest], map[], TOTAL - 24), 0x1010)
  {
    assert Cut(Initial(0x1000), 0, 8) == [c0, rest];
    assert Spared(map[], 0x1000, 8) == map[];
  }

  lemma {:induction false} SecondBlock(c0: Chunk, c1: Chunk, rest: Chunk, tail: Chunk)
    requires c0 == Chunk(0x1000, 8, true) && c1 == Chunk(0x1018, 8, true)
    requires rest == Chunk(0x1018, TOTAL - HDR - 24, false) && tail == Chunk(0x1030, TOTAL - HDR - 48, false)
    ensures MallocAt(Pool([c0, rest], map[], TOTAL - 24), 8) == (Pool([c0, c1, tail], map[], TOTAL - 48), 0x1028)
  {
    assert FirstFit([c0, rest], HDR + 8, 1) == 1;
    assert Cut([c0, rest], 1, 8) == [c0, c1, tail];
    assert Spared(map[], 0x1018, 8) == map[];
  }

  lemma {:induction false} FirstFreed(c0: Chunk, c1: Chunk, tail: Chunk)
    requires c0 == Chunk(0x1000, 8, true) && c1 == Chunk(0x1018, 8, true) && tail == Chunk(0x1030, TOTAL - HDR - 48, false)
    ensures FreeAt(Pool([c0, c1, tail], map[], TOTAL - 48), 0x1000) == Pool([c0.(used := false), c1, tail], map[], TOTAL - 24)
  {
    assert Free([c0, c1, tail], 0) == [c0.(used := false), c1, tail];
    assert Shed([c0, c1, tail], 0) == map[];
  }

  lemma {:induction false} TwiceFreedEnd(q: Pool, c0: Chunk, c1: Chunk, tail: Chunk)
    requires c0 == Chunk(0x1000, 8, false) && c1 == Chunk(0x1018, 8, true) && tail == Chunk(0x1030, TOTAL - HDR - 48, false)
    requires q == Pool([c0, c1, tail], map[], TOTAL - 24)
    ensures FreeAt(FreeAt(q, 0x1018), 0x1018).chunks == Initial(0x1000)
    ensures FreeAt(FreeAt(q, 0x1018), 0x1018).avail == TOTAL + (TOTAL - 24)
  {
    assert FindChunk([c0, c1, tail], 0x1018, 1) == Some(1);
    assert FindChunk([c0, c1, tail], 0x1018, 0) == Some(1);
    assert Join([c0, c1, tail], 1) == [c0, c1.(size := TOTAL - HDR - 24)];
    assert Free([c0, c1, tail], 1) == Initial(0x1000);
    var r := FreeAt(q, 0x1018);
    assert r.stale[0x1018] == Header(TOTAL - HDR - 24, true);
    assert FindChunk(r.chunks, 0x1018, 0) == None;
  }
}

/** The heap pools of osdev/kernel/mm/heap.c. */
module HeapImpl {
  import opened Heap

  class HeapPool {
    const base: int
    /** The chunk list of head_node. */
    var chunks: seq<Chunk>
    /** Headers that merging took off the list and nothing has written over. */
    var stale: map<int, Header>
    /** avail_size. */
    var avail: int

    ghost function View(): Pool
      reads this
    {
      Pool(chunks, stale, avail)
    }

    ghost predicate Ok()
      reads this
    {
      Valid(chunks, base) && StaleOk(chunks, stale) && 0 <= avail < WORD
    }

    /** avail_size is the number of free bytes. */
    ghost predicate Exact()
      reads this
    {
      avail == FreeBytes(chunks)
    }

    constructor (base: int)
      requires base > 0 && base % ALIGN == 0
      ensures Ok() && Exact() && chunks == Initial(base) && stale == map[] && this.base == base
    {
      this.base := base;
      chunks := [Chunk(base, TOTAL - HDR, false)];
      stale, avail := map[], TOTAL;
      InitialValid(base);
    }

    /**
     heap_malloc: with an exact counter it fails exactly when no free chunk can
     hold the header and payload of the block.
     */
    method Malloc(size: int) returns (ret: int)
      requires Ok() && base > 0 && 0 <= size < WORD
      modifies this
      ensures Ok() && (View(), ret) == MallocAt(old(View()), size) && ret % ALIGN == 0
      ensures old(Exact()) ==> Exact() && (ret == 0 <==> size > TOTAL || forall c :: c in old(chunks) ==> !Fits(c, HDR + RoundUp(size)))
      ensures ret != 0 ==>
        && Chunk(ret - HDR, RoundUp(size), true) !in Live(old(chunks))
        && Live(chunks) == Live(old(chunks)) + {Chunk(ret - HDR, RoundUp(size), true)}
    {
      if size > TOTAL {
        return 0;
      }
      var n := RoundUp(size);
      var req := HDR + n;
      EnoughIsAvailable(chunks, base, base + TOTAL, req);
      if req > avail {
        return 0;
      }
      var at := 0;
      while at < |chunks| && !Fits(chunks[at], req)
        invariant at <= |chunks| && View() == old(View())
        invariant FirstFit(chunks, req, 0) == FirstFit(chunks, req, at)
      {
        at := at + 1;
      }
      if at == |chunks| {
        return 0;
      }
      assert chunks[at] in chunks;
      ret := Place(at, n);
    }

    /** The block at the front of chunk i. */
    method Place(i: nat, n: int) returns (ret: int)
      requires Ok() && base > 0 && i < |chunks| && Fits(chunks[i], HDR + n) && n >= 0 && n % ALIGN == 0 && HDR + n <= avail
      modifies this
      ensures Ok() && ret == old(chunks)[i].addr + HDR && ret > 0 && ret % ALIGN == 0
      ensures View() == Pool(Cut(old(chunks), i, n), Spared(old(stale), old(chunks)[i].addr, n), old(avail) - HDR - n)
      ensures Chunk(ret - HDR, n, true) !in Live(old(chunks)) && Live(chunks) == Live(old(chunks)) + {Chunk(ret - HDR, n, true)}
      ensures old(Exact()) ==> Exact()
    {
      TilesAt(chunks, base, base + TOTAL, i);
      CutTiles(chunks, i, n, base, base + TOTAL);
      CutBytes(chunks, i, n);
      CutMerged(chunks, i, n);
      CutLive(chunks, i, n);
      NotLive(chunks, base, base + TOTAL, i, n);
      CutKeepsStale(chunks, stale, base, i, n);
      ret := chunks[i].addr + HDR;
      stale := Spared(stale, chunks[i].addr, n);
      Carve(i, n);
      avail := avail - (HDR + n);
    }

    /** The block is cut off chunk i; the rest becomes a chunk if its header fits the pool. */
    method Carve(i: nat, n: int)
      requires i < |chunks|
      modifies this`chunks
      ensures chunks == if old(chunks)[i].addr + HDR + n + HDR <= base + TOTAL then Cut(old(chunks), i, n)
                        else old(chunks)[i := Chunk(old(chunks)[i].addr, n, true)]
    {
      var c, req := chunks[i], HDR + n;
      if c.addr + req + HDR <= base + TOTAL {
        chunks := chunks[..i] + [Chunk(c.addr, n, true), Chunk(c.addr + req, c.size - req, false)] + chunks[i + 1..];
      } else {
        chunks := chunks[i := Chunk(c.addr, n, true)];
      }
    }

    /** The chunk whose header is at addr. */
    method ChunkAt(addr: int) returns (i: nat)
      requires exists k :: 0 <= k < |chunks| && chunks[k].addr == addr
      ensures i < |chunks| && chunks[i].addr == addr
    {
      i := 0;
      while chunks[i].addr != addr
        invariant i < |chunks| && exists k :: i <= k < |chunks| && chunks[k].addr == addr
        decreases |chunks| - i
      {
        i := i + 1;
      }
    }

    /** Merge with the next chunk, then with the previous one. */
    method Coalesce(i: nat)
      requires i < |chunks| && chunks[i].used
      modifies this`chunks
      ensures chunks == Free(old(chunks), i)
    {
      if i + 1 < |chunks| && !chunks[i + 1].used {
        chunks := chunks[..i] + [chunks[i].(size := chunks[i].size + HDR + chunks[i + 1].size)] + chunks[i + 2..];
      }
      if i > 0 && !chunks[i - 1].used {
        chunks := chunks[..i - 1] + [chunks[i - 1].(size := chunks[i - 1].size + HDR + chunks[i].size)] + chunks[i + 1..];
        chunks := chunks[i - 1 := chunks[i - 1].(used := false)];
      } else {
        chunks := chunks[i := chunks[i].(used := false)];
      }
    }

    /** A header off the list is its own neighbour, so nothing merges; if it says used its bytes are counted again. */
    method ReleaseStale(a: int)
      requires Ok() && a in stale
      modifies this
      ensures Ok() && View() == FreeAt(old(View()), a)
      ensures old(Exact()) ==> (Exact() <==> !old(stale)[a].used)
    {
      StaleOffList(chunks, base, a, stale[a]);
      InsideBytes(chunks, base, a, stale[a]);
      if !stale[a].used {
        return;
      }
      avail := (avail + HDR + stale[a].size) % WORD;
      stale := stale[a := stale[a].(used := false)];
      forall k | k in stale ensures InFree(chunks, k, stale[k]) {
        assert InFree(chunks, k, old(stale)[k]);
        var i :| 0 <= i < |chunks| && !chunks[i].used && Inside(chunks[i], k, old(stale)[k]);
        assert Inside(chunks[i], k, stale[k]);
      }
    }

    /** A chunk on the list, in use or not. */
    method ReleaseChunk(at: nat)
      requires Ok() && at < |chunks|
      modifies this
      ensures Ok() && View() == FreeAt(old(View()), old(chunks)[at].addr) && chunks == Free(old(chunks), at)
      ensures Live(chunks) == Live(old(chunks)) - {old(chunks)[at]} && (old(Exact()) ==> Exact())
    {
      FindIsAt(chunks, base, at);
      if !chunks[at].used {
        return;
      }
      FreeTiles(chunks, at, base, base + TOTAL);
      FreeMerged(chunks, at);
      FreeCounts(chunks, at);
      FreeLive(chunks, at, base, base + TOTAL);
      FreeKeepsStale(chunks, stale, base, at);
      AllBytes(Free(chunks, at), base, base + TOTAL);
      avail := (avail + HDR + chunks[at].size) % WORD;
      stale := stale + Shed(chunks, at);
      Coalesce(at);
    }

    /**
     heap_free: the pointer is null, or the header before it is on the list or
     still stands where merging left it. The counter stays exact unless that
     header is off the list and says used.
     */
    method Release(pointer: int)
      requires Ok() && (pointer != 0 ==> pointer - HDR in stale || exists k :: 0 <= k < |chunks| && chunks[k].addr == pointer - HDR)
      modifies this
      ensures Ok() && View() == if pointer == 0 then old(View()) else FreeAt(old(View()), pointer - HDR)
      ensures old(Exact()) ==> (Exact() <==> pointer == 0 || pointer - HDR !in old(stale) || !old(stale)[pointer - HDR].used)
      ensures pointer != 0 && pointer - HDR !in old(stale) ==>
        exists i :: 0 <= i < |old(chunks)| && old(chunks)[i].addr == pointer - HDR && Live(chunks) == Live(old(chunks)) - {old(chunks)[i]}
      ensures pointer == 0 || pointer - HDR in old(stale) ==> chunks == old(chunks)
    {
      if pointer == 0 {
        return;
      }
      if pointer - HDR in stale {
        StaleOffList(chunks, base, pointer - HDR, stale[pointer - HDR]);
        ReleaseStale(pointer - HDR);
      } else {
        var at := ChunkAt(pointer - HDR);
        ReleaseChunk(at);
      }
    }
  }

  /** The free bytes are at most the pool. */
  lemma {:induction false} AllBytes(cs: seq<Chunk>, a: int, e: int)
    requires Tiles(cs, a, e)
    ensures 0 <= FreeBytes(cs) <= e - a
  {
    if cs != [] { AllBytes(cs[1..], a + HDR + cs[0].size, e); }
  }

  /** Counting a header's bytes again cannot come back to the same number. */
  lemma {:induction false} InsideBytes(cs: seq<Chunk>, base: int, k: int, h: Header)
    requires Valid(cs, base) && InFree(cs, k, h)
    ensures 0 <= FreeBytes(cs) <= TOTAL && 0 <= h.size <= TOTAL
    ensures (FreeBytes(cs) + HDR + h.size) % WORD != FreeBytes(cs)
  {
    AllBytes(cs, base, base + TOTAL);
    var i :| 0 <= i < |cs| && !cs[i].used && Inside(cs[i], k, h);
    TilesAt(cs, base, base + TOTAL, i);
  }

  /** The test of avail_size never refuses a request that some chunk could hold. */
  lemma {:induction false} EnoughIsAvailable(cs: seq<Chunk>, a: int, e: int, n: int)
    requires Tiles(cs, a, e)
    ensures FreeBytes(cs) >= 0 && forall c :: c in cs && Fits(c, n) ==> n <= FreeBytes(cs)
  {
    if cs != [] {
      EnoughIsAvailable(cs[1..], a + HDR + cs[0].size, e, n);
    }
  }

  lemma {:induction false} NotLive(cs: seq<Chunk>, a: int, e: int, i: nat, n: int)
    requires Tiles(cs, a, e) && a % ALIGN == 0 && i < |cs| && !cs[i].used
    ensures Chunk(cs[i].addr, n, true) !in Live(cs)
  {
    var c := Chunk(cs[i].addr, n, true);
    if c in Live(cs) {
      var k :| 0 <= k < |cs| && cs[k] == c;
      if k < i { TilesDisjoint(cs, a, e, k, i); } else if i < k { TilesDisjoint(cs, a, e, i, k); }
    }
  }
}
