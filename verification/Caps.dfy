/** Capabilities (osdev/kernel/capability.c): containment checks and the list of grants of a process. */
module Caps {
  import opened Errno

  datatype Cap =
    | Irq(line: int)
    | MapMem(base: int, size: int, flags: bv32)
    | IoPort(base: int, count: int)
    | Ipc(v: int)
    | KrnlProc(v: int)
    | KrnlThread(v: int)

  /** cap_mem_check: the subtractions keep the sums from overflowing. */
  predicate MemAllows(d: Cap, c: Cap)
    requires d.MapMem? && c.MapMem?
  {
    c.size != 0 && d.flags & c.flags == c.flags && Covered(d.base, d.size, c.base, c.size)
  }

  predicate IoAllows(d: Cap, c: Cap)
    requires d.IoPort? && c.IoPort?
  {
    c.count != 0 && Covered(d.base, d.count, c.base, c.count)
  }

  /** The check functions: whether grant d answers request c. */
  predicate Allows(d: Cap, c: Cap) {
    match (d, c)
    case (Irq(x), Irq(y)) => x == y
    case (MapMem(_, _, _), MapMem(_, _, _)) => MemAllows(d, c)
    case (IoPort(_, _), IoPort(_, _)) => IoAllows(d, c)
    case (Ipc(v), Ipc(_)) => v != 0
    case (KrnlProc(v), KrnlProc(_)) => v != 0
    case (KrnlThread(v), KrnlThread(_)) => v != 0
    case _ => false
  }

  /** The grant_check functions; the sum wraps in 32 bits. */
  predicate Grantable(c: Cap) {
    match c
    case Irq(n) => n <= 255
    case MapMem(b, s, _) => s != 0 && (b + s) % 0x1_0000_0000 >= b
    case IoPort(b, n) => n != 0 && (b + n) % 0x1_0000_0000 >= b
    case Ipc(v) => v == 1
    case KrnlProc(v) => v == 1
    case KrnlThread(v) => v == 1
  }

  predicate Within(base: int, size: int, a: int) {
    base <= a < base + size
  }

  /** The range part of the check. */
  predicate Covered(base: int, size: int, b: int, s: int) {
    base <= b && s <= size && b - base <= size - s
  }

  /** A range check by subtraction is containment of the two address ranges, whatever their sums. */
  lemma {:induction false} CoveredExact(base: int, size: int, b: int, s: int)
    requires s > 0
    ensures Covered(base, size, b, s) <==> forall a :: Within(b, s, a) ==> Within(base, size, a)
  {
    if forall a :: Within(b, s, a) ==> Within(base, size, a) {
      assert Within(b, s, b) && Within(b, s, b + s - 1);
    }
  }

  predicate Holds(caps: seq<Cap>, c: Cap) {
    exists i :: 0 <= i < |caps| && Allows(caps[i], c)
  }

  /** Grant d has all ports of c. */
  ghost predicate GrantsPorts(d: Cap, c: Cap)
    requires c.IoPort?
  {
    d.IoPort? && forall a :: Within(c.base, c.count, a) ==> Within(d.base, d.count, a)
  }

  lemma {:induction false} IoExact(d: Cap, c: Cap)
    requires c.IoPort? && c.count > 0
    ensures Allows(d, c) <==> GrantsPorts(d, c)
  {
    if d.IoPort? { CoveredExact(d.base, d.count, c.base, c.count); }
  }

  /** Grant d has all addresses of c and all its flags. */
  ghost predicate Grants(d: Cap, c: Cap)
    requires c.MapMem?
  {
    d.MapMem? && d.flags & c.flags == c.flags && forall a :: Within(c.base, c.size, a) ==> Within(d.base, d.size, a)
  }

  lemma {:induction false} MemExact(d: Cap, c: Cap)
    requires c.MapMem? && c.size > 0
    ensures Allows(d, c) <==> Grants(d, c)
  {
    if d.MapMem? { CoveredExact(d.base, d.size, c.base, c.size); }
  }

  /**
   What cap_check answers: a line is allowed if the very line was granted, a
   memory or port range if one grant has all of it and all its flags, and a
   permission if any non-zero one of its kind was granted.
   */
  lemma {:induction false} HoldsExact(caps: seq<Cap>, c: Cap)
    requires (c.MapMem? ==> c.size >= 0) && (c.IoPort? ==> c.count >= 0)
    ensures c.Irq? ==> (Holds(caps, c) <==> c in caps)
    ensures c.MapMem? ==> (Holds(caps, c) <==> c.size > 0 && exists i :: 0 <= i < |caps| && Grants(caps[i], c))
    ensures c.IoPort? ==> (Holds(caps, c) <==> c.count > 0 && exists i :: 0 <= i < |caps| && GrantsPorts(caps[i], c))
    ensures c.Ipc? ==> (Holds(caps, c) <==> exists i :: 0 <= i < |caps| && caps[i].Ipc? && caps[i].v != 0)
    ensures c.KrnlProc? ==> (Holds(caps, c) <==> exists i :: 0 <= i < |caps| && caps[i].KrnlProc? && caps[i].v != 0)
    ensures c.KrnlThread? ==> (Holds(caps, c) <==> exists i :: 0 <= i < |caps| && caps[i].KrnlThread? && caps[i].v != 0)
  {
    if c.MapMem? && c.size > 0 {
      forall i | 0 <= i < |caps| ensures Allows(caps[i], c) <==> Grants(caps[i], c) { MemExact(caps[i], c); }
    }
    if c.IoPort? && c.count > 0 {
      forall i | 0 <= i < |caps| ensures Allows(caps[i], c) <==> GrantsPorts(caps[i], c) { IoExact(caps[i], c); }
    }
  }

  function Grant(caps: seq<Cap>, c: Cap, mem: bool): (seq<Cap>, int) {
    if !Grantable(c) then (caps, E_INVAL)
    else if c in caps then (caps, E_EXISTS)
    else if !mem then (caps, E_NOMEM)
    else ([c] + caps, 0)
  }

  /** What may be granted: a line up to 255, a range that is not empty and ends below 4 GB, the permission 1. */
  predicate Sound(c: Cap) {
    match c
    case Irq(n) => n < 256
    case MapMem(b, s, _) => 0 < s && b + s < 0x1_0000_0000
    case IoPort(b, n) => 0 < n && b + n < 0x1_0000_0000
    case Ipc(v) => v == 1
    case KrnlProc(v) => v == 1
    case KrnlThread(v) => v == 1
  }

  /** Bases and sizes are 32-bit words. */
  predicate Words(c: Cap) {
    match c
    case MapMem(b, s, _) => 0 <= b < 0x1_0000_0000 && 0 <= s < 0x1_0000_0000
    case IoPort(b, n) => 0 <= b < 0x1_0000_0000 && 0 <= n < 0x1_0000_0000
    case _ => true
  }

  /** A grant succeeds exactly if it is sound, new and can be allocated, and then is the newest; otherwise nothing changes. */
  lemma {:induction false} GrantExact(caps: seq<Cap>, c: Cap, mem: bool)
    requires Words(c)
    ensures var (caps', ret) := Grant(caps, c, mem);
      && (ret == 0 <==> Sound(c) && c !in caps && mem)
      && (ret == 0 ==> caps' == [c] + caps) && (ret != 0 ==> caps' == caps)
      && (ret == E_INVAL <==> !Sound(c))
  {
    match c
    case MapMem(b, s, _) => if b + s >= 0x1_0000_0000 { assert (b + s) % 0x1_0000_0000 == b + s - 0x1_0000_0000; }
    case IoPort(b, n) => if b + n >= 0x1_0000_0000 { assert (b + n) % 0x1_0000_0000 == b + n - 0x1_0000_0000; }
    case _ =>
  }

  /** All equal grants go. */
  function Revoke(caps: seq<Cap>, c: Cap): (r: seq<Cap>)
    ensures forall x :: x in r <==> x in caps && x != c
    ensures c !in caps ==> r == caps
  {
    if caps == [] then []
    else if caps[0] == c then Revoke(caps[1..], c)
    else [caps[0]] + Revoke(caps[1..], c)
  }

  /** A grant that succeeded is undone exactly by its revocation: nothing older goes with it. */
  lemma {:induction false} GrantRevoke(caps: seq<Cap>, c: Cap, mem: bool)
    requires Grant(caps, c, mem).1 == 0
    ensures c !in caps && Revoke(Grant(caps, c, mem).0, c) == caps
  {
    assert ([c] + caps)[1..] == caps;
  }

  lemma {:induction false} RevokeStep(a: seq<Cap>, rest: seq<Cap>, c: Cap)
    requires rest != []
    ensures a + Revoke(rest, c) == (if rest[0] == c then a else a + [rest[0]]) + Revoke(rest[1..], c)
  {
  }

  lemma {:induction false} Cut(s: seq<Cap>, i: nat)
    requires i < |s|
    ensures var r := s[..i] + s[i + 1..]; r[..i] == s[..i] && r[i..] == s[i + 1..]
  {
  }

  class CapTable {
    /** The list capabilities, its head first. */
    var caps: seq<Cap>

    constructor ()
      ensures caps == []
    {
      caps := [];
    }

    method Check(c: Cap) returns (ret: int)
      ensures ret == if Holds(caps, c) then 0 else E_PERM
    {
      var i := 0;
      while i < |caps|
        invariant i <= |caps| && forall j :: 0 <= j < i ==> !Allows(caps[j], c)
      {
        if Allows(caps[i], c) {
          return 0;
        }
        i := i + 1;
      }
      return E_PERM;
    }

    method CapGrant(c: Cap, mem: bool) returns (ret: int)
      modifies this
      ensures (caps, ret) == Grant(old(caps), c, mem)
    {
      if !Grantable(c) {
        return E_INVAL;
      }
      var i := 0;
      while i < |caps|
        invariant i <= |caps| && caps == old(caps) && forall j :: 0 <= j < i ==> caps[j] != c
      {
        if caps[i] == c {
          return E_EXISTS;
        }
        i := i + 1;
      }
      if !mem {
        return E_NOMEM;
      }
      caps := [c] + caps;
      return 0;
    }

    method CapRevoke(c: Cap)
      modifies this
      ensures caps == Revoke(old(caps), c)
    {
      var i := 0;
      ghost var rest := caps;
      while i < |caps|
        invariant i <= |caps| && caps[i..] == rest && caps[..i] + Revoke(rest, c) == Revoke(old(caps), c)
        decreases |rest|
      {
        assert rest[0] == caps[i] && rest[1..] == caps[i + 1..];
        RevokeStep(caps[..i], rest, c);
        if caps[i] == c {
          Cut(caps, i);
          caps := caps[..i] + caps[i + 1..];
        } else {
          assert caps[..i + 1] == caps[..i] + [caps[i]];
          i := i + 1;
        }
        rest := rest[1..];
      }
      assert caps[..i] + [] == caps;
    }

    /** cap_inherit_all: the parent's grants, all that could be allocated, in front of the child's and last first. */
    method InheritAll(parent: CapTable, room: nat)
      requires parent != this
      modifies this
      ensures var n := Min(room, |parent.caps|);
        |caps| == n + |old(caps)| && caps[n..] == old(caps) && forall i :: 0 <= i < n ==> caps[i] == parent.caps[n - 1 - i]
    {
      var i := 0;
      while i < |parent.caps| && i < room
        invariant i <= Min(room, |parent.caps|) && |caps| == i + |old(caps)| && caps[i..] == old(caps)
        invariant forall j :: 0 <= j < i ==> caps[j] == parent.caps[i - 1 - j]
      {
        caps := [parent.caps[i]] + caps;
        i := i + 1;
      }
    }
  }

  function Min(a: nat, b: nat): nat {
    if a < b then a else b
  }
}
