/**
 What rotations, repainting and the two fixup loops of
 osdev/kernel/lib/rbtree.c do to the abstract tree, and that the memory
 writes carry the representation along.
 */
module RbFixup {
  import opened RbModel

  function SetCol(m: Mem, x: Ptr, c: Color): Mem requires x in m { m[x := m[x].(col := c)] }
  function SetParent(m: Mem, x: Ptr, q: Ptr): Mem requires x in m { m[x := m[x].(parent := q)] }
  function SetLeft(m: Mem, x: Ptr, q: Ptr): Mem requires x in m { m[x := m[x].(left := q)] }
  function SetRight(m: Mem, x: Ptr, q: Ptr): Mem requires x in m { m[x := m[x].(right := q)] }

  function RotL(t: Tree): Tree
    requires t.T? && t.r.T?
  {
    T(T(t.l, t.n, t.c, t.r.l), t.r.n, t.r.c, t.r.r)
  }

  function RotR(t: Tree): Tree
    requires t.T? && t.l.T?
  {
    T(t.l.l, t.l.n, t.l.c, T(t.l.r, t.n, t.c, t.r))
  }

  /** Pointers a left rotation at node touches, and the record of node. */
  ghost predicate RotateLeftReady(m: Mem, nil: Ptr, node: Ptr) {
    && node in m && m[node].right in m
    && var q := m[node].parent; var y := m[node].right; var b := m[y].left;
    && b in m && q in m
    && node != nil && y != nil && node != y && b != node && b != y && q != node && q != y
    && (q != nil ==> b != q)
  }

  ghost predicate RotatedLeft(m: Mem, m': Mem, root: Ptr, root': Ptr, nil: Ptr, node: Ptr)
    requires RotateLeftReady(m, nil, node)
  {
    var q := m[node].parent; var y := m[node].right; var b := m[y].left;
    && m'.Keys == m.Keys
    && m'[node] == m[node].(right := b, parent := y)
    && m'[y] == m[y].(left := node, parent := q)
    && (b != nil ==> m'[b] == m[b].(parent := node))
    && (if q == nil then root' == y
        else root' == root && m'[q] == (if m[q].left == node then m[q].(left := y) else m[q].(right := y)))
    && (forall x :: x in m && x != node && x != y && (x != b || b == nil) && (x != q || q == nil) ==> m'[x] == m[x])
  }

  lemma {:induction false} LeftReady(m: Mem, root: Ptr, nil: Ptr, p: Path, t: Tree)
    requires Holds(m, root, nil, p, t)
    requires t.T? && t.r.T?
    ensures RotateLeftReady(m, nil, t.n)
    ensures m[t.n].right == t.r.n
  {
    assert Rep(m, nil, t.r, t.n) && t.r.n in Nodes(t.r);
    assert t.r.l.T? ==> Rep(m, nil, t.r.l, t.r.n) && t.r.l.n in Nodes(t.r.l) && t.r.l.n in Nodes(t.r);
    assert p.Top? || Above(p, nil) in PNodes(p);
  }

  lemma {:induction false} LeftRotated(m: Mem, m': Mem, root: Ptr, root': Ptr, nil: Ptr, p: Path, t: Tree)
    requires Holds(m, root, nil, p, t)
    requires t.T? && t.r.T?
    requires RotateLeftReady(m, nil, t.n) && RotatedLeft(m, m', root, root', nil, t.n)
    ensures Holds(m', root', nil, p, RotL(t))
  {
    var T(a, x, c, T(b, y, d, e)) := t;
    assert Rep(m, nil, t.r, x) && Distinct(t.r) && y in Nodes(t.r);
    assert b.T? ==> b.n in Nodes(b);
    RepFrame(m, m', nil, a, x);
    RepFrame(m, m', nil, e, y);
    Reparent(m, m', nil, b, y, x);
    assert p.L? ==> m[p.n].left == x;
    assert p.R? ==> m[p.n].left != x;
    PRepRelink(m, m', root, root', nil, p, x, y);
  }

  ghost predicate RotateRightReady(m: Mem, nil: Ptr, node: Ptr) {
    && node in m && m[node].left in m
    && var q := m[node].parent; var y := m[node].left; var b := m[y].right;
    && b in m && q in m
    && node != nil && y != nil && node != y && b != node && b != y && q != node && q != y
    && (q != nil ==> b != q)
  }

  ghost predicate RotatedRight(m: Mem, m': Mem, root: Ptr, root': Ptr, nil: Ptr, node: Ptr)
    requires RotateRightReady(m, nil, node)
  {
    var q := m[node].parent; var y := m[node].left; var b := m[y].right;
    && m'.Keys == m.Keys
    && m'[node] == m[node].(left := b, parent := y)
    && m'[y] == m[y].(right := node, parent := q)
    && (b != nil ==> m'[b] == m[b].(parent := node))
    && (if q == nil then root' == y
        else root' == root && m'[q] == (if m[q].left == node then m[q].(left := y) else m[q].(right := y)))
    && (forall x :: x in m && x != node && x != y && (x != b || b == nil) && (x != q || q == nil) ==> m'[x] == m[x])
  }

  lemma {:induction false} RightReady(m: Mem, root: Ptr, nil: Ptr, p: Path, t: Tree)
    requires Holds(m, root, nil, p, t)
    requires t.T? && t.l.T?
    ensures RotateRightReady(m, nil, t.n)
    ensures m[t.n].left == t.l.n
  {
    assert Rep(m, nil, t.l, t.n) && t.l.n in Nodes(t.l);
    assert t.l.r.T? ==> Rep(m, nil, t.l.r, t.l.n) && t.l.r.n in Nodes(t.l.r) && t.l.r.n in Nodes(t.l);
    assert p.Top? || Above(p, nil) in PNodes(p);
  }

  lemma {:induction false} RightRotated(m: Mem, m': Mem, root: Ptr, root': Ptr, nil: Ptr, p: Path, t: Tree)
    requires Holds(m, root, nil, p, t)
    requires t.T? && t.l.T?
    requires RotateRightReady(m, nil, t.n) && RotatedRight(m, m', root, root', nil, t.n)
    ensures Holds(m', root', nil, p, RotR(t))
  {
    var T(T(a, y, d, b), x, c, e) := t;
    assert Rep(m, nil, t.l, x) && Distinct(t.l) && y in Nodes(t.l);
    assert b.T? ==> b.n in Nodes(b);
    RepFrame(m, m', nil, a, y);
    RepFrame(m, m', nil, e, x);
    Reparent(m, m', nil, b, y, x);
    assert p.L? ==> m[p.n].left == x;
    assert p.R? ==> m[p.n].left != x;
    PRepRelink(m, m', root, root', nil, p, x, y);
  }

  lemma {:induction false} RotLInOrder(t: Tree)
    requires t.T? && t.r.T?
    ensures InOrder(RotL(t)) == InOrder(t)
  {
    Regroup(InOrder(t.l), [t.n], InOrder(t.r.l), [t.r.n], InOrder(t.r.r));
  }

  lemma {:induction false} RotRInOrder(t: Tree)
    requires t.T? && t.l.T?
    ensures InOrder(RotR(t)) == InOrder(t)
  {
    Regroup(InOrder(t.l.l), [t.l.n], InOrder(t.l.r), [t.n], InOrder(t.r));
  }

  /** The colour a pointer reads back, the sentinel included. */
  lemma {:induction false} ColorAt(m: Mem, nil: Ptr, t: Tree, up: Ptr)
    requires Rep(m, nil, t, up) && nil in m && m[nil].col == Black
    ensures At(t, nil) in m && (m[At(t, nil)].col == Red <==> IsRed(t))
  {
  }

  /** Painting the root of the subtree in focus. */
  lemma {:induction false} Painted(m: Mem, root: Ptr, nil: Ptr, p: Path, t: Tree, c: Color)
    requires Holds(m, root, nil, p, t) && t.T?
    ensures Holds(SetCol(m, t.n, c), root, nil, p, t.(c := c))
  {
    var m' := SetCol(m, t.n, c);
    RepFrame(m, m', nil, t.l, t.n);
    RepFrame(m, m', nil, t.r, t.n);
    PRepFrame(m, m', root, nil, p, t.n);
  }

  /** Painting the parent of the subtree in focus. */
  lemma {:induction false} PaintedParent(m: Mem, root: Ptr, nil: Ptr, p: Path, t: Tree, c: Color)
    requires Holds(m, root, nil, p, t) && !p.Top?
    ensures p.n in m && Holds(SetCol(m, p.n, c), root, nil, Tint(p, c), t)
  {
    Painted(m, root, nil, p.up, if p.L? then T(t, p.n, p.c, p.r) else T(p.l, p.n, p.c, t), c);
  }

  /** Painting the sibling of the subtree in focus. */
  lemma {:induction false} PaintedSibling(m: Mem, root: Ptr, nil: Ptr, p: Path, t: Tree, c: Color)
    requires Holds(m, root, nil, p, t)
    requires (p.L? && p.r.T?) || (p.R? && p.l.T?)
    ensures p.L? ==> p.r.n in m && Holds(SetCol(m, p.r.n, c), root, nil, p.(r := p.r.(c := c)), t)
    ensures p.R? ==> p.l.n in m && Holds(SetCol(m, p.l.n, c), root, nil, p.(l := p.l.(c := c)), t)
  {
    if p.L? {
      Painted(m, root, nil, R(t, p.n, p.c, p.up), p.r, c);
    } else {
      Painted(m, root, nil, L(p.n, p.c, t, p.up), p.l, c);
    }
  }

  // ---- insertion ----

  /**
   The state of the insertion loop: the subtree t is red and sound by itself,
   and the path above it is sound for a black subtree.
   */
  ghost predicate Inserting(p: Path, t: Tree, k: int, h: int) {
    && IsRed(t) && Bal(t, k) && NoRedRed(t)
    && PBal(p, k, h) && PNoRedRed(p, false) && RootBlack(p)
  }

  /** A red parent has a black grandparent, and the sibling of t is black. */
  lemma {:induction false} RedParent(p: Path, t: Tree, k: int, h: int)
    requires Inserting(p, t, k, h) && !p.Top? && p.c.Red?
    ensures !p.up.Top? && p.up.c.Black?
    ensures p.L? ==> !IsRed(p.r)
    ensures p.R? ==> !IsRed(p.l)
  {
    assert PNoRedRed(p.up, true);
  }

  /** Red uncle: parent and uncle turn black, the grandparent red. */
  lemma {:induction false} Lifted(p: Path, t: Tree, k: int, h: int)
    requires Inserting(p, t, k, h) && !p.Top? && p.c.Red?
    requires !p.up.Top? && IsRed(if p.up.L? then p.up.r else p.up.l)
    ensures var g := LiftedTree(p, t);
      && Inserting(p.up.up, g, k + 1, h)
      && InOrder(Plug(p.up.up, g)) == InOrder(Plug(p, t))
  {
    var g := LiftedTree(p, t);
    assert PBal(p.up, k, h) && PNoRedRed(p.up, true) && RootBlack(p.up);
    PlugCong(p.up.up, Sub(p.up, Sub(p, t)), g);
  }

  function LiftedTree(p: Path, t: Tree): Tree
    requires !p.Top? && !p.up.Top?
    requires (if p.up.L? then p.up.r else p.up.l).T?
  {
    var q := Tint(p, Black);
    var s := Sub(q, t);
    if p.up.L? then T(s, p.up.n, Red, p.up.r.(c := Black)) else T(p.up.l.(c := Black), p.up.n, Red, s)
  }

  lemma {:induction false} LiftedHolds(m: Mem, root: Ptr, nil: Ptr, p: Path, t: Tree)
    requires Holds(m, root, nil, p, t) && !p.Top? && !p.up.Top?
    requires (if p.up.L? then p.up.r else p.up.l).T?
    ensures var uncle := if p.up.L? then p.up.r.n else p.up.l.n;
      && p.n in m && uncle in m && p.up.n in m
      && Holds(SetCol(SetCol(SetCol(m, p.n, Black), uncle, Black), p.up.n, Red), root, nil, p.up.up, LiftedTree(p, t))
  {
    PaintedParent(m, root, nil, p, t, Black);
    var m1, q := SetCol(m, p.n, Black), Tint(p, Black);
    Up(m1, root, nil, q, t);
    PaintedSibling(m1, root, nil, q.up, Sub(q, t), Black);
    var uncle := if p.up.L? then p.up.r.n else p.up.l.n;
    var m2 := SetCol(m1, uncle, Black);
    var u := if p.up.L? then p.up.(r := p.up.r.(c := Black)) else p.up.(l := p.up.l.(c := Black));
    PaintedParent(m2, root, nil, u, Sub(q, t), Red);
    Up(SetCol(m2, p.up.n, Red), root, nil, Tint(u, Red), Sub(q, t));
  }

  /** A red-black tree all the way: t fits the hole of p. */
  ghost predicate Settled(p: Path, t: Tree, k: int, h: int) {
    Bal(t, k) && PBal(p, k, h) && NoRedRed(t) && PNoRedRed(p, IsRed(t))
  }

  /** Black uncle, red node on the outside: the last rotation ends the loop. */
  lemma {:induction false} Straightened(p: Path, t: Tree, k: int, h: int)
    requires Inserting(p, t, k, h) && !p.Top? && p.c.Red? && !p.up.Top?
    requires p.L? == p.up.L? && !IsRed(if p.up.L? then p.up.r else p.up.l)
    ensures Settled(p.up.up, StraightTree(p, t), k + 1, h)
    ensures InOrder(Plug(p.up.up, StraightTree(p, t))) == InOrder(Plug(p, t))
  {
    assert PBal(p.up, k, h) && PNoRedRed(p.up, true) && RootBlack(p.up);
    var s := Sub(p.up, Sub(p, t));
    if p.L? { RotRInOrder(s); } else { RotLInOrder(s); }
    PlugCong(p.up.up, s, StraightTree(p, t));
  }

  function StraightTree(p: Path, t: Tree): Tree
    requires !p.Top? && !p.up.Top? && p.L? == p.up.L?
  {
    if p.L? then T(t, p.n, Black, T(p.r, p.up.n, Red, p.up.r)) else T(T(p.up.l, p.up.n, Red, p.l), p.n, Black, t)
  }

  /** Red node on the inside: one rotation at the parent moves it outside. */
  lemma {:induction false} Swung(p: Path, t: Tree, k: int, h: int)
    requires Inserting(p, t, k, h) && !p.Top? && p.c.Red? && !p.up.Top? && p.L? != p.up.L?
    ensures Inserting(SwungPath(p, t), SwungTree(p, t), k, h)
    ensures InOrder(Plug(SwungPath(p, t), SwungTree(p, t))) == InOrder(Plug(p, t))
  {
    var s := Sub(p, t);
    if p.L? { RotRInOrder(s); } else { RotLInOrder(s); }
    PlugCong(p.up, s, Sub(SwungPath(p, t), SwungTree(p, t)));
  }

  function SwungPath(p: Path, t: Tree): Path
    requires !p.Top? && t.T?
  {
    if p.R? then L(t.n, t.c, t.r, p.up) else R(t.l, t.n, t.c, p.up)
  }

  function SwungTree(p: Path, t: Tree): Tree
    requires !p.Top? && t.T?
  {
    if p.R? then T(p.l, p.n, p.c, t.l) else T(t.r, p.n, p.c, p.r)
  }

  /** A fresh red leaf hung into an empty hole. */
  lemma {:induction false} LeafLinked(m: Mem, m': Mem, root: Ptr, nil: Ptr, p: Path, x: Ptr)
    requires Holds(m, root, nil, p, Leaf) && !p.Top?
    requires x != nil && x != 0 && x !in PNodes(p)
    requires p.n in m && x in m' && m'[x] == RbNode(Red, p.n, nil, nil)
    requires p.n in m' && m'[p.n] == (if p.L? then m[p.n].(left := x) else m[p.n].(right := x))
    requires forall y :: y in m && y != x && y != p.n ==> y in m' && m'[y] == m[y]
    ensures Holds(m', root, nil, p, T(Leaf, x, Red, Leaf))
  {
    assert p.n in PNodes(p);
    PRepRelink(m, m', root, root, nil, p, nil, x);
  }

  /** s' is s with x put in at position k, after what x does not precede and before what it precedes. */
  ghost predicate Inserted(s: seq<Ptr>, x: Ptr, cmp: (Ptr, Ptr) -> int, k: nat, s': seq<Ptr>) {
    && k <= |s| && s' == s[..k] + [x] + s[k..]
    && (k > 0 ==> cmp(x, s[k - 1]) >= 0)
    && (k < |s| ==> cmp(x, s[k]) < 0)
  }

  lemma {:induction false} LeafInserted(p: Path, x: Ptr, cmp: (Ptr, Ptr) -> int)
    requires Before(p) != [] ==> cmp(x, Before(p)[|Before(p)| - 1]) >= 0
    requires After(p) != [] ==> cmp(x, After(p)[0]) < 0
    ensures Inserted(InOrder(Plug(p, Leaf)), x, cmp, |Before(p)|, InOrder(Plug(p, T(Leaf, x, Red, Leaf))))
  {
    PlugInOrder(p, Leaf);
    PlugInOrder(p, T(Leaf, x, Red, Leaf));
  }

  lemma {:induction false} LeafInserting(p: Path, x: Ptr, h: int)
    requires Bal(Plug(p, Leaf), h) && NoRedRed(Plug(p, Leaf)) && !IsRed(Plug(p, Leaf))
    ensures Inserting(p, T(Leaf, x, Red, Leaf), 0, h)
  {
    var k := UnplugRb(p, Leaf, h);
  }

  lemma {:induction false} Blackened(m: Mem, root: Ptr, nil: Ptr, t: Tree, h: int)
    requires Holds(m, root, nil, Top, t) && t.T?
    requires Bal(t, h) && NoRedRed(t)
    ensures root == t.n && root in m && Holds(SetCol(m, root, Black), root, nil, Top, t.(c := Black))
    ensures Bal(t.(c := Black), if IsRed(t) then h + 1 else h) && NoRedRed(t.(c := Black))
  {
    Painted(m, root, nil, Top, t, Black);
  }

  // ---- deletion ----

  /** No red-red edge except perhaps between the root of t and its children. */
  ghost predicate SoundBelow(t: Tree) {
    t.T? ==> NoRedRed(t.l) && NoRedRed(t.r)
  }

  /**
   The state of the deletion loop: the subtree t is one black node short of
   what the path above it expects.
   */
  ghost predicate Deleting(p: Path, t: Tree, k: int, h: int) {
    && Bal(t, k) && SoundBelow(t)
    && PBal(p, k + 1, h) && PNoRedRed(p, false) && RootBlack(p)
  }

  function Brother(p: Path): Tree
    requires !p.Top?
  {
    if p.L? then p.r else p.l
  }

  /** The child of the brother on the far side of the hole. */
  function Outer(p: Path): Tree
    requires !p.Top? && Brother(p).T?
  {
    if p.L? then p.r.r else p.l.l
  }

  function Inner(p: Path): Tree
    requires !p.Top? && Brother(p).T?
  {
    if p.L? then p.r.l else p.l.r
  }

  /** The brother of a subtree that is short is never the sentinel. */
  lemma {:induction false} BrotherExists(p: Path, t: Tree, k: int, h: int)
    requires Deleting(p, t, k, h) && !p.Top?
    ensures Brother(p).T?
  {
    BalNonNegative(t, k);
  }

  /** Case 1, red brother: rotate it above the parent, so that the new brother is black. */
  function RaisedPath(p: Path): Path
    requires !p.Top? && Brother(p).T?
  {
    var b := Brother(p);
    if p.L? then L(p.n, Red, b.l, L(b.n, Black, b.r, p.up)) else R(b.r, p.n, Red, R(b.l, b.n, Black, p.up))
  }

  lemma {:induction false} Raised(p: Path, t: Tree, k: int, h: int)
    requires Deleting(p, t, k, h) && !IsRed(t) && !p.Top? && IsRed(Brother(p))
    ensures Deleting(RaisedPath(p), t, k, h) && !IsRed(Brother(RaisedPath(p)))
    ensures InOrder(Plug(RaisedPath(p), t)) == InOrder(Plug(p, t))
  {
    var q := RaisedPath(p);
    var s := Sub(p, t);
    if p.L? { RotLInOrder(s); } else { RotRInOrder(s); }
    PlugCong(p.up, s, Sub(q.up, Sub(q, t)));
  }

  /** Case 2, black nephews: paint the brother red and move the shortage up. */
  function SunkTree(p: Path, t: Tree): Tree
    requires !p.Top? && Brother(p).T?
  {
    if p.L? then T(t, p.n, p.c, p.r.(c := Red)) else T(p.l.(c := Red), p.n, p.c, t)
  }

  lemma {:induction false} Sunk(p: Path, t: Tree, k: int, h: int)
    requires Deleting(p, t, k, h) && !IsRed(t) && !p.Top?
    requires Brother(p).T? && !IsRed(Brother(p)) && !IsRed(Outer(p)) && !IsRed(Inner(p))
    ensures Deleting(p.up, SunkTree(p, t), if p.c.Black? then k + 1 else k, h)
    ensures InOrder(Plug(p.up, SunkTree(p, t))) == InOrder(Plug(p, t))
  {
    PNoRedRedBlackHole(p.up, p.c.Red?);
    PlugCong(p.up, Sub(p, t), SunkTree(p, t));
  }

  /** Case 3, black outer nephew: rotate the red inner nephew above the brother. */
  function TurnedPath(p: Path): Path
    requires !p.Top? && Brother(p).T? && Inner(p).T?
  {
    var b, i := Brother(p), Inner(p);
    if p.L? then L(p.n, p.c, T(i.l, i.n, Black, T(i.r, b.n, Red, b.r)), p.up)
    else R(T(T(b.l, b.n, Red, i.l), i.n, Black, i.r), p.n, p.c, p.up)
  }

  lemma {:induction false} Turned(p: Path, t: Tree, k: int, h: int)
    requires Deleting(p, t, k, h) && !IsRed(t) && !p.Top?
    requires Brother(p).T? && !IsRed(Brother(p)) && !IsRed(Outer(p)) && IsRed(Inner(p))
    ensures Deleting(TurnedPath(p), t, k, h) && IsRed(Outer(TurnedPath(p))) && !IsRed(Brother(TurnedPath(p)))
    ensures InOrder(Plug(TurnedPath(p), t)) == InOrder(Plug(p, t))
  {
    var q := TurnedPath(p);
    assert Bal(Inner(p), k) && Bal(Outer(p), k) && NoRedRed(Inner(p));
    if p.L? { RotRInOrder(p.r); } else { RotLInOrder(p.l); }
    assert InOrder(Brother(q)) == InOrder(Brother(p));
    assert Bal(Outer(q), k) && Bal(Inner(q), k) && NoRedRed(Outer(q)) && NoRedRed(Inner(q));
    PlugCong(p.up, Sub(p, t), Sub(q, t));
  }

  /** Case 4, red outer nephew: one rotation at the parent makes up the shortage. */
  function FilledTree(p: Path, t: Tree): Tree
    requires !p.Top? && Brother(p).T? && Outer(p).T?
  {
    var b, o := Brother(p), Outer(p).(c := Black);
    if p.L? then T(T(t, p.n, Black, b.l), b.n, p.c, o) else T(o, b.n, p.c, T(b.r, p.n, Black, t))
  }

  lemma {:induction false} Filled(p: Path, t: Tree, k: int, h: int)
    requires Deleting(p, t, k, h) && !IsRed(t) && !p.Top?
    requires Brother(p).T? && !IsRed(Brother(p)) && IsRed(Outer(p))
    ensures Settled(p.up, FilledTree(p, t), if p.c.Black? then k + 2 else k + 1, h)
    ensures InOrder(Plug(p.up, FilledTree(p, t))) == InOrder(Plug(p, t))
  {
    assert Bal(Inner(p), k) && Bal(Outer(p), k) && NoRedRed(Outer(p)) && NoRedRed(Inner(p)) && NoRedRed(t);
    assert NoRedRed(Outer(p).(c := Black));
    var s := Sub(p, t);
    if p.L? { RotLInOrder(s); } else { RotRInOrder(s); }
    PlugCong(p.up, s, FilledTree(p, t));
  }

  // ---- memory side of the deletion cases ----

  lemma {:induction false} DownLeft(m: Mem, root: Ptr, nil: Ptr, p: Path, t: Tree)
    requires Holds(m, root, nil, p, t) && t.T?
    ensures Holds(m, root, nil, L(t.n, t.c, t.r, p), t.l)
  {
  }

  lemma {:induction false} DownRight(m: Mem, root: Ptr, nil: Ptr, p: Path, t: Tree)
    requires Holds(m, root, nil, p, t) && t.T?
    ensures Holds(m, root, nil, R(t.l, t.n, t.c, p), t.r)
  {
  }

  /** The path to the brother of the hole. */
  function Beside(p: Path, t: Tree): Path
    requires !p.Top?
  {
    if p.L? then R(t, p.n, p.c, p.up) else L(p.n, p.c, t, p.up)
  }

  lemma {:induction false} Across(m: Mem, root: Ptr, nil: Ptr, p: Path, t: Tree)
    requires Holds(m, root, nil, p, t) && !p.Top?
    ensures Holds(m, root, nil, Beside(p, t), Brother(p))
  {
  }

  /** p with another brother. */
  function WithBrother(p: Path, b: Tree): Path
    requires !p.Top?
  {
    if p.L? then L(p.n, p.c, b, p.up) else R(b, p.n, p.c, p.up)
  }

  lemma {:induction false} AcrossBack(m: Mem, root: Ptr, nil: Ptr, p: Path, t: Tree, b: Tree)
    requires !p.Top? && Holds(m, root, nil, Beside(p, t), b)
    ensures Holds(m, root, nil, WithBrother(p, b), t)
  {
  }

  /** A brother with its outer (far) or inner child repainted. */
  function PaintOuter(p: Path, c: Color): (b: Tree)
    requires !p.Top? && Brother(p).T? && Outer(p).T?
    ensures b.T?
  {
    var b := Brother(p);
    if p.L? then T(b.l, b.n, b.c, b.r.(c := c)) else T(b.l.(c := c), b.n, b.c, b.r)
  }

  function PaintInner(p: Path, c: Color): (b: Tree)
    requires !p.Top? && Brother(p).T? && Inner(p).T?
    ensures b.T?
  {
    var b := Brother(p);
    if p.L? then T(b.l.(c := c), b.n, b.c, b.r) else T(b.l, b.n, b.c, b.r.(c := c))
  }

  lemma {:induction false} PaintedOuter(m: Mem, root: Ptr, nil: Ptr, p: Path, t: Tree, c: Color)
    requires Holds(m, root, nil, p, t) && !p.Top? && Brother(p).T? && Outer(p).T?
    ensures Outer(p).n in m && Holds(SetCol(m, Outer(p).n, c), root, nil, WithBrother(p, PaintOuter(p, c)), t)
  {
    Across(m, root, nil, p, t);
    assert Rep(m, nil, Outer(p), Brother(p).n);
    var m', q := SetCol(m, Outer(p).n, c), Beside(p, t);
    if p.L? {
      DownRight(m, root, nil, q, p.r);
      Painted(m, root, nil, R(p.r.l, p.r.n, p.r.c, q), p.r.r, c);
      Up(m', root, nil, R(p.r.l, p.r.n, p.r.c, q), p.r.r.(c := c));
    } else {
      DownLeft(m, root, nil, q, p.l);
      Painted(m, root, nil, L(p.l.n, p.l.c, p.l.r, q), p.l.l, c);
      Up(m', root, nil, L(p.l.n, p.l.c, p.l.r, q), p.l.l.(c := c));
    }
    AcrossBack(m', root, nil, p, t, PaintOuter(p, c));
  }

  lemma {:induction false} PaintedInner(m: Mem, root: Ptr, nil: Ptr, p: Path, t: Tree, c: Color)
    requires Holds(m, root, nil, p, t) && !p.Top? && Brother(p).T? && Inner(p).T?
    ensures Inner(p).n in m && Holds(SetCol(m, Inner(p).n, c), root, nil, WithBrother(p, PaintInner(p, c)), t)
  {
    Across(m, root, nil, p, t);
    assert Rep(m, nil, Inner(p), Brother(p).n);
    var m', q := SetCol(m, Inner(p).n, c), Beside(p, t);
    if p.R? {
      DownRight(m, root, nil, q, p.l);
      Painted(m, root, nil, R(p.l.l, p.l.n, p.l.c, q), p.l.r, c);
      Up(m', root, nil, R(p.l.l, p.l.n, p.l.c, q), p.l.r.(c := c));
    } else {
      DownLeft(m, root, nil, q, p.r);
      Painted(m, root, nil, L(p.r.n, p.r.c, p.r.r, q), p.r.l, c);
      Up(m', root, nil, L(p.r.n, p.r.c, p.r.r, q), p.r.l.(c := c));
    }
    AcrossBack(m', root, nil, p, t, PaintInner(p, c));
  }

  /** Painting the brother of the hole. */
  lemma {:induction false} PaintedBrother(m: Mem, root: Ptr, nil: Ptr, p: Path, t: Tree, c: Color)
    requires Holds(m, root, nil, p, t) && !p.Top? && Brother(p).T?
    ensures Brother(p).n in m
    ensures Holds(SetCol(m, Brother(p).n, c), root, nil, WithBrother(p, Brother(p).(c := c)), t)
  {
    Across(m, root, nil, p, t);
    Painted(m, root, nil, Beside(p, t), Brother(p), c);
    AcrossBack(SetCol(m, Brother(p).n, c), root, nil, p, t, Brother(p).(c := c));
  }

  lemma {:induction false} RaisedColors(m: Mem, root: Ptr, nil: Ptr, p: Path, t: Tree)
    requires Holds(m, root, nil, p, t) && !p.Top? && Brother(p).T?
    ensures Brother(p).n in m && p.n in m
    ensures var m' := SetCol(SetCol(m, Brother(p).n, Black), p.n, Red);
      Holds(m', root, nil, Tint(WithBrother(p, Brother(p).(c := Black)), Red), t)
  {
    PaintedBrother(m, root, nil, p, t, Black);
    PaintedParent(SetCol(m, Brother(p).n, Black), root, nil, WithBrother(p, Brother(p).(c := Black)), t, Red);
  }

  /** The brother after the repainting of case 3. */
  function TurnedPaint(p: Path): Tree
    requires !p.Top? && Brother(p).T? && Inner(p).T?
  {
    var b := PaintInner(p, Black);
    b.(c := Red)
  }

  lemma {:induction false} TurnedColors(m: Mem, root: Ptr, nil: Ptr, p: Path, t: Tree)
    requires Holds(m, root, nil, p, t) && !p.Top? && Brother(p).T? && Inner(p).T?
    ensures Inner(p).n in m && Brother(p).n in m
    ensures Holds(SetCol(SetCol(m, Inner(p).n, Black), Brother(p).n, Red), root, nil, WithBrother(p, TurnedPaint(p)), t)
  {
    PaintedInner(m, root, nil, p, t, Black);
    PaintedBrother(SetCol(m, Inner(p).n, Black), root, nil, WithBrother(p, PaintInner(p, Black)), t, Red);
  }

  lemma {:induction false} FilledColors(m: Mem, root: Ptr, nil: Ptr, p: Path, t: Tree)
    requires Holds(m, root, nil, p, t) && !p.Top? && Brother(p).T? && Outer(p).T?
    ensures Brother(p).n in m && p.n in m && Outer(p).n in m
    ensures var m' := SetCol(SetCol(SetCol(m, Brother(p).n, p.c), p.n, Black), Outer(p).n, Black);
      Holds(m', root, nil, Tint(WithBrother(p, PaintOuter(p, Black).(c := p.c)), Black), t)
  {
    PaintedBrother(m, root, nil, p, t, p.c);
    var m1, q1 := SetCol(m, Brother(p).n, p.c), WithBrother(p, Brother(p).(c := p.c));
    PaintedParent(m1, root, nil, q1, t, Black);
    PaintedOuter(SetCol(m1, p.n, Black), root, nil, Tint(q1, Black), t, Black);
  }

  /** Where the deletion loop stops: at the root, or at a red node that turns black. */
  function Patched(t: Tree): Tree {
    if t.T? then t.(c := Black) else Leaf
  }

  lemma {:induction false} DeletionEnds(m: Mem, root: Ptr, nil: Ptr, p: Path, t: Tree, k: int, h: int) returns (whole: Tree, h': int)
    requires Holds(m, root, nil, p, t) && Deleting(p, t, k, h)
    requires At(t, nil) in m && (At(t, nil) == root || m[At(t, nil)].col == Red)
    ensures Holds(SetCol(m, At(t, nil), Black), root, nil, Top, whole)
    ensures Bal(whole, h') && NoRedRed(whole) && !IsRed(whole)
    ensures InOrder(whole) == InOrder(Plug(p, t))
  {
    ColorAt(m, nil, t, Above(p, nil));
    if !p.Top? { RootAbove(m, root, nil, p, At(t, nil)); }
    var m', t' := SetCol(m, At(t, nil), Black), Patched(t);
    if t.T? {
      Painted(m, root, nil, p, t, Black);
    } else {
      assert m' == m;
    }
    whole := Plug(p, t');
    PlugCong(p, t, t');
    ToRoot(m', root, nil, p, t');
    if IsRed(t) {
      h' := h;
      PlugRb(p, t', k + 1, h);
      PlugRootBlack(p, t');
    } else {
      h' := k;
    }
  }

  lemma {:induction false} InsertionEnds(m: Mem, root: Ptr, nil: Ptr, p: Path, t: Tree, k: int, h: int)
    requires Holds(m, root, nil, p, t) && Settled(p, t, k, h) && t.T?
    ensures Holds(m, root, nil, Top, Plug(p, t)) && Plug(p, t).T?
    ensures Bal(Plug(p, t), h) && NoRedRed(Plug(p, t))
  {
    ToRoot(m, root, nil, p, t);
    PlugRb(p, t, k, h);
    PlugInOrder(p, t);
  }

  lemma {:induction false} SettledEnds(m: Mem, root: Ptr, nil: Ptr, p: Path, t: Tree, k: int, h: int)
    requires Holds(m, root, nil, p, t) && Settled(p, t, k, h) && RootBlack(p) && (p.Top? ==> !IsRed(t))
    ensures Holds(m, root, nil, Top, Plug(p, t))
    ensures Bal(Plug(p, t), h) && NoRedRed(Plug(p, t)) && !IsRed(Plug(p, t))
  {
    ToRoot(m, root, nil, p, t);
    PlugRb(p, t, k, h);
    PlugRootBlack(p, t);
  }

  /** A black subtree keeps reading black after case 4. */
  lemma {:induction false} StillBlack(m: Mem, root: Ptr, nil: Ptr, p: Path, t: Tree)
    requires !p.Top? && Brother(p).T? && Outer(p).T? && !IsRed(t)
    requires Holds(m, root, nil, p.up, FilledTree(p, t))
    ensures At(t, nil) in m && m[At(t, nil)].col == Black
  {
    var f := FilledTree(p, t);
    if p.L? {
      assert Rep(m, nil, f.l, f.n);
      ColorAt(m, nil, t, p.n);
    } else {
      assert Rep(m, nil, f.r, f.n);
      ColorAt(m, nil, t, p.n);
    }
  }
}
