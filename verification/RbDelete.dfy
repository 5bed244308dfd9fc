/**
 The unlinking half of rbtree_delete (osdev/kernel/lib/rbtree.c): splicing out
 a node with at most one child, and letting the in-order successor take the
 place of a node with two children.
 */
module RbDelete {
  import opened RbModel
  import opened RbFixup

  /** q continued by p. */
  function Cat(q: Path, p: Path): Path
    decreases q
  {
    match q
    case Top => p
    case L(n, c, r, up) => L(n, c, r, Cat(up, p))
    case R(l, n, c, up) => R(l, n, c, Cat(up, p))
  }

  lemma {:induction false} UpAlong(m: Mem, root: Ptr, nil: Ptr, q: Path, p: Path, t: Tree)
    requires Holds(m, root, nil, Cat(q, p), t)
    ensures Holds(m, root, nil, p, Plug(q, t))
    decreases q
  {
    if !q.Top? {
      Up(m, root, nil, Cat(q, p), t);
      UpAlong(m, root, nil, q.up, p, Sub(q, t));
    }
  }

  lemma {:induction false} DownAlong(m: Mem, root: Ptr, nil: Ptr, q: Path, p: Path, t: Tree)
    requires Holds(m, root, nil, p, Plug(q, t))
    ensures Holds(m, root, nil, Cat(q, p), t)
    decreases q
  {
    if !q.Top? {
      DownAlong(m, root, nil, q.up, p, Sub(q, t));
      if q.L? {
        DownLeft(m, root, nil, Cat(q.up, p), Sub(q, t));
      } else {
        DownRight(m, root, nil, Cat(q.up, p), Sub(q, t));
      }
    }
  }

  lemma {:induction false} PlugCat(q: Path, p: Path, t: Tree)
    ensures Plug(Cat(q, p), t) == Plug(p, Plug(q, t))
    decreases q
  {
    if !q.Top? { PlugCat(q.up, p, Sub(q, t)); }
  }

  lemma {:induction false} PNodesCat(q: Path, p: Path)
    ensures PNodes(Cat(q, p)) == PNodes(q) + PNodes(p)
    decreases q
  {
    if !q.Top? { PNodesCat(q.up, p); }
  }

  lemma {:induction false} PlugNode(q: Path, t: Tree)
    requires !q.Top? || t.T?
    ensures Plug(q, t).T?
    decreases q
  {
    if !q.Top? { PlugNode(q.up, Sub(q, t)); }
  }

  ghost predicate AllLeft(q: Path) {
    q.Top? || (q.L? && AllLeft(q.up))
  }

  lemma {:induction false} AllLeftBefore(q: Path, p: Path)
    requires AllLeft(q)
    ensures Before(Cat(q, p)) == Before(p)
  {
    if !q.Top? { AllLeftBefore(q.up, p); }
  }

  /** Neither heights, colours nor what follows depend on which node stands at a place. */
  lemma {:induction false} OtherName(q: Path, l: Tree, a: Ptr, b: Ptr, c: Color, p: Path, k: int, h: int, red: bool)
    ensures PBal(Cat(q, R(l, a, c, p)), k, h) == PBal(Cat(q, R(l, b, c, p)), k, h)
    ensures PNoRedRed(Cat(q, R(l, a, c, p)), red) == PNoRedRed(Cat(q, R(l, b, c, p)), red)
    ensures RootBlack(Cat(q, R(l, a, c, p))) == RootBlack(Cat(q, R(l, b, c, p)))
    ensures After(Cat(q, R(l, a, c, p))) == After(Cat(q, R(l, b, c, p)))
    decreases q
  {
    if !q.Top? {
      OtherName(q.up, l, a, b, c, p, if q.c.Black? then k + 1 else k, h, q.c.Red?);
    }
  }

  /** The parent of the hole is the node where q ends only if q is empty. */
  lemma {:induction false} SuccessorNear(m: Mem, root: Ptr, nil: Ptr, q: Path, p: Path, s: Tree)
    requires Holds(m, root, nil, Cat(q, p), s) && !p.Top? && s.T?
    ensures m[s.n].parent == p.n <==> q.Top?
  {
    if !q.Top? {
      PNodesCat(q.up, p);
      assert p.n in PNodes(p);
    }
  }

  lemma {:induction false} CatNotTop(q: Path, p: Path)
    requires !p.Top?
    ensures !Cat(q, p).Top?
  {
  }

  /** s' is s without its k-th element x. */
  ghost predicate Removed(s: seq<Ptr>, x: Ptr, k: nat, s': seq<Ptr>) {
    k < |s| && s[k] == x && s' == s[..k] + s[k + 1..]
  }

  // ---- locating a node ----

  lemma {:induction false} Locate(t: Tree, x: Ptr) returns (p: Path, s: Tree)
    requires x in Nodes(t)
    ensures Plug(p, s) == t && s.T? && s.n == x
  {
    if t.n == x {
      p, s := Top, t;
    } else if x in Nodes(t.l) {
      p, s := Locate(t.l, x);
      PlugCat(p, L(t.n, t.c, t.r, Top), s);
      p := Cat(p, L(t.n, t.c, t.r, Top));
    } else {
      p, s := Locate(t.r, x);
      PlugCat(p, R(t.l, t.n, t.c, Top), s);
      p := Cat(p, R(t.l, t.n, t.c, Top));
    }
  }

  /** The subtree of the i-th node in order. */
  lemma {:induction false} Position(t: Tree, i: nat) returns (p: Path, s: Tree)
    requires i < |InOrder(t)|
    ensures Plug(p, s) == t && s.T? && s.n == InOrder(t)[i] && i == |Before(p)| + |InOrder(s.l)|
  {
    var a := |InOrder(t.l)|;
    if i == a {
      p, s := Top, t;
    } else if i < a {
      p, s := Position(t.l, i);
      var up := L(t.n, t.c, t.r, Top);
      PlugCat(p, up, s);
      BeforeCat(p, up);
      p := Cat(p, up);
    } else {
      p, s := Position(t.r, i - a - 1);
      var up := R(t.l, t.n, t.c, Top);
      PlugCat(p, up, s);
      BeforeCat(p, up);
      p := Cat(p, up);
    }
  }

  lemma {:induction false} BeforeCat(q: Path, p: Path)
    ensures Before(Cat(q, p)) == Before(p) + Before(q)
    decreases q
  {
    if !q.Top? {
      BeforeCat(q.up, p);
      if q.R? {
        assert Before(p) + Before(q.up) + InOrder(q.l) + [q.n] == Before(p) + (Before(q.up) + InOrder(q.l) + [q.n]);
      }
    }
  }

  // ---- splicing out ----

  /** What rbtree_replace_node writes. */
  ghost predicate Replaced(m: Mem, m': Mem, root: Ptr, root': Ptr, nil: Ptr, o: Ptr, x: Ptr)
    requires o in m && x in m
  {
    var q := m[o].parent;
    && m'.Keys == m.Keys
    && (if q == nil then root' == x && m'[x] == m[x].(parent := q)
        else q in m && root' == root
             && m'[q] == (if m[q].left == o then m[q].(left := x) else m[q].(right := x))
             && m'[x] == m[x].(parent := q))
    && (forall y :: y in m && y != x && (y != q || q == nil) ==> m'[y] == m[y])
  }

  lemma Spliced(m: Mem, m': Mem, root: Ptr, root': Ptr, nil: Ptr, p: Path, t: Tree, s: Tree)
    requires Holds(m, root, nil, p, t) && t.T?
    requires (t.l == Leaf && s == t.r) || (t.r == Leaf && s == t.l)
    requires At(s, nil) in m && Replaced(m, m', root, root', nil, t.n, At(s, nil))
    ensures Holds(m', root', nil, p, s) && m'[At(s, nil)].parent == Above(p, nil)
  {
    assert p.Top? || p.n in PNodes(p);
    assert s.T? ==> s.n in Nodes(s);
    Reparent(m, m', nil, s, t.n, Above(p, nil));
    PRepRelink(m, m', root, root', nil, p, t.n, At(s, nil));
  }

  lemma RemovedMiddle(u: seq<Ptr>, v: seq<Ptr>, a: seq<Ptr>, b: seq<Ptr>, x: Ptr, d: seq<Ptr>, e: seq<Ptr>)
    requires u == a + (b + [x] + d) + e && v == a + (b + d) + e
    ensures Removed(u, x, |a| + |b|, v)
  {
  }

  lemma {:induction false} ChildInOrder(t: Tree, s: Tree)
    requires t.T? && ((t.l == Leaf && s == t.r) || (t.r == Leaf && s == t.l))
    ensures InOrder(s) == InOrder(t.l) + InOrder(t.r)
  {
  }

  lemma {:induction false} SplicedOrder(p: Path, t: Tree, s: Tree)
    requires t.T? && ((t.l == Leaf && s == t.r) || (t.r == Leaf && s == t.l))
    ensures Removed(InOrder(Plug(p, t)), t.n, |Before(p)| + |InOrder(t.l)|, InOrder(Plug(p, s)))
  {
    PlugInOrder(p, t);
    PlugInOrder(p, s);
    ChildInOrder(t, s);
    RemovedMiddle(InOrder(Plug(p, t)), InOrder(Plug(p, s)), Before(p), InOrder(t.l), t.n, InOrder(t.r), After(p));
  }

  lemma SplicedRb(p: Path, t: Tree, s: Tree, h: int) returns (k: int)
    requires t.T? && ((t.l == Leaf && s == t.r) || (t.r == Leaf && s == t.l))
    requires Bal(Plug(p, t), h) && NoRedRed(Plug(p, t)) && !IsRed(Plug(p, t))
    ensures t.c.Black? ==> Deleting(p, s, k, h)
    ensures t.c.Red? ==> Settled(p, s, k, h) && RootBlack(p) && !p.Top?
  {
    k := UnplugRb(p, t, h);
    PNoRedRedBlackHole(p, IsRed(t));
    k := if t.c.Black? then k - 1 else k;
  }

  // ---- the successor takes over ----

  /** What the end of rbtree_delete writes when y takes the place of node. */
  ghost predicate TookOver(m: Mem, m': Mem, root: Ptr, root': Ptr, nil: Ptr, node: Ptr, y: Ptr)
    requires node in m && y in m && m[node].left in m
  {
    var q, a := m[node].parent, m[node].left;
    && m'.Keys == m.Keys
    && m'[y] == m[y].(col := m[node].col, parent := q, left := a)
    && m'[a] == m[a].(parent := y)
    && (if q == nil then root' == y
        else q in m && root' == root && m'[q] == (if m[q].left == node then m[q].(left := y) else m[q].(right := y)))
    && (forall x :: x in m && x != y && x != a && (x != q || q == nil) ==> m'[x] == m[x])
  }

  /** The parts of a tree whose root is about to be exchanged for y. */
  ghost predicate Parts(m: Mem, root: Ptr, nil: Ptr, p: Path, l: Tree, node: Ptr, r: Tree, z: Ptr, y: Ptr) {
    && nil !in Nodes(l) && nil !in Nodes(r) && nil !in PNodes(p) && 0 !in Nodes(l) && 0 !in Nodes(r) && 0 !in PNodes(p)
    && y !in Nodes(l) && y !in Nodes(r) && y !in PNodes(p) && y != nil && y != 0
    && Nodes(l) !! Nodes(r) && Nodes(l) !! PNodes(p) && Nodes(r) !! PNodes(p)
    && Distinct(l) && Distinct(r) && PDistinct(p)
    && Rep(m, nil, l, node) && Rep(m, nil, r, z) && PRep(m, root, nil, p, node)
  }

  /** y stands over l and r, below p; nothing else in them changed. */
  ghost predicate Seated(m: Mem, m': Mem, root: Ptr, root': Ptr, nil: Ptr, p: Path, l: Tree, c: Color, r: Tree, y: Ptr) {
    && m'.Keys == m.Keys && nil in m && m'[nil].col == Black
    && y in m && m'[y] == RbNode(c, Above(p, nil), At(l, nil), At(r, nil))
    && (l.T? ==> l.n in m && m'[l.n] == m[l.n].(parent := y))
    && (r.T? ==> r.n in m && m'[r.n] == m[r.n].(parent := y))
    && (if p.Top? then root' == y
        else root' == root && p.n in m && m'[p.n] == (if p.L? then m[p.n].(left := y) else m[p.n].(right := y)))
    && (forall x :: x in m && x != y && x != nil && x != At(l, nil) && x != At(r, nil) && x != Above(p, nil) ==> m'[x] == m[x])
  }

  /** Successor is the right child itself. */
  lemma PartsNear(m: Mem, root: Ptr, nil: Ptr, p: Path, t: Tree)
    requires Holds(m, root, nil, p, t) && t.T? && t.r.T?
    ensures Parts(m, root, nil, p, t.l, t.n, t.r.r, t.r.n, t.r.n)
  {
    assert Rep(m, nil, t.r, t.n) && Distinct(t.r) && t.r.n in Nodes(t.r);
  }

  /** Successor further down, already spliced out of the right subtree. */
  lemma PartsFar(m: Mem, root: Ptr, nil: Ptr, p: Path, t: Tree, y: Ptr)
    requires Holds(m, root, nil, p, t) && t.T?
    requires y !in Nodes(t) && y !in PNodes(p) && y != nil && y != 0
    ensures Parts(m, root, nil, p, t.l, t.n, t.r, t.n, y)
  {
  }

  lemma Renamed(m: Mem, m': Mem, root: Ptr, root': Ptr, nil: Ptr, p: Path, l: Tree, node: Ptr, c: Color, r: Tree, z: Ptr, y: Ptr)
    requires Parts(m, root, nil, p, l, node, r, z, y)
    requires Seated(m, m', root, root', nil, p, l, c, r, y)
    ensures Holds(m', root', nil, p, T(l, y, c, r))
  {
    assert p.Top? || p.n in PNodes(p);
    assert l.T? ==> l.n in Nodes(l);
    assert r.T? ==> r.n in Nodes(r);
    Reparent(m, m', nil, l, node, y);
    Reparent(m, m', nil, r, z, y);
    PRepRelink(m, m', root, root', nil, p, node, y);
  }

  // ---- the successor in the abstract tree ----

  lemma {:induction false} SuccessorSeq(u: seq<Ptr>, v: seq<Ptr>, b: seq<Ptr>, l: seq<Ptr>, node: Ptr, y: Ptr, x: seq<Ptr>, a: seq<Ptr>)
    requires u == (b + l + [node]) + ([] + [y] + x) + a
    requires v == (b + l + [y]) + x + a
    ensures Removed(u, node, |b| + |l|, v)
  {
  }

  lemma {:induction false} SuccessorOrder(p: Path, l: Tree, node: Ptr, c: Color, q: Path, y: Ptr, cy: Color, x: Tree)
    requires AllLeft(q)
    ensures Removed(InOrder(Plug(Cat(q, R(l, node, c, p)), T(Leaf, y, cy, x))), node, |Before(p)| + |InOrder(l)|,
                    InOrder(Plug(Cat(q, R(l, y, c, p)), x)))
  {
    var py, px := Cat(q, R(l, node, c, p)), Cat(q, R(l, y, c, p));
    PlugInOrder(py, T(Leaf, y, cy, x));
    PlugInOrder(px, x);
    AllLeftBefore(q, R(l, node, c, p));
    AllLeftBefore(q, R(l, y, c, p));
    OtherName(q, l, node, y, c, p, 0, 0, false);
    SuccessorSeq(InOrder(Plug(py, T(Leaf, y, cy, x))), InOrder(Plug(px, x)), Before(p), InOrder(l), node, y, InOrder(x), After(px));
  }

  lemma {:induction false} SuccessorRb(p: Path, l: Tree, node: Ptr, c: Color, q: Path, y: Ptr, cy: Color, x: Tree, h: int)
    returns (k: int)
    requires var t := Plug(Cat(q, R(l, node, c, p)), T(Leaf, y, cy, x)); Bal(t, h) && NoRedRed(t) && !IsRed(t)
    ensures cy.Black? ==> Deleting(Cat(q, R(l, y, c, p)), x, k, h)
    ensures cy.Red? ==> Settled(Cat(q, R(l, y, c, p)), x, k, h) && RootBlack(Cat(q, R(l, y, c, p)))
  {
    k := SplicedRb(Cat(q, R(l, node, c, p)), T(Leaf, y, cy, x), x, h);
    OtherName(q, l, node, y, c, p, if cy.Black? then k + 1 else k, h, if cy.Black? then false else IsRed(x));
  }
}
