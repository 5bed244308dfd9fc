/**
 The abstract side of the red-black tree: binary trees with coloured nodes,
 one-hole contexts (paths), and what it means for node records in memory to
 hold such a tree with parent links and one shared sentinel.
 */
module RbModel {
  import opened Basics

  type Ptr = int

  datatype Color = Red | Black

  /** The record `rbnode`. */
  datatype RbNode = RbNode(col: Color, parent: Ptr, left: Ptr, right: Ptr)

  type Mem = map<Ptr, RbNode>

  datatype Tree = Leaf | T(l: Tree, n: Ptr, c: Color, r: Tree)

  /** The way from a subtree up to the root: L means the hole is the left child of n. */
  datatype Path = Top | L(n: Ptr, c: Color, r: Tree, up: Path) | R(l: Tree, n: Ptr, c: Color, up: Path)

  ghost function Plug(p: Path, t: Tree): Tree
    decreases p
  {
    match p
    case Top => t
    case L(n, c, r, up) => Plug(up, T(t, n, c, r))
    case R(l, n, c, up) => Plug(up, T(l, n, c, t))
  }

  // ---- in-order contents ----

  ghost function InOrder(t: Tree): seq<Ptr> {
    match t
    case Leaf => []
    case T(l, n, c, r) => InOrder(l) + [n] + InOrder(r)
  }

  ghost function Before(p: Path): seq<Ptr> {
    match p
    case Top => []
    case L(n, c, r, up) => Before(up)
    case R(l, n, c, up) => Before(up) + InOrder(l) + [n]
  }

  ghost function After(p: Path): seq<Ptr> {
    match p
    case Top => []
    case L(n, c, r, up) => [n] + InOrder(r) + After(up)
    case R(l, n, c, up) => After(up)
  }

  lemma Regroup(a: seq<Ptr>, b: seq<Ptr>, c: seq<Ptr>, d: seq<Ptr>, e: seq<Ptr>)
    ensures a + (b + c + d) + e == a + b + (c + d + e)
    ensures a + (b + c + d) + e == (a + b + c) + d + e
  {
  }

  lemma {:induction false} PlugInOrder(p: Path, t: Tree)
    ensures InOrder(Plug(p, t)) == Before(p) + InOrder(t) + After(p)
    decreases p
  {
    match p
    case Top =>
    case L(n, c, r, up) =>
      PlugInOrder(up, T(t, n, c, r));
      Regroup(Before(up), InOrder(t), [n], InOrder(r), After(up));
    case R(l, n, c, up) =>
      PlugInOrder(up, T(l, n, c, t));
      Regroup(Before(up), InOrder(l), [n], InOrder(t), After(up));
  }

  lemma PlugCong(p: Path, t: Tree, t': Tree)
    requires InOrder(t) == InOrder(t')
    ensures InOrder(Plug(p, t)) == InOrder(Plug(p, t'))
  {
    PlugInOrder(p, t);
    PlugInOrder(p, t');
  }

  // ---- ownership ----

  ghost function Nodes(t: Tree): set<Ptr> {
    match t
    case Leaf => {}
    case T(l, n, c, r) => Nodes(l) + {n} + Nodes(r)
  }

  ghost function PNodes(p: Path): set<Ptr> {
    match p
    case Top => {}
    case L(n, c, r, up) => {n} + Nodes(r) + PNodes(up)
    case R(l, n, c, up) => Nodes(l) + {n} + PNodes(up)
  }

  ghost predicate Distinct(t: Tree) {
    match t
    case Leaf => true
    case T(l, n, c, r) =>
      && n !in Nodes(l) && n !in Nodes(r) && Nodes(l) !! Nodes(r)
      && Distinct(l) && Distinct(r)
  }

  ghost predicate PDistinct(p: Path) {
    match p
    case Top => true
    case L(n, c, r, up) =>
      && n !in Nodes(r) && n !in PNodes(up) && Nodes(r) !! PNodes(up)
      && Distinct(r) && PDistinct(up)
    case R(l, n, c, up) =>
      && n !in Nodes(l) && n !in PNodes(up) && Nodes(l) !! PNodes(up)
      && Distinct(l) && PDistinct(up)
  }

  lemma {:induction false} InOrderNodes(t: Tree, x: Ptr)
    ensures x in InOrder(t) <==> x in Nodes(t)
  {
    if t.T? {
      InOrderNodes(t.l, x);
      InOrderNodes(t.r, x);
    }
  }

  lemma {:induction false} NoDupConcat(a: seq<Ptr>, x: Ptr, b: seq<Ptr>)
    requires NoDup(a) && NoDup(b) && x !in a && x !in b && forall y :: y in a ==> y !in b
    ensures NoDup(a + [x] + b)
  {
    var s := a + [x] + b;
    forall i, j | 0 <= i < j < |s| ensures s[i] != s[j] {
      if i < |a| < j {
        assert s[i] in a && s[j] in b;
      } else if j < |a| {
        assert s[i] == a[i] && s[j] == a[j];
      } else if |a| < i {
        assert s[i] == b[i - |a| - 1] && s[j] == b[j - |a| - 1];
      } else if i == |a| {
        assert s[j] in b;
      } else {
        assert s[i] in a;
      }
    }
  }

  lemma {:induction false} InOrderNoDup(t: Tree)
    requires Distinct(t)
    ensures NoDup(InOrder(t))
  {
    if t.T? {
      InOrderNoDup(t.l);
      InOrderNoDup(t.r);
      forall y ensures y in InOrder(t.l) <==> y in Nodes(t.l) { InOrderNodes(t.l, y); }
      forall y ensures y in InOrder(t.r) <==> y in Nodes(t.r) { InOrderNodes(t.r, y); }
      NoDupConcat(InOrder(t.l), t.n, InOrder(t.r));
    }
  }

  // ---- representation in memory ----

  function At(t: Tree, nil: Ptr): Ptr {
    if t.Leaf? then nil else t.n
  }

  function Above(p: Path, nil: Ptr): Ptr {
    if p.Top? then nil else p.n
  }

  /** Memory holds t below the node `up`. */
  ghost predicate Rep(m: Mem, nil: Ptr, t: Tree, up: Ptr) {
    match t
    case Leaf => true
    case T(l, n, c, r) =>
      && n in m && m[n] == RbNode(c, up, At(l, nil), At(r, nil))
      && Rep(m, nil, l, n) && Rep(m, nil, r, n)
  }

  /** Memory holds the path p around a subtree whose pointer is q. */
  ghost predicate PRep(m: Mem, root: Ptr, nil: Ptr, p: Path, q: Ptr) {
    match p
    case Top => root == q
    case L(n, c, r, up) =>
      && n in m && m[n] == RbNode(c, Above(up, nil), q, At(r, nil))
      && Rep(m, nil, r, n) && PRep(m, root, nil, up, n)
    case R(l, n, c, up) =>
      && n in m && m[n] == RbNode(c, Above(up, nil), At(l, nil), q)
      && Rep(m, nil, l, n) && PRep(m, root, nil, up, n)
  }

  /** The whole tree, seen from the subtree t at the end of path p. */
  ghost predicate Holds(m: Mem, root: Ptr, nil: Ptr, p: Path, t: Tree) {
    && nil in m && m[nil].col == Black
    && nil !in Nodes(t) && nil !in PNodes(p) && 0 !in Nodes(t) && 0 !in PNodes(p)
    && Distinct(t) && PDistinct(p) && Nodes(t) !! PNodes(p)
    && Rep(m, nil, t, Above(p, nil))
    && PRep(m, root, nil, p, At(t, nil))
  }

  lemma RepFrame(m: Mem, m': Mem, nil: Ptr, t: Tree, up: Ptr)
    requires Rep(m, nil, t, up)
    requires forall x :: x in Nodes(t) && x in m ==> x in m' && m'[x] == m[x]
    ensures Rep(m', nil, t, up)
  {
  }

  lemma PRepFrame(m: Mem, m': Mem, root: Ptr, nil: Ptr, p: Path, q: Ptr)
    requires PRep(m, root, nil, p, q)
    requires forall x :: x in PNodes(p) && x in m ==> x in m' && m'[x] == m[x]
    ensures PRep(m', root, nil, p, q)
  {
    match p
    case Top =>
    case L(n, c, r, up) => RepFrame(m, m', nil, r, n);
    case R(l, n, c, up) => RepFrame(m, m', nil, l, n);
  }

  lemma HoldsFrame(m: Mem, m': Mem, root: Ptr, nil: Ptr, p: Path, t: Tree)
    requires Holds(m, root, nil, p, t)
    requires forall x :: (x in Nodes(t) || x in PNodes(p)) && x in m ==> x in m' && m'[x] == m[x]
    requires nil in m' && m'[nil].col == Black
    ensures Holds(m', root, nil, p, t)
  {
    RepFrame(m, m', nil, t, Above(p, nil));
    PRepFrame(m, m', root, nil, p, At(t, nil));
  }

  /** Hanging another subtree under the same path. */
  lemma PRepRelink(m: Mem, m': Mem, root: Ptr, root': Ptr, nil: Ptr, p: Path, q: Ptr, q': Ptr)
    requires PRep(m, root, nil, p, q) && PDistinct(p)
    requires forall x :: x in PNodes(p) && x != Above(p, nil) && x in m ==> x in m' && m'[x] == m[x]
    requires p.Top? ==> root' == q'
    requires !p.Top? ==> root' == root && p.n in m' && m'[p.n] == (if p.L? then m[p.n].(left := q') else m[p.n].(right := q'))
    ensures PRep(m', root', nil, p, q')
  {
    match p
    case Top =>
    case L(n, c, r, up) =>
      RepFrame(m, m', nil, r, n);
      PRepFrame(m, m', root, nil, up, n);
    case R(l, n, c, up) =>
      RepFrame(m, m', nil, l, n);
      PRepFrame(m, m', root, nil, up, n);
  }

  /** Giving a subtree another parent. */
  lemma Reparent(m: Mem, m': Mem, nil: Ptr, t: Tree, up: Ptr, up': Ptr)
    requires Rep(m, nil, t, up) && Distinct(t)
    requires forall x :: x in Nodes(t) && x != At(t, nil) && x in m ==> x in m' && m'[x] == m[x]
    requires t.T? ==> t.n in m' && m'[t.n] == m[t.n].(parent := up')
    ensures Rep(m', nil, t, up')
  {
    if t.T? {
      RepFrame(m, m', nil, t.l, t.n);
      RepFrame(m, m', nil, t.r, t.n);
    }
  }

  /** Below the top of the tree the root is another node. */
  lemma RootAbove(m: Mem, root: Ptr, nil: Ptr, p: Path, q: Ptr)
    requires PRep(m, root, nil, p, q) && !p.Top?
    ensures root in PNodes(p)
  {
  }

  // ---- refocusing ----

  /** The subtree one step further up. */
  function Sub(p: Path, t: Tree): (s: Tree)
    requires !p.Top?
    ensures s.T?
  {
    if p.L? then T(t, p.n, p.c, p.r) else T(p.l, p.n, p.c, t)
  }

  function Tint(p: Path, c: Color): (q: Path)
    requires !p.Top?
  {
    match p
    case L(n, _, r, up) => L(n, c, r, up)
    case R(l, n, _, up) => R(l, n, c, up)
  }

  lemma Up(m: Mem, root: Ptr, nil: Ptr, p: Path, t: Tree)
    requires Holds(m, root, nil, p, t) && !p.Top?
    ensures Holds(m, root, nil, p.up, Sub(p, t))
  {
  }

  lemma {:induction false} ToRoot(m: Mem, root: Ptr, nil: Ptr, p: Path, t: Tree)
    requires Holds(m, root, nil, p, t)
    ensures Holds(m, root, nil, Top, Plug(p, t))
    decreases p
  {
    match p
    case Top =>
    case L(n, c, r, up) => ToRoot(m, root, nil, up, T(t, n, c, r));
    case R(l, n, c, up) => ToRoot(m, root, nil, up, T(l, n, c, t));
  }

  lemma {:induction false} FromRoot(m: Mem, root: Ptr, nil: Ptr, p: Path, t: Tree)
    requires Holds(m, root, nil, Top, Plug(p, t))
    ensures Holds(m, root, nil, p, t)
    decreases p
  {
    match p
    case Top =>
    case L(n, c, r, up) => FromRoot(m, root, nil, up, T(t, n, c, r));
    case R(l, n, c, up) => FromRoot(m, root, nil, up, T(l, n, c, t));
  }

  lemma {:induction false} NodesOfPlug(p: Path, t: Tree)
    ensures Nodes(Plug(p, t)) == PNodes(p) + Nodes(t)
    decreases p
  {
    match p
    case Top =>
    case L(n, c, r, up) => NodesOfPlug(up, T(t, n, c, r));
    case R(l, n, c, up) => NodesOfPlug(up, T(l, n, c, t));
  }

  // ---- colours and heights ----

  predicate IsRed(t: Tree) { t.T? && t.c.Red? }

  /** Every way down t passes k black nodes. */
  ghost predicate Bal(t: Tree, k: int) {
    match t
    case Leaf => k == 0
    case T(l, n, c, r) => var j := if c.Black? then k - 1 else k; Bal(l, j) && Bal(r, j)
  }

  ghost predicate NoRedRed(t: Tree) {
    match t
    case Leaf => true
    case T(l, n, c, r) => NoRedRed(l) && NoRedRed(r) && (c.Red? ==> !IsRed(l) && !IsRed(r))
  }

  /** With a subtree of k black nodes in the hole, every way down passes h. */
  ghost predicate PBal(p: Path, k: int, h: int) {
    match p
    case Top => k == h
    case L(n, c, r, up) => Bal(r, k) && PBal(up, if c.Black? then k + 1 else k, h)
    case R(l, n, c, up) => Bal(l, k) && PBal(up, if c.Black? then k + 1 else k, h)
  }

  /** No red-red edge on the path or beside it, for a hole that is red exactly when `red`. */
  ghost predicate PNoRedRed(p: Path, red: bool) {
    match p
    case Top => true
    case L(n, c, r, up) => NoRedRed(r) && (c.Red? ==> !red && !IsRed(r)) && PNoRedRed(up, c.Red?)
    case R(l, n, c, up) => NoRedRed(l) && (c.Red? ==> !red && !IsRed(l)) && PNoRedRed(up, c.Red?)
  }

  /** What is sound for a red hole is sound for a black one. */
  lemma PNoRedRedBlackHole(p: Path, red: bool)
    requires PNoRedRed(p, red)
    ensures PNoRedRed(p, false)
  {
  }

  lemma {:induction false} PlugRb(p: Path, t: Tree, k: int, h: int)
    requires Bal(t, k) && PBal(p, k, h) && NoRedRed(t) && PNoRedRed(p, IsRed(t))
    ensures Bal(Plug(p, t), h) && NoRedRed(Plug(p, t))
    decreases p
  {
    match p
    case Top =>
    case L(n, c, r, up) => PlugRb(up, T(t, n, c, r), if c.Black? then k + 1 else k, h);
    case R(l, n, c, up) => PlugRb(up, T(l, n, c, t), if c.Black? then k + 1 else k, h);
  }

  /** The root is black, unless the hole itself is the root. */
  ghost predicate RootBlack(p: Path) {
    match p
    case Top => true
    case L(n, c, r, up) => if up.Top? then c.Black? else RootBlack(up)
    case R(l, n, c, up) => if up.Top? then c.Black? else RootBlack(up)
  }

  /** The converse of PlugRb. */
  lemma {:induction false} UnplugRb(p: Path, t: Tree, h: int) returns (k: int)
    requires Bal(Plug(p, t), h) && NoRedRed(Plug(p, t)) && !IsRed(Plug(p, t))
    ensures Bal(t, k) && PBal(p, k, h) && NoRedRed(t) && PNoRedRed(p, IsRed(t)) && RootBlack(p)
    ensures p.Top? ==> k == h
    decreases p
  {
    match p
    case Top => k := h;
    case L(n, c, r, up) =>
      k := UnplugRb(up, T(t, n, c, r), h);
      k := if c.Black? then k - 1 else k;
    case R(l, n, c, up) =>
      k := UnplugRb(up, T(l, n, c, t), h);
      k := if c.Black? then k - 1 else k;
  }

  lemma {:induction false} PlugRootBlack(p: Path, t: Tree)
    requires RootBlack(p) && (p.Top? ==> !IsRed(t))
    ensures !IsRed(Plug(p, t))
    decreases p
  {
    match p
    case Top =>
    case L(n, c, r, up) => PlugRootBlack(up, T(t, n, c, r));
    case R(l, n, c, up) => PlugRootBlack(up, T(l, n, c, t));
  }

  // ---- size and depth ----

  ghost function Depth(t: Tree): nat {
    if t.Leaf? then 0 else 1 + if Depth(t.l) > Depth(t.r) then Depth(t.l) else Depth(t.r)
  }

  ghost function Pow2(k: nat): nat {
    if k == 0 then 1 else 2 * Pow2(k - 1)
  }

  /** A red-black tree of black height k is at most 2k deep (2k+1 under a red root) and holds at least 2^k - 1 nodes. */
  lemma {:induction false} DepthAndSize(t: Tree, k: nat)
    requires Bal(t, k) && NoRedRed(t)
    ensures Depth(t) <= 2 * k + (if IsRed(t) then 1 else 0)
    ensures |InOrder(t)| + 1 >= Pow2(k)
  {
    if t.T? {
      var j := if t.c.Black? then k - 1 else k;
      BalNonNegative(t.l, j);
      DepthAndSize(t.l, j);
      DepthAndSize(t.r, j);
    }
  }

  lemma BalNonNegative(t: Tree, k: int)
    requires Bal(t, k)
    ensures k >= 0
  {
  }
}
