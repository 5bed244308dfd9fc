/**
 The intrusive red-black tree of osdev/kernel/lib/rbtree.c.  Pointers are keys
 of `mem`, the memory that holds the node records, so links are updated in
 place and may alias exactly as in the source.
 */
module RbTreeImpl {
  import opened RbModel
  import opened RbFixup
  import opened RbDelete
  import opened Basics

  /** A three-way comparison with a key that is monotone along s. */
  ghost predicate Splits(cmp: Ptr -> int, s: seq<Ptr>) {
    forall i, j :: 0 <= i < j < |s| ==> (cmp(s[i]) < 0 ==> cmp(s[j]) < 0) && (cmp(s[j]) > 0 ==> cmp(s[i]) > 0)
  }

  lemma {:induction false} NothingBetween(cmp: Ptr -> int, a: seq<Ptr>, b: seq<Ptr>)
    requires a != [] ==> cmp(a[|a| - 1]) > 0
    requires b != [] ==> cmp(b[0]) < 0
    ensures Splits(cmp, a + [] + b) ==> forall x :: x in a + [] + b ==> cmp(x) != 0
  {
    var s := a + [] + b;
    if Splits(cmp, s) {
      forall i | 0 <= i < |s| ensures cmp(s[i]) != 0 {
        if i < |a| {
          assert s[|a| - 1] == a[|a| - 1];
        } else {
          assert s[|a|] == b[0];
        }
      }
    }
  }

  /** The successor y in place of the node t.n: order and colours. */
  lemma {:induction false} TookOverRb(p: Path, t: Tree, q: Path, y: Tree, h: int) returns (k: int)
    requires t.T? && y.T? && y.l == Leaf && AllLeft(q) && t.r == Plug(q, y)
    requires Bal(Plug(p, t), h) && NoRedRed(Plug(p, t)) && !IsRed(Plug(p, t))
    ensures var p' := Cat(q, R(t.l, y.n, t.c, p));
      && !p'.Top? && (y.c.Black? ==> Deleting(p', y.r, k, h)) && (y.c.Red? ==> Settled(p', y.r, k, h) && RootBlack(p'))
      && Removed(InOrder(Plug(p, t)), t.n, |Before(p)| + |InOrder(t.l)|, InOrder(Plug(p', y.r)))
  {
    PlugCat(q, R(t.l, t.n, t.c, p), y);
    k := SuccessorRb(p, t.l, t.n, t.c, q, y.n, y.c, y.r, h);
    SuccessorOrder(p, t.l, t.n, t.c, q, y.n, y.c, y.r);
    CatNotTop(q, R(t.l, y.n, t.c, p));
  }

  /** What lies before the path is smaller than the key, what lies behind it larger. */
  ghost predicate Narrowed(cmp: Ptr -> int, p: Path) {
    (Before(p) != [] ==> cmp(Before(p)[|Before(p)| - 1]) > 0) && (After(p) != [] ==> cmp(After(p)[0]) < 0)
  }

  lemma {:induction false} NarrowLeft(cmp: Ptr -> int, p: Path, t: Tree)
    requires Narrowed(cmp, p) && t.T? && cmp(t.n) < 0
    ensures Narrowed(cmp, L(t.n, t.c, t.r, p)) && Depth(t.l) < Depth(t)
  {
  }

  lemma {:induction false} NarrowRight(cmp: Ptr -> int, p: Path, t: Tree)
    requires Narrowed(cmp, p) && t.T? && cmp(t.n) > 0
    ensures Narrowed(cmp, R(t.l, t.n, t.c, p)) && Depth(t.r) < Depth(t)
  {
  }

  /** The node, its right child, that child's left child and the node's parent. */
  function LeftTouched(m: Mem, node: Ptr): set<Ptr> {
    if node !in m then {}
    else {node, m[node].right, m[node].parent} + if m[node].right in m then {m[m[node].right].left} else {}
  }

  function RightTouched(m: Mem, node: Ptr): set<Ptr> {
    if node !in m then {}
    else {node, m[node].left, m[node].parent} + if m[node].left in m then {m[m[node].left].right} else {}
  }

  class RbTree {
    var root: Ptr
    var mem: Mem
    const nil: Ptr
    ghost var tree: Tree
    ghost var height: int

    constructor (nil: Ptr)
      requires nil != 0
      ensures Valid() && Elems() == [] && this.nil == nil
    {
      this.nil, root := nil, nil;
      mem := map[nil := RbNode(Black, nil, nil, nil)];
      tree, height := Leaf, 0;
    }

    /** Every node is listed once, and neither null nor the sentinel is. */
    lemma {:induction false} ElemsDistinct()
      requires Valid()
      ensures NoDup(Elems()) && forall x :: x in Elems() <==> x in Nodes(tree)
      ensures 0 !in Nodes(tree) && nil !in Nodes(tree)
    {
      InOrderNoDup(tree);
      forall x ensures x in Elems() <==> x in Nodes(tree) { InOrderNodes(tree, x); }
    }

    method LeftRotate(node: Ptr, ghost p: Path, ghost t: Tree)
      requires Holds(mem, root, nil, p, t)
      requires t.T? && t.n == node && t.r.T?
      modifies this`root, this`mem
      ensures Holds(mem, root, nil, p, RotL(t))
      ensures mem.Keys == old(mem.Keys) && mem[nil] == old(mem[nil])
      ensures forall q :: q in mem && q !in old(LeftTouched(mem, node)) ==> mem[q] == old(mem[q])
    {
      LeftReady(mem, root, nil, p, t);
      var right := mem[node].right;
      var parent := mem[node].parent;
      mem := SetRight(mem, node, mem[right].left);
      if mem[right].left != nil {
        mem := SetParent(mem, mem[right].left, node);
      }
      mem := SetLeft(mem, right, node);
      mem := SetParent(mem, right, parent);
      if parent != nil {
        if mem[parent].left == node {
          mem := SetLeft(mem, parent, right);
        } else {
          mem := SetRight(mem, parent, right);
        }
      } else {
        root := right;
      }
      mem := SetParent(mem, node, right);
      LeftRotated(old(mem), mem, old(root), root, nil, p, t);
    }

    method RightRotate(node: Ptr, ghost p: Path, ghost t: Tree)
      requires Holds(mem, root, nil, p, t)
      requires t.T? && t.n == node && t.l.T?
      modifies this`root, this`mem
      ensures Holds(mem, root, nil, p, RotR(t))
      ensures mem.Keys == old(mem.Keys) && mem[nil] == old(mem[nil])
      ensures forall q :: q in mem && q !in old(RightTouched(mem, node)) ==> mem[q] == old(mem[q])
    {
      RightReady(mem, root, nil, p, t);
      var left := mem[node].left;
      var parent := mem[node].parent;
      mem := SetLeft(mem, node, mem[left].right);
      if mem[left].right != nil {
        mem := SetParent(mem, mem[left].right, node);
      }
      mem := SetRight(mem, left, node);
      mem := SetParent(mem, left, parent);
      if parent != nil {
        if mem[parent].left == node {
          mem := SetLeft(mem, parent, left);
        } else {
          mem := SetRight(mem, parent, left);
        }
      } else {
        root := left;
      }
      mem := SetParent(mem, node, left);
      RightRotated(old(mem), mem, old(root), root, nil, p, t);
    }

    /** The end of insert_fixup for a red node that is the left child of a left child. */
    method StraightenLeft(node: Ptr, ghost p: Path, ghost t: Tree)
      requires Holds(mem, root, nil, p, t) && t.T? && t.n == node
      requires p.L? && p.up.L?
      modifies this`root, this`mem
      ensures mem.Keys == old(mem.Keys) && mem[nil] == old(mem[nil])
      ensures Holds(mem, root, nil, p.up.up, StraightTree(p, t))
    {
      PaintedParent(mem, root, nil, p, t, Black);
      mem := SetCol(mem, mem[node].parent, Black);
      ghost var q := Tint(p, Black);
      Up(mem, root, nil, q, t);
      PaintedParent(mem, root, nil, q.up, Sub(q, t), Red);
      mem := SetCol(mem, mem[mem[node].parent].parent, Red);
      Up(mem, root, nil, Tint(q.up, Red), Sub(q, t));
      RightRotate(mem[mem[node].parent].parent, p.up.up, Sub(Tint(q.up, Red), Sub(q, t)));
    }

    method StraightenRight(node: Ptr, ghost p: Path, ghost t: Tree)
      requires Holds(mem, root, nil, p, t) && t.T? && t.n == node
      requires p.R? && p.up.R?
      modifies this`root, this`mem
      ensures mem.Keys == old(mem.Keys) && mem[nil] == old(mem[nil])
      ensures Holds(mem, root, nil, p.up.up, StraightTree(p, t))
    {
      PaintedParent(mem, root, nil, p, t, Black);
      mem := SetCol(mem, mem[node].parent, Black);
      ghost var q := Tint(p, Black);
      Up(mem, root, nil, q, t);
      PaintedParent(mem, root, nil, q.up, Sub(q, t), Red);
      mem := SetCol(mem, mem[mem[node].parent].parent, Red);
      Up(mem, root, nil, Tint(q.up, Red), Sub(q, t));
      LeftRotate(mem[mem[node].parent].parent, p.up.up, Sub(Tint(q.up, Red), Sub(q, t)));
    }

    /** Red uncle: parent and uncle turn black, the grandparent red. */
    method LiftRed(node: Ptr, uncle: Ptr, ghost p: Path, ghost t: Tree)
      requires Holds(mem, root, nil, p, t) && t.T? && t.n == node && !p.Top? && !p.up.Top?
      requires Brother(p.up).T? && Brother(p.up).n == uncle
      modifies this`mem
      ensures mem.Keys == old(mem.Keys) && mem[nil] == old(mem[nil])
      ensures Holds(mem, root, nil, p.up.up, LiftedTree(p, t))
      ensures mem[node].parent in mem && mem[mem[node].parent].parent == p.up.n
    {
      LiftedHolds(mem, root, nil, p, t);
      Up(mem, root, nil, p, t);
      mem := SetCol(mem, mem[node].parent, Black);
      mem := SetCol(mem, uncle, Black);
      mem := SetCol(mem, mem[mem[node].parent].parent, Red);
    }

    /** The loop body of insert_fixup when the parent is a left child. */
    method InsertStepLeft(start: Ptr, ghost p: Path, ghost t: Tree, ghost k: int, ghost h: int)
      returns (node: Ptr, again: bool, ghost p': Path, ghost t': Tree, ghost k': int)
      requires Holds(mem, root, nil, p, t) && t.T? && t.n == start
      requires Inserting(p, t, k, h) && !p.Top? && p.c.Red? && p.up.L?
      modifies this`root, this`mem
      ensures mem.Keys == old(mem.Keys) && mem[nil] == old(mem[nil])
      ensures Holds(mem, root, nil, p', t') && t'.T? && (again ==> t'.n == node && p' == p.up.up)
      ensures InOrder(Plug(p', t')) == InOrder(Plug(p, t))
      ensures if again then Inserting(p', t', k', h) else Settled(p', t', k', h)
    {
      Up(mem, root, nil, p, t);
      node, again := start, false;
      var uncle := mem[mem[mem[node].parent].parent].right;
      ColorAt(mem, nil, p.up.r, p.up.n);
      if mem[uncle].col == Red {
        Lifted(p, t, k, h);
        LiftRed(node, uncle, p, t);
        node := mem[mem[node].parent].parent;
        return node, true, p.up.up, LiftedTree(p, t), k + 1;
      }
      p', t', k' := p, t, k;
      if node == mem[mem[node].parent].right {
        Swung(p, t, k, h);
        node := mem[node].parent;
        LeftRotate(node, p.up, Sub(p, t));
        p', t' := SwungPath(p, t), SwungTree(p, t);
      }
      Straightened(p', t', k, h);
      StraightenLeft(node, p', t');
      p', t', k' := p.up.up, StraightTree(p', t'), k + 1;
    }

    /** The loop body of insert_fixup when the parent is a right child. */
    method InsertStepRight(start: Ptr, ghost p: Path, ghost t: Tree, ghost k: int, ghost h: int)
      returns (node: Ptr, again: bool, ghost p': Path, ghost t': Tree, ghost k': int)
      requires Holds(mem, root, nil, p, t) && t.T? && t.n == start
      requires Inserting(p, t, k, h) && !p.Top? && p.c.Red? && p.up.R?
      modifies this`root, this`mem
      ensures mem.Keys == old(mem.Keys) && mem[nil] == old(mem[nil])
      ensures Holds(mem, root, nil, p', t') && t'.T? && (again ==> t'.n == node && p' == p.up.up)
      ensures InOrder(Plug(p', t')) == InOrder(Plug(p, t))
      ensures if again then Inserting(p', t', k', h) else Settled(p', t', k', h)
    {
      Up(mem, root, nil, p, t);
      node, again := start, false;
      var uncle := mem[mem[mem[node].parent].parent].left;
      ColorAt(mem, nil, p.up.l, p.up.n);
      if mem[uncle].col == Red {
        Lifted(p, t, k, h);
        LiftRed(node, uncle, p, t);
        node := mem[mem[node].parent].parent;
        return node, true, p.up.up, LiftedTree(p, t), k + 1;
      }
      p', t', k' := p, t, k;
      if node == mem[mem[node].parent].left {
        Swung(p, t, k, h);
        node := mem[node].parent;
        RightRotate(node, p.up, Sub(p, t));
        p', t' := SwungPath(p, t), SwungTree(p, t);
      }
      Straightened(p', t', k, h);
      StraightenRight(node, p', t');
      p', t', k' := p.up.up, StraightTree(p', t'), k + 1;
    }

    /** One round of the loop of insert_fixup. */
    method InsertStep(start: Ptr, ghost p: Path, ghost t: Tree, ghost k: int, ghost h: int)
      returns (node: Ptr, again: bool, ghost p': Path, ghost t': Tree, ghost k': int)
      requires Holds(mem, root, nil, p, t) && t.T? && t.n == start
      requires Inserting(p, t, k, h) && !p.Top? && p.c.Red?
      modifies this`root, this`mem
      ensures mem.Keys == old(mem.Keys) && mem[nil] == old(mem[nil])
      ensures Holds(mem, root, nil, p', t') && t'.T? && (again ==> t'.n == node && p' == p.up.up)
      ensures InOrder(Plug(p', t')) == InOrder(Plug(p, t))
      ensures if again then Inserting(p', t', k', h) else Settled(p', t', k', h)
    {
      RedParent(p, t, k, h);
      Up(mem, root, nil, p, t);
      if mem[mem[mem[start].parent].parent].left == mem[start].parent {
        node, again, p', t', k' := InsertStepLeft(start, p, t, k, h);
      } else {
        node, again, p', t', k' := InsertStepRight(start, p, t, k, h);
      }
    }

    method InsertFixup(start: Ptr, ghost p0: Path, ghost t0: Tree, ghost k0: int, ghost h: int) returns (ghost whole: Tree)
      requires Holds(mem, root, nil, p0, t0) && t0.T? && t0.n == start
      requires Inserting(p0, t0, k0, h)
      modifies this`root, this`mem
      ensures mem.Keys == old(mem.Keys) && mem[nil] == old(mem[nil])
      ensures Holds(mem, root, nil, Top, whole)
      ensures whole.T? && InOrder(whole) == InOrder(Plug(p0, t0))
      ensures Bal(whole, h) && NoRedRed(whole)
    {
      var node := start;
      ghost var p, t, k := p0, t0, k0;
      while mem[node].parent != nil && mem[mem[node].parent].col == Red
        invariant mem.Keys == old(mem.Keys) && mem[nil] == old(mem[nil])
        invariant Holds(mem, root, nil, p, t) && t.T? && t.n == node
        invariant mem[node].parent in mem
        invariant InOrder(Plug(p, t)) == InOrder(Plug(p0, t0))
        invariant Inserting(p, t, k, h)
        decreases p
      {
        var again;
        node, again, p, t, k := InsertStep(node, p, t, k, h);
        if !again {
          break;
        }
      }
      InsertionEnds(mem, root, nil, p, t, k, h);
      whole := Plug(p, t);
    }

    ghost predicate Valid()
      reads this
    {
      && Holds(mem, root, nil, Top, tree)
      && Bal(tree, height) && NoRedRed(tree) && !IsRed(tree)
    }

    /** The nodes in order. */
    ghost function Elems(): seq<Ptr>
      reads this
    {
      InOrder(tree)
    }

    /** The descent of rbtree_insert to the empty place where newNode belongs. */
    method FindPlace(newNode: Ptr, cmp: (Ptr, Ptr) -> int) returns (parent: Ptr, ghost p: Path)
      requires Holds(mem, root, nil, Top, tree) && tree.T?
      ensures Plug(p, Leaf) == tree && Holds(mem, root, nil, p, Leaf)
      ensures !p.Top? && parent == p.n && (p.L? <==> cmp(newNode, p.n) < 0)
      ensures Before(p) != [] ==> cmp(newNode, Before(p)[|Before(p)| - 1]) >= 0
      ensures After(p) != [] ==> cmp(newNode, After(p)[0]) < 0
    {
      var node := root;
      parent := nil;
      ghost var t := tree;
      p := Top;
      while node != nil
        invariant Plug(p, t) == tree && Holds(mem, root, nil, p, t)
        invariant node == At(t, nil) && parent == Above(p, nil)
        invariant p.Top? ==> t.T?
        invariant !p.Top? ==> (p.L? <==> cmp(newNode, p.n) < 0)
        invariant Before(p) != [] ==> cmp(newNode, Before(p)[|Before(p)| - 1]) >= 0
        invariant After(p) != [] ==> cmp(newNode, After(p)[0]) < 0
        decreases t
      {
        parent := node;
        if cmp(newNode, node) < 0 {
          DownLeft(mem, root, nil, p, t);
          node := mem[node].left;
          p, t := L(t.n, t.c, t.r, p), t.l;
        } else {
          DownRight(mem, root, nil, p, t);
          node := mem[node].right;
          p, t := R(t.l, t.n, t.c, p), t.r;
        }
      }
    }

    /** The part of rbtree_insert that hangs the new red leaf into a non-empty tree. */
    method HangLeaf(newNode: Ptr, cmp: (Ptr, Ptr) -> int) returns (ghost p: Path)
      requires Valid() && tree.T?
      requires newNode != nil && newNode != 0 && newNode !in Nodes(tree)
      requires newNode in mem && mem[newNode] == RbNode(Red, nil, nil, nil)
      modifies this`mem
      ensures mem.Keys == old(mem.Keys)
      ensures Holds(mem, root, nil, p, T(Leaf, newNode, Red, Leaf))
      ensures Plug(p, Leaf) == tree
      ensures Before(p) != [] ==> cmp(newNode, Before(p)[|Before(p)| - 1]) >= 0
      ensures After(p) != [] ==> cmp(newNode, After(p)[0]) < 0
    {
      var parent;
      parent, p := FindPlace(newNode, cmp);
      NodesOfPlug(p, Leaf);
      mem := SetParent(mem, newNode, parent);
      if cmp(newNode, parent) < 0 {
        mem := SetLeft(mem, parent, newNode);
      } else {
        mem := SetRight(mem, parent, newNode);
      }
      LeafLinked(old(mem), mem, root, nil, p, newNode);
    }

    method Insert(newNode: Ptr, cmp: (Ptr, Ptr) -> int) returns (ghost at: nat)
      requires Valid()
      requires newNode != nil && newNode !in Nodes(tree)
      modifies this
      ensures Valid()
      ensures newNode == 0 ==> tree == old(tree) && mem == old(mem)
      ensures newNode != 0 ==> Inserted(old(Elems()), newNode, cmp, at, Elems())
    {
      at := 0;
      if newNode == 0 {
        return;
      }
      mem := mem[newNode := RbNode(Red, nil, nil, nil)];
      if root == nil {
        root := newNode;
        mem := SetCol(mem, newNode, Black);
        tree, height := T(Leaf, newNode, Black, Leaf), 1;
        assert Rep(mem, nil, tree, nil) && PRep(mem, root, nil, Top, newNode);
        return;
      }
      HoldsFrame(old(mem), mem, root, nil, Top, tree);
      ghost var p := HangLeaf(newNode, cmp);
      at := |Before(p)|;
      LeafInserted(p, newNode, cmp);
      LeafInserting(p, newNode, height);
      tree := InsertFixup(newNode, p, T(Leaf, newNode, Red, Leaf), 0, height);
      Blackened(mem, root, nil, tree, height);
      mem := SetCol(mem, root, Black);
      tree, height := tree.(c := Black), if IsRed(tree) then height + 1 else height;
    }

    /** Case 1 of delete_fixup for a left child: the red brother is rotated above the parent. */
    method RaiseBrotherLeft(node: Ptr, ghost p: Path, ghost t: Tree)
      requires Holds(mem, root, nil, p, t) && node == At(t, nil) && p.L? && Brother(p).T?
      requires mem[node].parent == p.n
      modifies this`root, this`mem
      ensures mem.Keys == old(mem.Keys) && mem[nil] == old(mem[nil])
      ensures Holds(mem, root, nil, RaisedPath(p), t)
    {
      RaisedColors(mem, root, nil, p, t);
      var brother := mem[mem[node].parent].right;
      mem := SetCol(mem, brother, Black);
      mem := SetCol(mem, mem[brother].parent, Red);
      ghost var q := Tint(WithBrother(p, Brother(p).(c := Black)), Red);
      Up(mem, root, nil, q, t);
      LeftRotate(mem[node].parent, p.up, Sub(q, t));
      DownLeft(mem, root, nil, p.up, Sub(RaisedPath(p).up, Sub(RaisedPath(p), t)));
      DownLeft(mem, root, nil, RaisedPath(p).up, Sub(RaisedPath(p), t));
    }

    /** Case 3: the red inner nephew is rotated above the brother. */
    method TurnBrotherLeft(node: Ptr, brother: Ptr, ghost p: Path, ghost t: Tree)
      requires Holds(mem, root, nil, p, t) && node == At(t, nil) && p.L? && Brother(p).T? && Inner(p).T?
      requires brother == Brother(p).n
      modifies this`root, this`mem
      ensures mem.Keys == old(mem.Keys) && mem[nil] == old(mem[nil])
      ensures Holds(mem, root, nil, TurnedPath(p), t)
    {
      TurnedColors(mem, root, nil, p, t);
      mem := SetCol(mem, mem[brother].left, Black);
      mem := SetCol(mem, brother, Red);
      Across(mem, root, nil, WithBrother(p, TurnedPaint(p)), t);
      RightRotate(brother, Beside(p, t), TurnedPaint(p));
      AcrossBack(mem, root, nil, p, t, RotR(TurnedPaint(p)));
    }

    /** Case 4: one rotation at the parent. */
    method FillGapLeft(node: Ptr, brother: Ptr, ghost p: Path, ghost t: Tree)
      requires Holds(mem, root, nil, p, t) && node == At(t, nil) && p.L? && Brother(p).T? && Outer(p).T?
      requires brother == Brother(p).n && mem[node].parent == p.n
      modifies this`root, this`mem
      ensures mem.Keys == old(mem.Keys) && mem[nil] == old(mem[nil])
      ensures Holds(mem, root, nil, p.up, FilledTree(p, t))
    {
      FilledColors(mem, root, nil, p, t);
      mem := SetCol(mem, brother, mem[mem[node].parent].col);
      mem := SetCol(mem, mem[node].parent, Black);
      mem := SetCol(mem, mem[brother].right, Black);
      ghost var q := Tint(WithBrother(p, PaintOuter(p, Black).(c := p.c)), Black);
      Up(mem, root, nil, q, t);
      LeftRotate(mem[node].parent, p.up, Sub(q, t));
    }

    /** Case 1 of delete_fixup for a right child: the red brother is rotated above the parent. */
    method RaiseBrotherRight(node: Ptr, ghost p: Path, ghost t: Tree)
      requires Holds(mem, root, nil, p, t) && node == At(t, nil) && p.R? && Brother(p).T?
      requires mem[node].parent == p.n
      modifies this`root, this`mem
      ensures mem.Keys == old(mem.Keys) && mem[nil] == old(mem[nil])
      ensures Holds(mem, root, nil, RaisedPath(p), t)
    {
      RaisedColors(mem, root, nil, p, t);
      var brother := mem[mem[node].parent].left;
      mem := SetCol(mem, brother, Black);
      mem := SetCol(mem, mem[brother].parent, Red);
      ghost var q := Tint(WithBrother(p, Brother(p).(c := Black)), Red);
      Up(mem, root, nil, q, t);
      RightRotate(mem[node].parent, p.up, Sub(q, t));
      DownRight(mem, root, nil, p.up, Sub(RaisedPath(p).up, Sub(RaisedPath(p), t)));
      DownRight(mem, root, nil, RaisedPath(p).up, Sub(RaisedPath(p), t));
    }

    /** Case 3: the red inner nephew is rotated above the brother. */
    method TurnBrotherRight(node: Ptr, brother: Ptr, ghost p: Path, ghost t: Tree)
      requires Holds(mem, root, nil, p, t) && node == At(t, nil) && p.R? && Brother(p).T? && Inner(p).T?
      requires brother == Brother(p).n
      modifies this`root, this`mem
      ensures mem.Keys == old(mem.Keys) && mem[nil] == old(mem[nil])
      ensures Holds(mem, root, nil, TurnedPath(p), t)
    {
      TurnedColors(mem, root, nil, p, t);
      mem := SetCol(mem, mem[brother].right, Black);
      mem := SetCol(mem, brother, Red);
      Across(mem, root, nil, WithBrother(p, TurnedPaint(p)), t);
      LeftRotate(brother, Beside(p, t), TurnedPaint(p));
      AcrossBack(mem, root, nil, p, t, RotL(TurnedPaint(p)));
    }

    /** Case 4: one rotation at the parent. */
    method FillGapRight(node: Ptr, brother: Ptr, ghost p: Path, ghost t: Tree)
      requires Holds(mem, root, nil, p, t) && node == At(t, nil) && p.R? && Brother(p).T? && Outer(p).T?
      requires brother == Brother(p).n && mem[node].parent == p.n
      modifies this`root, this`mem
      ensures mem.Keys == old(mem.Keys) && mem[nil] == old(mem[nil])
      ensures Holds(mem, root, nil, p.up, FilledTree(p, t))
    {
      FilledColors(mem, root, nil, p, t);
      mem := SetCol(mem, brother, mem[mem[node].parent].col);
      mem := SetCol(mem, mem[node].parent, Black);
      mem := SetCol(mem, mem[brother].left, Black);
      ghost var q := Tint(WithBrother(p, PaintOuter(p, Black).(c := p.c)), Black);
      Up(mem, root, nil, q, t);
      RightRotate(mem[node].parent, p.up, Sub(q, t));
    }

    /** The loop body of delete_fixup for a left child. */
    method DeleteStepLeft(start: Ptr, ghost p: Path, ghost t: Tree, ghost k: int, ghost h: int)
      returns (node: Ptr, again: bool, ghost p': Path, ghost t': Tree, ghost k': int)
      requires Holds(mem, root, nil, p, t) && start == At(t, nil) && mem[start].parent == Above(p, nil)
      requires Deleting(p, t, k, h) && !IsRed(t) && p.L?
      modifies this`root, this`mem
      ensures mem.Keys == old(mem.Keys) && mem[nil] == old(mem[nil])
      ensures Holds(mem, root, nil, p', t') && InOrder(Plug(p', t')) == InOrder(Plug(p, t))
      ensures again ==> Deleting(p', t', k', h) && t'.T? && node == t'.n && (IsRed(t') || p' == p.up)
      ensures !again ==> Settled(p', t', k', h) && RootBlack(p') && (p'.Top? ==> !IsRed(t'))
      ensures !again ==> node in mem && mem[node].col == Black
    {
      node, again, p', t', k' := start, false, p, t, k;
      BrotherExists(p, t, k, h);
      var brother := mem[mem[node].parent].right;
      if mem[brother].col == Red {
        RaiseBrotherLeft(node, p, t);
        Raised(p, t, k, h);
        p' := RaisedPath(p);
        BrotherExists(p', t, k, h);
        brother := mem[mem[node].parent].right;
      }
      assert Rep(mem, nil, p'.r, p'.n);
      ColorAt(mem, nil, p'.r.l, brother);
      ColorAt(mem, nil, p'.r.r, brother);
      if mem[mem[brother].left].col == Black && mem[mem[brother].right].col == Black {
        PaintedBrother(mem, root, nil, p', t, Red);
        if brother != nil {
          mem := SetCol(mem, brother, Red);
        }
        Up(mem, root, nil, WithBrother(p', Brother(p').(c := Red)), t);
        Sunk(p', t, k, h);
        node, again := mem[node].parent, true;
        p', t', k' := p'.up, SunkTree(p', t), if p'.c.Black? then k + 1 else k;
      } else {
        if mem[mem[brother].right].col == Black {
          TurnBrotherLeft(node, brother, p', t);
          Turned(p', t, k, h);
          p' := TurnedPath(p');
          brother := mem[mem[node].parent].right;
        }
        FillGapLeft(node, brother, p', t);
        Filled(p', t, k, h);
        StillBlack(mem, root, nil, p', t);
        p', t', k' := p'.up, FilledTree(p', t), if p'.c.Black? then k + 2 else k + 1;
      }
    }

    /** The loop body of delete_fixup for a right child. */
    method DeleteStepRight(start: Ptr, ghost p: Path, ghost t: Tree, ghost k: int, ghost h: int)
      returns (node: Ptr, again: bool, ghost p': Path, ghost t': Tree, ghost k': int)
      requires Holds(mem, root, nil, p, t) && start == At(t, nil) && mem[start].parent == Above(p, nil)
      requires Deleting(p, t, k, h) && !IsRed(t) && p.R?
      modifies this`root, this`mem
      ensures mem.Keys == old(mem.Keys) && mem[nil] == old(mem[nil])
      ensures Holds(mem, root, nil, p', t') && InOrder(Plug(p', t')) == InOrder(Plug(p, t))
      ensures again ==> Deleting(p', t', k', h) && t'.T? && node == t'.n && (IsRed(t') || p' == p.up)
      ensures !again ==> Settled(p', t', k', h) && RootBlack(p') && (p'.Top? ==> !IsRed(t'))
      ensures !again ==> node in mem && mem[node].col == Black
    {
      node, again, p', t', k' := start, false, p, t, k;
      BrotherExists(p, t, k, h);
      var brother := mem[mem[node].parent].left;
      if mem[brother].col == Red {
        RaiseBrotherRight(node, p, t);
        Raised(p, t, k, h);
        p' := RaisedPath(p);
        BrotherExists(p', t, k, h);
        brother := mem[mem[node].parent].left;
      }
      assert Rep(mem, nil, p'.l, p'.n);
      ColorAt(mem, nil, p'.l.l, brother);
      ColorAt(mem, nil, p'.l.r, brother);
      if mem[mem[brother].left].col == Black && mem[mem[brother].right].col == Black {
        PaintedBrother(mem, root, nil, p', t, Red);
        if brother != nil {
          mem := SetCol(mem, brother, Red);
        }
        Up(mem, root, nil, WithBrother(p', Brother(p').(c := Red)), t);
        Sunk(p', t, k, h);
        node, again := mem[node].parent, true;
        p', t', k' := p'.up, SunkTree(p', t), if p'.c.Black? then k + 1 else k;
      } else {
        if mem[mem[brother].left].col == Black {
          TurnBrotherRight(node, brother, p', t);
          Turned(p', t, k, h);
          p' := TurnedPath(p');
          brother := mem[mem[node].parent].left;
        }
        FillGapRight(node, brother, p', t);
        Filled(p', t, k, h);
        StillBlack(mem, root, nil, p', t);
        p', t', k' := p'.up, FilledTree(p', t), if p'.c.Black? then k + 2 else k + 1;
      }
    }

    /** One round of the loop of delete_fixup. */
    method DeleteStep(start: Ptr, ghost p: Path, ghost t: Tree, ghost k: int, ghost h: int)
      returns (node: Ptr, again: bool, ghost p': Path, ghost t': Tree, ghost k': int)
      requires Holds(mem, root, nil, p, t) && start == At(t, nil) && mem[start].parent == Above(p, nil)
      requires Deleting(p, t, k, h) && mem[start].col == Black && start != root
      modifies this`root, this`mem
      ensures mem.Keys == old(mem.Keys)
      ensures Holds(mem, root, nil, p', t') && InOrder(Plug(p', t')) == InOrder(Plug(p, t))
      ensures !IsRed(t)
      ensures again ==> Deleting(p', t', k', h) && t'.T? && node == t'.n && (IsRed(t') || (!p.Top? && p' == p.up))
      ensures !again ==> Settled(p', t', k', h) && RootBlack(p') && (p'.Top? ==> !IsRed(t'))
      ensures !again ==> node in mem && mem[node].col == Black
    {
      ColorAt(mem, nil, t, Above(p, nil));
      if start == mem[mem[start].parent].left {
        node, again, p', t', k' := DeleteStepLeft(start, p, t, k, h);
      } else {
        node, again, p', t', k' := DeleteStepRight(start, p, t, k, h);
      }
    }

    /** The subtree at node lacks one black node; nothing else is wrong. */
    ghost predicate Missing(node: Ptr, p: Path, t: Tree, k: int, h: int, keys: set<Ptr>, order: seq<Ptr>)
      reads this
    {
      && mem.Keys == keys && node in mem
      && Holds(mem, root, nil, p, t) && node == At(t, nil) && mem[node].parent == Above(p, nil)
      && Deleting(p, t, k, h) && InOrder(Plug(p, t)) == order
    }

    method DeleteFixup(start: Ptr, ghost p0: Path, ghost t0: Tree, ghost k0: int, ghost h: int)
      returns (ghost whole: Tree, ghost h': int)
      requires Holds(mem, root, nil, p0, t0) && start == At(t0, nil) && mem[start].parent == Above(p0, nil)
      requires Deleting(p0, t0, k0, h)
      modifies this`root, this`mem
      ensures mem.Keys == old(mem.Keys)
      ensures Holds(mem, root, nil, Top, whole) && InOrder(whole) == InOrder(Plug(p0, t0))
      ensures Bal(whole, h') && NoRedRed(whole) && !IsRed(whole)
    {
      var node := start;
      ghost var p, t, k, settled := p0, t0, k0, false;
      while node != root && mem[node].col == Black
        invariant !settled && Missing(node, p, t, k, h, old(mem.Keys), InOrder(Plug(p0, t0)))
        decreases !IsRed(t), p
      {
        var again;
        node, again, p, t, k := DeleteStep(node, p, t, k, h);
        if !again {
          SettledEnds(mem, root, nil, p, t, k, h);
          whole, h', settled := Plug(p, t), h, true;
          assert SetCol(mem, node, Black) == mem;
          break;
        }
      }
      if !settled {
        whole, h' := DeletionEnds(mem, root, nil, p, t, k, h);
      }
      mem := SetCol(mem, node, Black);
    }

    method ReplaceNode(o: Ptr, x: Ptr)
      requires o in mem && x in mem && o != x
      requires mem[o].parent == nil || (mem[o].parent in mem && mem[o].parent != x && mem[o].parent != o)
      modifies this`root, this`mem
      ensures Replaced(old(mem), mem, old(root), root, nil, o, x)
    {
      if mem[o].parent == nil {
        root := x;
      } else if mem[mem[o].parent].left == o {
        mem := SetLeft(mem, mem[o].parent, x);
      } else {
        mem := SetRight(mem, mem[o].parent, x);
      }
      mem := SetParent(mem, x, mem[o].parent);
    }

    /** A node with at most one child is replaced by that child s. */
    method SpliceOut(node: Ptr, child: Ptr, ghost p: Path, ghost t: Tree, ghost s: Tree)
      requires Holds(mem, root, nil, p, t) && t.T? && t.n == node
      requires (t.l == Leaf && s == t.r) || (t.r == Leaf && s == t.l)
      requires child == At(s, nil)
      modifies this`root, this`mem
      ensures mem.Keys == old(mem.Keys)
      ensures Holds(mem, root, nil, p, s) && mem[child].parent == Above(p, nil)
      ensures forall y :: y in old(mem) && y !in Nodes(t) && y !in PNodes(p) && y != nil ==> mem[y] == old(mem[y])
      ensures mem[node] == old(mem[node]) && (!p.Top? ==> root == old(root))
    {
      assert p.Top? || p.n in PNodes(p);
      assert s.T? ==> s.n in Nodes(s) && Rep(mem, nil, s, node);
      ReplaceNode(node, child);
      Spliced(old(mem), mem, old(root), root, nil, p, t, s);
    }

    /** The successor of a node with two children: the leftmost node on its right. */
    method Successor(node: Ptr, ghost p: Path, ghost t: Tree) returns (y: Ptr, ghost q: Path, ghost s: Tree)
      requires Holds(mem, root, nil, p, t) && t.T? && t.n == node && t.r.T?
      ensures AllLeft(q) && Plug(q, s) == t.r && s.T? && s.n == y && s.l == Leaf
      ensures Holds(mem, root, nil, Cat(q, R(t.l, t.n, t.c, p)), s)
    {
      DownRight(mem, root, nil, p, t);
      y := mem[node].right;
      q, s := Top, t.r;
      while mem[y].left != nil
        invariant AllLeft(q) && Plug(q, s) == t.r && s.T? && s.n == y
        invariant Holds(mem, root, nil, Cat(q, R(t.l, t.n, t.c, p)), s) && y in mem
        decreases s
      {
        DownLeft(mem, root, nil, Cat(q, R(t.l, t.n, t.c, p)), s);
        y := mem[y].left;
        q, s := L(s.n, s.c, s.r, q), s.l;
      }
    }

    /** The end of rbtree_delete for a node with two children: y takes the place of node. */
    method TakePlace(node: Ptr, y: Ptr)
      requires node in mem && y in mem && node != y
      requires var q, a := mem[node].parent, mem[node].left;
        && a in mem && a != y && a != node
        && (q == nil || (q in mem && q != y && q != node && q != a))
      modifies this`root, this`mem
      ensures TookOver(old(mem), mem, old(root), root, nil, node, y)
    {
      ReplaceNode(node, y);
      mem := SetLeft(mem, y, mem[node].left);
      mem := SetParent(mem, mem[y].left, y);
      mem := SetCol(mem, y, mem[node].col);
    }

    /** Two children, successor y is the right child. */
    method UnlinkNear(node: Ptr, y: Ptr, ghost p: Path, ghost t: Tree)
      requires Holds(mem, root, nil, p, t) && t.T? && t.n == node && t.l.T? && t.r.T? && t.r.l == Leaf && t.r.n == y
      modifies this`root, this`mem
      ensures mem.Keys == old(mem.Keys)
      ensures Holds(mem, root, nil, p, T(t.l, y, t.c, t.r.r))
      ensures At(t.r.r, nil) in mem && mem[At(t.r.r, nil)].parent == y
    {
      PartsNear(mem, root, nil, p, t);
      assert Rep(mem, nil, t.r, node) && t.r.n in Nodes(t.r) && t.l.n in Nodes(t.l);
      assert p.Top? || p.n in PNodes(p);
      assert t.r.r.T? ==> t.r.r.n in Nodes(t.r.r);
      var fixup := mem[y].right;
      mem := SetParent(mem, mem[node].left, y);
      mem := SetLeft(mem, y, mem[node].left);
      mem := SetParent(mem, fixup, y);
      TakePlace(node, y);
      Renamed(old(mem), mem, old(root), root, nil, p, t.l, node, t.c, t.r.r, y, y);
    }

    /** The successor y, deeper on the left edge of the right subtree, is taken out of it. */
    method DetachFar(y: Ptr, ghost p: Path, ghost t: Tree, ghost q: Path, ghost s: Tree)
      requires Holds(mem, root, nil, p, t) && t.T?
      requires !q.Top? && Plug(q, s) == t.r && s.T? && s.n == y && s.l == Leaf
      requires Holds(mem, root, nil, Cat(q, R(t.l, t.n, t.c, p)), s)
      modifies this`root, this`mem
      ensures mem.Keys == old(mem.Keys)
      ensures Holds(mem, root, nil, p, T(t.l, t.n, t.c, Plug(q, s.r)))
      ensures y in mem && y != nil && y != 0 && y !in Nodes(T(t.l, t.n, t.c, Plug(q, s.r))) && y !in PNodes(p)
      ensures At(s.r, nil) in mem && mem[At(s.r, nil)].parent == q.n
    {
      ghost var py := Cat(q, R(t.l, t.n, t.c, p));
      SpliceOut(y, mem[y].right, py, s, s.r);
      UpAlong(mem, root, nil, q, R(t.l, t.n, t.c, p), s.r);
      Up(mem, root, nil, R(t.l, t.n, t.c, p), Plug(q, s.r));
      PNodesCat(q, R(t.l, t.n, t.c, p));
      NodesOfPlug(q, s.r);
    }

    /** y, outside the tree, takes over both subtrees of node. */
    method SeatFar(node: Ptr, y: Ptr, ghost p: Path, ghost t: Tree)
      requires Holds(mem, root, nil, p, t) && t.T? && t.n == node && t.l.T? && t.r.T?
      requires y in mem && y != nil && y != 0 && y !in Nodes(t) && y !in PNodes(p)
      modifies this`root, this`mem
      ensures mem.Keys == old(mem.Keys) && mem[nil] == old(mem[nil])
      ensures Holds(mem, root, nil, p, T(t.l, y, t.c, t.r))
    {
      PartsFar(mem, root, nil, p, t, y);
      assert t.l.n in Nodes(t.l) && t.r.n in Nodes(t.r) && (p.Top? || p.n in PNodes(p));
      mem := SetRight(mem, y, mem[node].right);
      mem := SetParent(mem, mem[y].right, y);
      TakePlace(node, y);
      Renamed(old(mem), mem, old(root), root, nil, p, t.l, node, t.c, t.r, node, y);
    }

    /** The part of rbtree_delete for a node with two children. */
    method UnlinkInner(node: Ptr, ghost p: Path, ghost t: Tree)
      returns (fixup: Ptr, removed: Color, ghost q: Path, ghost s: Tree)
      requires Holds(mem, root, nil, p, t) && t.T? && t.n == node && t.l.T? && t.r.T?
      modifies this`root, this`mem
      ensures mem.Keys == old(mem.Keys)
      ensures AllLeft(q) && s.T? && s.l == Leaf && t.r == Plug(q, s) && removed == s.c && fixup == At(s.r, nil)
      ensures Holds(mem, root, nil, Cat(q, R(t.l, s.n, t.c, p)), s.r)
      ensures fixup in mem && mem[fixup].parent == Above(Cat(q, R(t.l, s.n, t.c, p)), nil)
    {
      var y;
      y, q, s := Successor(node, p, t);
      removed := mem[y].col;
      fixup := mem[y].right;
      SuccessorNear(mem, root, nil, q, R(t.l, t.n, t.c, p), s);
      if mem[y].parent == node {
        UnlinkNear(node, y, p, t);
      } else {
        PlugNode(q, s.r);
        DetachFar(y, p, t, q, s);
        SeatFar(node, y, p, T(t.l, t.n, t.c, Plug(q, s.r)));
      }
      DownRight(mem, root, nil, p, T(t.l, y, t.c, Plug(q, s.r)));
      DownAlong(mem, root, nil, q, R(t.l, y, t.c, p), s.r);
    }

    /** The unlinking half of rbtree_delete. */
    method Unlink(node: Ptr, ghost p: Path, ghost t: Tree)
      returns (fixup: Ptr, removed: Color, ghost p': Path, ghost s: Tree, ghost k: int, ghost at: nat)
      requires Valid() && Plug(p, t) == tree && t.T? && t.n == node
      modifies this`root, this`mem
      ensures Holds(mem, root, nil, p', s) && fixup == At(s, nil) && mem[fixup].parent == Above(p', nil)
      ensures removed.Black? ==> Deleting(p', s, k, height)
      ensures removed.Red? ==> Settled(p', s, k, height) && RootBlack(p') && !p'.Top?
      ensures Removed(Elems(), node, at, InOrder(Plug(p', s)))
    {
      FromRoot(mem, root, nil, p, t);
      removed := mem[node].col;
      at := |Before(p)| + |InOrder(t.l)|;
      if mem[node].left == nil {
        fixup := mem[node].right;
        p', s := p, t.r;
        k := UnlinkOuter(node, fixup, p, t, s);
      } else if mem[node].right == nil {
        fixup := mem[node].left;
        p', s := p, t.l;
        k := UnlinkOuter(node, fixup, p, t, s);
      } else {
        ghost var q, y;
        fixup, removed, q, y := UnlinkInner(node, p, t);
        p', s := Cat(q, R(t.l, y.n, t.c, p)), y.r;
        k := TookOverRb(p, t, q, y, height);
      }
    }

    /** Removal of a node with at most one child s. */
    method UnlinkOuter(node: Ptr, child: Ptr, ghost p: Path, ghost t: Tree, ghost s: Tree) returns (ghost k: int)
      requires Valid() && Plug(p, t) == tree && Holds(mem, root, nil, p, t) && t.T? && t.n == node
      requires ((t.l == Leaf && s == t.r) || (t.r == Leaf && s == t.l)) && child == At(s, nil)
      modifies this`root, this`mem
      ensures Holds(mem, root, nil, p, s) && child in mem && mem[child].parent == Above(p, nil)
      ensures t.c.Black? ==> Deleting(p, s, k, height)
      ensures t.c.Red? ==> Settled(p, s, k, height) && RootBlack(p) && !p.Top?
      ensures Removed(Elems(), node, |Before(p)| + |InOrder(t.l)|, InOrder(Plug(p, s)))
    {
      SpliceOut(node, child, p, t, s);
      k := SplicedRb(p, t, s, height);
      SplicedOrder(p, t, s);
    }

    method Delete(node: Ptr) returns (ghost at: nat)
      requires Valid()
      requires node == 0 || node in Nodes(tree)
      modifies this
      ensures Valid()
      ensures node == 0 ==> tree == old(tree) && mem == old(mem)
      ensures node != 0 ==> Removed(old(Elems()), node, at, Elems())
    {
      at := 0;
      if node == 0 {
        return;
      }
      ghost var p, t := Locate(tree, node);
      var fixup, removed;
      ghost var s, k;
      fixup, removed, p, s, k, at := Unlink(node, p, t);
      if removed == Black {
        tree, height := DeleteFixup(fixup, p, s, k, height);
      } else {
        SettledEnds(mem, root, nil, p, s, k, height);
        tree := Plug(p, s);
      }
    }

    method Search(cmp: Ptr -> int) returns (found: Ptr, ghost steps: nat)
      requires Valid()
      ensures found != 0 ==> found in Elems() && cmp(found) == 0
      ensures found == 0 && Splits(cmp, Elems()) ==> forall x :: x in Elems() ==> cmp(x) != 0
      ensures height >= 0 && steps <= 2 * height && Pow2(height) <= |Elems()| + 1
    {
      steps := 0;
      BalNonNegative(tree, height);
      DepthAndSize(tree, height);
      var node := root;
      if node == nil {
        return 0, 0;
      }
      ghost var p, t := Top, tree;
      while node != nil
        invariant Plug(p, t) == tree && Holds(mem, root, nil, p, t) && node == At(t, nil)
        invariant steps + Depth(t) <= Depth(tree) && Narrowed(cmp, p)
        decreases t
      {
        var result := cmp(node);
        steps := steps + 1;
        if result < 0 {
          DownLeft(mem, root, nil, p, t);
          NarrowLeft(cmp, p, t);
          node := mem[node].left;
          p, t := L(t.n, t.c, t.r, p), t.l;
        } else if result > 0 {
          DownRight(mem, root, nil, p, t);
          NarrowRight(cmp, p, t);
          node := mem[node].right;
          p, t := R(t.l, t.n, t.c, p), t.r;
        } else {
          PlugInOrder(p, t);
          return node, steps;
        }
      }
      PlugInOrder(p, Leaf);
      NothingBetween(cmp, Before(p), After(p));
      return 0, steps;
    }

    method First() returns (n: Ptr)
      requires Valid()
      ensures n == if Elems() == [] then 0 else Elems()[0]
    {
      n := root;
      if n == nil {
        return 0;
      }
      ghost var p, t := Top, tree;
      while mem[n].left != nil
        invariant Plug(p, t) == tree && Holds(mem, root, nil, p, t) && t.T? && n == t.n && n in mem
        invariant Before(p) == []
        decreases t
      {
        DownLeft(mem, root, nil, p, t);
        n := mem[n].left;
        p, t := L(t.n, t.c, t.r, p), t.l;
      }
      PlugInOrder(p, t);
    }

    method Last() returns (n: Ptr)
      requires Valid()
      ensures n == if Elems() == [] then 0 else Elems()[|Elems()| - 1]
    {
      n := root;
      if n == nil {
        return 0;
      }
      ghost var p, t := Top, tree;
      while mem[n].right != nil
        invariant Plug(p, t) == tree && Holds(mem, root, nil, p, t) && t.T? && n == t.n && n in mem
        invariant After(p) == []
        decreases t
      {
        DownRight(mem, root, nil, p, t);
        n := mem[n].right;
        p, t := R(t.l, t.n, t.c, p), t.r;
      }
      PlugInOrder(p, t);
    }

    method Next(node: Ptr, ghost i: nat) returns (n: Ptr)
      requires Valid() && i < |Elems()| && Elems()[i] == node
      ensures n == if i + 1 < |Elems()| then Elems()[i + 1] else 0
    {
      ghost var p, t := Position(tree, i);
      FromRoot(mem, root, nil, p, t);
      PlugInOrder(p, t);
      if mem[node].right != nil {
        DownRight(mem, root, nil, p, t);
        n := mem[node].right;
        ghost var q, s := R(t.l, t.n, t.c, p), t.r;
        while mem[n].left != nil
          invariant Plug(q, s) == tree && Holds(mem, root, nil, q, s) && s.T? && n == s.n && n in mem
          invariant Before(q) == Before(p) + InOrder(t.l) + [node]
          decreases s
        {
          DownLeft(mem, root, nil, q, s);
          n := mem[n].left;
          q, s := L(s.n, s.c, s.r, q), s.l;
        }
        PlugInOrder(q, s);
        return;
      }
      ghost var rest := After(p);
      var child, parent := node, mem[node].parent;
      while parent != nil && child == mem[parent].right
        invariant Holds(mem, root, nil, p, t) && t.T? && t.n == child && parent == Above(p, nil) && (parent == nil || parent in mem)
        invariant After(p) == rest
        decreases p
      {
        Up(mem, root, nil, p, t);
        p, t := p.up, Sub(p, t);
        child := parent;
        parent := mem[parent].parent;
      }
      n := if parent == nil then 0 else parent;
    }

    method Prev(node: Ptr, ghost i: nat) returns (n: Ptr)
      requires Valid() && i < |Elems()| && Elems()[i] == node
      ensures n == if i > 0 then Elems()[i - 1] else 0
    {
      ghost var p, t := Position(tree, i);
      FromRoot(mem, root, nil, p, t);
      PlugInOrder(p, t);
      if mem[node].left != nil {
        DownLeft(mem, root, nil, p, t);
        n := mem[node].left;
        ghost var q, s := L(t.n, t.c, t.r, p), t.l;
        while mem[n].right != nil
          invariant Plug(q, s) == tree && Holds(mem, root, nil, q, s) && s.T? && n == s.n && n in mem
          invariant After(q) == [node] + InOrder(t.r) + After(p)
          decreases s
        {
          DownRight(mem, root, nil, q, s);
          n := mem[n].right;
          q, s := R(s.l, s.n, s.c, q), s.r;
        }
        PlugInOrder(q, s);
        return;
      }
      ghost var rest := Before(p);
      var child, parent := node, mem[node].parent;
      while parent != nil && child == mem[parent].left
        invariant Holds(mem, root, nil, p, t) && t.T? && t.n == child && parent == Above(p, nil) && (parent == nil || parent in mem)
        invariant Before(p) == rest
        decreases p
      {
        Up(mem, root, nil, p, t);
        p, t := p.up, Sub(p, t);
        child := parent;
        parent := mem[parent].parent;
      }
      n := if parent == nil then 0 else parent;
    }
  }
}
