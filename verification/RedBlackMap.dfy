/**
 The red-black tree map: insertion and deletion with their fix-ups on node
 records with parent links, each step proved on the tree the records mirror.
 The tree itself is ghost.
 */
module RedBlackMap {
  import opened RedBlackTree
  import opened RedBlackStore
  import opened RedBlackSwap
  import opened RedBlackOrder
  import opened FreshIds

  /** A reference to a pointer: the root, or a child field of a node. */
  datatype Slot = RootSlot | LeftOf(id: Ref) | RightOf(id: Ref)

  function RotatedLeft(t: Tree): Tree
    requires t.T? && t.right.T?
  {
    T(t.right.color, T(t.color, t.left, t.item, t.right.left), t.right.item, t.right.right)
  }

  function RotatedRight(t: Tree): Tree
    requires t.T? && t.left.T?
  {
    T(t.left.color, t.left.left, t.left.item, T(t.color, t.left.right, t.item, t.right))
  }

  lemma {:induction false} RotatedItems(t: Tree)
    requires t.T?
    ensures t.right.T? ==> InOrder(RotatedLeft(t)) == InOrder(t) && Ids(RotatedLeft(t)) == Ids(t)
                           && HoleIds(RotatedLeft(t)) == HoleIds(t)
    ensures t.left.T? ==> InOrder(RotatedRight(t)) == InOrder(t) && Ids(RotatedRight(t)) == Ids(t)
                          && HoleIds(RotatedRight(t)) == HoleIds(t)
  {
    if t.right.T? {
      Reassociate(InOrder(t.left), t.item, InOrder(t.right.left), t.right.item, InOrder(t.right.right));
    }
    if t.left.T? {
      Reassociate(InOrder(t.left.left), t.left.item, InOrder(t.left.right), t.item, InOrder(t.right));
    }
  }

  lemma {:induction false} RotatedApart(t: Tree)
    requires t.T? && Apart(t)
    ensures t.right.T? ==> Apart(RotatedLeft(t))
    ensures t.left.T? ==> Apart(RotatedRight(t))
  {
  }

  lemma Reassociate(a: seq<Item>, x: Item, b: seq<Item>, y: Item, c: seq<Item>)
    ensures (a + [x] + b) + [y] + c == a + [x] + (b + [y] + c)
  {
  }

  /** The records after `RotateLeft` at `x`, which hangs in the gap of `c`. */
  function RotatedLeftStore(nodes: Store, c: Ctx, x: Ref): (r: Store)
    requires x in nodes && nodes[x].right in nodes && (!c.Top? ==> c.item.id in nodes)
    ensures r.Keys == nodes.Keys
  {
    var r := nodes[x].right;
    var n1 := nodes[x := nodes[x].(right := nodes[r].left)];
    var n2 := n1[r := n1[r].(left := x)];
    var n3 := Reslot(Adopted(Adopted(n2, x), r), c, r);
    n3[r := n3[r].(parent := nodes[x].parent)]
  }

  lemma {:induction false} RotatedLeftAt(before: Store, c: Ctx, x: Ref)
    requires x in before && before[x].right in before && (!c.Top? ==> c.item.id in before) && 0 !in before
    requires
      var l, r := before[x].left, before[x].right;
      var m, f := before[r].left, before[r].right;
      && x != r && l !in {x, r} && m !in {x, r} && f !in {x, r} && (l == 0 || l != m) && (f == 0 || f != m)
      && (l in before ==> before[l].parent == x) && (f in before ==> before[f].parent == r)
      && (!c.Top? ==> c.item.id !in {x, r, l, m, f})
    ensures
      var nodes, r, m := RotatedLeftStore(before, c, x), before[x].right, before[before[x].right].left;
      && nodes[x] == before[x].(right := m, parent := r)
      && nodes[r] == before[r].(left := x, parent := before[x].parent)
      && Same(before, nodes, before.Keys - {x, r, m, ParentId(c)})
      && (m in before ==> nodes[m] == before[m].(parent := x))
      && (!c.Top? ==> nodes[c.item.id] == Reslot(before, c, r)[c.item.id])
  {
  }

  /** What a left rotation needs to know of the records around it. */
  lemma {:induction false} RotateLeftReady(before: Store, c: Ctx, t: Tree)
    requires t.T? && t.right.T? && Mirrors(before, t, ParentId(c)) && Apart(t) && CtxIds(c) !! Ids(t)
    requires !c.Top? ==> c.item.id in before && c.item.id != 0
    requires 0 !in before
    ensures t.item.id in before && t.right.item.id in before
    ensures
      var n := before[t.item.id];
      && n.left == RootId(t.left) && n.right == t.right.item.id && n.parent == ParentId(c)
      && n.key == t.item.key && n.val == t.item.val && n.color == t.color
    ensures
      var n := before[t.right.item.id];
      && n.left == RootId(t.right.left) && n.right == RootId(t.right.right)
      && n.key == t.right.item.key && n.val == t.right.item.val && n.color == t.right.color
    ensures
      var x := t.item.id;
      var l, r := before[x].left, before[x].right;
      var m, f := before[r].left, before[r].right;
      && m == RootId(t.right.left) && r == t.right.item.id
      && x != r && l !in {x, r} && m !in {x, r} && f !in {x, r} && (l == 0 || l != m) && (f == 0 || f != m)
      && (l in before ==> before[l].parent == x) && (f in before ==> before[f].parent == r)
      && (!c.Top? ==> c.item.id !in {x, r, l, m, f})
      && (l != 0 ==> l in before) && (m != 0 ==> m in before) && (f != 0 ==> f in before)
  {
    Unfold(before, t, ParentId(c));
    Unfold(before, t.right, t.item.id);
    MirrorsParent(before, t.left, t.item.id);
    MirrorsParent(before, t.right.right, t.right.item.id);
    CtxParent(c);
    hide Apart, Ids, Mirrors, CtxIds;
  }

  /** The outer subtrees are out of reach of a left rotation. */
  lemma {:induction false} RotateLeftApart(before: Store, c: Ctx, t: Tree)
    requires t.T? && t.right.T? && Mirrors(before, t, ParentId(c)) && Apart(t) && CtxIds(c) !! Ids(t)
    requires 0 !in before
    ensures Ids(t.left) !! {t.item.id, t.right.item.id, RootId(t.right.left), ParentId(c)}
    ensures Ids(t.right.right) !! {t.item.id, t.right.item.id, RootId(t.right.left), ParentId(c)}
    ensures Ids(t.right.left) !! {t.item.id, t.right.item.id, ParentId(c)}
    ensures Apart(t.right.left) && Mirrors(before, t.right.left, t.right.item.id)
    ensures Mirrors(before, t.left, t.item.id) && Mirrors(before, t.right.right, t.right.item.id)
  {
    MirrorsIds(before, t, ParentId(c));
    Unfold(before, t, ParentId(c));
    Unfold(before, t.right, t.item.id);
    CtxParent(c);
    hide Mirrors, Apart, Ids, CtxIds;
  }

  lemma {:induction false} RotateLeftParts(before: Store, c: Ctx, t: Tree)
    requires t.T? && t.right.T? && Mirrors(before, t, ParentId(c)) && Apart(t) && CtxIds(c) !! Ids(t)
    requires t.item.id in before && before[t.item.id].right in before && (!c.Top? ==> c.item.id in before && c.item.id != 0)
    requires 0 !in before
    ensures Mirrors(RotatedLeftStore(before, c, t.item.id), RotatedLeft(t), ParentId(c))
  {
    var nodes := RotatedLeftStore(before, c, t.item.id);
    RotateLeftReady(before, c, t);
    RotateLeftApart(before, c, t);
    hide Mirrors, Apart, Ids, RotatedLeftStore, CtxIds;
    RotatedLeftAt(before, c, t.item.id);
    MirrorsSame(before, nodes, t.left, t.item.id);
    MirrorsReparented(before, nodes, t.right.left, t.right.item.id, t.item.id);
    MirrorsSame(before, nodes, t.right.right, t.right.item.id);
    Fold(nodes, RotatedLeft(t).left, t.right.item.id);
    Fold(nodes, RotatedLeft(t), ParentId(c));
  }

  lemma {:induction false} RotateLeftStep(before: Store, root: Ref, c: Ctx, t: Tree)
    requires Around(before, root, c, t) && t.T? && t.right.T?
    requires t.item.id in before && before[t.item.id].right in before && (!c.Top? ==> c.item.id in before)
    requires 0 !in before
    ensures Around(RotatedLeftStore(before, c, t.item.id), if c.Top? then t.right.item.id else root, c, RotatedLeft(t))
  {
    var nodes := RotatedLeftStore(before, c, t.item.id);
    RotateLeftReady(before, c, t);
    RotateLeftParts(before, c, t);
    RotatedApart(t);
    RotatedItems(t);
    RotateLeftOutside(before, c, t);
    hide Mirrors, MirrorsCtx, Apart, Ids, RotatedLeftStore, CtxIds;
  }

  lemma {:induction false} RotateLeftOutside(before: Store, c: Ctx, t: Tree)
    requires t.T? && t.right.T? && Mirrors(before, t, ParentId(c)) && Apart(t) && CtxIds(c) !! Ids(t)
    requires MirrorsCtx(before, c, t.item.id, 0) && CtxApart(c) && before.Keys == CtxIds(c) + Ids(t)
    requires t.item.id in before && before[t.item.id].right in before && (!c.Top? ==> c.item.id in before)
    requires 0 !in before
    ensures MirrorsCtx(RotatedLeftStore(before, c, t.item.id), c, t.right.item.id, 0)
  {
    var nodes := RotatedLeftStore(before, c, t.item.id);
    RotateLeftReady(before, c, t);
    Unfold(before, t, ParentId(c));
    Unfold(before, t.right, t.item.id);
    CtxParent(c);
    hide Mirrors, MirrorsCtx, Apart, Ids, RotatedLeftStore, CtxIds;
    RotatedLeftAt(before, c, t.item.id);
    MirrorsReslotted(before, nodes, c, t.item.id, t.right.item.id, 0);
  }

  /** The records after `RotateRight` at `x`, which hangs in the gap of `c`. */
  function RotatedRightStore(nodes: Store, c: Ctx, x: Ref): (r: Store)
    requires x in nodes && nodes[x].left in nodes && (!c.Top? ==> c.item.id in nodes)
    ensures r.Keys == nodes.Keys
  {
    var r := nodes[x].left;
    var n1 := nodes[x := nodes[x].(left := nodes[r].right)];
    var n2 := n1[r := n1[r].(right := x)];
    var n3 := Reslot(Adopted(Adopted(n2, x), r), c, r);
    n3[r := n3[r].(parent := nodes[x].parent)]
  }

  lemma {:induction false} RotatedRightAt(before: Store, c: Ctx, x: Ref)
    requires x in before && before[x].left in before && (!c.Top? ==> c.item.id in before) && 0 !in before
    requires
      var l, r := before[x].right, before[x].left;
      var m, f := before[r].right, before[r].left;
      && x != r && l !in {x, r} && m !in {x, r} && f !in {x, r} && (l == 0 || l != m) && (f == 0 || f != m)
      && (l in before ==> before[l].parent == x) && (f in before ==> before[f].parent == r)
      && (!c.Top? ==> c.item.id !in {x, r, l, m, f})
    ensures
      var nodes, r, m := RotatedRightStore(before, c, x), before[x].left, before[before[x].left].right;
      && nodes[x] == before[x].(left := m, parent := r)
      && nodes[r] == before[r].(right := x, parent := before[x].parent)
      && Same(before, nodes, before.Keys - {x, r, m, ParentId(c)})
      && (m in before ==> nodes[m] == before[m].(parent := x))
      && (!c.Top? ==> nodes[c.item.id] == Reslot(before, c, r)[c.item.id])
  {
  }

  /** What a right rotation needs to know of the records around it. */
  lemma {:induction false} RotateRightReady(before: Store, c: Ctx, t: Tree)
    requires t.T? && t.left.T? && Mirrors(before, t, ParentId(c)) && Apart(t) && CtxIds(c) !! Ids(t)
    requires !c.Top? ==> c.item.id in before && c.item.id != 0
    requires 0 !in before
    ensures t.item.id in before && t.left.item.id in before
    ensures
      var n := before[t.item.id];
      && n.right == RootId(t.right) && n.left == t.left.item.id && n.parent == ParentId(c)
      && n.key == t.item.key && n.val == t.item.val && n.color == t.color
    ensures
      var n := before[t.left.item.id];
      && n.right == RootId(t.left.right) && n.left == RootId(t.left.left)
      && n.key == t.left.item.key && n.val == t.left.item.val && n.color == t.left.color
    ensures
      var x := t.item.id;
      var l, r := before[x].right, before[x].left;
      var m, f := before[r].right, before[r].left;
      && m == RootId(t.left.right) && r == t.left.item.id
      && x != r && l !in {x, r} && m !in {x, r} && f !in {x, r} && (l == 0 || l != m) && (f == 0 || f != m)
      && (l in before ==> before[l].parent == x) && (f in before ==> before[f].parent == r)
      && (!c.Top? ==> c.item.id !in {x, r, l, m, f})
      && (l != 0 ==> l in before) && (m != 0 ==> m in before) && (f != 0 ==> f in before)
  {
    Unfold(before, t, ParentId(c));
    Unfold(before, t.left, t.item.id);
    MirrorsParent(before, t.right, t.item.id);
    MirrorsParent(before, t.left.left, t.left.item.id);
    CtxParent(c);
    hide Apart, Ids, Mirrors, CtxIds;
  }

  /** The outer subtrees are out of reach of a right rotation. */
  lemma {:induction false} RotateRightApart(before: Store, c: Ctx, t: Tree)
    requires t.T? && t.left.T? && Mirrors(before, t, ParentId(c)) && Apart(t) && CtxIds(c) !! Ids(t)
    requires 0 !in before
    ensures Ids(t.right) !! {t.item.id, t.left.item.id, RootId(t.left.right), ParentId(c)}
    ensures Ids(t.left.left) !! {t.item.id, t.left.item.id, RootId(t.left.right), ParentId(c)}
    ensures Ids(t.left.right) !! {t.item.id, t.left.item.id, ParentId(c)}
    ensures Apart(t.left.right) && Mirrors(before, t.left.right, t.left.item.id)
    ensures Mirrors(before, t.right, t.item.id) && Mirrors(before, t.left.left, t.left.item.id)
  {
    MirrorsIds(before, t, ParentId(c));
    Unfold(before, t, ParentId(c));
    Unfold(before, t.left, t.item.id);
    CtxParent(c);
    hide Mirrors, Apart, Ids, CtxIds;
  }

  lemma {:induction false} RotateRightParts(before: Store, c: Ctx, t: Tree)
    requires t.T? && t.left.T? && Mirrors(before, t, ParentId(c)) && Apart(t) && CtxIds(c) !! Ids(t)
    requires t.item.id in before && before[t.item.id].left in before && (!c.Top? ==> c.item.id in before && c.item.id != 0)
    requires 0 !in before
    ensures Mirrors(RotatedRightStore(before, c, t.item.id), RotatedRight(t), ParentId(c))
  {
    var nodes := RotatedRightStore(before, c, t.item.id);
    RotateRightReady(before, c, t);
    RotateRightApart(before, c, t);
    hide Mirrors, Apart, Ids, RotatedRightStore, CtxIds;
    RotatedRightAt(before, c, t.item.id);
    MirrorsSame(before, nodes, t.right, t.item.id);
    MirrorsReparented(before, nodes, t.left.right, t.left.item.id, t.item.id);
    MirrorsSame(before, nodes, t.left.left, t.left.item.id);
    Fold(nodes, RotatedRight(t).right, t.left.item.id);
    Fold(nodes, RotatedRight(t), ParentId(c));
  }

  lemma {:induction false} RotateRightStep(before: Store, root: Ref, c: Ctx, t: Tree)
    requires Around(before, root, c, t) && t.T? && t.left.T?
    requires t.item.id in before && before[t.item.id].left in before && (!c.Top? ==> c.item.id in before)
    requires 0 !in before
    ensures Around(RotatedRightStore(before, c, t.item.id), if c.Top? then t.left.item.id else root, c, RotatedRight(t))
  {
    var nodes := RotatedRightStore(before, c, t.item.id);
    RotateRightReady(before, c, t);
    RotateRightParts(before, c, t);
    RotatedApart(t);
    RotatedItems(t);
    RotateRightOutside(before, c, t);
    hide Mirrors, MirrorsCtx, Apart, Ids, RotatedRightStore, CtxIds;
  }

  lemma {:induction false} RotateRightOutside(before: Store, c: Ctx, t: Tree)
    requires t.T? && t.left.T? && Mirrors(before, t, ParentId(c)) && Apart(t) && CtxIds(c) !! Ids(t)
    requires MirrorsCtx(before, c, t.item.id, 0) && CtxApart(c) && before.Keys == CtxIds(c) + Ids(t)
    requires t.item.id in before && before[t.item.id].left in before && (!c.Top? ==> c.item.id in before)
    requires 0 !in before
    ensures MirrorsCtx(RotatedRightStore(before, c, t.item.id), c, t.left.item.id, 0)
  {
    var nodes := RotatedRightStore(before, c, t.item.id);
    RotateRightReady(before, c, t);
    Unfold(before, t, ParentId(c));
    Unfold(before, t.left, t.item.id);
    CtxParent(c);
    hide Mirrors, MirrorsCtx, Apart, Ids, RotatedRightStore, CtxIds;
    RotatedRightAt(before, c, t.item.id);
    MirrorsReslotted(before, nodes, c, t.item.id, t.left.item.id, 0);
  }

  class RedBlackMap {
    var nodes: Store
    var treeRoot: Ref
    var nodeCount: nat
    ghost var tree: Tree

    ghost predicate Shaped()
      reads this`nodes, this`treeRoot, this`tree
    {
      Holds(nodes, treeRoot, tree)
    }

    /** The same nodes, in the same order, with the same keys and values. */
    twostate predicate SameItems()
      reads this
    {
      InOrder(tree) == old(InOrder(tree)) && nodes.Keys == old(nodes.Keys) && HoleIds(tree) == old(HoleIds(tree))
    }

    function SelfPath(x: Ref): Slot
      requires x in nodes && (nodes[x].parent != 0 ==> nodes[x].parent in nodes)
      reads this
    {
      var p := nodes[x].parent;
      if p == 0 then RootSlot else if nodes[p].left == x then LeftOf(p) else RightOf(p)
    }

    method Assign(slot: Slot, y: Ref)
      requires !slot.RootSlot? ==> slot.id in nodes
      modifies this`nodes, this`treeRoot
      ensures slot.RootSlot? ==> treeRoot == y && nodes == old(nodes)
      ensures slot.LeftOf? ==> treeRoot == old(treeRoot) && nodes == old(nodes)[slot.id := old(nodes)[slot.id].(left := y)]
      ensures slot.RightOf? ==> treeRoot == old(treeRoot) && nodes == old(nodes)[slot.id := old(nodes)[slot.id].(right := y)]
    {
      match slot
      case RootSlot => treeRoot := y;
      case LeftOf(id) => nodes := nodes[id := nodes[id].(left := y)];
      case RightOf(id) => nodes := nodes[id := nodes[id].(right := y)];
    }

    method SetChildrensParent(x: Ref)
      requires x in nodes && 0 !in nodes
      requires nodes[x].left != 0 ==> nodes[x].left in nodes
      requires nodes[x].right != 0 ==> nodes[x].right in nodes
      requires nodes[x].left != x && nodes[x].right != x
      modifies this`nodes
      ensures nodes == Adopted(old(nodes), x)
    {
      if nodes[x].left != 0 {
        nodes := nodes[nodes[x].left := nodes[nodes[x].left].(parent := x)];
      }
      if nodes[x].right != 0 {
        nodes := nodes[nodes[x].right := nodes[nodes[x].right].(parent := x)];
      }
    }

    /** What the records say around a cursor. */
    lemma {:induction false} At(c: Ctx, t: Tree)
      requires Shaped() && tree == Plug(c, t)
      ensures Around(nodes, treeRoot, c, t) && 0 !in nodes
    {
      LookAround(nodes, treeRoot, c, t);
      ApartNotNull(tree);
    }

    static lemma {:induction false} ApartNotNull(t: Tree)
      requires Apart(t)
      ensures 0 !in Ids(t)
    {
      if t.T? {
        ApartNotNull(t.left);
        ApartNotNull(t.right);
      }
    }

    lemma {:induction false} SlotOf(c: Ctx, t: Tree)
      requires Shaped() && tree == Plug(c, t) && !t.Nil?
      ensures t.item.id in nodes && nodes[t.item.id].parent == ParentId(c)
      ensures if c.Top? then ParentId(c) == 0 else c.item.id in nodes && c.item.id != 0
      ensures SelfPath(t.item.id) == if c.Top? then RootSlot else if c.InLeft? then LeftOf(c.item.id) else RightOf(c.item.id)
    {
      At(c, t);
      if c.InRight? {
        RootInIds(c.other);
      }
    }

    /** A subtree is exchanged for one with the same items. */
    lemma {:induction false} Refocus(c: Ctx, t: Tree, s: Tree)
      requires Around(nodes, treeRoot, c, s)
      ensures Holds(nodes, treeRoot, Plug(c, s))
      ensures InOrder(t) == InOrder(s) ==> InOrder(Plug(c, t)) == InOrder(Plug(c, s))
      ensures Ids(t) == Ids(s) ==> Ids(Plug(c, t)) == Ids(Plug(c, s))
      ensures HoleIds(t) == HoleIds(s) ==> HoleIds(Plug(c, t)) == HoleIds(Plug(c, s))
    {
      LookAround(nodes, treeRoot, c, s);
      InOrderPlug(c, t);
      InOrderPlug(c, s);
      PlugIds(c, t);
      PlugIds(c, s);
    }

    method SetColor(x: Ref, color: Color, ghost c: Ctx, ghost t: Tree)
      requires Shaped() && tree == Plug(c, t) && t.T? && t.item.id == x
      modifies this`nodes, this`tree
      ensures Shaped() && tree == Plug(c, t.(color := color)) && SameItems()
    {
      At(c, t);
      nodes := nodes[x := nodes[x].(color := color)];
      tree := Plug(c, t.(color := color));
      MirrorsSame(old(nodes), nodes, t.left, x);
      MirrorsSame(old(nodes), nodes, t.right, x);
      MirrorsCtxSame(old(nodes), nodes, c, x, 0);
      Refocus(c, t, t.(color := color));
    }

    method RotateLeft(x: Ref, ghost c: Ctx, ghost t: Tree)
      requires Shaped() && tree == Plug(c, t) && t.T? && t.right.T? && t.item.id == x
      modifies this`nodes, this`treeRoot, this`tree
      ensures Shaped() && tree == Plug(c, RotatedLeft(t)) && SameItems()
    {
      At(c, t);
      SlotOf(c, t);
      RotateLeftReady(nodes, c, t);
      hide Mirrors, Apart, Ids, CtxIds, MirrorsCtx, Plug, RotatedLeftStore, Adopted, Reslot;
      TurnLeft(x, c);
      RotateLeftStep(old(nodes), old(treeRoot), c, t);
      Refocus(c, t, RotatedLeft(t));
      tree := Plug(c, RotatedLeft(t));
      RotatedItems(t);
    }

    /** The pointer writes of a left rotation. */
    method TurnLeft(x: Ref, ghost c: Ctx)
      requires x in nodes && nodes[x].right in nodes && 0 !in nodes && nodes[x].right != x
      requires nodes[x].left != 0 ==> nodes[x].left in nodes
      requires nodes[nodes[x].right].left != 0 ==> nodes[nodes[x].right].left in nodes
      requires nodes[nodes[x].right].right != 0 ==> nodes[nodes[x].right].right in nodes
      requires nodes[x].left != x && nodes[nodes[x].right].left != x && nodes[nodes[x].right].right != nodes[x].right
      requires nodes[x].parent != 0 ==> nodes[x].parent in nodes
      requires !c.Top? ==> c.item.id in nodes
      requires SelfPath(x) == if c.Top? then RootSlot else if c.InLeft? then LeftOf(c.item.id) else RightOf(c.item.id)
      modifies this`nodes, this`treeRoot
      ensures nodes == RotatedLeftStore(old(nodes), c, x)
      ensures treeRoot == if c.Top? then old(nodes)[x].right else old(treeRoot)
    {
      hide Adopted, SelfPath;
      var parentBackup := nodes[x].parent;
      var path := SelfPath(x);
      var replacement := nodes[x].right;
      nodes := nodes[x := nodes[x].(right := nodes[replacement].left)];
      nodes := nodes[replacement := nodes[replacement].(left := x)];
      AdoptedKeeps(nodes, x, replacement);
      SetChildrensParent(x);
      SetChildrensParent(replacement);
      Assign(path, replacement);
      nodes := nodes[replacement := nodes[replacement].(parent := parentBackup)];
    }

    method RotateRight(x: Ref, ghost c: Ctx, ghost t: Tree)
      requires Shaped() && tree == Plug(c, t) && t.T? && t.left.T? && t.item.id == x
      modifies this`nodes, this`treeRoot, this`tree
      ensures Shaped() && tree == Plug(c, RotatedRight(t)) && SameItems()
    {
      At(c, t);
      SlotOf(c, t);
      RotateRightReady(nodes, c, t);
      hide Mirrors, Apart, Ids, CtxIds, MirrorsCtx, Plug, RotatedRightStore, Adopted, Reslot;
      TurnRight(x, c);
      RotateRightStep(old(nodes), old(treeRoot), c, t);
      Refocus(c, t, RotatedRight(t));
      tree := Plug(c, RotatedRight(t));
      RotatedItems(t);
    }

    /** The pointer writes of a right rotation. */
    method TurnRight(x: Ref, ghost c: Ctx)
      requires x in nodes && nodes[x].left in nodes && 0 !in nodes && nodes[x].left != x
      requires nodes[x].right != 0 ==> nodes[x].right in nodes
      requires nodes[nodes[x].left].right != 0 ==> nodes[nodes[x].left].right in nodes
      requires nodes[nodes[x].left].left != 0 ==> nodes[nodes[x].left].left in nodes
      requires nodes[x].right != x && nodes[nodes[x].left].right != x && nodes[nodes[x].left].left != nodes[x].left
      requires nodes[x].parent != 0 ==> nodes[x].parent in nodes
      requires !c.Top? ==> c.item.id in nodes
      requires SelfPath(x) == if c.Top? then RootSlot else if c.InRight? then RightOf(c.item.id) else LeftOf(c.item.id)
      modifies this`nodes, this`treeRoot
      ensures nodes == RotatedRightStore(old(nodes), c, x)
      ensures treeRoot == if c.Top? then old(nodes)[x].left else old(treeRoot)
    {
      hide Adopted, SelfPath;
      var parentBackup := nodes[x].parent;
      var path := SelfPath(x);
      var replacement := nodes[x].left;
      nodes := nodes[x := nodes[x].(left := nodes[replacement].right)];
      nodes := nodes[replacement := nodes[replacement].(right := x)];
      AdoptedKeeps(nodes, x, replacement);
      SetChildrensParent(x);
      SetChildrensParent(replacement);
      Assign(path, replacement);
      nodes := nodes[replacement := nodes[replacement].(parent := parentBackup)];
    }

    function GetGrandParent(x: Ref): Ref
      requires x in nodes && (nodes[x].parent != 0 ==> nodes[x].parent in nodes)
      reads this
    {
      if nodes[x].parent == 0 then 0 else nodes[nodes[x].parent].parent
    }

    function GetUncle(x: Ref): Ref
      requires x in nodes && (nodes[x].parent != 0 ==> nodes[x].parent in nodes)
      requires GetGrandParent(x) != 0 ==> GetGrandParent(x) in nodes
      reads this
    {
      var g := GetGrandParent(x);
      if g == 0 then 0 else if nodes[x].parent == nodes[g].left then nodes[g].right else nodes[g].left
    }

    /** The records of the parent, on either side. */
    lemma {:induction false} ParentAt(c: Ctx, t: Tree)
      requires Shaped() && tree == Plug(c, t) && t.T? && !c.Top?
      ensures t.item.id in nodes && nodes[t.item.id].parent == c.item.id != 0 && nodes[t.item.id].color == t.color
      ensures c.up.Top? <==> ParentId(c.up) == 0
      ensures c.item.id in nodes && nodes[c.item.id].color == c.color && nodes[c.item.id].parent == ParentId(c.up)
      ensures nodes[c.item.id].left == (if c.InLeft? then t.item.id else RootId(c.other))
      ensures nodes[c.item.id].right == (if c.InLeft? then RootId(c.other) else t.item.id)
      ensures RootId(c.other) != t.item.id && tree == Plug(c.up, Fill(c, t))
      ensures c.other.Nil? <==> RootId(c.other) == 0
      ensures !c.other.Nil? ==> RootId(c.other) in nodes && nodes[RootId(c.other)].color == ColorOf(c.other)
    {
      At(c, t);
      RootInIds(c.other);
      if !c.other.Nil? {
        MirrorsIds(nodes, c.other, c.item.id);
      }
    }

    /** A red node, in a tree whose only fault may be that the parent is red too. */
    static ghost predicate RedAt(c: Ctx, t: Tree, k: nat) {
      t.T? && t.color == Red && Rb(t, k) && CtxRb(c, k)
    }

    /** Parent and uncle made black, grandparent made red. */
    static function Lifted(c: Ctx, t: Tree): Tree
      requires !c.Top? && !c.up.Top? && c.up.other.T?
    {
      Fill(c.up.(other := c.up.other.(color := Black), color := Red), Fill(c.(color := Black), t))
    }

    static lemma {:induction false} LiftedRed(c: Ctx, t: Tree, k: nat)
      requires RedAt(c, t, k) && !c.Top? && !c.up.Top? && c.color == Red && ColorOf(c.up.other) == Red
      ensures RedAt(c.up.up, Lifted(c, t), k + 1) && Depth(c.up.up) < Depth(c)
    {
      assert CtxRb(c.up, k) && Depth(c.up) < Depth(c);
      assert CtxRb(c.up.up, k + 1) && Rb(c.other, k);
      assert Rb(T(Black, t, c.item, c.other), k + 1) && Rb(T(Black, c.other, c.item, t), k + 1);
      assert Rb(c.up.other.(color := Black), k + 1);
    }

    static lemma {:induction false} TopBlackAt(c: Ctx, t: Tree)
      requires !c.Top?
      ensures TopBlack(c) ==> ColorOf(Plug(c, t)) == Black
    {
      PlugColor(c, t, Nil);
    }

    static lemma {:induction false} TopBlackUpUp(c: Ctx)
      requires !c.Top? && !c.up.Top?
      ensures TopBlack(c) ==> TopBlack(c.up.up)
    {
      if TopBlack(c) {
        TopBlackUp(c);
        TopBlackUp(c.up);
      }
    }

    /** The colour changes when the uncle is red. */
    method PaintFamily(parent: Ref, uncle: Ref, grandParent: Ref, ghost c: Ctx, ghost t: Tree)
      requires Shaped() && tree == Plug(c, t) && t.T? && !c.Top? && !c.up.Top? && c.up.other.T?
      requires parent == c.item.id && uncle == c.up.other.item.id && grandParent == c.up.item.id
      modifies this`nodes, this`tree
      ensures Shaped() && SameItems() && tree == Plug(c.up.up, Lifted(c, t))
    {
      ghost var p := Fill(c, t);
      SetColor(parent, Black, c.up, p);
      ghost var p' := p.(color := Black);
      assert tree == Plug(Across(c.up, p'), c.up.other);
      SetColor(uncle, Black, Across(c.up, p'), c.up.other);
      ghost var u' := c.up.other.(color := Black);
      assert tree == Plug(c.up.up, Fill(c.up.(other := u'), p'));
      SetColor(grandParent, Red, c.up.up, Fill(c.up.(other := u'), p'));
    }

    /** After the inner rotation the red pair leans outward. */
    static lemma {:induction false} InnerTurned(c: Ctx, t: Tree, k: nat)
      requires RedAt(c, t, k) && !c.Top? && !c.up.Top? && c.color == Red && c.InLeft? != c.up.InLeft?
      ensures c.InRight? ==> RedAt(InLeft(c.up, Red, t.item, t.right), T(Red, c.other, c.item, t.left), k)
      ensures c.InLeft? ==> RedAt(InRight(c.up, Red, t.item, t.left), T(Red, t.right, c.item, c.other), k)
      ensures TopBlack(c) ==> c.InRight? ==> TopBlack(InLeft(c.up, Red, t.item, t.right))
      ensures TopBlack(c) ==> c.InLeft? ==> TopBlack(InRight(c.up, Red, t.item, t.left))
    {
      PlugColor(c.up, Fill(c, Nil), T(Red, Nil, t.item, t.right));
      PlugColor(c.up, Fill(c, Nil), T(Red, t.left, t.item, Nil));
    }

    /** The grandparent has been rotated; the colours are exchanged. */
    method FinishOuter(parent: Ref, grandParent: Ref, ghost c: Ctx, ghost t: Tree, ghost k: nat)
      requires RedAt(c, t, k) && !c.Top? && !c.up.Top? && c.color == Red && c.InLeft? == c.up.InLeft?
      requires parent == c.item.id && grandParent == c.up.item.id && ColorOf(c.up.other) == Black
      requires Shaped()
      requires c.InLeft? ==> tree == Plug(c.up.up, RotatedRight(Fill(c.up, Fill(c, t))))
      requires c.InRight? ==> tree == Plug(c.up.up, RotatedLeft(Fill(c.up, Fill(c, t))))
      modifies this`nodes, this`tree
      ensures Shaped() && SameItems() && exists h: nat :: Rb(tree, h)
      ensures TopBlack(c) ==> ColorOf(tree) == Black
    {
      TopBlackUpUp(c);
      ghost var g := if c.InLeft? then RotatedRight(Fill(c.up, Fill(c, t))) else RotatedLeft(Fill(c.up, Fill(c, t)));
      SetColor(parent, Black, c.up.up, g);
      ghost var g' := g.(color := Black);
      ghost var down, r := if c.InLeft? then InRight(c.up.up, Black, c.item, t) else InLeft(c.up.up, Black, c.item, t),
                           if c.InLeft? then g.right else g.left;
      assert tree == Plug(down, r);
      SetColor(grandParent, Red, down, r);
      ghost var done := Fill(down, r.(color := Red));
      assert CtxRb(c.up, k);
      assert CtxRb(c.up.up, k + 1) && Rb(r.(color := Red), k);
      assert tree == Plug(c.up.up, done) && Rb(done, k + 1);
      ghost var h := RbPlug(c.up.up, done, k + 1);
      if TopBlack(c) {
        TopBlackPlug(c.up.up, done);
      }
    }

    method InsertFixUp(x: Ref, ghost c: Ctx, ghost t: Tree, ghost k: nat)
      requires Shaped() && tree == Plug(c, t) && RedAt(c, t, k) && t.item.id == x
      modifies this`nodes, this`treeRoot, this`tree
      ensures Shaped() && SameItems() && exists h: nat :: Rb(tree, h)
      ensures TopBlack(c) ==> ColorOf(tree) == Black
      decreases Depth(c), if !c.Top? && !c.up.Top? && c.InLeft? != c.up.InLeft? then 1 else 0
    {
      SlotOf(c, t);
      hide Shaped, InOrder;
      if nodes[x].parent == 0 {
        SetColor(x, Black, c, t);
        assert c.Top? && tree == t.(color := Black);
        assert Rb(tree, k + 1);
        return;
      }
      ParentAt(c, t);
      var parent := nodes[x].parent;
      if nodes[parent].color == Black {
        ghost var h := RbPlug(c, t, k);
        TopBlackAt(c, t);
        return;
      }
      ghost var p := Fill(c, t);
      if nodes[parent].parent == 0 {
        SetColor(parent, Black, c.up, p);
        assert c.up.Top? && tree == p.(color := Black) && Rb(c.other, k);
        assert Rb(tree, k + 1);
        return;
      }
      ParentAt(c.up, p);
      var uncle, grandParent := GetUncle(x), GetGrandParent(x);
      if uncle != 0 && nodes[uncle].color == Red {
        LiftedRed(c, t, k);
        TopBlackUpUp(c);
        PaintFamily(parent, uncle, grandParent, c, t);
        InsertFixUp(grandParent, c.up.up, Lifted(c, t), k + 1);
        return;
      }
      if nodes[grandParent].left == parent {
        if nodes[parent].right == x {
          RotateLeft(parent, c.up, p);
          InnerTurned(c, t, k);
          InsertFixUp(parent, InLeft(c.up, Red, t.item, t.right), RotatedLeft(p).left, k);
          return;
        }
        RotateRight(grandParent, c.up.up, Fill(c.up, p));
        FinishOuter(parent, grandParent, c, t, k);
      } else {
        if nodes[parent].left == x {
          RotateRight(parent, c.up, p);
          InnerTurned(c, t, k);
          InsertFixUp(parent, InRight(c.up, Red, t.item, t.left), RotatedRight(p).right, k);
          return;
        }
        RotateLeft(grandParent, c.up.up, Fill(c.up, p));
        FinishOuter(parent, grandParent, c, t, k);
      }
    }

    function GetSibling(x: Ref): Ref
      requires x in nodes && (nodes[x].parent != 0 ==> nodes[x].parent in nodes)
      reads this
    {
      var p := nodes[x].parent;
      if p == 0 then 0 else if nodes[p].left == x then nodes[p].right else nodes[p].left
    }

    /** Null counts as black. */
    predicate IsRed(x: Ref)
      requires x != 0 ==> x in nodes
      reads this
    {
      x != 0 && nodes[x].color == Red
    }

    /** The records of the sibling and the nephews. */
    lemma {:induction false} NephewsAt(c: Ctx, t: Tree)
      requires Shaped() && tree == Plug(c, t) && !t.Nil? && !c.Top? && c.other.T?
      ensures
        var x, p, s := t.item.id, c.item.id, c.other.item.id;
        && x in nodes && p in nodes && s in nodes && p != 0 && nodes[x].parent == p && GetSibling(x) == s
        && nodes[s].color == c.other.color && nodes[p].color == c.color
        && (nodes[p].left == x <==> c.InLeft?)
        && nodes[s].left == RootId(c.other.left) && nodes[s].right == RootId(c.other.right)
      ensures c.other.left.Nil? || (RootId(c.other.left) in nodes && nodes[RootId(c.other.left)].color == ColorOf(c.other.left))
      ensures c.other.right.Nil? || (RootId(c.other.right) in nodes && nodes[RootId(c.other.right)].color == ColorOf(c.other.right))
      ensures (RootId(c.other.left) == 0 <==> c.other.left.Nil?) && (RootId(c.other.right) == 0 <==> c.other.right.Nil?)
      ensures treeRoot != t.item.id
    {
      At(c, t);
      RootInIds(c.other);
      RootInIds(t);
      CtxParent(c);
      RootInCtx(c);
      Unfold(nodes, c.other, c.item.id);
      ColorAt(c.other.left, c.other.item.id);
      ColorAt(c.other.right, c.other.item.id);
    }

    lemma {:induction false} ColorAt(t: Tree, p: Ref)
      requires Mirrors(nodes, t, p)
      ensures t.Nil? || (RootId(t) in nodes && nodes[RootId(t)].color == ColorOf(t))
    {
    }

    static lemma {:induction false} RootInCtx(c: Ctx)
      ensures !c.Top? ==> RootId(Plug(c, Nil)) in CtxIds(c)
    {
      if !c.Top? && !c.up.Top? {
        PlugRoot(c.up, Fill(c, Nil), Nil);
        RootInCtx(c.up);
      }
    }

    /** Case 1. */
    method RaiseSibling(x: Ref, parent: Ref, sibling: Ref, ghost c: Ctx, ghost t: Tree)
      requires Shaped() && tree == Plug(c, t) && !t.Nil? && !c.Top? && c.other.T?
      requires x == t.item.id && parent == c.item.id && sibling == c.other.item.id
      modifies this`nodes, this`treeRoot, this`tree
      ensures Shaped() && SameItems() && tree == Plug(SiblingRaised(c), t)
    {
      hide Shaped, InOrder, HoleIds;
      SetColor(parent, Red, c.up, Fill(c, t));
      ghost var c1 := c.(color := Red);
      assert tree == Plug(Across(c1, t), c.other);
      SetColor(sibling, Black, Across(c1, t), c.other);
      ghost var p := Fill(c1.(other := c.other.(color := Black)), t);
      assert tree == Plug(c.up, p);
      NephewsAt(c1.(other := c.other.(color := Black)), t);
      if x == nodes[parent].left {
        RotateLeft(parent, c.up, p);
      } else {
        RotateRight(parent, c.up, p);
      }
    }

    /** Case 4. */
    method BendSibling(x: Ref, sibling: Ref, closeNephew: Ref, ghost c: Ctx, ghost t: Tree)
      requires Shaped() && tree == Plug(c, t) && !t.Nil? && !c.Top? && c.other.T? && Close(c).T?
      requires x == t.item.id && sibling == c.other.item.id && closeNephew == Close(c).item.id
      modifies this`nodes, this`treeRoot, this`tree
      ensures Shaped() && SameItems() && tree == Plug(SiblingBent(c), t)
    {
      hide Shaped, InOrder, HoleIds;
      NephewsAt(c, t);
      ghost var s := c.other.(color := Red);
      assert tree == Plug(Across(c, t), c.other);
      if x == nodes[nodes[x].parent].left {
        SetColor(sibling, Red, Across(c, t), c.other);
        ghost var d := InLeft(Across(c, t), Red, s.item, s.right);
        assert tree == Plug(d, s.left);
        SetColor(closeNephew, Black, d, s.left);
        RotateRight(sibling, Across(c, t), s.(left := s.left.(color := Black)));
      } else {
        SetColor(sibling, Red, Across(c, t), c.other);
        ghost var d := InRight(Across(c, t), Red, s.item, s.left);
        assert tree == Plug(d, s.right);
        SetColor(closeNephew, Black, d, s.right);
        RotateLeft(sibling, Across(c, t), s.(right := s.right.(color := Black)));
      }
    }

    /** Case 5. */
    method TopSibling(x: Ref, parent: Ref, sibling: Ref, distantNephew: Ref, ghost c: Ctx, ghost t: Tree)
      requires Shaped() && tree == Plug(c, t) && !t.Nil? && !c.Top? && c.other.T? && c.other.color == Black && Distant(c).T?
      requires x == t.item.id && parent == c.item.id && sibling == c.other.item.id && distantNephew == Distant(c).item.id
      modifies this`nodes, this`treeRoot, this`tree
      ensures Shaped() && SameItems() && tree == Plug(c.up, SiblingTop(c, t))
    {
      hide Shaped, InOrder, HoleIds;
      NephewsAt(c, t);
      var siblingColor, parentColor := nodes[sibling].color, nodes[parent].color;
      assert tree == Plug(Across(c, t), c.other);
      SetColor(sibling, parentColor, Across(c, t), c.other);
      ghost var s := c.other.(color := parentColor);
      assert tree == Plug(c.up, Fill(c.(other := s), t));
      SetColor(parent, siblingColor, c.up, Fill(c.(other := s), t));
      ghost var c1 := c.(color := Black, other := s);
      assert tree == Plug(c1, t);
      NephewsAt(c1, t);
      ghost var d := if c.InLeft? then InRight(Across(c1, t), s.color, s.item, s.left)
                     else InLeft(Across(c1, t), s.color, s.item, s.right);
      assert tree == Plug(d, Distant(c));
      SetColor(distantNephew, Black, d, Distant(c));
      ghost var c2 := c1.(other := Fill(d, Distant(c).(color := Black)));
      assert tree == Plug(c2, t);
      NephewsAt(c2, t);
      if x == nodes[parent].left {
        RotateLeft(parent, c.up, Fill(c2, t));
      } else {
        RotateRight(parent, c.up, Fill(c2, t));
      }
    }

    method DeleteFixUp(x: Ref, ghost c: Ctx, ghost t: Tree, ghost k: nat)
      requires Shaped() && tree == Plug(c, t) && Short(c, t, k) && !t.Nil? && x == t.item.id
      modifies this`nodes, this`treeRoot, this`tree
      ensures Shaped() && SameItems() && exists h: nat :: Rb(tree, h)
      ensures TopBlack(c) ==> ColorOf(tree) == Black
      decreases Climb(c), Bent(c)
    {
      SlotOf(c, t);
      RootNotInCtx(c, t);
      ShortTop(c, t, k);
      hide Shaped, InOrder, HoleIds, Rb, CtxRb, TopBlack, Plug, Short, Dented, Climb, Bent, Depth;
      if x == treeRoot {
        return;
      }
      SiblingThere(c, t, k);
      NephewsAt(c, t);
      var sibling, parent := GetSibling(x), nodes[x].parent;
      if nodes[sibling].color == Red {
        SiblingRaisedShort(c, t, k);
        RaiseSibling(x, parent, sibling, c, t);
        DeleteFixUp(x, SiblingRaised(c), t, k);
        return;
      }
      var closeNephew, distantNephew := nodes[sibling].right, nodes[sibling].left;
      if x == nodes[parent].left {
        closeNephew, distantNephew := nodes[sibling].left, nodes[sibling].right;
      }
      if nodes[parent].color == Red && !IsRed(closeNephew) && !IsRed(distantNephew) {
        SiblingRed(c, t, k);
        PaintSibling(sibling, c, t);
        ghost var p := Fill(c.(other := c.other.(color := Red)), t);
        SetColor(parent, Black, c.up, p);
        ghost var h := RbPlug(c.up, p.(color := Black), k + 1);
        TopBlackKept(c, p.(color := Black));
        return;
      }
      if nodes[parent].color == Black && !IsRed(closeNephew) && !IsRed(distantNephew) {
        SiblingRed(c, t, k);
        PaintSibling(sibling, c, t);
        DeleteFixUp(parent, c.up, Fill(c.(other := c.other.(color := Red)), t), k + 1);
        return;
      }
      if IsRed(closeNephew) {
        SiblingBentShort(c, t, k);
        BendSibling(x, sibling, closeNephew, c, t);
        DeleteFixUp(x, SiblingBent(c), t, k);
        return;
      }
      ghost var h := SiblingTopRb(c, t, k);
      TopSibling(x, parent, sibling, distantNephew, c, t);
    }

    static lemma {:induction false} ShortTop(c: Ctx, t: Tree, k: nat)
      requires Short(c, t, k)
      ensures c.Top? ==> Rb(Plug(c, t), k) && ColorOf(Plug(c, t)) == Black
    {
    }

    static lemma {:induction false} TopBlackKept(c: Ctx, s: Tree)
      requires !c.Top? && ColorOf(s) == Black
      ensures TopBlack(c) ==> ColorOf(Plug(c.up, s)) == Black
    {
      if TopBlack(c) {
        TopBlackUp(c);
        TopBlackPlug(c.up, s);
      }
    }

    method PaintSibling(sibling: Ref, ghost c: Ctx, ghost t: Tree)
      requires Shaped() && tree == Plug(c, t) && !c.Top? && c.other.T? && sibling == c.other.item.id
      modifies this`nodes, this`tree
      ensures Shaped() && SameItems() && tree == Plug(c.up, Fill(c.(other := c.other.(color := Red)), t))
    {
      assert tree == Plug(Across(c, t), c.other);
      SetColor(sibling, Red, Across(c, t), c.other);
    }

    /** Only the root hangs from the root pointer. */
    lemma {:induction false} RootNotInCtx(c: Ctx, t: Tree)
      requires Shaped() && tree == Plug(c, t) && !t.Nil?
      ensures treeRoot == t.item.id <==> c.Top?
    {
      At(c, t);
      RootInCtx(c);
      RootInIds(t);
    }

    /** A subtree that is short has a sibling. */
    static lemma {:induction false} SiblingThere(c: Ctx, t: Tree, k: nat)
      requires Short(c, t, k) && !c.Top?
      ensures c.other.T?
      ensures c.other.color == Black && ColorOf(Close(c)) == Black && ColorOf(Distant(c)) == Black ==> Rb(c.other, k + 1)
    {
    }

    /** The pointer writes of the swap. */
    method TradePlaces(node: Ref, successor: Ref, ghost c: Ctx, ghost spine: Ctx)
      requires node in nodes && successor in nodes && 0 !in nodes && node != successor
      requires !c.Top? ==> c.item.id in nodes
      requires !spine.Top? ==> spine.item.id in nodes && spine.InLeft? && spine.item.id != 0
      requires nodes[node].left in nodes && nodes[node].right in nodes && nodes[node].parent == ParentId(c)
      requires nodes[successor].left == 0 && (nodes[successor].right != 0 ==> nodes[successor].right in nodes)
      requires nodes[node].left != successor && nodes[successor].right !in {node, successor}
      requires SelfPath(node) == if c.Top? then RootSlot else if c.InLeft? then LeftOf(c.item.id) else RightOf(c.item.id)
      requires spine.Top? ==> nodes[successor].parent == node && nodes[node].right == successor
      requires !spine.Top? ==> nodes[successor].parent == spine.item.id != node && SelfPath(successor) == LeftOf(spine.item.id)
      requires !spine.Top? ==> nodes[node].right != successor
      modifies this`nodes, this`treeRoot
      ensures nodes == SwappedStore(old(nodes), c, spine, node, successor)
      ensures treeRoot == if c.Top? then successor else old(treeRoot)
    {
      hide Adopted, SelfPath, Reslot;
      var leftOfNode, rightOfNode, parentOfNode := nodes[node].left, nodes[node].right, nodes[node].parent;
      var colorOfNode, pathOfNode := nodes[node].color, SelfPath(node);
      var leftOfSuccessor, rightOfSuccessor := nodes[successor].left, nodes[successor].right;
      var parentOfSuccessor, colorOfSuccessor := nodes[successor].parent, nodes[successor].color;
      var pathOfSuccessor := SelfPath(successor);
      nodes := nodes[node := nodes[node].(color := colorOfSuccessor)];
      nodes := nodes[successor := nodes[successor].(color := colorOfNode)];
      nodes := nodes[successor := nodes[successor].(left := leftOfNode)];
      if parentOfSuccessor == node {
        nodes := nodes[successor := nodes[successor].(right := node)];
        SetChildrensParent(successor);
        nodes := nodes[successor := nodes[successor].(parent := parentOfNode)];
        AssignIsReslot(pathOfNode, c, successor);
        Assign(pathOfNode, successor);
        nodes := nodes[node := nodes[node].(left := leftOfSuccessor)];
        nodes := nodes[node := nodes[node].(right := rightOfSuccessor)];
        SetChildrensParent(node);
        assert nodes == SwappedNear(old(nodes), c, node, successor);
      } else {
        nodes := nodes[successor := nodes[successor].(right := rightOfNode)];
        SetChildrensParent(successor);
        nodes := nodes[successor := nodes[successor].(parent := parentOfNode)];
        AssignIsReslot(pathOfNode, c, successor);
        Assign(pathOfNode, successor);
        nodes := nodes[node := nodes[node].(left := leftOfSuccessor)];
        nodes := nodes[node := nodes[node].(right := rightOfSuccessor)];
        SetChildrensParent(node);
        nodes := nodes[node := nodes[node].(parent := parentOfSuccessor)];
        AssignIsReslot(pathOfSuccessor, spine, node);
        Assign(pathOfSuccessor, node);
        assert nodes == SwappedFar(old(nodes), c, spine, node, successor);
      }
    }

    lemma AssignIsReslot(slot: Slot, c: Ctx, y: Ref)
      requires !c.Top? ==> c.item.id in nodes
      requires slot == if c.Top? then RootSlot else if c.InLeft? then LeftOf(c.item.id) else RightOf(c.item.id)
      ensures c.Top? ==> Reslot(nodes, c, y) == nodes
      ensures c.InLeft? ==> Reslot(nodes, c, y) == nodes[c.item.id := nodes[c.item.id].(left := y)]
      ensures c.InRight? ==> Reslot(nodes, c, y) == nodes[c.item.id := nodes[c.item.id].(right := y)]
    {
    }

    method SwapNodeWithItsSuccessor(node: Ref, successor: Ref, ghost c: Ctx, ghost t: Tree, ghost spine: Ctx, ghost u: Tree)
      requires Shaped() && tree == Plug(c, t) && Neighbours(t, spine, u) && !t.left.Nil?
      requires node == t.item.id && successor == u.item.id
      modifies this`nodes, this`treeRoot, this`tree
      ensures Shaped() && tree == Plug(c, Swapped(t, spine, u))
      ensures nodes.Keys == old(nodes.Keys) && HoleIds(tree) == old(HoleIds(tree))
    {
      At(c, t);
      SlotOf(c, t);
      SwapReady(nodes, treeRoot, c, t, spine, u);
      TakeApart(nodes, treeRoot, c, t, spine, u);
      TwoRecords(nodes, treeRoot, c, t, spine, u);
      SpineSlot(c, t, spine, u);
      hide Mirrors, MirrorsCtx, Apart, CtxApart, Ids, CtxIds, Plug, SwappedStore, Parts, PartsApart, SelfPath, Around;
      TradePlaces(node, successor, c, spine);
      SwapStep(old(nodes), old(treeRoot), c, t, spine, u);
      SwapApart(old(nodes), c, t, spine, u);
      Refocus(c, t, Swapped(t, spine, u));
      tree := Plug(c, Swapped(t, spine, u));
    }

    lemma {:induction false} SpineSlot(c: Ctx, t: Tree, spine: Ctx, u: Tree)
      requires Shaped() && tree == Plug(c, t) && Neighbours(t, spine, u)
      ensures !spine.Top? ==> u.item.id in nodes && spine.item.id in nodes && spine.item.id != 0
      ensures !spine.Top? ==> nodes[u.item.id].parent == spine.item.id && SelfPath(u.item.id) == LeftOf(spine.item.id)
    {
      var d := Append(spine, InRight(c, t.color, t.item, t.left));
      PlugAppend(spine, InRight(c, t.color, t.item, t.left), u);
      assert tree == Plug(d, u);
      SlotOf(d, u);
    }

    /** The records of a node, its own links included. */
    lemma {:induction false} NodeAt(c: Ctx, t: Tree)
      requires Shaped() && tree == Plug(c, t) && t.T?
      ensures t.item.id in nodes && t.item.id != 0
      ensures
        var n := nodes[t.item.id];
        && n.key == t.item.key && n.val == t.item.val && n.color == t.color && n.parent == ParentId(c)
        && n.left == RootId(t.left) && n.right == RootId(t.right)
        && (n.left == 0 <==> t.left.Nil?) && (n.right == 0 <==> t.right.Nil?)
        && (n.left != 0 ==> n.left in nodes) && (n.right != 0 ==> n.right in nodes)
      ensures c.Top? <==> ParentId(c) == 0
      ensures !c.Top? ==> c.item.id in nodes
    {
      At(c, t);
      Unfold(nodes, t, ParentId(c));
    }

    /** A node without children in the model is taken out. */
    method Unlink(pos: Ref, ghost c: Ctx, ghost t: Tree)
      requires Shaped() && tree == Plug(c, t) && !t.Nil? && pos == t.item.id && (t.T? ==> t.left.Nil? && t.right.Nil?)
      modifies this`nodes, this`treeRoot, this`tree
      ensures Shaped() && tree == Plug(c, Nil) && nodes.Keys == old(nodes.Keys) - {pos}
    {
      At(c, t);
      SlotOf(c, t);
      CtxParent(c);
      assert Ids(t) == {pos};
      hide Mirrors, MirrorsCtx, Plug, CtxIds, Apart, CtxApart;
      AssignIsReslot(SelfPath(pos), c, 0);
      Assign(SelfPath(pos), 0);
      nodes := nodes - {pos};
      tree := Plug(c, Nil);
      MirrorsReslotted(old(nodes), nodes, c, pos, 0, 0);
      NilMirrors(nodes, ParentId(c));
      LookAround(nodes, treeRoot, c, Nil);
    }

    static lemma {:induction false} NilMirrors(nodes: Store, p: Ref)
      ensures Mirrors(nodes, Nil, p) && Apart(Nil) && Ids(Nil) == {}
    {
    }

    /** A node with one child is replaced by it. */
    method Splice(pos: Ref, replacement: Ref, ghost c: Ctx, ghost t: Tree, ghost r: Tree)
      requires Shaped() && tree == Plug(c, t) && t.T? && pos == t.item.id
      requires r.T? && replacement == r.item.id && ((t.left.Nil? && r == t.right) || (t.right.Nil? && r == t.left))
      modifies this`nodes, this`treeRoot, this`tree
      ensures Shaped() && tree == Plug(c, r.(color := Black)) && nodes.Keys == old(nodes.Keys) - {pos}
    {
      At(c, t);
      SlotOf(c, t);
      Unfold(nodes, t, ParentId(c));
      hide Mirrors, MirrorsCtx, Plug, CtxIds, Apart, CtxApart, Ids, SelfPath, Around;
      AssignIsReslot(SelfPath(pos), c, replacement);
      Assign(SelfPath(pos), replacement);
      assert nodes == Reslot(old(nodes), c, replacement) && nodes[pos].parent == ParentId(c);
      hide Reslot;
      nodes := nodes[replacement := nodes[replacement].(parent := nodes[pos].parent)];
      nodes := nodes[replacement := nodes[replacement].(color := Black)];
      nodes := nodes - {pos};
      assert nodes == SplicedStore(old(nodes), c, pos, replacement);
      tree := Plug(c, r.(color := Black));
      SpliceStep(old(nodes), old(treeRoot), c, t, r);
      LookAround(nodes, treeRoot, c, r.(color := Black));
    }

    /** The records after a splice. */
    static function SplicedStore(nodes: Store, c: Ctx, pos: Ref, r: Ref): (s: Store)
      requires r in nodes && pos != r && (!c.Top? ==> c.item.id in nodes)
      ensures s.Keys == nodes.Keys - {pos}
    {
      var n := Reslot(nodes, c, r);
      var m := n[r := n[r].(parent := ParentId(c))];
      m[r := m[r].(color := Black)] - {pos}
    }

    static lemma {:induction false} SplicedAt(before: Store, c: Ctx, pos: Ref, r: Ref)
      requires r in before && pos != r && (!c.Top? ==> c.item.id in before && c.item.id !in {pos, r})
      ensures
        var nodes := SplicedStore(before, c, pos, r);
        && nodes[r] == before[r].(parent := ParentId(c), color := Black)
        && Same(before, nodes, before.Keys - {pos, r, ParentId(c)})
        && (!c.Top? ==> nodes[c.item.id] == Reslot(before, c, r)[c.item.id])
    {
    }

    static lemma {:induction false} SpliceStep(before: Store, root: Ref, c: Ctx, t: Tree, r: Tree)
      requires Around(before, root, c, t) && t.T? && r.T? && 0 !in before && (!c.Top? ==> c.item.id in before)
      requires r.item.id in before && r.item.id != t.item.id
      requires (t.left.Nil? && r == t.right) || (t.right.Nil? && r == t.left)
      ensures Around(SplicedStore(before, c, t.item.id, r.item.id), if c.Top? then r.item.id else root, c, r.(color := Black))
    {
      var nodes := SplicedStore(before, c, t.item.id, r.item.id);
      CtxParent(c);
      Unfold(before, t, ParentId(c));
      Unfold(before, r, t.item.id);
      assert Ids(t) == {t.item.id} + Ids(r);
      Recolored(r);
      hide Mirrors, MirrorsCtx, Plug, CtxIds, Apart, CtxApart, Ids, SplicedStore;
      SplicedAt(before, c, t.item.id, r.item.id);
      assert MirrorsCtx(nodes, c, r.item.id, 0) by {
        MirrorsReslotted(before, nodes, c, t.item.id, r.item.id, 0);
      }
      assert Mirrors(nodes, r.(color := Black), ParentId(c)) by {
        MirrorsSame(before, nodes, r.left, r.item.id);
        MirrorsSame(before, nodes, r.right, r.item.id);
        Fold(nodes, r.(color := Black), ParentId(c));
      }
    }

    static lemma {:induction false} Recolored(r: Tree)
      requires r.T? && Apart(r)
      ensures Apart(r.(color := Black)) && Ids(r.(color := Black)) == Ids(r) && HoleIds(r.(color := Black)) == HoleIds(r)
      ensures InOrder(r.(color := Black)) == InOrder(r)
    {
    }

    /** A leaf about to be deleted is seen as a hole. */
    ghost method Dig(c: Ctx, t: Tree)
      requires Shaped() && tree == Plug(c, t) && t.T? && t.left.Nil? && t.right.Nil? && t.color == Black
      modifies this`tree
      ensures Shaped() && tree == Plug(c, Hole(t.item)) && HoleIds(tree) == old(HoleIds(tree)) + {t.item.id}
    {
      At(c, t);
      tree := Plug(c, Hole(t.item));
      assert Ids(Hole(t.item)) == Ids(t);
      LookAround(nodes, treeRoot, c, Hole(t.item));
      PlugIds(c, t);
      PlugIds(c, Hole(t.item));
    }

    /** A red-black tree of which every node counts. */
    ghost predicate Sane()
      reads this`nodes, this`treeRoot, this`tree
    {
      Shaped() && RedBlack(tree) && HoleIds(tree) == {}
    }

    /** A red-black tree's cursor: its parts. */
    lemma {:induction false} SaneAt(c: Ctx, t: Tree) returns (k: nat)
      requires Sane() && tree == Plug(c, t)
      ensures Rb(t, k) && CtxRb(c, k) && (ColorOf(t) == Red ==> ParentColor(c) == Black)
      ensures TopBlack(c) && (c.Top? ==> ColorOf(t) == Black) && HoleIds(t) == {} && CtxHoleIds(c) == {}
      ensures InOrder(tree) == Before(c) + InOrder(t) + After(c)
    {
      var h: nat :| Rb(tree, h);
      k := RbUnplug(c, t, h);
      PlugIds(c, t);
      InOrderPlug(c, t);
      if !c.Top? {
        PlugColor(c, t, Nil);
      }
    }

    method DeleteRedLeaf(pos: Ref, ghost c: Ctx, ghost t: Tree)
      requires Sane() && tree == Plug(c, t) && t.T? && pos == t.item.id && t.left.Nil? && t.right.Nil? && t.color == Red
      modifies this`nodes, this`treeRoot, this`tree
      ensures Sane() && nodes.Keys == old(nodes.Keys) - {pos} && InOrder(tree) == Before(c) + After(c)
    {
      ghost var k := SaneAt(c, t);
      Unlink(pos, c, t);
      ghost var h := RbPlug(c, Nil, k);
      TopBlackPlug(c, Nil);
      PlugIds(c, Nil);
      InOrderPlug(c, Nil);
      assert Before(c) + [] + After(c) == Before(c) + After(c);
    }

    method DeleteBlackLeaf(pos: Ref, ghost c: Ctx, ghost t: Tree)
      requires Sane() && tree == Plug(c, t) && t.T? && pos == t.item.id && t.left.Nil? && t.right.Nil? && t.color == Black
      modifies this`nodes, this`treeRoot, this`tree
      ensures Sane() && nodes.Keys == old(nodes.Keys) - {pos} && InOrder(tree) == Before(c) + After(c)
    {
      ghost var k := SaneAt(c, t);
      hide Shaped;
      Dig(c, t);
      ghost var hole := Hole(t.item);
      InOrderPlug(c, hole);
      assert Before(c) + [] + After(c) == Before(c) + After(c);
      assert Short(c, hole, 0) by {
        LeafShort(c, t, k);
      }
      DeleteFixUp(pos, c, hole, 0);
      ghost var h: nat :| Rb(tree, h);
      ghost var at, it := HolePath(Top, tree, pos);
      FillHole(at, it, h);
      Unlink(pos, at, it);
    }

    static lemma {:induction false} LeafShort(c: Ctx, t: Tree, k: nat)
      requires t.T? && t.left.Nil? && t.color == Black && Rb(t, k) && CtxRb(c, k)
      ensures Short(c, Hole(t.item), 0)
    {
      assert k == 1;
    }

    /** Taking out a hole changes nothing that counts. */
    lemma {:induction false} FillHole(c: Ctx, t: Tree, h: nat)
      requires Shaped() && tree == Plug(c, t) && t.Hole? && Rb(tree, h) && ColorOf(tree) == Black && HoleIds(tree) == {t.item.id}
      ensures RedBlack(Plug(c, Nil)) && HoleIds(Plug(c, Nil)) == {} && InOrder(Plug(c, Nil)) == InOrder(tree)
    {
      RbReplace(c, t, Nil, h);
      PlugIds(c, t);
      PlugIds(c, Nil);
      InOrderPlug(c, t);
      InOrderPlug(c, Nil);
      At(c, t);
      CtxHoleIn(c);
    }

    static lemma {:induction false} CtxHoleIn(c: Ctx)
      ensures CtxHoleIds(c) <= CtxIds(c)
    {
      if !c.Top? {
        HoleIn(c.other);
        CtxHoleIn(c.up);
      }
    }

    method DeleteWithOneChild(pos: Ref, ghost c: Ctx, ghost t: Tree)
      requires Sane() && tree == Plug(c, t) && t.T? && pos == t.item.id && (t.left.Nil? != t.right.Nil?)
      modifies this`nodes, this`treeRoot, this`tree
      ensures Sane() && nodes.Keys == old(nodes.Keys) - {pos}
      ensures InOrder(tree) == Before(c) + (InOrder(t.left) + InOrder(t.right)) + After(c)
    {
      ghost var k := SaneAt(c, t);
      NodeAt(c, t);
      hide Shaped;
      var replacement := if nodes[pos].left != 0 then nodes[pos].left else nodes[pos].right;
      ghost var r := if t.left.Nil? then t.right else t.left;
      assert HoleIds(r) == {} && r.T?;
      Splice(pos, replacement, c, t, r);
      ghost var b := r.(color := Black);
      assert Rb(b, k) && t.color == Black by {
        OnlyChild(t, r, k);
      }
      ghost var h := RbPlug(c, b, k);
      TopBlackPlug(c, b);
      PlugIds(c, b);
      InOrderPlug(c, b);
      assert InOrder(b) == InOrder(t.left) + InOrder(t.right);
    }

    /** An only child is a red leaf. */
    static lemma {:induction false} OnlyChild(t: Tree, r: Tree, k: nat)
      requires t.T? && r.T? && Rb(t, k) && ((t.left.Nil? && r == t.right) || (t.right.Nil? && r == t.left))
      ensures t.color == Black && r.color == Red && Rb(r.(color := Black), k)
    {
    }

    /** After the swap the node that goes has at most a right child. */
    static lemma {:induction false} SwappedSane(c: Ctx, t: Tree, spine: Ctx, u: Tree)
      requires Neighbours(t, spine, u) && RedBlack(Plug(c, t))
      ensures RedBlack(Plug(c, Swapped(t, spine, u)))
    {
      var k: nat :| Rb(Plug(c, t), k);
      var low := T(u.color, Nil, t.item, u.right);
      forall j: nat ensures Rb(Plug(spine, u), j) <==> Rb(Plug(spine, low), j) {
        RbReplace(spine, u, low, j);
      }
      RbReplace(spine, u, low, 0);
      RbReplace(c, t, Swapped(t, spine, u), k);
    }

    /** Where the node that goes hangs after the swap, and what is around it. */
    static lemma {:induction false} SwappedAround(c: Ctx, t: Tree, spine: Ctx, u: Tree)
      requires Neighbours(t, spine, u)
      ensures
        var d := Append(spine, InRight(c, t.color, u.item, t.left));
        && Plug(c, Swapped(t, spine, u)) == Plug(d, T(u.color, Nil, t.item, u.right))
        && Before(d) + (InOrder(Nil) + InOrder(u.right)) + After(d)
           == Before(c) + (InOrder(t.left) + InOrder(t.right)) + After(c)
    {
      var base := InRight(c, t.color, u.item, t.left);
      PlugAppend(spine, base, T(u.color, Nil, t.item, u.right));
      SpineOrder(spine, base);
      InOrderPlug(spine, u);
      assert [] + [u.item] == [u.item];
      SwapJoin(Before(c), InOrder(t.left), u.item, InOrder(u.right), After(spine), After(c));
    }

    static lemma SwapJoin(b: seq<Item>, l: seq<Item>, it: Item, r: seq<Item>, a: seq<Item>, z: seq<Item>)
      ensures b + (l + [it]) + ([] + r) + (a + z) == b + (l + ([] + ([] + [it] + r) + a)) + z
    {
    }

    /** The leftmost node of the right subtree. */
    method Successor(pos: Ref, ghost c: Ctx, ghost t: Tree) returns (successor: Ref, ghost spine: Ctx, ghost u: Tree)
      requires Shaped() && HoleIds(tree) == {} && tree == Plug(c, t) && t.T? && pos == t.item.id && !t.right.Nil?
      ensures Neighbours(t, spine, u) && successor == u.item.id
    {
      ghost var base := InRight(c, t.color, t.item, t.left);
      NodeAt(c, t);
      PlugIds(c, t);
      hide Shaped;
      successor := nodes[pos].right;
      spine, u := Top, t.right;
      NodeAt(base, t.right);
      while nodes[successor].left != 0
        invariant LeftSpine(spine) && Plug(spine, u) == t.right && u.T? && u.item.id == successor && successor in nodes
        invariant HoleIds(u) == {} && tree == Plug(Append(spine, base), u)
        invariant nodes[successor].left == 0 <==> u.left.Nil?
        decreases u
      {
        NodeAt(Append(spine, base), u);
        successor := nodes[successor].left;
        spine, u := InLeft(spine, u.color, u.item, u.right), u.left;
        NodeAt(Append(spine, base), u);
      }
    }

    method DeleteOnlyNode(pos: Ref, ghost c: Ctx, ghost t: Tree)
      requires Sane() && tree == Plug(c, t) && t.T? && pos == t.item.id && c.Top? && t.left.Nil? && t.right.Nil?
      modifies this`nodes, this`treeRoot, this`tree
      ensures Sane() && nodes.Keys == old(nodes.Keys) - {pos}
      ensures InOrder(tree) == Before(c) + (InOrder(t.left) + InOrder(t.right)) + After(c)
    {
      nodes := nodes - {pos};
      treeRoot := 0;
      tree := Nil;
      assert Rb(tree, 0);
    }

    method DeleteNode(pos: Ref, ghost c: Ctx, ghost t: Tree)
      requires Sane() && tree == Plug(c, t) && t.T? && pos == t.item.id
      modifies this`nodes, this`treeRoot, this`tree
      ensures Sane() && nodes.Keys == old(nodes.Keys) - {pos}
      ensures InOrder(tree) == Before(c) + (InOrder(t.left) + InOrder(t.right)) + After(c)
      decreases if !t.left.Nil? && !t.right.Nil? then 1 else 0
    {
      NodeAt(c, t);
      ghost var k := SaneAt(c, t);
      hide Shaped, Plug, Rb, CtxRb, TopBlack, HoleIds, CtxHoleIds;
      if nodes[pos].parent == 0 && nodes[pos].left == 0 && nodes[pos].right == 0 {
        DeleteOnlyNode(pos, c, t);
        return;
      }
      if nodes[pos].left != 0 && nodes[pos].right != 0 {
        var successor;
        ghost var spine, u;
        successor, spine, u := Successor(pos, c, t);
        SwapNodeWithItsSuccessor(pos, successor, c, t, spine, u);
        SwappedSane(c, t, spine, u);
        SwappedAround(c, t, spine, u);
        DeleteNode(pos, Append(spine, InRight(c, t.color, u.item, t.left)), T(u.color, Nil, t.item, u.right));
        return;
      }
      if nodes[pos].left == 0 && nodes[pos].right == 0 {
        assert Before(c) + (InOrder(t.left) + InOrder(t.right)) + After(c) == Before(c) + After(c);
        if nodes[pos].color == Black {
          DeleteBlackLeaf(pos, c, t);
        } else {
          DeleteRedLeaf(pos, c, t);
        }
        return;
      }
      DeleteWithOneChild(pos, c, t);
    }

    /** `it` has been put in where its key belongs. */
    static ghost predicate PutIn(before: seq<Item>, now: seq<Item>, it: Item) {
      exists a: seq<Item>, b: seq<Item> {:trigger a + b} ::
        before == a + b && now == a + [it] + b && Below(a, it.key) && Above(b, it.key)
    }

    /** The item with this key, wherever it is, and the value it has afterwards. */
    static ghost predicate Revalued(before: seq<Item>, now: seq<Item>, it: Item, val: Val) {
      exists a: seq<Item>, b: seq<Item> {:trigger a + b} ::
        before == a + [it] + b && now == a + [it.(val := val)] + b
    }

    /** A new red leaf in the gap of `c`. */
    method AddLeaf(x: Ref, left: bool, key: Key, val: Val, ghost c: Ctx) returns (leaf: Ref)
      requires Shaped() && tree == Plug(c, Nil) && !c.Top? && x == c.item.id && left == c.InLeft?
      modifies this`nodes, this`tree
      ensures Shaped() && leaf !in old(nodes) && nodes.Keys == old(nodes.Keys) + {leaf}
      ensures tree == Plug(c, T(Red, Nil, Item(leaf, key, val), Nil))
    {
      At(c, Nil);
      CtxParent(c);
      FreshIdExists(nodes.Keys);
      leaf :| leaf != 0 && leaf !in nodes;
      ghost var t := T(Red, Nil, Item(leaf, key, val), Nil);
      assert Ids(t) == {leaf} && Apart(t);
      hide MirrorsCtx, CtxIds, Apart, CtxApart, Ids, Plug;
      CtxRecord(nodes, c, 0);
      if left {
        nodes := nodes[x := nodes[x].(left := leaf)];
      } else {
        nodes := nodes[x := nodes[x].(right := leaf)];
      }
      nodes := nodes[leaf := Node(key, val, 0, 0, x, Red)];
      tree := Plug(c, t);
      MirrorsReslotted(old(nodes), nodes, c, 0, leaf, 0);
      NilMirrors(nodes, leaf);
      Fold(nodes, t, x);
      LookAround(nodes, treeRoot, c, t);
    }

    static lemma {:induction false} CtxRecord(nodes: Store, c: Ctx, child: Ref)
      requires MirrorsCtx(nodes, c, child, 0) && !c.Top?
      ensures c.item.id in nodes
    {
    }

    method GrowLeaf(x: Ref, left: bool, key: Key, val: Val, ghost c: Ctx) returns (leaf: Ref)
      requires Sane() && tree == Plug(c, Nil) && !c.Top? && x == c.item.id && left == c.InLeft?
      requires Below(Before(c), key) && Above(After(c), key)
      modifies this`nodes, this`treeRoot, this`tree
      ensures Sane() && leaf !in old(nodes) && nodes.Keys == old(nodes.Keys) + {leaf}
      ensures PutIn(old(InOrder(tree)), InOrder(tree), Item(leaf, key, val))
    {
      ghost var k := SaneAt(c, Nil);
      hide Shaped;
      leaf := AddLeaf(x, left, key, val, c);
      ghost var it := Item(leaf, key, val);
      ghost var t := T(Red, Nil, it, Nil);
      PlugIds(c, t);
      PutInHere(c, it);
      assert HoleIds(t) == {} && RedAt(c, t, 0);
      hide InOrder, PutIn, Below, Above, Plug, Rb, CtxRb, HoleIds;
      InsertFixUp(leaf, c, t, 0);
    }

    static lemma {:induction false} PutInHere(c: Ctx, it: Item)
      requires Below(Before(c), it.key) && Above(After(c), it.key)
      ensures PutIn(InOrder(Plug(c, Nil)), InOrder(Plug(c, T(Red, Nil, it, Nil))), it)
    {
      InOrderPlug(c, T(Red, Nil, it, Nil));
      InOrderPlug(c, Nil);
      assert InOrder(T(Red, Nil, it, Nil)) == [it];
      assert Before(c) + [] + After(c) == Before(c) + After(c);
    }

    method NodeInsert(x: Ref, key: Key, val: Val, allowReplacement: bool, ghost c: Ctx, ghost t: Tree)
      returns (addr: Ref, inserted: bool)
      requires Sane() && Ascending(InOrder(tree)) && tree == Plug(c, t) && t.T? && x == t.item.id
      requires Below(Before(c), key) && Above(After(c), key)
      modifies this`nodes, this`treeRoot, this`tree
      ensures Sane()
      ensures inserted ==> addr !in old(nodes) && nodes.Keys == old(nodes.Keys) + {addr}
                           && PutIn(old(InOrder(tree)), InOrder(tree), Item(addr, key, val))
      ensures !inserted ==> addr in nodes && nodes.Keys == old(nodes.Keys) && old(nodes)[addr].key == key
                            && Revalued(old(InOrder(tree)), InOrder(tree), Item(addr, key, old(nodes)[addr].val),
                                        if allowReplacement then val else old(nodes)[addr].val)
      decreases t
    {
      NodeAt(c, t);
      ghost var k := SaneAt(c, t);
      SplitOrder(c, t, key);
      LeftOpen(c, t);
      hide Shaped, Rb, CtxRb, TopBlack, HoleIds, CtxHoleIds, Ascending, Below, Above, PutIn, Revalued, InOrder, Plug, RedBlack;
      if key < nodes[x].key {
        ghost var d := InLeft(c, t.color, t.item, t.right);
        if nodes[x].left == 0 {
          addr := GrowLeaf(x, true, key, val, d);
          inserted := true;
        } else {
          addr, inserted := NodeInsert(nodes[x].left, key, val, allowReplacement, d, t.left);
        }
      } else if nodes[x].key < key {
        ghost var d := InRight(c, t.color, t.item, t.left);
        if nodes[x].right == 0 {
          addr := GrowLeaf(x, false, key, val, d);
          inserted := true;
        } else {
          addr, inserted := NodeInsert(nodes[x].right, key, val, allowReplacement, d, t.right);
        }
      } else {
        addr, inserted := x, false;
        RevaluedHere(c, t, t.item.val);
        if allowReplacement {
          SetValue(x, val, c, t);
          RevaluedHere(c, t, val);
        }
      }
    }

    /** The order around a node gives the order around its subtrees. */
    lemma {:induction false} SplitOrder(c: Ctx, t: Tree, key: Key)
      requires tree == Plug(c, t) && t.T? && Ascending(InOrder(tree)) && Below(Before(c), key) && Above(After(c), key)
      ensures key < t.item.key ==> Above(After(InLeft(c, t.color, t.item, t.right)), key)
      ensures t.item.key < key ==> Below(Before(InRight(c, t.color, t.item, t.left)), key)
    {
      var left, right := Before(c) + InOrder(t.left), InOrder(t.right) + After(c);
      ItemAt(c, t);
      AscendingParts(left, t.item, right);
      var d, e := InLeft(c, t.color, t.item, t.right), InRight(c, t.color, t.item, t.left);
      assert After(d) == ([t.item] + InOrder(t.right)) + After(c) && Before(e) == Before(c) + (InOrder(t.left) + [t.item]);
      hide *;
      if key < t.item.key {
        AboveJoin(t.item, InOrder(t.right), After(c), key);
      }
      if t.item.key < key {
        BelowJoin(Before(c), InOrder(t.left), t.item, key);
      }
    }

    static lemma AboveJoin(it: Item, r: seq<Item>, a: seq<Item>, key: Key)
      requires key < it.key && Above(r + a, it.key)
      ensures Above(([it] + r) + a, key)
    {
      assert ([it] + r) + a == [it] + (r + a);
    }

    static lemma BelowJoin(b: seq<Item>, l: seq<Item>, it: Item, key: Key)
      requires it.key < key && Below(b + l, it.key)
      ensures Below(b + (l + [it]), key)
    {
      assert b + (l + [it]) == (b + l) + [it];
    }

    /** Where a node's item is among all. */
    lemma {:induction false} ItemAt(c: Ctx, t: Tree)
      requires tree == Plug(c, t) && t.T?
      ensures InOrder(tree) == (Before(c) + InOrder(t.left)) + [t.item] + (InOrder(t.right) + After(c))
    {
      InOrderPlug(c, t);
      ItemJoin(Before(c), InOrder(t.left), t.item, InOrder(t.right), After(c));
    }

    static lemma ItemJoin(b: seq<Item>, l: seq<Item>, it: Item, r: seq<Item>, a: seq<Item>)
      ensures b + (l + [it] + r) + a == (b + l) + [it] + (r + a)
    {
    }

    /** The cursors to the two subtrees. */
    lemma {:induction false} LeftOpen(c: Ctx, t: Tree)
      requires tree == Plug(c, t) && t.T? && HoleIds(t) == {}
      ensures tree == Plug(InLeft(c, t.color, t.item, t.right), t.left)
      ensures tree == Plug(InRight(c, t.color, t.item, t.left), t.right)
      ensures !t.left.Hole? && !t.right.Hole?
    {
    }

    static lemma {:induction false} RevaluedHere(c: Ctx, t: Tree, val: Val)
      requires t.T?
      ensures
        var a, b := Before(c) + InOrder(t.left), InOrder(t.right) + After(c);
        Revalued(InOrder(Plug(c, t)), a + [t.item.(val := val)] + b, t.item, val)
      ensures InOrder(Plug(c, t)) == (Before(c) + InOrder(t.left)) + [t.item] + (InOrder(t.right) + After(c))
    {
      InOrderPlug(c, t);
      ItemJoin(Before(c), InOrder(t.left), t.item, InOrder(t.right), After(c));
      var a, b := Before(c) + InOrder(t.left), InOrder(t.right) + After(c);
      assert InOrder(Plug(c, t)) == a + [t.item] + b;
      assert a + b == a + b;
    }

    method SetValue(x: Ref, val: Val, ghost c: Ctx, ghost t: Tree)
      requires Sane() && tree == Plug(c, t) && t.T? && x == t.item.id
      modifies this`nodes, this`tree
      ensures Sane() && nodes.Keys == old(nodes.Keys)
      ensures InOrder(tree) == (Before(c) + InOrder(t.left)) + [t.item.(val := val)] + (InOrder(t.right) + After(c))
    {
      At(c, t);
      hide InOrder, Before, After, CtxIds, CtxApart;
      ghost var s := t.(item := t.item.(val := val));
      nodes := nodes[x := nodes[x].(val := val)];
      tree := Plug(c, s);
      MirrorsSame(old(nodes), nodes, t.left, x);
      MirrorsSame(old(nodes), nodes, t.right, x);
      MirrorsCtxSame(old(nodes), nodes, c, x, 0);
      Refocus(c, t, s);
      ghost var h: nat :| Rb(old(tree), h);
      RbReplace(c, t, s, h);
      ItemAt(c, s);
    }

    method NodeFind(x: Ref, key: Key, ghost c: Ctx, ghost t: Tree) returns (at: Ref)
      requires Sane() && Ascending(InOrder(tree)) && tree == Plug(c, t) && t.T? && x == t.item.id
      requires Below(Before(c), key) && Above(After(c), key)
      ensures at != 0 ==> at in nodes && nodes[at].key == key
      ensures at == 0 ==> key !in ToMap(InOrder(tree))
      decreases t
    {
      NodeAt(c, t);
      ghost var k := SaneAt(c, t);
      SplitOrder(c, t, key);
      LeftOpen(c, t);
      hide Shaped, Rb, CtxRb, TopBlack, HoleIds, CtxHoleIds, Ascending, Below, Above, InOrder, Plug, RedBlack;
      if key < nodes[x].key {
        ghost var d := InLeft(c, t.color, t.item, t.right);
        if nodes[x].left == 0 {
          at := 0;
          NoItem(d, key);
        } else {
          at := NodeFind(nodes[x].left, key, d, t.left);
        }
      } else if nodes[x].key < key {
        ghost var d := InRight(c, t.color, t.item, t.left);
        if nodes[x].right == 0 {
          at := 0;
          NoItem(d, key);
        } else {
          at := NodeFind(nodes[x].right, key, d, t.right);
        }
      } else {
        at := x;
      }
    }

    lemma {:induction false} NoItem(d: Ctx, key: Key)
      requires tree == Plug(d, Nil) && Ascending(InOrder(tree)) && Below(Before(d), key) && Above(After(d), key)
      ensures key !in ToMap(InOrder(tree))
    {
      InOrderPlug(d, Nil);
      assert Before(d) + [] + After(d) == Before(d) + After(d);
      Absent(Before(d), After(d), Item(0, key, 0));
    }

    /** The map between operations: a red-black search tree, counted right. */
    ghost predicate Valid()
      reads this
    {
      Sane() && Ascending(InOrder(tree)) && nodeCount == |InOrder(tree)|
    }

    ghost function Contents(): map<Key, Val>
      reads this
    {
      ToMap(InOrder(tree))
    }

    /** The nodes with their keys and values, in the order of iteration. */
    ghost function Items(): seq<Item>
      reads this
    {
      InOrder(tree)
    }

    constructor ()
      ensures Valid() && Contents() == map[]
    {
      nodes, treeRoot, nodeCount, tree := map[], 0, 0, Nil;
      new;
      assert Rb(tree, 0);
    }

    static lemma {:induction false} PutInMap(before: seq<Item>, now: seq<Item>, it: Item)
      requires PutIn(before, now, it) && Ascending(before)
      ensures Ascending(now) && |now| == |before| + 1 && it.key !in ToMap(before)
      ensures ToMap(now) == ToMap(before)[it.key := it.val]
    {
      var a: seq<Item>, b: seq<Item> :| before == a + b && now == a + [it] + b && Below(a, it.key) && Above(b, it.key);
      Absent(a, b, it);
      MapAround(a, it, b);
    }

    static lemma {:induction false} RevaluedMap(before: seq<Item>, now: seq<Item>, it: Item, val: Val)
      requires Revalued(before, now, it, val) && Ascending(before)
      ensures Ascending(now) && |now| == |before| && it.key in ToMap(before) && ToMap(before)[it.key] == it.val
      ensures ToMap(now) == ToMap(before)[it.key := val]
      ensures val == it.val ==> now == before
    {
      var a: seq<Item>, b: seq<Item> :| before == a + [it] + b && now == a + [it.(val := val)] + b;
      MapAround(a, it, b);
      UpdateValue(a, it, val, b);
      assert it.(val := it.val) == it;
    }

    /** The first node of an empty map. */
    method PlantRoot(key: Key, val: Val) returns (pos: Ref)
      requires Valid() && treeRoot == 0
      modifies this
      ensures Valid() && pos in nodes && PutIn(old(Items()), Items(), Item(pos, key, val))
      ensures nodes.Keys == old(nodes.Keys) + {pos} && pos !in old(nodes) && nodes[pos].key == key && nodes[pos].val == val
    {
      Rooted();
      FreshIdExists(nodes.Keys);
      pos :| pos != 0 && pos !in nodes;
      nodes := nodes[pos := Node(key, val, 0, 0, 0, Black)];
      treeRoot, nodeCount := pos, 1;
      tree := T(Black, Nil, Item(pos, key, val), Nil);
      assert Rb(tree, 1) && InOrder(tree) == [Item(pos, key, val)];
      ghost var none: seq<Item> := [];
      NilMirrors(nodes, pos);
      Fold(nodes, tree, 0);
      assert Ids(tree) == {pos} && nodes.Keys == {pos} && HoleIds(tree) == {} && Apart(tree);
      assert none + [Item(pos, key, val)] + none == InOrder(tree) && none + none == none;
    }

    /** What iteration lists is what the nodes hold. */
    static lemma {:induction false} ItemsStored(nodes: Store, t: Tree, p: Ref, it: Item)
      requires Mirrors(nodes, t, p) && it in InOrder(t)
      ensures it.id in nodes && nodes[it.id].key == it.key && nodes[it.id].val == it.val
    {
      if it in InOrder(t.left) {
        ItemsStored(nodes, t.left, t.item.id, it);
      } else if it in InOrder(t.right) {
        ItemsStored(nodes, t.right, t.item.id, it);
      }
    }

    lemma {:induction false} Stored(it: Item)
      requires Shaped() && it in InOrder(tree)
      ensures it.id in nodes && nodes[it.id].key == it.key && nodes[it.id].val == it.val
    {
      ItemsStored(nodes, tree, 0, it);
    }

    static lemma {:induction false} PutInThere(before: seq<Item>, now: seq<Item>, it: Item)
      requires PutIn(before, now, it)
      ensures it in now
    {
    }

    static lemma {:induction false} RevaluedThere(before: seq<Item>, now: seq<Item>, it: Item, val: Val)
      requires Revalued(before, now, it, val)
      ensures it.(val := val) in now
    {
    }

    /** The root pointer is null exactly in an empty map. */
    lemma {:induction false} Rooted()
      requires Sane()
      ensures treeRoot == 0 <==> InOrder(tree) == []
      ensures treeRoot == 0 <==> tree == Nil
      ensures treeRoot != 0 ==> tree.T? && treeRoot == tree.item.id && Plug(Top, tree) == tree
      ensures treeRoot == 0 ==> nodes == map[]
    {
      At(Top, tree);
      assert tree.T? ==> tree.item in InOrder(tree);
      if tree == Nil {
        assert nodes.Keys == {};
      }
    }

    method Insert(key: Key, val: Val) returns (pos: Ref, inserted: bool)
      requires Valid()
      modifies this
      ensures Valid() && inserted == (key !in old(Contents()))
      ensures Contents() == if inserted then old(Contents())[key := val] else old(Contents())
      ensures pos in nodes && nodes[pos].key == key
      ensures inserted ==> pos !in old(nodes) && PutIn(old(Items()), Items(), Item(pos, key, val))
      ensures !inserted ==> Items() == old(Items()) && pos in old(nodes)
    {
      Rooted();
      if treeRoot == 0 {
        pos := PlantRoot(key, val);
        inserted := true;
        PutInMap(old(Items()), Items(), Item(pos, key, val));
        return;
      }
      hide Shaped, InOrder, ToMap, Ascending, PutIn, Revalued, RedBlack, HoleIds;
      pos, inserted := InsertFromRoot(key, val);
    }

    method InsertFromRoot(key: Key, val: Val) returns (pos: Ref, inserted: bool)
      requires Valid() && treeRoot != 0
      modifies this
      ensures Valid() && inserted == (key !in old(Contents()))
      ensures Contents() == if inserted then old(Contents())[key := val] else old(Contents())
      ensures pos in nodes && nodes[pos].key == key
      ensures inserted ==> pos !in old(nodes) && PutIn(old(Items()), Items(), Item(pos, key, val))
      ensures !inserted ==> Items() == old(Items()) && pos in old(nodes)
    {
      Rooted();
      hide Shaped, InOrder, ToMap, Ascending, PutIn, Revalued, RedBlack, HoleIds;
      pos, inserted := NodeInsert(treeRoot, key, val, false, Top, tree);
      ghost var was, now := old(Items()), Items();
      if inserted {
        PutInMap(was, now, Item(pos, key, val));
        PutInThere(was, now, Item(pos, key, val));
        Stored(Item(pos, key, val));
        nodeCount := nodeCount + 1;
      } else {
        ghost var there := Item(pos, key, old(nodes)[pos].val);
        RevaluedMap(was, now, there, there.val);
        RevaluedThere(was, now, there, there.val);
        Stored(there);
      }
    }

    /** `operator[]`: the node of the key, made with the default value if there is none. */
    method Index(key: Key) returns (pos: Ref)
      requires Valid()
      modifies this
      ensures Valid() && pos in nodes && nodes[pos].key == key
      ensures Contents() == if key in old(Contents()) then old(Contents()) else old(Contents())[key := 0]
    {
      Rooted();
      var inserted;
      if nodeCount == 0 {
        pos := PlantRoot(key, 0);
        PutInMap(old(Items()), Items(), Item(pos, key, 0));
        return;
      }
      hide Shaped, InOrder, ToMap, Ascending, PutIn, Revalued, RedBlack, HoleIds;
      pos, inserted := InsertFromRoot(key, 0);
    }

    /** A node's cursor, and its item's place among all. */
    lemma {:induction false} Locate(pos: Ref) returns (c: Ctx, t: Tree)
      requires Sane() && pos in nodes
      ensures tree == Plug(c, t) && t.T? && t.item.id == pos && nodes[pos].key == t.item.key && nodes[pos].val == t.item.val
      ensures InOrder(tree) == (Before(c) + InOrder(t.left)) + [t.item] + (InOrder(t.right) + After(c))
    {
      At(Top, tree);
      c, t := NodePath(Top, tree, pos);
      PlugIds(c, t);
      NodeAt(c, t);
      ItemAt(c, t);
    }

    /** Assignment through a reference to a mapped value. */
    method Write(pos: Ref, val: Val)
      requires Valid() && pos in nodes
      modifies this`nodes, this`tree
      ensures Valid() && nodes.Keys == old(nodes.Keys) && nodeCount == old(nodeCount)
      ensures Contents() == old(Contents())[old(nodes)[pos].key := val]
    {
      ghost var c, t := Locate(pos);
      ghost var a, b := Before(c) + InOrder(t.left), InOrder(t.right) + After(c);
      hide Shaped, InOrder, ToMap, Ascending, RedBlack, HoleIds;
      SetValue(pos, val, c, t);
      UpdateValue(a, t.item, val, b);
      assert |a + [t.item] + b| == |a + [t.item.(val := val)] + b|;
    }

    /** The node of the key; null, which is the end, if there is none. */
    method Find(key: Key) returns (pos: Ref)
      requires Valid()
      ensures pos != 0 <==> key in Contents()
      ensures pos != 0 ==> pos in nodes && nodes[pos].key == key && nodes[pos].val == Contents()[key]
    {
      Rooted();
      if treeRoot == 0 {
        return 0;
      }
      pos := NodeFind(treeRoot, key, Top, tree);
      if pos != 0 {
        ghost var c, t := Locate(pos);
        hide Shaped, InOrder, ToMap, Ascending, RedBlack, HoleIds;
        MapAround(Before(c) + InOrder(t.left), t.item, InOrder(t.right) + After(c));
      }
    }

    /** `at`: throws, here returns no value, for a missing key. */
    method Value(key: Key) returns (found: bool, val: Val)
      requires Valid()
      ensures found == (key in Contents())
      ensures found ==> val == Contents()[key]
    {
      var pos := Find(key);
      found := pos != 0;
      val := if found then nodes[pos].val else 0;
    }

    method Count(key: Key) returns (n: nat)
      requires Valid()
      ensures n == if key in Contents() then 1 else 0
    {
      var pos := Find(key);
      n := if pos == 0 then 0 else 1;
    }

    method Size() returns (n: nat)
      requires Valid()
      ensures n == |Contents()|
    {
      n := nodeCount;
      MapSize(InOrder(tree));
    }

    /** The element at a valid iterator is erased; all others stay what and where they are. */
    method EraseAt(pos: Ref)
      requires Valid() && pos in nodes
      modifies this
      ensures Valid() && nodes.Keys == old(nodes.Keys) - {pos}
      ensures Contents() == old(Contents()) - {old(nodes)[pos].key}
      ensures PutIn(Items(), old(Items()), Item(pos, old(nodes)[pos].key, old(nodes)[pos].val))
    {
      hide Shaped, InOrder, ToMap, Ascending, RedBlack, HoleIds, PutIn, Plug, Before, After;
      ghost var c, t := EraseReady(pos);
      DeleteNode(pos, c, t);
      nodeCount := nodeCount - 1;
    }

    /** What is left when a node's item is taken out. */
    lemma {:induction false} EraseReady(pos: Ref) returns (c: Ctx, t: Tree)
      requires Sane() && Ascending(InOrder(tree)) && pos in nodes
      ensures tree == Plug(c, t) && t.T? && t.item.id == pos
      ensures
        var rest, it := Before(c) + (InOrder(t.left) + InOrder(t.right)) + After(c), Item(pos, nodes[pos].key, nodes[pos].val);
        && Ascending(rest) && PutIn(rest, InOrder(tree), it) && |InOrder(tree)| == |rest| + 1
        && ToMap(rest) == ToMap(InOrder(tree)) - {it.key}
    {
      c, t := Locate(pos);
      var a, b := Before(c) + InOrder(t.left), InOrder(t.right) + After(c);
      TakenOut(a, t.item, b);
      DeleteJoin(Before(c), InOrder(t.left), InOrder(t.right), After(c));
      hide *;
    }

    static lemma TakenOut(a: seq<Item>, it: Item, b: seq<Item>)
      requires Ascending(a + [it] + b)
      ensures Ascending(a + b) && PutIn(a + b, a + [it] + b, it)
      ensures ToMap(a + b) == ToMap(a + [it] + b) - {it.key}
      ensures |a + [it] + b| == |a + b| + 1
    {
      MapAround(a, it, b);
      AscendingParts(a, it, b);
    }

    static lemma DeleteJoin(b: seq<Item>, l: seq<Item>, r: seq<Item>, a: seq<Item>)
      ensures b + (l + r) + a == (b + l) + (r + a)
    {
    }

    method Erase(key: Key)
      requires Valid() && treeRoot != 0
      modifies this
      ensures Valid() && Contents() == old(Contents()) - {key}
    {
      Rooted();
      var result := NodeFind(treeRoot, key, Top, tree);
      if result == 0 {
        return;
      }
      EraseAt(result);
    }

    method Clear()
      modifies this
      ensures Valid() && Contents() == map[]
    {
      nodes, treeRoot, nodeCount, tree := map[], 0, 0, Nil;
      assert Rb(tree, 0);
    }

    /** The items in the order of iteration: the map's entries, each with its node, by ascending key. */
    lemma {:induction false} ItemsAre()
      requires Valid()
      ensures forall i, j :: 0 <= i < j < |Items()| ==> Items()[i].key < Items()[j].key
      ensures forall i :: 0 <= i < |Items()| ==>
                && Items()[i].id in nodes && Items()[i].id != 0 && nodes[Items()[i].id].key == Items()[i].key && Items()[i].key in Contents()
      ensures forall k :: k in Contents() ==> exists i :: 0 <= i < |Items()| && Items()[i].key == k
    {
      forall i | 0 <= i < |Items()|
        ensures Items()[i].id in nodes && Items()[i].id != 0 && nodes[Items()[i].id].key == Items()[i].key && Items()[i].key in Contents()
      {
        var c, t := CursorAt(Top, tree, i);
        NodeAt(c, t);
        ToMapKeys(InOrder(tree), Items()[i].key);
      }
      forall k | k in Contents() ensures exists i :: 0 <= i < |Items()| && Items()[i].key == k {
        ToMapKeys(InOrder(tree), k);
        var i :| 0 <= i < |InOrder(tree)| && InOrder(tree)[i].key == k;
        assert Items()[i].key == k;
      }
    }

    /** What the next item is to the map: no key lies between. */
    lemma {:induction false} NextKey(pos: Ref, i: nat, next: Ref)
      requires Valid() && i < |Items()| && Items()[i].id == pos
      requires next == if i + 1 < |Items()| then Items()[i + 1].id else 0
      ensures pos in nodes && (next != 0 ==> next in nodes && nodes[next].key in Contents() && nodes[pos].key < nodes[next].key)
      ensures forall k :: k in Contents() ==> k <= nodes[pos].key || (next != 0 && nodes[next].key <= k)
    {
      ItemsAre();
      hide Valid, Contents, Items;
      forall k | k in Contents() ensures k <= nodes[pos].key || (next != 0 && nodes[next].key <= k) {
        var j :| 0 <= j < |Items()| && Items()[j].key == k;
        if j < i {
          assert Items()[j].key < Items()[i].key;
        } else if i + 1 < j {
          assert Items()[i + 1].key < Items()[j].key;
        }
      }
    }

    /** The first node, or null, the end. */
    method Begin() returns (pos: Ref)
      requires Valid()
      ensures pos == if Items() == [] then 0 else Items()[0].id
      ensures pos == 0 <==> Contents() == map[]
      ensures pos != 0 ==> pos in nodes && nodes[pos].key in Contents() && forall k :: k in Contents() ==> nodes[pos].key <= k
    {
      ItemsAre();
      Rooted();
      if treeRoot == 0 {
        return 0;
      }
      pos := treeRoot;
      ghost var c, t := Top, tree;
      pos, c, t := GoLeft(pos, c, t);
      LeftmostAt(c, t);
    }

    /** The way down to the left. */
    method GoLeft(from: Ref, ghost c: Ctx, ghost t: Tree) returns (pos: Ref, ghost d: Ctx, ghost u: Tree)
      requires Sane() && tree == Plug(c, t) && t.T? && from == t.item.id
      ensures tree == Plug(d, u) && u.T? && u.left.Nil? && pos == u.item.id && Before(d) == Before(c)
    {
      pos, d, u := from, c, t;
      NodeAt(c, t);
      ghost var k := SaneAt(c, t);
      hide Shaped;
      while nodes[pos].left != 0
        invariant tree == Plug(d, u) && u.T? && pos == u.item.id && pos in nodes && Before(d) == Before(c)
        invariant HoleIds(u) == {} && (nodes[pos].left == 0 <==> u.left.Nil?)
        decreases u
      {
        NodeAt(d, u);
        pos := nodes[pos].left;
        d, u := InLeft(d, u.color, u.item, u.right), u.left;
        NodeAt(d, u);
      }
    }

    lemma {:induction false} LeftmostAt(c: Ctx, t: Tree)
      requires tree == Plug(c, t) && t.T? && t.left.Nil?
      ensures |Before(c)| < |InOrder(tree)| && InOrder(tree)[|Before(c)|] == t.item
    {
      ItemAt(c, t);
    }

    /** The cursor to the item at an index. */
    static lemma {:induction false} CursorAt(c: Ctx, t: Tree, i: nat) returns (at: Ctx, s: Tree)
      requires i < |InOrder(t)|
      ensures Plug(at, s) == Plug(c, t) && s.T? && s.item == InOrder(t)[i]
      ensures |Before(at)| + |InOrder(s.left)| == |Before(c)| + i
      decreases t
    {
      var n := |InOrder(t.left)|;
      if i < n {
        at, s := CursorAt(InLeft(c, t.color, t.item, t.right), t.left, i);
      } else if i == n {
        at, s := c, t;
      } else {
        at, s := CursorAt(InRight(c, t.color, t.item, t.left), t.right, i - n - 1);
      }
    }

    /** The first ancestor that is reached from the left. */
    method GoUp(pos: Ref, ghost c: Ctx, ghost t: Tree, ghost i: nat) returns (next: Ref)
      requires Sane() && tree == Plug(c, t) && t.T? && pos == t.item.id
      requires |Before(c)| + |InOrder(t)| == i + 1
      ensures next == if i + 1 < |Items()| then Items()[i + 1].id else 0
    {
      ghost var d, u := c, t;
      next := pos;
      SlotOf(d, u);
      ParentLinks(d, u);
      while nodes[next].parent != 0 && nodes[nodes[next].parent].right == next
        invariant tree == Plug(d, u) && u.T? && next == u.item.id && next in nodes
        invariant |Before(d)| + |InOrder(u)| == i + 1
        invariant nodes[next].parent == ParentId(d) && (d.Top? <==> ParentId(d) == 0)
        invariant !d.Top? ==> d.item.id in nodes && (nodes[d.item.id].right == next <==> d.InRight?)
        decreases Depth(d)
      {
        next := nodes[next].parent;
        d, u := d.up, Fill(d, u);
        SlotOf(d, u);
        ParentLinks(d, u);
      }
      next := nodes[next].parent;
      InOrderPlug(d, u);
    }

    lemma {:induction false} ParentLinks(d: Ctx, u: Tree)
      requires Shaped() && tree == Plug(d, u) && u.T?
      ensures u.item.id in nodes && nodes[u.item.id].parent == ParentId(d) && (d.Top? <==> ParentId(d) == 0)
      ensures !d.Top? ==> d.item.id in nodes && (nodes[d.item.id].right == u.item.id <==> d.InRight?)
    {
      NodeAt(d, u);
      if !d.Top? {
        ParentAt(d, u);
      }
    }

    /** `++` on an iterator: the node of the next item, or null after the last. */
    method Next(pos: Ref, ghost i: nat) returns (next: Ref)
      requires Valid() && i < |Items()| && Items()[i].id == pos
      ensures next == if i + 1 < |Items()| then Items()[i + 1].id else 0
      ensures pos in nodes && (next != 0 ==> next in nodes && nodes[next].key in Contents() && nodes[pos].key < nodes[next].key)
      ensures forall k :: k in Contents() ==> k <= nodes[pos].key || (next != 0 && nodes[next].key <= k)
    {
      ghost var c, t := CursorAt(Top, tree, i);
      ItemAt(c, t);
      NodeAt(c, t);
      ghost var k := SaneAt(c, t);
      if nodes[pos].right != 0 {
        ghost var d, u := InRight(c, t.color, t.item, t.left), t.right;
        next, d, u := GoLeft(nodes[pos].right, d, u);
        LeftmostAt(d, u);
      } else {
        next := GoUp(pos, c, t, i);
      }
      NextKey(pos, i, next);
    }
  }
}
