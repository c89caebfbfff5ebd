/**
 A node with two children trades places with its successor: the records after
 the pointer writes of `SwapNodeWithItsSuccessor`, and the tree they mirror.
 */
module RedBlackSwap {
  import opened RedBlackTree
  import opened RedBlackStore

  /** The node `t.item` above, its successor `u.item` at the end of the left spine of its right subtree. */
  ghost predicate Neighbours(t: Tree, spine: Ctx, u: Tree) {
    t.T? && u.T? && u.left.Nil? && LeftSpine(spine) && t.right == Plug(spine, u)
  }

  /** The two items have traded places; the colours stay. */
  function Swapped(t: Tree, spine: Ctx, u: Tree): Tree
    requires t.T? && u.T?
  {
    T(t.color, t.left, u.item, Plug(spine, T(u.color, Nil, t.item, u.right)))
  }

  /** The writes when the successor is the right child. */
  function SwappedNear(nodes: Store, c: Ctx, x: Ref, y: Ref): (r: Store)
    requires x in nodes && y in nodes && (!c.Top? ==> c.item.id in nodes)
    ensures r.Keys == nodes.Keys
  {
    var n1 := nodes[x := nodes[x].(color := nodes[y].color)];
    var n2 := n1[y := n1[y].(color := nodes[x].color)];
    var n3 := n2[y := n2[y].(left := nodes[x].left)];
    var n4 := n3[y := n3[y].(right := x)];
    var n5 := Adopted(n4, y);
    var n6 := Reslot(n5[y := n5[y].(parent := nodes[x].parent)], c, y);
    var n7 := n6[x := n6[x].(left := nodes[y].left)];
    var n8 := n7[x := n7[x].(right := nodes[y].right)];
    Adopted(n8, x)
  }

  /** The writes when the successor is further down. */
  function SwappedFar(nodes: Store, c: Ctx, spine: Ctx, x: Ref, y: Ref): (r: Store)
    requires x in nodes && y in nodes && (!c.Top? ==> c.item.id in nodes) && !spine.Top? && spine.item.id in nodes
    ensures r.Keys == nodes.Keys
  {
    var n1 := nodes[x := nodes[x].(color := nodes[y].color)];
    var n2 := n1[y := n1[y].(color := nodes[x].color)];
    var n3 := n2[y := n2[y].(left := nodes[x].left)];
    var n4 := n3[y := n3[y].(right := nodes[x].right)];
    var n5 := Adopted(n4, y);
    var n6 := Reslot(n5[y := n5[y].(parent := nodes[x].parent)], c, y);
    var n7 := n6[x := n6[x].(left := nodes[y].left)];
    var n8 := n7[x := n7[x].(right := nodes[y].right)];
    var n9 := Adopted(n8, x);
    Reslot(n9[x := n9[x].(parent := nodes[y].parent)], spine, x)
  }

  /** The ids involved, and that they differ. */
  ghost predicate Distinct(before: Store, c: Ctx, x: Ref, y: Ref, l: Ref, f: Ref) {
    && x in before && y in before && 0 !in before && (!c.Top? ==> c.item.id in before)
    && before[x].left == l && before[y].left == 0 && before[y].right == f && before[x].parent == ParentId(c)
    && x != y && l !in {0, x, y, f} && f !in {x, y} && ParentId(c) !in {x, y, l}
    && l in before && (f == 0 || (f in before && f != ParentId(c)))
  }

  lemma {:induction false} SwappedNearAt(before: Store, c: Ctx, x: Ref, y: Ref, l: Ref, f: Ref)
    requires Distinct(before, c, x, y, l, f) && before[x].right == y
    ensures
      var nodes := SwappedNear(before, c, x, y);
      && nodes[x] == before[x].(left := 0, right := f, parent := y, color := before[y].color)
      && nodes[y] == before[y].(left := l, right := x, parent := ParentId(c), color := before[x].color)
      && nodes[l] == before[l].(parent := y)
      && (f != 0 ==> nodes[f] == before[f].(parent := x))
      && (!c.Top? ==> nodes[c.item.id] == Reslot(before, c, y)[c.item.id])
      && Same(before, nodes, before.Keys - {x, y, l, f, ParentId(c)})
  {
  }

  lemma {:induction false} SwappedFarAt(before: Store, c: Ctx, spine: Ctx, x: Ref, y: Ref, l: Ref, f: Ref)
    requires Distinct(before, c, x, y, l, f) && spine.InLeft? && spine.item.id in before
    requires
      var b, d := spine.item.id, before[x].right;
      b !in {0, x, y, l, f, ParentId(c)} && d !in {0, x, y, l, f, ParentId(c)} && before[y].parent == b && d in before
    ensures
      var nodes, b, d := SwappedFar(before, c, spine, x, y), spine.item.id, before[x].right;
      && nodes[x] == before[x].(left := 0, right := f, parent := b, color := before[y].color)
      && nodes[y] == before[y].(left := l, right := d, parent := ParentId(c), color := before[x].color)
      && nodes[l] == before[l].(parent := y)
      && (f != 0 ==> nodes[f] == before[f].(parent := x))
      && (!c.Top? ==> nodes[c.item.id] == Reslot(before, c, y)[c.item.id])
      && (d != b ==> nodes[d] == before[d].(parent := y) && nodes[b] == before[b].(left := x))
      && (d == b ==> nodes[d] == before[d].(parent := y, left := x))
      && Same(before, nodes, before.Keys - {x, y, l, f, b, d, ParentId(c)})
  {
  }

  /** The tree taken apart where the swap takes hold of it: what each part mirrors. */
  ghost predicate Parts(before: Store, c: Ctx, t: Tree, spine: Ctx, u: Tree) {
    && Neighbours(t, spine, u) && !t.left.Nil?
    && Mirrors(before, t.left, t.item.id) && Apart(t.left) && RootId(t.left) in Ids(t.left)
    && Mirrors(before, u.right, u.item.id) && Apart(u.right) && (u.right.Nil? || RootId(u.right) in Ids(u.right))
    && MirrorsCtx(before, spine, u.item.id, t.item.id) && CtxApart(spine)
    && (!spine.Top? ==> spine.item.id in CtxIds(spine) && CtxTop(spine) in CtxIds(spine) && CtxTop(spine) == RootId(t.right))
    && (!c.Top? ==> c.item.id in CtxIds(c))
  }

  /** No two of the parts share a node. */
  ghost predicate PartsApart(c: Ctx, t: Tree, spine: Ctx, u: Tree)
    requires t.T? && u.T?
  {
    && t.item.id !in Ids(t.left) && t.item.id !in Ids(u.right) && t.item.id !in CtxIds(spine)
    && u.item.id !in Ids(t.left) && u.item.id !in Ids(u.right) && u.item.id !in CtxIds(spine) && u.item.id != t.item.id
    && Ids(t.left) !! Ids(u.right) && Ids(t.left) !! CtxIds(spine) && Ids(u.right) !! CtxIds(spine)
    && CtxIds(c) !! Ids(t.left) && CtxIds(c) !! Ids(u.right) && CtxIds(c) !! CtxIds(spine)
    && t.item.id !in CtxIds(c) && u.item.id !in CtxIds(c)
    && Ids(t) == Ids(t.left) + Ids(u.right) + CtxIds(spine) + {t.item.id, u.item.id}
  }

  lemma {:induction false} TakeApart(before: Store, root: Ref, c: Ctx, t: Tree, spine: Ctx, u: Tree)
    requires Around(before, root, c, t) && Neighbours(t, spine, u) && !t.left.Nil? && 0 !in before
    ensures Parts(before, c, t, spine, u) && PartsApart(c, t, spine, u)
    ensures spine.Top? ==> t.right == u
  {
    PlugApart(spine, u);
    IdsApart(c, t, spine, u);
    Unfold(before, t, ParentId(c));
    Focus(before, spine, u, t.item.id);
    Unfold(before, u, ParentOf(spine, t.item.id));
    CtxParent(c);
    CtxParent(spine);
    if !spine.Top? {
      CtxTopIsRoot(spine, u);
    }
    hide Mirrors, MirrorsCtx, Apart, CtxApart, Ids, CtxIds, LeftSpine, PartsApart;
  }

  lemma {:induction false} IdsApart(c: Ctx, t: Tree, spine: Ctx, u: Tree)
    requires Apart(t) && Neighbours(t, spine, u) && CtxIds(c) !! Ids(t)
    ensures PartsApart(c, t, spine, u)
  {
    PlugApart(spine, u);
    PlugIds(spine, u);
    assert Ids(u) == {u.item.id} + Ids(u.right) && u.item.id !in Ids(u.right);
    assert Ids(t) == {t.item.id} + Ids(t.left) + Ids(t.right) && Ids(t.left) !! Ids(t.right);
    hide Apart, CtxApart, Ids, CtxIds, LeftSpine;
  }

  /** The spine is out of reach of the writes at the other parts. */
  lemma {:induction false} SpineClear(before: Store, c: Ctx, t: Tree, spine: Ctx, u: Tree)
    requires Parts(before, c, t, spine, u) && PartsApart(c, t, spine, u) && 0 !in CtxIds(spine)
    ensures CtxIds(spine) !! {t.item.id, u.item.id, RootId(t.left), RootId(u.right), ParentId(c)}
  {
  }

  lemma {:induction false} TwoRecords(before: Store, root: Ref, c: Ctx, t: Tree, spine: Ctx, u: Tree)
    requires Around(before, root, c, t) && Neighbours(t, spine, u) && !t.left.Nil? && 0 !in before
    ensures t.item.id in before && u.item.id in before
    ensures
      var n, m := before[t.item.id], before[u.item.id];
      && n.left == RootId(t.left) && n.right == RootId(t.right) && n.parent == ParentId(c)
      && n.key == t.item.key && n.val == t.item.val && n.color == t.color
      && m.left == 0 && m.right == RootId(u.right) && m.parent == ParentOf(spine, t.item.id)
      && m.key == u.item.key && m.val == u.item.val && m.color == u.color
  {
    Unfold(before, t, ParentId(c));
    Focus(before, spine, u, t.item.id);
    PlugApart(spine, u);
    Unfold(before, u, ParentOf(spine, t.item.id));
    hide Mirrors, MirrorsCtx, Apart, CtxApart, Ids, CtxIds, LeftSpine;
  }

  lemma {:induction false} SwapReady(before: Store, root: Ref, c: Ctx, t: Tree, spine: Ctx, u: Tree)
    requires Around(before, root, c, t) && Neighbours(t, spine, u) && !t.left.Nil? && 0 !in before
    ensures t.item.id in before && u.item.id in before
    ensures Distinct(before, c, t.item.id, u.item.id, RootId(t.left), RootId(u.right))
    ensures spine.Top? ==> before[t.item.id].right == u.item.id
    ensures !spine.Top? ==>
      var b, d := spine.item.id, before[t.item.id].right;
      var ids := {0, t.item.id, u.item.id, RootId(t.left), RootId(u.right), ParentId(c)};
      b in before && d in before && b !in ids && d !in ids && before[u.item.id].parent == b && spine.InLeft?
  {
    TakeApart(before, root, c, t, spine, u);
    TwoRecords(before, root, c, t, spine, u);
    hide Mirrors, MirrorsCtx, Apart, CtxApart, Ids, CtxIds, Around;
  }

  /** The store after the swap. */
  ghost function SwappedStore(nodes: Store, c: Ctx, spine: Ctx, x: Ref, y: Ref): (r: Store)
    requires x in nodes && y in nodes && (!c.Top? ==> c.item.id in nodes) && (!spine.Top? ==> spine.item.id in nodes)
    ensures r.Keys == nodes.Keys
  {
    if spine.Top? then SwappedNear(nodes, c, x, y) else SwappedFar(nodes, c, spine, x, y)
  }

  /** Where the swapped store differs, and the ids it does not touch. */
  ghost predicate SwapTouches(before: Store, nodes: Store, c: Ctx, spine: Ctx, x: Ref, y: Ref, l: Ref, f: Ref) {
    && l in before && l in nodes && nodes[l] == before[l].(parent := y)
    && (f != 0 ==> f in before && f in nodes && nodes[f] == before[f].(parent := x))
    && (!c.Top? ==> c.item.id in before && c.item.id in nodes && nodes[c.item.id] == Reslot(before, c, y)[c.item.id])
    && Same(before, nodes, before.Keys - {x, y, l, f, ParentId(c)} - CtxIds(spine))
  }

  ghost predicate SwapRecords(before: Store, nodes: Store, c: Ctx, t: Tree, spine: Ctx, u: Tree)
    requires t.T? && u.T?
  {
    var x, y := t.item.id, u.item.id;
    && SwapTouches(before, nodes, c, spine, x, y, RootId(t.left), RootId(u.right)) && x in nodes && y in nodes
    && nodes[y] == Node(u.item.key, u.item.val, RootId(t.left), if spine.Top? then x else CtxTop(spine), ParentId(c), t.color)
    && nodes[x] == Node(t.item.key, t.item.val, 0, RootId(u.right), ParentOf(spine, y), u.color)
  }

  lemma {:induction false} SwapPointwiseNear(before: Store, root: Ref, c: Ctx, t: Tree, spine: Ctx, u: Tree)
    requires Around(before, root, c, t) && Neighbours(t, spine, u) && !t.left.Nil? && 0 !in before && spine.Top?
    requires t.item.id in before && u.item.id in before && (!c.Top? ==> c.item.id in before)
    ensures SwapRecords(before, SwappedNear(before, c, t.item.id, u.item.id), c, t, spine, u)
  {
    TwoRecords(before, root, c, t, spine, u);
    SwapReady(before, root, c, t, spine, u);
    hide Mirrors, MirrorsCtx, Apart, CtxApart, Ids, SwappedNear, Around, Neighbours;
    SwappedNearAt(before, c, t.item.id, u.item.id, RootId(t.left), RootId(u.right));
  }

  lemma {:induction false} SwapPointwiseFar(before: Store, root: Ref, c: Ctx, t: Tree, spine: Ctx, u: Tree)
    requires Around(before, root, c, t) && Neighbours(t, spine, u) && !t.left.Nil? && 0 !in before && !spine.Top?
    requires t.item.id in before && u.item.id in before && (!c.Top? ==> c.item.id in before)
    requires spine.item.id in before
    ensures SwapRecords(before, SwappedFar(before, c, spine, t.item.id, u.item.id), c, t, spine, u)
  {
    TwoRecords(before, root, c, t, spine, u);
    SwapReady(before, root, c, t, spine, u);
    CtxTopIsRoot(spine, u);
    CtxParent(spine);
    hide Mirrors, MirrorsCtx, Apart, CtxApart, Ids, CtxIds, SwappedFar, Around, Neighbours, CtxTop;
    SwappedFarAt(before, c, spine, t.item.id, u.item.id, RootId(t.left), RootId(u.right));
    assert {spine.item.id, CtxTop(spine)} <= CtxIds(spine);
  }

  /** The subtrees and the context beside the spine are mirrored. */
  lemma {:induction false} SwapParts(before: Store, nodes: Store, c: Ctx, t: Tree, spine: Ctx, u: Tree)
    requires Parts(before, c, t, spine, u) && PartsApart(c, t, spine, u) && 0 !in before
    requires MirrorsCtx(before, c, t.item.id, 0) && CtxApart(c)
    requires SwapTouches(before, nodes, c, spine, t.item.id, u.item.id, RootId(t.left), RootId(u.right))
    ensures Mirrors(nodes, t.left, u.item.id) && Mirrors(nodes, u.right, t.item.id)
    ensures MirrorsCtx(nodes, c, u.item.id, 0)
  {
    hide Mirrors, MirrorsCtx, Apart, CtxApart, Ids, CtxIds;
    assert Mirrors(nodes, t.left, u.item.id) by {
      MirrorsReparented(before, nodes, t.left, t.item.id, u.item.id);
    }
    assert Mirrors(nodes, u.right, t.item.id) by {
      MirrorsReparented(before, nodes, u.right, u.item.id, t.item.id);
    }
    MirrorsReslotted(before, nodes, c, t.item.id, u.item.id, 0);
  }

  /** The two writes at the spine: its bottom has a new child, its top a new parent. */
  ghost predicate SpineTouched(before: Store, nodes: Store, spine: Ctx, x: Ref, y: Ref, d: Ref, ids: set<Ref>) {
    && spine.InLeft? && spine.item.id in before && d in before && spine.item.id in nodes && d in nodes
    && (d != spine.item.id ==> nodes[d] == before[d].(parent := y)
                               && nodes[spine.item.id] == before[spine.item.id].(left := x))
    && (d == spine.item.id ==> nodes[d] == before[d].(parent := y, left := x))
    && Same(before, nodes, before.Keys - ids - {spine.item.id, d})
  }

  lemma {:induction false} SpineMirrors(before: Store, nodes: Store, spine: Ctx, x: Ref, y: Ref, ids: set<Ref>)
    requires !spine.Top? && SpineTouched(before, nodes, spine, x, y, CtxTop(spine), ids)
    requires MirrorsCtx(before, spine, y, x) && CtxApart(spine) && CtxIds(spine) !! ids
    ensures MirrorsCtx(nodes, spine, x, y)
  {
    hide MirrorsCtx, CtxApart, CtxIds;
    var slotted := Reslot(before, spine, x);
    MirrorsReslotted(before, slotted, spine, y, x, x);
    MirrorsCtxReparented(slotted, nodes, spine, x, x, y);
  }

  lemma {:induction false} SwapSpineTouched(before: Store, root: Ref, c: Ctx, t: Tree, spine: Ctx, u: Tree)
    requires Around(before, root, c, t) && Neighbours(t, spine, u) && !t.left.Nil? && 0 !in before && !spine.Top?
    requires t.item.id in before && u.item.id in before && (!c.Top? ==> c.item.id in before)
    requires spine.item.id in before
    ensures SpineTouched(before, SwappedFar(before, c, spine, t.item.id, u.item.id), spine, t.item.id, u.item.id,
                         before[t.item.id].right, {t.item.id, u.item.id, RootId(t.left), RootId(u.right), ParentId(c)})
  {
    SwapReady(before, root, c, t, spine, u);
    hide SwappedFar, Around, Neighbours;
    SwappedFarAt(before, c, spine, t.item.id, u.item.id, RootId(t.left), RootId(u.right));
  }

  lemma {:induction false} SwapSpine(before: Store, root: Ref, c: Ctx, t: Tree, spine: Ctx, u: Tree)
    requires Around(before, root, c, t) && Neighbours(t, spine, u) && !t.left.Nil? && 0 !in before
    requires t.item.id in before && u.item.id in before && (!c.Top? ==> c.item.id in before)
    requires !spine.Top? ==> spine.item.id in before
    ensures MirrorsCtx(SwappedStore(before, c, spine, t.item.id, u.item.id), spine, t.item.id, u.item.id)
  {
    var nodes, x, y := SwappedStore(before, c, spine, t.item.id, u.item.id), t.item.id, u.item.id;
    TakeApart(before, root, c, t, spine, u);
    TwoRecords(before, root, c, t, spine, u);
    SpineNotNull(before, c, t, spine);
    if spine.Top? {
      SpineTop(nodes, spine, x, y);
    } else {
      hide Mirrors, MirrorsCtx, Apart, CtxApart, Ids, CtxIds, SwappedFar, PartsApart;
      SpineClear(before, c, t, spine, u);
      SwapSpineTouched(before, root, c, t, spine, u);
      SpineMirrors(before, nodes, spine, x, y, {x, y, RootId(t.left), RootId(u.right), ParentId(c)});
    }
  }

  lemma {:induction false} SpineNotNull(before: Store, c: Ctx, t: Tree, spine: Ctx)
    requires 0 !in before && before.Keys == CtxIds(c) + Ids(t) && t.T? && CtxIds(spine) <= Ids(t)
    ensures 0 !in CtxIds(spine)
  {
  }

  lemma {:induction false} SpineTop(nodes: Store, spine: Ctx, child: Ref, p: Ref)
    requires spine.Top?
    ensures MirrorsCtx(nodes, spine, child, p)
  {
  }

  lemma {:induction false} SwapStep(before: Store, root: Ref, c: Ctx, t: Tree, spine: Ctx, u: Tree)
    requires Around(before, root, c, t) && Neighbours(t, spine, u) && !t.left.Nil? && 0 !in before
    requires t.item.id in before && u.item.id in before && (!c.Top? ==> c.item.id in before)
    requires !spine.Top? ==> spine.item.id in before
    ensures Around(SwappedStore(before, c, spine, t.item.id, u.item.id), if c.Top? then u.item.id else root, c,
                   Swapped(t, spine, u))
  {
    var nodes, x, y := SwappedStore(before, c, spine, t.item.id, u.item.id), t.item.id, u.item.id;
    var low := T(u.color, Nil, t.item, u.right);
    var s := Swapped(t, spine, u);
    TakeApart(before, root, c, t, spine, u);
    if spine.Top? {
      SwapPointwiseNear(before, root, c, t, spine, u);
    } else {
      SwapPointwiseFar(before, root, c, t, spine, u);
    }
    assert SwapRecords(before, nodes, c, t, spine, u);
    SwapParts(before, nodes, c, t, spine, u);
    SwapSpine(before, root, c, t, spine, u);
    SwapApart(before, c, t, spine, u);
    assert Mirrors(nodes, Nil, x);
    hide Mirrors, MirrorsCtx, Apart, CtxApart, Ids, CtxIds, SwappedStore;
    Fold(nodes, low, ParentOf(spine, y));
    Focus(nodes, spine, low, y);
    if !spine.Top? {
      CtxTopIsRoot(spine, low);
    } else {
      assert Plug(spine, low) == low;
    }
    Fold(nodes, s, ParentId(c));
  }

  lemma {:induction false} SwapApart(before: Store, c: Ctx, t: Tree, spine: Ctx, u: Tree)
    requires Parts(before, c, t, spine, u) && PartsApart(c, t, spine, u) && Apart(t)
    ensures Apart(Swapped(t, spine, u)) && Ids(Swapped(t, spine, u)) == Ids(t)
    ensures HoleIds(Swapped(t, spine, u)) == HoleIds(t)
  {
    var low := T(u.color, Nil, t.item, u.right);
    PlugApart(spine, low);
    PlugIds(spine, low);
    PlugApart(spine, u);
    PlugIds(spine, u);
    assert Ids(low) == {t.item.id} + Ids(u.right) && Ids(u) == {u.item.id} + Ids(u.right);
  }
}
