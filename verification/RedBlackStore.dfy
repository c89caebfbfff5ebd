/**
 Node records with parent links, and what it means that they mirror a tree. The
 null reference is 0.
 */
module RedBlackStore {
  import opened RedBlackTree

  datatype Node = Node(key: Key, val: Val, left: Ref, right: Ref, parent: Ref, color: Color)

  type Store = map<Ref, Node>

  function ParentOf(c: Ctx, p: Ref): Ref {
    if c.Top? then p else c.item.id
  }

  /** `t` hangs below `p`: links agree in both directions. */
  predicate Mirrors(nodes: Store, t: Tree, p: Ref) {
    match t
    case Nil => true
    case Hole(it) => it.id in nodes && nodes[it.id] == Node(it.key, it.val, 0, 0, p, Black)
    case T(color, l, it, r) =>
      && it.id in nodes && nodes[it.id] == Node(it.key, it.val, RootId(l), RootId(r), p, color)
      && Mirrors(nodes, l, it.id) && Mirrors(nodes, r, it.id)
  }

  /** The context hangs below `p`, and has `child` in its gap. */
  predicate MirrorsCtx(nodes: Store, c: Ctx, child: Ref, p: Ref) {
    c.Top? ||
    (&& c.item.id in nodes
     && nodes[c.item.id] == Node(c.item.key, c.item.val, if c.InLeft? then child else RootId(c.other),
                                 if c.InLeft? then RootId(c.other) else child, ParentOf(c.up, p), c.color)
     && Mirrors(nodes, c.other, c.item.id)
     && MirrorsCtx(nodes, c.up, c.item.id, p))
  }

  ghost predicate Same(before: Store, nodes: Store, ids: set<Ref>) {
    forall i :: i in ids && i in before ==> i in nodes && nodes[i] == before[i]
  }

  /** The records are exactly the nodes of a tree hanging from `root`. */
  ghost predicate Holds(nodes: Store, root: Ref, w: Tree) {
    Mirrors(nodes, w, 0) && root == RootId(w) && Apart(w) && nodes.Keys == Ids(w)
  }

  /** The part of a tree around a cursor, and the parts of the store that mirror it. */
  ghost predicate Around(nodes: Store, root: Ref, c: Ctx, t: Tree) {
    && Mirrors(nodes, t, ParentOf(c, 0)) && MirrorsCtx(nodes, c, RootId(t), 0)
    && Apart(t) && CtxApart(c) && CtxIds(c) !! Ids(t) && nodes.Keys == CtxIds(c) + Ids(t)
    && root == (if c.Top? then RootId(t) else RootId(Plug(c, Nil)))
  }

  lemma {:induction false} Focus(nodes: Store, c: Ctx, t: Tree, p: Ref)
    ensures Mirrors(nodes, Plug(c, t), p)
       <==> Mirrors(nodes, t, ParentOf(c, p)) && MirrorsCtx(nodes, c, RootId(t), p)
  {
    if !c.Top? {
      Focus(nodes, c.up, Fill(c, t), p);
    }
  }

  lemma {:induction false} LookAround(nodes: Store, root: Ref, c: Ctx, t: Tree)
    ensures Holds(nodes, root, Plug(c, t)) <==> Around(nodes, root, c, t)
  {
    Focus(nodes, c, t, 0);
    PlugIds(c, t);
    PlugApart(c, t);
    if !c.Top? {
      PlugRoot(c, t, Nil);
    }
  }

  lemma {:induction false} MirrorsIds(nodes: Store, t: Tree, p: Ref)
    requires Mirrors(nodes, t, p)
    ensures Ids(t) <= nodes.Keys
  {
    if t.T? {
      MirrorsIds(nodes, t.left, t.item.id);
      MirrorsIds(nodes, t.right, t.item.id);
    }
  }

  lemma {:induction false} MirrorsSame(before: Store, nodes: Store, t: Tree, p: Ref)
    requires Mirrors(before, t, p) && Same(before, nodes, Ids(t))
    ensures Mirrors(nodes, t, p)
  {
    if t.T? {
      MirrorsSame(before, nodes, t.left, t.item.id);
      MirrorsSame(before, nodes, t.right, t.item.id);
    }
  }

  lemma {:induction false} MirrorsCtxSame(before: Store, nodes: Store, c: Ctx, child: Ref, p: Ref)
    requires MirrorsCtx(before, c, child, p) && Same(before, nodes, CtxIds(c))
    ensures MirrorsCtx(nodes, c, child, p)
  {
    if !c.Top? {
      MirrorsSame(before, nodes, c.other, c.item.id);
      MirrorsCtxSame(before, nodes, c.up, c.item.id, p);
    }
  }

  /** The parent link of a subtree's root is set. */
  function Reparented(nodes: Store, x: Ref, p: Ref): (r: Store)
    ensures r.Keys == nodes.Keys
  {
    if x in nodes then nodes[x := nodes[x].(parent := p)] else nodes
  }

  /** `SetChildrensParent`. */
  function Adopted(nodes: Store, x: Ref): (r: Store)
    requires x in nodes
    ensures r.Keys == nodes.Keys
  {
    Reparented(Reparented(nodes, nodes[x].left, x), nodes[x].right, x)
  }

  lemma {:induction false} MirrorsReparented(before: Store, nodes: Store, t: Tree, p: Ref, q: Ref)
    requires Mirrors(before, t, p) && Apart(t)
    requires Same(Reparented(before, RootId(t), q), nodes, Ids(t))
    ensures Mirrors(nodes, t, q)
  {
    if t.T? {
      MirrorsSame(before, nodes, t.left, t.item.id);
      MirrorsSame(before, nodes, t.right, t.item.id);
    }
  }

  /** The slot of the gap is set. */
  function Reslot(nodes: Store, c: Ctx, child: Ref): (r: Store)
    requires !c.Top? ==> c.item.id in nodes
    ensures r.Keys == nodes.Keys
  {
    if c.Top? then nodes
    else if c.InLeft? then nodes[c.item.id := nodes[c.item.id].(left := child)]
    else nodes[c.item.id := nodes[c.item.id].(right := child)]
  }

  lemma {:induction false} MirrorsReslotted(before: Store, nodes: Store, c: Ctx, child: Ref, slot: Ref, p: Ref)
    requires MirrorsCtx(before, c, child, p) && CtxApart(c)
    requires Same(Reslot(before, c, slot), nodes, CtxIds(c))
    ensures MirrorsCtx(nodes, c, slot, p)
  {
    if !c.Top? {
      MirrorsSame(before, nodes, c.other, c.item.id);
      MirrorsCtxSame(before, nodes, c.up, c.item.id, p);
    }
  }

  /** One level of a mirrored tree, spelled out. */
  lemma {:induction false} Unfold(nodes: Store, t: Tree, p: Ref)
    requires Mirrors(nodes, t, p) && Apart(t) && t.T?
    ensures t.item.id != 0 && t.item.id in nodes
    ensures nodes[t.item.id] == Node(t.item.key, t.item.val, RootId(t.left), RootId(t.right), p, t.color)
    ensures Mirrors(nodes, t.left, t.item.id) && Mirrors(nodes, t.right, t.item.id)
    ensures Apart(t.left) && Apart(t.right) && Ids(t.left) !! Ids(t.right)
    ensures t.item.id !in Ids(t.left) && t.item.id !in Ids(t.right) && Ids(t) == {t.item.id} + Ids(t.left) + Ids(t.right)
    ensures t.left.Nil? || (RootId(t.left) in Ids(t.left) && RootId(t.left) in nodes && RootId(t.left) != 0)
    ensures t.right.Nil? || (RootId(t.right) in Ids(t.right) && RootId(t.right) in nodes && RootId(t.right) != 0)
  {
    RootInIds(t.left);
    RootInIds(t.right);
  }

  lemma {:induction false} RootInIds(t: Tree)
    ensures !t.Nil? ==> RootId(t) in Ids(t)
  {
  }

  lemma {:induction false} CtxParent(c: Ctx)
    ensures !c.Top? ==> c.item.id in CtxIds(c) && Ids(c.other) <= CtxIds(c) && CtxIds(c.up) <= CtxIds(c)
    ensures !c.Top? ==> CtxIds(c) == {c.item.id} + Ids(c.other) + CtxIds(c.up)
  {
  }

  lemma {:induction false} MirrorsParent(nodes: Store, t: Tree, p: Ref)
    requires Mirrors(nodes, t, p)
    ensures t.Nil? || (RootId(t) in nodes && nodes[RootId(t)].parent == p)
  {
  }

  lemma {:induction false} Fold(nodes: Store, t: Tree, p: Ref)
    requires t.T? && t.item.id in nodes && Mirrors(nodes, t.left, t.item.id) && Mirrors(nodes, t.right, t.item.id)
    requires nodes[t.item.id] == Node(t.item.key, t.item.val, RootId(t.left), RootId(t.right), p, t.color)
    ensures Mirrors(nodes, t, p)
  {
  }

  lemma AdoptedKeeps(nodes: Store, x: Ref, y: Ref)
    requires x in nodes && y in nodes
    ensures Adopted(nodes, x)[y] == nodes[y].(parent := Adopted(nodes, x)[y].parent)
  {
  }

  /** The parent link of the topmost node of a context is set. */
  lemma {:induction false} MirrorsCtxReparented(before: Store, nodes: Store, c: Ctx, child: Ref, p: Ref, q: Ref)
    requires MirrorsCtx(before, c, child, p) && CtxApart(c) && !c.Top?
    requires Same(Reparented(before, CtxTop(c), q), nodes, CtxIds(c))
    ensures MirrorsCtx(nodes, c, child, q)
  {
    CtxTopIsRoot(c, Nil);
    if !c.up.Top? {
      CtxTopIsRoot(c.up, Nil);
    }
    MirrorsSame(before, nodes, c.other, c.item.id);
    if !c.up.Top? {
      MirrorsCtxReparented(before, nodes, c.up, c.item.id, p, q);
    }
  }
}
