/**
 Red-black trees as values, and a cursor into them: the shapes that the node
 records of the map are to mirror.

 `Hole` is a black leaf that is about to be unlinked. Its node is still in
 place, but it no longer counts: neither as an item nor as a black node. While
 the deletion fix-up works its way up, the tree is a red-black tree in that
 sense, except at the cursor.
 */
module RedBlackTree {
  type Key = int
  type Val = int
  type Ref = nat

  datatype Color = Red | Black

  /** A node with its key and value: what the node is, wherever it hangs. */
  datatype Item = Item(id: Ref, key: Key, val: Val)

  datatype Tree =
    | Nil
    | Hole(item: Item)
    | T(color: Color, left: Tree, item: Item, right: Tree)

  /** A tree with one subtree missing, seen from the gap. */
  datatype Ctx =
    | Top
    | InLeft(up: Ctx, color: Color, item: Item, other: Tree)
    | InRight(up: Ctx, color: Color, item: Item, other: Tree)

  function RootId(t: Tree): Ref {
    if t.Nil? then 0 else t.item.id
  }

  function ColorOf(t: Tree): Color {
    if t.T? then t.color else Black
  }

  function ParentId(c: Ctx): Ref {
    if c.Top? then 0 else c.item.id
  }

  function ParentColor(c: Ctx): Color {
    if c.Top? then Black else c.color
  }

  function Depth(c: Ctx): nat {
    if c.Top? then 0 else 1 + Depth(c.up)
  }

  /** One level up: the gap is filled with `t`. */
  function Fill(c: Ctx, t: Tree): Tree
    requires !c.Top?
  {
    if c.InLeft? then T(c.color, t, c.item, c.other) else T(c.color, c.other, c.item, t)
  }

  function Plug(c: Ctx, t: Tree): Tree {
    if c.Top? then t else Plug(c.up, Fill(c, t))
  }

  /** The cursor moves from `t` to its sibling. */
  function Across(c: Ctx, t: Tree): Ctx
    requires !c.Top?
  {
    if c.InLeft? then InRight(c.up, c.color, c.item, t) else InLeft(c.up, c.color, c.item, t)
  }

  function Ids(t: Tree): set<Ref> {
    match t
    case Nil => {}
    case Hole(it) => {it.id}
    case T(_, l, it, r) => {it.id} + Ids(l) + Ids(r)
  }

  function CtxIds(c: Ctx): set<Ref> {
    if c.Top? then {} else {c.item.id} + Ids(c.other) + CtxIds(c.up)
  }

  function HoleIds(t: Tree): set<Ref> {
    match t
    case Nil => {}
    case Hole(it) => {it.id}
    case T(_, l, _, r) => HoleIds(l) + HoleIds(r)
  }

  function CtxHoleIds(c: Ctx): set<Ref> {
    if c.Top? then {} else HoleIds(c.other) + CtxHoleIds(c.up)
  }

  /** No node occurs twice, and none is null. */
  predicate Apart(t: Tree) {
    match t
    case Nil => true
    case Hole(it) => it.id != 0
    case T(_, l, it, r) =>
      it.id != 0 && it.id !in Ids(l) && it.id !in Ids(r) && Ids(l) !! Ids(r) && Apart(l) && Apart(r)
  }

  predicate CtxApart(c: Ctx) {
    c.Top? ||
    (&& c.item.id != 0 && c.item.id !in Ids(c.other) && c.item.id !in CtxIds(c.up) && Ids(c.other) !! CtxIds(c.up)
     && Apart(c.other) && CtxApart(c.up))
  }

  /** The items in order; a hole has none. */
  function InOrder(t: Tree): seq<Item> {
    if t.T? then InOrder(t.left) + [t.item] + InOrder(t.right) else []
  }

  function Before(c: Ctx): seq<Item> {
    match c
    case Top => []
    case InLeft(up, _, _, _) => Before(up)
    case InRight(up, _, it, l) => Before(up) + (InOrder(l) + [it])
  }

  function After(c: Ctx): seq<Item> {
    match c
    case Top => []
    case InLeft(up, _, it, r) => ([it] + InOrder(r)) + After(up)
    case InRight(up, _, _, _) => After(up)
  }

  /** No red node has a red child, and every way down meets `k` black nodes. */
  predicate Rb(t: Tree, k: nat) {
    match t
    case Nil => k == 0
    case Hole(_) => k == 0
    case T(Red, l, _, r) => ColorOf(l) == Black && ColorOf(r) == Black && Rb(l, k) && Rb(r, k)
    case T(Black, l, _, r) => k > 0 && Rb(l, k - 1) && Rb(r, k - 1)
  }

  function Height(t: Tree): nat {
    if !t.T? then 0 else 1 + if Height(t.left) < Height(t.right) then Height(t.right) else Height(t.left)
  }

  function TwoTo(n: nat): nat {
    if n == 0 then 1 else 2 * TwoTo(n - 1)
  }

  lemma {:induction false} RbSize(t: Tree, k: nat)
    requires Rb(t, k) && HoleIds(t) == {}
    ensures TwoTo(k) <= |InOrder(t)| + 1
    ensures Height(t) <= 2 * k + if ColorOf(t) == Red then 1 else 0
    decreases t
  {
    if t.T? {
      var j := if t.color == Red then k else k - 1;
      RbSize(t.left, j);
      RbSize(t.right, j);
    }
  }

  /** What the colours are for: a red-black tree of `n` items is no higher than twice the logarithm of `n + 1`. */
  lemma {:induction false} Balanced(t: Tree)
    requires RedBlack(t) && HoleIds(t) == {}
    ensures TwoTo((Height(t) + 1) / 2) <= |InOrder(t)| + 1
  {
    var k: nat :| Rb(t, k);
    RbSize(t, k);
    TwoToRises((Height(t) + 1) / 2, k);
  }

  lemma {:induction false} TwoToRises(m: nat, n: nat)
    requires m <= n
    ensures TwoTo(m) <= TwoTo(n)
  {
    if m < n {
      TwoToRises(m, n - 1);
    }
  }

  /** The context is a red-black tree but for a gap that wants a subtree of black height `k`. */
  predicate CtxRb(c: Ctx, k: nat) {
    c.Top? ||
    (&& Rb(c.other, k)
     && (c.color == Red ==> ColorOf(c.other) == Black && ParentColor(c.up) == Black)
     && CtxRb(c.up, if c.color == Black then k + 1 else k))
  }

  ghost predicate RedBlack(t: Tree) {
    ColorOf(t) == Black && exists k: nat :: Rb(t, k)
  }

  /** The root of the whole is black, or it is the gap. */
  predicate TopBlack(c: Ctx) {
    c.Top? || ColorOf(Plug(c, Nil)) == Black
  }

  lemma {:induction false} InOrderPlug(c: Ctx, t: Tree)
    ensures InOrder(Plug(c, t)) == Before(c) + InOrder(t) + After(c)
  {
    if c.Top? {
      assert [] + InOrder(t) + [] == InOrder(t);
    } else {
      InOrderPlug(c.up, Fill(c, t));
      if c.InLeft? {
        RegroupLeft(Before(c.up), InOrder(t), c.item, InOrder(c.other), After(c.up));
      } else {
        RegroupRight(Before(c.up), InOrder(c.other), c.item, InOrder(t), After(c.up));
      }
    }
  }

  lemma RegroupLeft(b: seq<Item>, t: seq<Item>, it: Item, r: seq<Item>, a: seq<Item>)
    ensures b + (t + [it] + r) + a == b + t + (([it] + r) + a)
  {
  }

  lemma RegroupRight(b: seq<Item>, l: seq<Item>, it: Item, t: seq<Item>, a: seq<Item>)
    ensures b + (l + [it] + t) + a == (b + (l + [it])) + t + a
  {
  }

  lemma {:induction false} PlugColor(c: Ctx, t: Tree, s: Tree)
    requires !c.Top?
    ensures ColorOf(Plug(c, t)) == ColorOf(Plug(c, s))
    decreases c
  {
    if !c.up.Top? {
      PlugColor(c.up, Fill(c, t), Fill(c, s));
    }
  }

  lemma {:induction false} TopBlackUp(c: Ctx)
    requires !c.Top? && TopBlack(c)
    ensures TopBlack(c.up)
  {
    if !c.up.Top? {
      PlugColor(c.up, Fill(c, Nil), Nil);
    }
  }

  lemma {:induction false} TopBlackPlug(c: Ctx, t: Tree)
    requires TopBlack(c) && (c.Top? ==> ColorOf(t) == Black)
    ensures ColorOf(Plug(c, t)) == Black
  {
    if !c.Top? {
      PlugColor(c, t, Nil);
    }
  }

  lemma {:induction false} PlugRoot(c: Ctx, t: Tree, s: Tree)
    requires !c.Top?
    ensures RootId(Plug(c, t)) == RootId(Plug(c, s))
    decreases c
  {
    if !c.up.Top? {
      PlugRoot(c.up, Fill(c, t), Fill(c, s));
    }
  }

  /** A fitting subtree in a fitting context makes a red-black tree. */
  lemma {:induction false} RbPlug(c: Ctx, t: Tree, k: nat) returns (h: nat)
    requires Rb(t, k) && CtxRb(c, k) && (ColorOf(t) == Red ==> ParentColor(c) == Black)
    ensures Rb(Plug(c, t), h)
  {
    if c.Top? {
      h := k;
    } else {
      h := RbPlug(c.up, Fill(c, t), if c.color == Black then k + 1 else k);
    }
  }

  lemma {:induction false} RbUnplug(c: Ctx, t: Tree, h: nat) returns (k: nat)
    requires Rb(Plug(c, t), h)
    ensures Rb(t, k) && CtxRb(c, k) && (ColorOf(t) == Red ==> ParentColor(c) == Black)
  {
    if c.Top? {
      k := h;
    } else {
      k := RbUnplug(c.up, Fill(c, t), h);
      k := if c.color == Black then k - 1 else k;
    }
  }

  lemma {:induction false} PlugIds(c: Ctx, t: Tree)
    ensures Ids(Plug(c, t)) == CtxIds(c) + Ids(t)
    ensures HoleIds(Plug(c, t)) == CtxHoleIds(c) + HoleIds(t)
  {
    if !c.Top? {
      PlugIds(c.up, Fill(c, t));
    }
  }

  lemma {:induction false} PlugApart(c: Ctx, t: Tree)
    ensures Apart(Plug(c, t)) <==> CtxApart(c) && Apart(t) && CtxIds(c) !! Ids(t)
  {
    if !c.Top? {
      PlugApart(c.up, Fill(c, t));
    }
  }

  lemma {:induction false} HoleIn(t: Tree)
    ensures HoleIds(t) <= Ids(t)
  {
    if t.T? {
      HoleIn(t.left);
      HoleIn(t.right);
    }
  }

  /** The way down to a hole. */
  lemma {:induction false} HolePath(c: Ctx, t: Tree, x: Ref) returns (at: Ctx, h: Tree)
    requires x in HoleIds(t)
    ensures Plug(at, h) == Plug(c, t) && h.Hole? && h.item.id == x
    decreases t
  {
    if t.Hole? {
      at, h := c, t;
    } else if x in HoleIds(t.left) {
      at, h := HolePath(InLeft(c, t.color, t.item, t.right), t.left, x);
    } else {
      at, h := HolePath(InRight(c, t.color, t.item, t.left), t.right, x);
    }
  }

  /** The sibling's children, named from the gap. */
  function Close(c: Ctx): Tree
    requires !c.Top? && c.other.T?
  {
    if c.InLeft? then c.other.left else c.other.right
  }

  function Distant(c: Ctx): Tree
    requires !c.Top? && c.other.T?
  {
    if c.InLeft? then c.other.right else c.other.left
  }

  /**
   The sibling after its close nephew, which was red, has been rotated into its
   place: the distant nephew is red, and may have a red child on its far side.
   */
  predicate Dented(c: Ctx, k: nat)
    requires !c.Top?
  {
    && c.other.T? && c.other.color == Black && ColorOf(Close(c)) == Black && Rb(Close(c), k)
    && Distant(c).T? && Distant(c).color == Red && Rb(Distant(c).left, k) && Rb(Distant(c).right, k)
  }

  /** The subtree in the gap is one black node short. */
  ghost predicate Short(c: Ctx, t: Tree, k: nat) {
    && ColorOf(t) == Black && Rb(t, k)
    && (!c.Top? ==>
      && ((Rb(c.other, k + 1) && (c.color == Red ==> ColorOf(c.other) == Black)) || Dented(c, k))
      && (c.color == Red ==> ParentColor(c.up) == Black)
      && CtxRb(c.up, if c.color == Black then k + 2 else k + 1))
  }

  /** What makes `DeleteFixUp` terminate: it goes up, except towards a red parent or a black close nephew. */
  ghost function Climb(c: Ctx): nat {
    if c.Top? || c.color == Red then 0 else 1 + Depth(c)
  }

  ghost function Bent(c: Ctx): nat {
    if !c.Top? && c.other.T? && ColorOf(Close(c)) == Red then 1 else 0
  }

  /** Case 1: a red sibling has been rotated above the parent, which is red now. */
  function SiblingRaised(c: Ctx): Ctx
    requires !c.Top? && c.other.T?
  {
    if c.InLeft?
    then InLeft(InLeft(c.up, Black, c.other.item, c.other.right), Red, c.item, c.other.left)
    else InRight(InRight(c.up, Black, c.other.item, c.other.left), Red, c.item, c.other.right)
  }

  /** A cursor below the same place, whose subtree there has as black a root. */
  lemma {:induction false} SameTop(c: Ctx, d: Ctx, s: Tree)
    requires !c.Top? && TopBlack(c) && Plug(d, Nil) == Plug(c.up, s) && ColorOf(s) == c.color
    ensures TopBlack(d)
  {
    assert Plug(c, Nil) == Plug(c.up, Fill(c, Nil));
    if !c.up.Top? {
      PlugColor(c.up, Fill(c, Nil), s);
    }
  }

  lemma {:induction false} SiblingRaisedShort(c: Ctx, t: Tree, k: nat)
    requires Short(c, t, k) && !c.Top? && ColorOf(c.other) == Red
    ensures Short(SiblingRaised(c), t, k) && Climb(SiblingRaised(c)) < Climb(c)
    ensures TopBlack(c) ==> TopBlack(SiblingRaised(c))
  {
    var up := SiblingRaised(c).up;
    assert Rb(c.other, k + 1) && CtxRb(c.up, k + 2);
    assert Rb(up.other, k + 1) && CtxRb(up, k + 1);
    if TopBlack(c) {
      assert Plug(SiblingRaised(c), Nil) == Plug(up, Fill(SiblingRaised(c), Nil));
      SameTop(c, SiblingRaised(c), Fill(up, Fill(SiblingRaised(c), Nil)));
    }
  }

  /** Cases 2 and 3: the sibling has been made red, so the parent's subtree is even, and short. */
  lemma {:induction false} SiblingRed(c: Ctx, t: Tree, k: nat)
    requires Short(c, t, k) && !c.Top? && c.other.T? && c.other.color == Black
    requires ColorOf(Close(c)) == Black && ColorOf(Distant(c)) == Black
    ensures Rb(Fill(c.(other := c.other.(color := Red), color := Black), t), k + 1)
    ensures c.color == Red ==> CtxRb(c.up, k + 1)
    ensures c.color == Black ==> Short(c.up, Fill(c.(other := c.other.(color := Red)), t), k + 1) && Climb(c.up) < Climb(c)
    ensures TopBlack(c) ==> TopBlack(c.up)
  {
    if TopBlack(c) {
      TopBlackUp(c);
    }
    assert Rb(c.other, k + 1);
    assert Rb(c.other.(color := Red), k);
  }

  /** Case 4: the close nephew, red, has been rotated into the sibling's place. */
  function SiblingBent(c: Ctx): Ctx
    requires !c.Top? && c.other.T? && Close(c).T?
  {
    var n := Close(c);
    c.(other := if c.InLeft?
                then T(Black, n.left, n.item, T(Red, n.right, c.other.item, c.other.right))
                else T(Black, T(Red, c.other.left, c.other.item, n.left), n.item, n.right))
  }

  lemma {:induction false} SiblingBentShort(c: Ctx, t: Tree, k: nat)
    requires Short(c, t, k) && !c.Top? && c.other.T? && c.other.color == Black && ColorOf(Close(c)) == Red
    ensures Short(SiblingBent(c), t, k) && Climb(SiblingBent(c)) == Climb(c) && Bent(SiblingBent(c)) < Bent(c)
    ensures TopBlack(c) ==> TopBlack(SiblingBent(c))
  {
    assert Rb(c.other, k + 1) && Rb(Close(c), k) && Rb(Distant(c), k);
    assert Dented(SiblingBent(c), k);
    if TopBlack(c) {
      SameTop(c, SiblingBent(c), Fill(SiblingBent(c), Nil));
    }
  }

  /** Case 5: the sibling has been rotated above the parent and taken its colour; its children are black. */
  function SiblingTop(c: Ctx, t: Tree): Tree
    requires !c.Top? && c.other.T? && Distant(c).T?
  {
    var d := Distant(c).(color := Black);
    if c.InLeft?
    then T(c.color, T(Black, t, c.item, Close(c)), c.other.item, d)
    else T(c.color, d, c.other.item, T(Black, Close(c), c.item, t))
  }

  lemma {:induction false} SiblingTopRb(c: Ctx, t: Tree, k: nat) returns (h: nat)
    requires Short(c, t, k) && !c.Top? && c.other.T? && c.other.color == Black
    requires ColorOf(Close(c)) == Black && ColorOf(Distant(c)) == Red
    ensures Rb(Plug(c.up, SiblingTop(c, t)), h)
    ensures TopBlack(c) ==> ColorOf(Plug(c.up, SiblingTop(c, t))) == Black
  {
    var s := SiblingTop(c, t);
    var g := if c.color == Black then k + 2 else k + 1;
    assert Rb(Close(c), k) && Rb(Distant(c).(color := Black), k + 1) by {
      if Rb(c.other, k + 1) {
        assert Rb(Distant(c), k);
      }
    }
    assert Rb(T(Black, t, c.item, Close(c)), k + 1) && Rb(T(Black, Close(c), c.item, t), k + 1);
    assert Rb(s, g);
    h := RbPlug(c.up, s, g);
    if TopBlack(c) {
      TopBlackUp(c);
      assert c.up.Top? ==> Plug(c, Nil) == Fill(c, Nil);
      TopBlackPlug(c.up, s);
    }
  }

  /** The cursor `s` in a subtree, seen from the tree that has the subtree in the gap of `b`. */
  function Append(s: Ctx, b: Ctx): Ctx {
    match s
    case Top => b
    case InLeft(up, color, item, other) => InLeft(Append(up, b), color, item, other)
    case InRight(up, color, item, other) => InRight(Append(up, b), color, item, other)
  }

  /** A way that only ever turns left. */
  predicate LeftSpine(s: Ctx) {
    s.Top? || (s.InLeft? && LeftSpine(s.up))
  }

  lemma {:induction false} PlugAppend(s: Ctx, b: Ctx, t: Tree)
    ensures Plug(Append(s, b), t) == Plug(b, Plug(s, t))
  {
    if !s.Top? {
      PlugAppend(s.up, b, Fill(s, t));
      assert Fill(Append(s, b), t) == Fill(s, t);
    }
  }

  lemma {:induction false} SpineOrder(s: Ctx, b: Ctx)
    requires LeftSpine(s)
    ensures Before(Append(s, b)) == Before(b) && Before(s) == []
    ensures After(Append(s, b)) == After(s) + After(b)
  {
    if !s.Top? {
      SpineOrder(s.up, b);
      assert [s.item] + InOrder(s.other) + (After(s.up) + After(b)) == [s.item] + InOrder(s.other) + After(s.up) + After(b);
    }
  }

  function CtxTop(c: Ctx): Ref
    requires !c.Top?
  {
    if c.up.Top? then c.item.id else CtxTop(c.up)
  }

  lemma {:induction false} CtxTopIsRoot(c: Ctx, t: Tree)
    requires !c.Top?
    ensures CtxTop(c) == RootId(Plug(c, t)) && CtxTop(c) in CtxIds(c)
    decreases c
  {
    if !c.up.Top? {
      CtxTopIsRoot(c.up, Fill(c, t));
    }
  }

  /** The way down to a node. */
  lemma {:induction false} NodePath(c: Ctx, t: Tree, x: Ref) returns (at: Ctx, s: Tree)
    requires x in Ids(t)
    ensures Plug(at, s) == Plug(c, t) && !s.Nil? && s.item.id == x
    decreases t
  {
    if t.item.id == x {
      at, s := c, t;
    } else if x in Ids(t.left) {
      at, s := NodePath(InLeft(c, t.color, t.item, t.right), t.left, x);
    } else {
      at, s := NodePath(InRight(c, t.color, t.item, t.left), t.right, x);
    }
  }

  /** Subtrees that are alike in colour and height are interchangeable. */
  lemma {:induction false} RbReplace(c: Ctx, t: Tree, s: Tree, k: nat)
    requires ColorOf(t) == ColorOf(s) && forall j: nat :: Rb(t, j) <==> Rb(s, j)
    ensures Rb(Plug(c, t), k) <==> Rb(Plug(c, s), k)
    ensures ColorOf(Plug(c, t)) == ColorOf(Plug(c, s))
  {
    if !c.Top? {
      RbReplace(c.up, Fill(c, t), Fill(c, s), k);
    }
  }
}
