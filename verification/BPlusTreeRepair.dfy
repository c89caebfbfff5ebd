/**
 What removal does to the levels: an entry is cut out of a page, pages that fall
 below half borrow from a neighbour or merge with it, and bounds that named a
 removed key are replaced on the way to the root.
 */
module BPlusTreeRepair {
  import opened BPlusTreePage
  import opened BPlusTreeLevels
  import opened BPlusTreeShape

  /** Linked, except that the bound of page `q` may be out of date. */
  ghost predicate LinkedBut(lo: Level, hi: Level, q: nat) {
    && Inhabited(lo) && q < |lo| == |Flat(hi)|
    && Flat(hi)[q].ptr == lo[q].id
    && (q == |lo| - 1 ==> Flat(hi)[q].bound == Inf)
    && Flat(hi)[q := SepOf(lo, q)] == Seps(lo)
  }

  /** Level `l` is filled, and linked upwards but for the bound of node `q` if its last entry, at `i`, was touched. */
  ghost predicate Tidy(levels: seq<Level>, l: nat, q: nat, i: nat, cap: nat) {
    && l < |levels| && q < |levels[l]| && i < |levels[l][q].view|
    && Filled(levels[l], l == 0, l == |levels| - 1, cap)
    && (l + 1 < |levels| ==> LinkedBut(levels[l], levels[l + 1], q))
    && (l + 1 < |levels| && i < |levels[l][q].view| - 1 ==> Linked(levels[l], levels[l + 1]))
  }

  /** Filled, except that page `q` may be one entry short. */
  ghost predicate Short(lv: Level, q: nat, leaf: bool, cap: nat) {
    forall p {:trigger lv[p]} :: 0 <= p < |lv| ==> MinCount(cap) - (if p == q then 1 else 0) <= Count(lv, p, leaf) <= cap
  }

  /** Page `p` of level `l` has gone into page `p - 1`; its pointer above is still there. */
  ghost predicate MergePending(levels: seq<Level>, l: nat, p: nat, cap: nat) {
    && l + 1 < |levels| && Inhabited(levels[l])
    && 0 < p < |Flat(levels[l + 1])|
    && Seps(levels[l]) == MergeAt(Flat(levels[l + 1]), p)
    && Filled(levels[l], l == 0, false, cap)
  }

  lemma {:induction false} ButIsLinked(lo: Level, hi: Level, q: nat)
    requires LinkedBut(lo, hi, q) && (q == |lo| - 1 || Flat(hi)[q].bound == SepOf(lo, q).bound)
    ensures Linked(lo, hi)
  {
    assert Flat(hi)[q] == SepOf(lo, q);
    assert Flat(hi) == Flat(hi)[q := SepOf(lo, q)];
  }

  lemma {:induction false} LinkedIsBut(lo: Level, hi: Level, q: nat)
    requires Linked(lo, hi) && q < |lo|
    ensures LinkedBut(lo, hi, q)
  {
    assert Flat(hi)[q] == SepOf(lo, q);
    assert Flat(hi) == Flat(hi)[q := SepOf(lo, q)];
  }

  /** Only node `q` changed, so only its bound can be out of date. */
  lemma {:induction false} ButWithView(lo: Level, hi: Level, q: nat, v: seq<Sep>)
    requires LinkedBut(lo, hi, q) && v != []
    ensures LinkedBut(WithView(lo, q, v), hi, q)
  {
    var lo' := WithView(lo, q, v);
    forall p | 0 <= p < |lo|
      ensures Flat(hi)[q := SepOf(lo', q)][p] == Seps(lo')[p]
    {
      if p != q {
        assert Flat(hi)[p] == Flat(hi)[q := SepOf(lo, q)][p] == Seps(lo)[p];
      }
    }
    assert Flat(hi)[q := SepOf(lo', q)] == Seps(lo');
  }

  /** Putting the right bound in place restores the link. */
  lemma {:induction false} ButRepaired(lo: Level, hi: Level, p: nat, q: nat, i: nat)
    requires LinkedBut(lo, hi, p) && q < |hi| && i < |hi[q].view| && p == Off(hi, q) + i
    ensures Linked(lo, WithView(hi, q, hi[q].view[i := Sep(SepOf(lo, p).bound, hi[q].view[i].ptr)]))
  {
    FlatAt(hi, q, i);
    FlatSetSep(hi, q, i, SepOf(lo, p));
  }

  /** A bound other than the last of a node is none of the upper level's business. */
  lemma {:induction false} TidyRebound(levels: seq<Level>, l: nat, q: nat, i: nat, j: nat, b: Bound, cap: nat)
    requires Tidy(levels, l, q, i, cap) && j < |levels[l][q].view| - 1
    ensures
      var v := levels[l][q].view;
      Tidy(levels[l := WithView(levels[l], q, v[j := Sep(b, v[j].ptr)])], l, q, i, cap)
  {
    var v := levels[l][q].view;
    var w := v[j := Sep(b, v[j].ptr)];
    var lv' := WithView(levels[l], q, w);
    var levels': seq<Level> := levels[l := lv'];
    FilledRebound(levels[l], q, w, l == 0, l == |levels| - 1, cap);
    if l + 1 < |levels| {
      assert levels'[l + 1] == levels[l + 1];
      ButWithView(levels[l], levels[l + 1], q, w);
      if i < |v| - 1 {
        SepsWithView(levels[l], q, w);
      }
    }
  }

  lemma {:induction false} FilledRebound(lv: Level, q: nat, w: seq<Sep>, leaf: bool, top: bool, cap: nat)
    requires q < |lv| && Filled(lv, leaf, top, cap) && |w| == |lv[q].view|
    ensures Filled(WithView(lv, q, w), leaf, top, cap)
  {
    var lv' := WithView(lv, q, w);
    forall p | 0 <= p < |lv'|
      ensures (if top then 1 else MinCount(cap)) <= Count(lv', p, leaf) <= cap
    {
      assert Count(lv', p, leaf) == Count(lv, p, leaf);
    }
  }

  /** Two neighbours exchange entries. */
  function Exchange(lv: Level, p: nat, a: seq<Sep>, b: seq<Sep>): Level
    requires p + 1 < |lv|
  {
    WithView(WithView(lv, p, a), p + 1, b)
  }

  lemma {:induction false} FlatExchange(lv: Level, p: nat, a: seq<Sep>, b: seq<Sep>)
    requires p + 1 < |lv| && lv[p].view + lv[p + 1].view == a + b
    ensures Flat(Exchange(lv, p, a, b)) == Flat(lv)
  {
    FlatMergeNodes(lv, p + 1);
    FlatMergeNodes(Exchange(lv, p, a, b), p + 1);
    assert MergeNodes(lv, p + 1) == MergeNodes(Exchange(lv, p, a, b), p + 1);
  }

  lemma {:induction false} SepsExchange(lv: Level, p: nat, a: seq<Sep>, b: seq<Sep>)
    requires p + 1 < |lv| && Inhabited(lv) && lv[p].view + lv[p + 1].view == a + b && a != [] && b != []
    ensures Inhabited(Exchange(lv, p, a, b))
    ensures Seps(Exchange(lv, p, a, b)) == Seps(lv)[p := Sep(a[|a| - 1].bound, lv[p].id)]
  {
    var lv' := Exchange(lv, p, a, b);
    assert b[|b| - 1] == (a + b)[|a + b| - 1] == lv[p + 1].view[|lv[p + 1].view| - 1];
    assert forall j :: 0 <= j < |lv| && j != p ==> Seps(lv')[j] == Seps(lv)[j];
  }

  /** After an exchange the link holds again once the left page's bound is put right. */
  lemma {:induction false} ExchangeLinked(lo: Level, hi: Level, p: nat, a: seq<Sep>, b: seq<Sep>, q: nat, i: nat)
    requires Linked(lo, hi) && p + 1 < |lo| && lo[p].view + lo[p + 1].view == a + b && a != [] && b != []
    requires q < |hi| && i < |hi[q].view| && p == Off(hi, q) + i
    ensures Linked(Exchange(lo, p, a, b), WithView(hi, q, hi[q].view[i := Sep(a[|a| - 1].bound, hi[q].view[i].ptr)]))
  {
    SepsExchange(lo, p, a, b);
    FlatAt(hi, q, i);
    FlatSetSep(hi, q, i, Sep(a[|a| - 1].bound, hi[q].view[i].ptr));
  }

  lemma {:induction false} FilledExchange(lv: Level, p: nat, a: seq<Sep>, b: seq<Sep>, q: nat, leaf: bool, cap: nat)
    requires p + 1 < |lv| && Short(lv, q, leaf, cap) && (q == p || q == p + 1)
    requires MinCount(cap) <= |a| <= cap
    requires MinCount(cap) <= |b| - (if !leaf && p + 1 == |lv| - 1 then 1 else 0) <= cap
    ensures Filled(Exchange(lv, p, a, b), leaf, false, cap)
  {
    var lv' := Exchange(lv, p, a, b);
    forall j | 0 <= j < |lv'|
      ensures MinCount(cap) <= Count(lv', j, leaf) <= cap
    {
      assert j != p && j != p + 1 ==> lv'[j] == lv[j];
    }
  }

  /** A merge leaves one pointer too many in the level above. */
  lemma {:induction false} MergeMakesPending(levels: seq<Level>, l: nat, p: nat, q: nat, j: nat, b: Bound, cap: nat)
    requires l + 1 < |levels| && Linked(levels[l], levels[l + 1]) && 0 < p < |levels[l]|
    requires q < |levels[l + 1]| && j < |levels[l + 1][q].view| && p - 1 == Off(levels[l + 1], q) + j
    requires Filled(MergeNodes(levels[l], p), l == 0, false, cap)
    ensures
      var v := levels[l + 1][q].view;
      MergePending(levels[l := MergeNodes(levels[l], p)][l + 1 := WithView(levels[l + 1], q, v[j := Sep(b, v[j].ptr)])], l, p, cap)
  {
    var hi := levels[l + 1];
    var v := hi[q].view;
    SepsMergeNodes(levels[l], p);
    FlatAt(hi, q, j);
    FlatSetSep(hi, q, j, Sep(b, v[j].ptr));
    assert MergeAt(Flat(hi), p) == MergeAt(Flat(hi)[p - 1 := Sep(b, v[j].ptr)], p);
  }

  lemma {:induction false} FilledMerge(lv: Level, p: nat, q: nat, leaf: bool, cap: nat)
    requires 0 < p < |lv| && Short(lv, q, leaf, cap) && (q == p || q == p - 1)
    requires Count(lv, p - 1, leaf) + Count(lv, p, leaf) <= cap
    requires MinCount(cap) <= Count(lv, p - 1, leaf) + Count(lv, p, leaf)
    ensures Filled(MergeNodes(lv, p), leaf, false, cap)
  {
    var lv' := MergeNodes(lv, p);
    forall j | 0 <= j < |lv'|
      ensures MinCount(cap) <= Count(lv', j, leaf) <= cap
    {
      if j < p - 1 {
        assert lv'[j] == lv[j];
      } else if p - 1 < j {
        assert lv'[j] == lv[j + 1];
      }
    }
  }

  /** Touching bound `i` of node `q` leaves the level tidy there. */
  lemma {:induction false} TouchedIsTidy(levels: seq<Level>, l: nat, q: nat, i: nat, b: Bound, cap: nat)
    requires l < |levels| && q < |levels[l]| && i < |levels[l][q].view|
    requires Filled(levels[l], l == 0, l == |levels| - 1, cap)
    requires l + 1 < |levels| ==> Linked(levels[l], levels[l + 1])
    ensures
      var v := levels[l][q].view;
      Tidy(levels[l := WithView(levels[l], q, v[i := Sep(b, v[i].ptr)])], l, q, i, cap)
  {
    var v := levels[l][q].view;
    var w := v[i := Sep(b, v[i].ptr)];
    FilledRebound(levels[l], q, w, l == 0, l == |levels| - 1, cap);
    if l + 1 < |levels| {
      LinkedIsBut(levels[l], levels[l + 1], q);
      ButWithView(levels[l], levels[l + 1], q, w);
      if i < |v| - 1 {
        SepsWithView(levels[l], q, w);
      }
    }
  }

  /** A key set in an internal page is a bound set in its node. */
  lemma {:induction false} SetKeyStored(pages: Store, levels: seq<Level>, cap: nat, l: nat, q: nat, i: nat, k: Key)
    requires Stored(pages, levels, cap) && Distinct(levels) && 0 < l < |levels| && q < |levels[l]|
    requires levels[l][q].id in pages && i < pages[levels[l][q].id].count <= |pages[levels[l][q].id].data|
    ensures
      var id, v := levels[l][q].id, levels[l][q].view;
      && i < |v|
      && Stored(pages[id := SetKey(pages[id], i, k)], levels[l := WithView(levels[l], q, v[i := Sep(Fin(k), v[i].ptr)])], cap)
      && Distinct(levels[l := WithView(levels[l], q, v[i := Sep(Fin(k), v[i].ptr)])])
  {
    var id, v := levels[l][q].id, levels[l][q].view;
    assert NodeStored(pages, levels, l, q, cap);
    var w := v[i := Sep(Fin(k), v[i].ptr)];
    var pg := SetKey(pages[id], i, k);
    var skew := q == |levels[l]| - 1;
    assert View(pg, skew) == w;
    StoredWithView(pages, levels, cap, l, q, pg, w);
  }

  /** The parent's bound for a page whose last key changed is put right. */
  lemma {:induction false} RepairStep(pages: Store, levels: seq<Level>, root: Ptr, cap: nat, l: nat, p: nat, q: nat, i: nat, k: Key)
    requires Sane(pages, levels, root, l + 1, cap) && l + 1 < |levels| && p < |levels[l]|
    requires LinkedBut(levels[l], levels[l + 1], p) && SepOf(levels[l], p).bound == Fin(k)
    requires q < |levels[l + 1]| && i < |levels[l + 1][q].view| && p == Off(levels[l + 1], q) + i
    requires levels[l + 1][q].id in pages
    requires i < pages[levels[l + 1][q].id].count <= |pages[levels[l + 1][q].id].data|
    ensures
      var id, v := levels[l + 1][q].id, levels[l + 1][q].view;
      var levels' := levels[l + 1 := WithView(levels[l + 1], q, v[i := Sep(Fin(k), v[i].ptr)])];
      && Sane(pages[id := SetKey(pages[id], i, k)], levels', root, l + 2, cap)
      && Linked(levels'[l], levels'[l + 1])
      && Tidy(levels', l + 1, q, i, cap)
  {
    hide Stored, Distinct, Flat, Tidy, Filled, LinkedBut;
    var id, v := levels[l + 1][q].id, levels[l + 1][q].view;
    var levels': seq<Level> := levels[l + 1 := WithView(levels[l + 1], q, v[i := Sep(Fin(k), v[i].ptr)])];
    SetKeyStored(pages, levels, cap, l + 1, q, i, k);
    ButRepaired(levels[l], levels[l + 1], p, q, i);
    TouchedIsTidy(levels, l + 1, q, i, Fin(k), cap);
    SaneRest(levels, levels', l + 2, cap);
  }

  lemma {:induction false} SaneRest(levels: seq<Level>, levels': seq<Level>, from: nat, cap: nat)
    requires |levels| == |levels'| && from <= |levels| && levels[from..] == levels'[from..]
    requires ShapeFrom(levels, from, cap)
    requires |levels'[|levels| - 1]| == 1
    ensures ShapeFrom(levels', from, cap)
  {
    if from < |levels| {
      ShapeAbove(levels, levels', from, cap);
    }
  }

  /** One more level of shape, or the top one. */
  lemma {:induction false} SaneDown(pages: Store, levels: seq<Level>, root: Ptr, l: nat, cap: nat)
    requires Sane(pages, levels, root, l + 1, cap) && l < |levels|
    requires Filled(levels[l], l == 0, l == |levels| - 1, cap)
    requires l + 1 < |levels| ==> Linked(levels[l], levels[l + 1])
    ensures Sane(pages, levels, root, l, cap)
  {
    if l + 1 < |levels| {
      ShapeDown(levels, l, cap);
    }
  }

  /** An entry is cut out of node `q`: `v` is what remains. The level may be one entry short there. */
  lemma {:induction false} CutStep(pages: Store, levels: seq<Level>, root: Ptr, cap: nat, l: nat, q: nat, v: seq<Sep>, pg: Page)
    requires Sane(pages, levels, root, l + 1, cap) && l < |levels| && q < |levels[l]|
    requires Filled(levels[l], l == 0, l == |levels| - 1, cap)
    requires v != [] && |v| == |levels[l][q].view| - 1
    requires l + 1 < |levels| ==> LinkedBut(levels[l], levels[l + 1], q)
    requires PageIs(pg, WithView(levels[l], q, v), q, l == 0, l == |levels| - 1, cap)
    ensures
      var levels' := levels[l := WithView(levels[l], q, v)];
      && Sane(pages[levels[l][q].id := pg], levels', root, l + 1, cap)
      && (l + 1 < |levels| ==> LinkedBut(levels'[l], levels'[l + 1], q) && Short(levels'[l], q, l == 0, cap))
      && (l + 1 == |levels| && 1 <= pg.count ==> Filled(levels'[l], l == 0, true, cap))
      && (l + 1 < |levels| && MinCount(cap) <= pg.count ==> Filled(levels'[l], l == 0, false, cap))
  {
    hide Stored, Distinct, Flat, LinkedBut;
    var levels': seq<Level> := levels[l := WithView(levels[l], q, v)];
    StoredWithView(pages, levels, cap, l, q, pg, v);
    SaneRest(levels, levels', l + 1, cap);
    if l + 1 < |levels| {
      ButWithView(levels[l], levels[l + 1], q, v);
    }
    var leaf := l == 0;
    forall p | 0 <= p < |levels'[l]|
      ensures p != q ==> Count(levels'[l], p, leaf) == Count(levels[l], p, leaf)
      ensures p == q ==> Count(levels'[l], p, leaf) == Count(levels[l], p, leaf) - 1 == pg.count
    {
    }
  }

  /** Two pages exchanged entries and their common parent was told. */
  lemma {:induction false} BorrowStep(pages: Store, levels: seq<Level>, root: Ptr, cap: nat, l: nat, p: nat, short: nat,
                                      pa: Page, a: seq<Sep>, pb: Page, b: seq<Sep>, q: nat, i: nat, j: nat)
    requires l + 1 < |levels| && Sane(pages, levels, root, l + 2, cap) && Linked(levels[l], levels[l + 1])
    requires q < |levels[l + 1]| && Tidy(levels, l + 1, q, i, cap) && j < |levels[l + 1][q].view| - 1 && p == Off(levels[l + 1], q) + j
    requires p + 1 < |levels[l]| && Short(levels[l], short, l == 0, cap) && (short == p || short == p + 1)
    requires levels[l][p].view + levels[l][p + 1].view == a + b
    requires PageIs(pa, Exchange(levels[l], p, a, b), p, l == 0, false, cap)
    requires PageIs(pb, Exchange(levels[l], p, a, b), p + 1, l == 0, false, cap)
    requires MinCount(cap) <= pa.count && MinCount(cap) <= pb.count
    requires levels[l + 1][q].id in pages && levels[l][p].id in pages && levels[l][p + 1].id in pages
    ensures
      var id, v := levels[l + 1][q].id, levels[l + 1][q].view;
      var levels' := levels[l := Exchange(levels[l], p, a, b)]
                           [l + 1 := WithView(levels[l + 1], q, v[j := Sep(Fin(LastKey(pa)), v[j].ptr)])];
      && j < |pages[id].data| && levels[l][p].id != id && levels[l][p + 1].id != id
      && Sane(pages[levels[l][p].id := pa][levels[l][p + 1].id := pb][id := SetKey(pages[id], j, LastKey(pa))], levels', root, l + 2, cap)
      && Linked(levels'[l], levels'[l + 1]) && Filled(levels'[l], l == 0, false, cap)
      && Flat(levels'[l]) == Flat(levels[l])
      && Tidy(levels', l + 1, q, i, cap)
  {
    hide Stored, Distinct, Flat, Tidy;
    var id, v := levels[l + 1][q].id, levels[l + 1][q].view;
    var k := LastKey(pa);
    var l1: seq<Level> := levels[l := WithView(levels[l], p, a)];
    var l2: seq<Level> := levels[l := Exchange(levels[l], p, a, b)];
    StoredBorrow(pages, levels, cap, l, p, pa, a, pb, b);
    var pages2 := pages[levels[l][p].id := pa][levels[l][p + 1].id := pb];
    DistinctAt(levels, l, p, l + 1, q);
    DistinctAt(levels, l, p + 1, l + 1, q);
    NodeAt(pages, levels, root, l + 2, cap, l + 1, q);
    SetKeyStored(pages2, l2, cap, l + 1, q, j, k);
    ExchangeLinked(levels[l], levels[l + 1], p, a, b, q, j);
    FlatExchange(levels[l], p, a, b);
    FilledExchange(levels[l], p, a, b, short, l == 0, cap);
    TidyRest(levels, l2, l + 1, q, i, cap);
    TidyRebound(l2, l + 1, q, i, j, Fin(k), cap);
    SaneRest(levels, l2[l + 1 := WithView(levels[l + 1], q, v[j := Sep(Fin(k), v[j].ptr)])], l + 2, cap);
  }

  lemma {:induction false} DistinctAt(levels: seq<Level>, l: nat, p: nat, m: nat, q: nat)
    requires Distinct(levels) && l < |levels| && p < |levels[l]| && m < |levels| && q < |levels[m]| && (l != m || p != q)
    ensures levels[l][p].id != levels[m][q].id
  {
  }

  lemma {:induction false} TidyRest(levels: seq<Level>, levels': seq<Level>, l: nat, q: nat, i: nat, cap: nat)
    requires Tidy(levels, l, q, i, cap) && |levels'| == |levels| && levels'[l..] == levels[l..]
    ensures Tidy(levels', l, q, i, cap)
  {
    assert levels'[l] == levels'[l..][0] == levels[l];
    assert l + 1 < |levels| ==> levels'[l + 1] == levels'[l..][1] == levels[l + 1];
  }

  lemma {:induction false} StoredBorrow(pages: Store, levels: seq<Level>, cap: nat, l: nat, p: nat,
                                        pa: Page, a: seq<Sep>, pb: Page, b: seq<Sep>)
    requires Stored(pages, levels, cap) && Distinct(levels) && l < |levels| - 1 && p + 1 < |levels[l]|
    requires PageIs(pa, Exchange(levels[l], p, a, b), p, l == 0, false, cap)
    requires PageIs(pb, Exchange(levels[l], p, a, b), p + 1, l == 0, false, cap)
    ensures
      var levels' := levels[l := Exchange(levels[l], p, a, b)];
      && Stored(pages[levels[l][p].id := pa][levels[l][p + 1].id := pb], levels', cap)
      && Distinct(levels')
  {
    hide Stored, Distinct, View;
    var l1: seq<Level> := levels[l := WithView(levels[l], p, a)];
    assert PageIs(pa, WithView(levels[l], p, a), p, l == 0, false, cap);
    StoredWithView(pages, levels, cap, l, p, pa, a);
    StoredWithView(pages[levels[l][p].id := pa], l1, cap, l, p + 1, pb, b);
    assert l1[l := WithView(l1[l], p + 1, b)] == levels[l := Exchange(levels[l], p, a, b)];
  }

  /** A page went into its left neighbour and the parent's bound was renewed. */
  lemma {:induction false} MergeStep(pages: Store, levels: seq<Level>, root: Ptr, cap: nat, l: nat, p: nat, short: nat, pg: Page,
                                     q: nat, i: nat, j: nat)
    requires l + 1 < |levels| && Sane(pages, levels, root, l + 2, cap) && Linked(levels[l], levels[l + 1])
    requires q < |levels[l + 1]| && Tidy(levels, l + 1, q, i, cap) && j < |levels[l + 1][q].view| - 1 && p - 1 == Off(levels[l + 1], q) + j
    requires 0 < p < |levels[l]| && Short(levels[l], short, l == 0, cap) && (short == p || short == p - 1)
    requires PageIs(pg, MergeNodes(levels[l], p), p - 1, l == 0, false, cap)
    requires MinCount(cap) <= pg.count && pg.count == Count(levels[l], p - 1, l == 0) + Count(levels[l], p, l == 0)
    requires levels[l + 1][q].id in pages && 0 < pg.count
    ensures
      var id, v := levels[l + 1][q].id, levels[l + 1][q].view;
      var levels' := levels[l := MergeNodes(levels[l], p)]
                           [l + 1 := WithView(levels[l + 1], q, v[j := Sep(Fin(LastKey(pg)), v[j].ptr)])];
      && j < |pages[id].data| && levels[l][p - 1].id != id
      && Sane(pages[levels[l][p - 1].id := pg][id := SetKey(pages[id], j, LastKey(pg))], levels', root, l + 2, cap)
      && MergePending(levels', l, p, cap) && Flat(levels'[l]) == Flat(levels[l])
      && Tidy(levels', l + 1, q, i, cap)
      && !InLevels(levels', levels[l][p].id)
  {
    hide Stored, Distinct, Flat, Tidy, InLevels;
    var id, v := levels[l + 1][q].id, levels[l + 1][q].view;
    var k := LastKey(pg);
    var l2: seq<Level> := levels[l := MergeNodes(levels[l], p)];
    StoredMerge(pages, levels, cap, l, p, pg);
    DistinctAt(levels, l, p - 1, l + 1, q);
    NodeAt(pages, levels, root, l + 2, cap, l + 1, q);
    SetKeyStored(pages[levels[l][p - 1].id := pg], l2, cap, l + 1, q, j, k);
    FilledMerge(levels[l], p, short, l == 0, cap);
    MergeMakesPending(levels, l, p, q, j, Fin(k), cap);
    FlatMergeNodes(levels[l], p);
    TidyRest(levels, l2, l + 1, q, i, cap);
    TidyRebound(l2, l + 1, q, i, j, Fin(k), cap);
    var l3: seq<Level> := l2[l + 1 := WithView(levels[l + 1], q, v[j := Sep(Fin(k), v[j].ptr)])];
    SaneRest(levels, l3, l + 2, cap);
    SameIds(l2, l + 1, q, v[j := Sep(Fin(k), v[j].ptr)], levels[l][p].id);
  }

  lemma {:induction false} SameIds(levels: seq<Level>, l: nat, q: nat, v: seq<Sep>, id: Ptr)
    requires l < |levels| && q < |levels[l]| && !InLevels(levels, id)
    ensures !InLevels(levels[l := WithView(levels[l], q, v)], id)
  {
    var levels': seq<Level> := levels[l := WithView(levels[l], q, v)];
    forall m: nat, p: nat | m < |levels'| && p < |levels'[m]|
      ensures levels'[m][p].id != id
    {
      assert levels'[m][p].id == levels[m][p].id;
    }
  }

  /** A right-skew page drops a pointer; the level agrees with the level below again. */
  lemma {:induction false} SkewCutStep(pages: Store, levels: seq<Level>, root: Ptr, cap: nat, h: nat, q: nat, i: nat, pg: Page)
    requires 0 < h < |levels| && Sane(pages, levels, root, h, cap) && q == |levels[h]| - 1
    requires 0 < i < |levels[h][q].view| && levels[h][q].id in pages
    requires MergePending(levels, h - 1, Off(levels[h], q) + i, cap)
    requires SameFlags(pages[levels[h][q].id], pg) && pg.count <= cap && View(pg, true) == MergeAt(levels[h][q].view, i)
    ensures
      var levels' := levels[h := WithView(levels[h], q, MergeAt(levels[h][q].view, i))];
      && Sane(pages[levels[h][q].id := pg], levels', root, h + 1, cap)
      && Linked(levels'[h - 1], levels'[h])
      && (h + 1 < |levels| ==> Linked(levels'[h], levels'[h + 1]) && Short(levels'[h], q, false, cap))
      && (h + 1 < |levels| && MinCount(cap) <= pg.count ==> Filled(levels'[h], false, false, cap))
      && (h + 1 == |levels| && 1 <= pg.count ==> Filled(levels'[h], false, true, cap))
  {
    hide Stored, Distinct, Flat, Short, Filled;
    var v := MergeAt(levels[h][q].view, i);
    NodeAt(pages, levels, root, h, cap, h, q);
    SaneAbove(pages, levels, root, h, h + 1, cap);
    if h + 1 < |levels| {
      LinkedIsBut(levels[h], levels[h + 1], q);
    }
    CutStep(pages, levels, root, cap, h, q, v, pg);
    FlatMergeAt(levels[h], q, i);
    if h + 1 < |levels| {
      ButIsLinked(WithView(levels[h], q, v), levels[h + 1], q);
    }
  }

  /** The root has a single child left, and goes. */
  lemma {:induction false} ShrinkStep(pages: Store, levels: seq<Level>, root: Ptr, cap: nat)
    requires 2 <= |levels| && Sane(pages, levels, root, |levels|, cap)
    requires Linked(levels[|levels| - 2], levels[|levels| - 1]) && |levels[|levels| - 1][0].view| == 1
    requires Filled(levels[|levels| - 2], |levels| == 2, false, cap)
    ensures
      var child := levels[|levels| - 1][0].view[0].ptr;
      && child in pages && child != root
      && Sane(pages[child := pages[child].(root := true)], levels[..|levels| - 1], child, |levels| - 2, cap)
      && !InLevels(levels[..|levels| - 1], root)
  {
    hide Stored, Distinct, InLevels;
    var h := |levels| - 1;
    assert levels[h] == [levels[h][0]];
    FlatOne(levels[h][0]);
    assert levels[h][0].view[0] == SepOf(levels[h - 1], 0);
    StoredShrink(pages, levels, cap);
    DistinctAt(levels, h - 1, 0, h, 0);
    assert Filled(levels[h - 1], h == 1, true, cap);
  }

  lemma {:induction false} SaneIsTidy(pages: Store, levels: seq<Level>, root: Ptr, l: nat, q: nat, i: nat, cap: nat)
    requires Sane(pages, levels, root, l, cap) && l < |levels| && q < |levels[l]| && i < |levels[l][q].view|
    ensures Tidy(levels, l, q, i, cap)
  {
    if l + 1 < |levels| {
      assert Linked(levels[l], levels[l + 1]);
      LinkedIsBut(levels[l], levels[l + 1], q);
    }
  }

  /** Where no bound can be out of date, tidy is whole. */
  lemma {:induction false} TidyIsSane(pages: Store, levels: seq<Level>, root: Ptr, l: nat, q: nat, i: nat, cap: nat)
    requires Sane(pages, levels, root, l + 1, cap) && Tidy(levels, l, q, i, cap)
    requires q == |levels[l]| - 1 || i < |levels[l][q].view| - 1
    ensures Sane(pages, levels, root, l, cap)
  {
    if l + 1 < |levels| && q == |levels[l]| - 1 {
      ButIsLinked(levels[l], levels[l + 1], q);
    }
    SaneDown(pages, levels, root, l, cap);
  }
}
