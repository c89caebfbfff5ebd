/**
 How the page store holds a tree of levels, and what every edit of one or two
 pages keeps of that.
 */
module BPlusTreeShape {
  import opened BPlusTreePage
  import opened BPlusTreeLevels

  type Store = map<Ptr, Page>

  /** The page to the right of leaf `p`, 0 at the end of the chain. */
  function NextId(lv: Level, p: nat): Ptr
    requires p < |lv|
  {
    if p + 1 < |lv| then lv[p + 1].id else 0
  }

  /** The stored page `pg` is node `p` of a level. */
  ghost predicate PageIs(pg: Page, lv: Level, p: nat, leaf: bool, top: bool, cap: nat)
    requires p < |lv|
  {
    && Sound(pg, cap)
    && pg.leaf == leaf
    && pg.root == top
    && View(pg, !leaf && p == |lv| - 1) == lv[p].view
    && (leaf ==> pg.next == NextId(lv, p))
  }

  ghost predicate NodeStored(pages: Store, levels: seq<Level>, l: nat, p: nat, cap: nat)
    requires l < |levels| && p < |levels[l]|
  {
    && levels[l][p].id != 0
    && levels[l][p].id in pages
    && PageIs(pages[levels[l][p].id], levels[l], p, l == 0, l == |levels| - 1, cap)
  }

  ghost predicate Stored(pages: Store, levels: seq<Level>, cap: nat) {
    forall l: nat, p: nat {:trigger levels[l][p]} :: l < |levels| && p < |levels[l]| ==> NodeStored(pages, levels, l, p, cap)
  }

  /** Every page occurs once. */
  ghost predicate Distinct(levels: seq<Level>) {
    forall l: nat, p: nat, m: nat, q: nat {:trigger levels[l][p], levels[m][q]} |
      l < |levels| && p < |levels[l]| && m < |levels| && q < |levels[m]| && levels[l][p].id == levels[m][q].id ::
      l == m && p == q
  }

  ghost predicate InLevels(levels: seq<Level>, id: Ptr) {
    exists l: nat, p: nat {:trigger levels[l][p]} :: l < |levels| && p < |levels[l]| && levels[l][p].id == id
  }

  /** key_count of node `p`. */
  function Count(lv: Level, p: nat, leaf: bool): int
    requires p < |lv|
  {
    |lv[p].view| - if !leaf && p == |lv| - 1 then 1 else 0
  }

  /** Every page is at least half full, the root excepted. */
  ghost predicate Filled(lv: Level, leaf: bool, top: bool, cap: nat) {
    forall p {:trigger lv[p]} :: 0 <= p < |lv| ==> (if top then 1 else MinCount(cap)) <= Count(lv, p, leaf) <= cap
  }

  /** No leaf but the root is so small that it is empty once it has lost an entry. */
  ghost predicate CanLoseOne(cap: nat) {
    forall lv: Level, p {:trigger Count(lv, p, true)} :: 0 <= p < |lv| && Filled(lv, true, false, cap) ==> 2 <= Count(lv, p, true)
  }

  /** With two entries to a page a leaf may be left empty, and the code then reads the entry before its first; with more never. */
  lemma {:induction false} CanLoseOneIff(cap: nat)
    requires 2 <= cap
    ensures CanLoseOne(cap) <==> 3 <= cap
  {
    if cap == 2 {
      var lv := [Node(1, [Sep(Fin(0), 0)])];
      assert Filled(lv, true, false, cap) && Count(lv, 0, true) == 1;
    }
  }

  /** Links and fill from level `from` up to the root. */
  ghost predicate ShapeFrom(levels: seq<Level>, from: nat, cap: nat) {
    && 0 < |levels| && |levels[|levels| - 1]| == 1
    && (forall l {:trigger levels[l]} :: from <= l < |levels| ==> Filled(levels[l], l == 0, l == |levels| - 1, cap))
    && (forall l {:trigger Linked(levels[l], levels[l + 1])} :: from <= l < |levels| - 1 ==> Linked(levels[l], levels[l + 1]))
  }

  lemma {:induction false} StoredWithView(pages: Store, levels: seq<Level>, cap: nat, l: nat, q: nat, pg: Page, v: seq<Sep>)
    requires Stored(pages, levels, cap) && Distinct(levels)
    requires l < |levels| && q < |levels[l]|
    requires PageIs(pg, WithView(levels[l], q, v), q, l == 0, l == |levels| - 1, cap)
    ensures Stored(pages[levels[l][q].id := pg], levels[l := WithView(levels[l], q, v)], cap)
    ensures Distinct(levels[l := WithView(levels[l], q, v)])
  {
    var levels': seq<Level> := levels[l := WithView(levels[l], q, v)];
    assert forall m: nat, p: nat {:trigger levels'[m][p]} :: m < |levels'| && p < |levels'[m]| ==>
      levels'[m][p].id == levels[m][p].id;
    var pages' := pages[levels[l][q].id := pg];
    forall m: nat, p: nat | m < |levels'| && p < |levels'[m]|
      ensures NodeStored(pages', levels', m, p, cap)
    {
      assert NodeStored(pages, levels, m, p, cap);
      if m == l && p == q {
      } else {
        assert levels[m][p].id != levels[l][q].id;
      }
    }
    assert Stored(pages', levels', cap);
  }

  lemma {:induction false} DistinctSplit(levels: seq<Level>, l: nat, q: nat, va: seq<Sep>, id: Ptr, vb: seq<Sep>)
    requires Distinct(levels) && l < |levels| && q < |levels[l]| && !InLevels(levels, id)
    ensures Distinct(levels[l := SplitNode(levels[l], q, va, id, vb)])
  {
    var levels': seq<Level> := levels[l := SplitNode(levels[l], q, va, id, vb)];
    forall m: nat, p: nat, n: nat, r: nat |
      m < |levels'| && p < |levels'[m]| && n < |levels'| && r < |levels'[n]| && levels'[m][p].id == levels'[n][r].id
      ensures m == n && p == r
    {
      SplitOrigin(levels, l, q, va, id, vb, m, p);
      SplitOrigin(levels, l, q, va, id, vb, n, r);
    }
  }

  /** Where a node of the level with the split comes from. */
  lemma {:induction false} SplitOrigin(levels: seq<Level>, l: nat, q: nat, va: seq<Sep>, id: Ptr, vb: seq<Sep>, m: nat, p: nat)
    requires l < |levels| && q < |levels[l]| && m < |levels|
    requires p < |levels[l := SplitNode(levels[l], q, va, id, vb)][m]|
    ensures
      var got := levels[l := SplitNode(levels[l], q, va, id, vb)][m][p];
      if m != l || p < q then p < |levels[m]| && got == levels[m][p]
      else if p == q then got == Node(levels[l][q].id, va)
      else if p == q + 1 then got == Node(id, vb)
      else got == levels[l][p - 1]
  {
  }

  lemma {:induction false} StoredSplit(pages: Store, levels: seq<Level>, cap: nat, l: nat, q: nat,
                    va: seq<Sep>, pa: Page, id: Ptr, vb: seq<Sep>, pb: Page)
    requires Stored(pages, levels, cap) && Distinct(levels)
    requires l < |levels| && q < |levels[l]| && !InLevels(levels, id) && id != 0
    requires PageIs(pa, SplitNode(levels[l], q, va, id, vb), q, l == 0, l == |levels| - 1, cap)
    requires PageIs(pb, SplitNode(levels[l], q, va, id, vb), q + 1, l == 0, l == |levels| - 1, cap)
    ensures Stored(pages[levels[l][q].id := pa][id := pb], levels[l := SplitNode(levels[l], q, va, id, vb)], cap)
    ensures Distinct(levels[l := SplitNode(levels[l], q, va, id, vb)])
  {
    DistinctSplit(levels, l, q, va, id, vb);
    var levels': seq<Level> := levels[l := SplitNode(levels[l], q, va, id, vb)];
    var pages' := pages[levels[l][q].id := pa][id := pb];
    forall m: nat, p: nat | m < |levels'| && p < |levels'[m]|
      ensures NodeStored(pages', levels', m, p, cap)
    {
      SplitOrigin(levels, l, q, va, id, vb, m, p);
      if m != l || p < q {
        assert NodeStored(pages, levels, m, p, cap);
        assert levels[m][p].id != levels[l][q].id;
      } else if p == q {
        assert NodeStored(pages, levels, l, q, cap);
      } else if q + 1 < p {
        assert NodeStored(pages, levels, l, p - 1, cap);
        assert levels[l][p - 1].id != levels[l][q].id;
      }
    }
  }

  lemma {:induction false} MergeOrigin(levels: seq<Level>, l: nat, q: nat, m: nat, p: nat)
    requires l < |levels| && 0 < q < |levels[l]| && m < |levels|
    requires p < |levels[l := MergeNodes(levels[l], q)][m]|
    ensures
      var got := levels[l := MergeNodes(levels[l], q)][m][p];
      if m != l || p < q - 1 then p < |levels[m]| && got == levels[m][p]
      else if p == q - 1 then got.id == levels[l][q - 1].id
      else p + 1 < |levels[l]| && got == levels[l][p + 1]
  {
  }

  lemma {:induction false} StoredMerge(pages: Store, levels: seq<Level>, cap: nat, l: nat, q: nat, pg: Page)
    requires Stored(pages, levels, cap) && Distinct(levels)
    requires l < |levels| && 0 < q < |levels[l]|
    requires PageIs(pg, MergeNodes(levels[l], q), q - 1, l == 0, l == |levels| - 1, cap)
    ensures Stored(pages[levels[l][q - 1].id := pg], levels[l := MergeNodes(levels[l], q)], cap)
    ensures Distinct(levels[l := MergeNodes(levels[l], q)])
    ensures !InLevels(levels[l := MergeNodes(levels[l], q)], levels[l][q].id)
  {
    var levels': seq<Level> := levels[l := MergeNodes(levels[l], q)];
    var pages' := pages[levels[l][q - 1].id := pg];
    forall m: nat, p: nat | m < |levels'| && p < |levels'[m]|
      ensures NodeStored(pages', levels', m, p, cap) && levels'[m][p].id != levels[l][q].id
    {
      MergeOrigin(levels, l, q, m, p);
      if m != l || p < q - 1 {
        assert NodeStored(pages, levels, m, p, cap);
        assert levels[m][p].id != levels[l][q - 1].id;
      } else if p == q - 1 {
        assert NodeStored(pages, levels, l, q - 1, cap);
      } else {
        assert NodeStored(pages, levels, l, p + 1, cap);
        assert levels[l][p + 1].id != levels[l][q - 1].id;
      }
    }
    forall m: nat, p: nat, n: nat, r: nat |
      m < |levels'| && p < |levels'[m]| && n < |levels'| && r < |levels'[n]| && levels'[m][p].id == levels'[n][r].id
      ensures m == n && p == r
    {
      MergeOrigin(levels, l, q, m, p);
      MergeOrigin(levels, l, q, n, r);
    }
  }

  /** A page that is in no level can go. */
  lemma {:induction false} StoredWithout(pages: Store, levels: seq<Level>, cap: nat, id: Ptr)
    requires Stored(pages, levels, cap) && !InLevels(levels, id)
    ensures Stored(pages - {id}, levels, cap)
  {
    forall l: nat, p: nat | l < |levels| && p < |levels[l]|
      ensures NodeStored(pages - {id}, levels, l, p, cap)
    {
      assert NodeStored(pages, levels, l, p, cap);
    }
  }

  /** The root is split: its old page loses the root mark, a new level appears above. */
  lemma {:induction false} StoredGrow(pages: Store, levels: seq<Level>, cap: nat, va: seq<Sep>, pa: Page, id: Ptr, vb: seq<Sep>, pb: Page,
                   top: Node, pt: Page)
    requires Stored(pages, levels, cap) && Distinct(levels)
    requires 0 < |levels| && |levels[|levels| - 1]| == 1
    requires !InLevels(levels, id) && id != 0 && !InLevels(levels, top.id) && top.id != 0 && top.id != id
    requires PageIs(pa, [Node(levels[|levels| - 1][0].id, va), Node(id, vb)], 0, |levels| == 1, false, cap)
    requires PageIs(pb, [Node(levels[|levels| - 1][0].id, va), Node(id, vb)], 1, |levels| == 1, false, cap)
    requires PageIs(pt, [top], 0, false, true, cap)
    ensures Stored(pages[levels[|levels| - 1][0].id := pa][id := pb][top.id := pt],
                   levels[|levels| - 1 := SplitNode(levels[|levels| - 1], 0, va, id, vb)] + [[top]], cap)
    ensures Distinct(levels[|levels| - 1 := SplitNode(levels[|levels| - 1], 0, va, id, vb)] + [[top]])
  {
    var h := |levels| - 1;
    var old_root := levels[h][0].id;
    var mid: seq<Level> := levels[h := SplitNode(levels[h], 0, va, id, vb)];
    var levels': seq<Level> := mid + [[top]];
    var pages' := pages[old_root := pa][id := pb][top.id := pt];
    assert mid[h] == [Node(old_root, va), Node(id, vb)];
    DistinctSplit(levels, h, 0, va, id, vb);
    forall l: nat, p: nat | l < |levels'| && p < |levels'[l]|
      ensures NodeStored(pages', levels', l, p, cap)
      ensures l < |mid| ==> levels'[l][p].id != top.id
    {
      if l < h {
        assert levels'[l][p] == levels[l][p];
        assert NodeStored(pages, levels, l, p, cap);
        assert levels[l][p].id != levels[h][0].id;
      } else if l == h {
        assert NodeStored(pages, levels, h, 0, cap);
      }
    }
    forall m: nat, p: nat, n: nat, r: nat |
      m < |levels'| && p < |levels'[m]| && n < |levels'| && r < |levels'[n]| && levels'[m][p].id == levels'[n][r].id
      ensures m == n && p == r
    {
      assert m < |mid| ==> levels'[m][p] == mid[m][p];
      assert n < |mid| ==> levels'[n][r] == mid[n][r];
    }
  }

  /** The root has one child left: its level goes, the child gets the root mark. */
  lemma {:induction false} StoredShrink(pages: Store, levels: seq<Level>, cap: nat)
    requires Stored(pages, levels, cap) && Distinct(levels)
    requires 1 < |levels| && |levels[|levels| - 1]| == 1 == |levels[|levels| - 2]|
    ensures
      var id := levels[|levels| - 2][0].id;
      id in pages && Stored(pages[id := pages[id].(root := true)], levels[..|levels| - 1], cap)
    ensures Distinct(levels[..|levels| - 1])
    ensures !InLevels(levels[..|levels| - 1], levels[|levels| - 1][0].id)
  {
    var h := |levels| - 1;
    var levels': seq<Level> := levels[..h];
    assert NodeStored(pages, levels, h - 1, 0, cap);
    var id := levels[h - 1][0].id;
    var pages' := pages[id := pages[id].(root := true)];
    forall l: nat, p: nat | l < |levels'| && p < |levels'[l]|
      ensures NodeStored(pages', levels', l, p, cap) && levels'[l][p].id != levels[h][0].id
    {
      assert levels'[l][p] == levels[l][p];
      assert NodeStored(pages, levels, l, p, cap);
      assert levels[l][p].id == levels[h - 1][0].id ==> l == h - 1;
      assert levels[l][p].id != levels[h][0].id;
    }
    forall m: nat, p: nat, n: nat, r: nat |
      m < |levels'| && p < |levels'[m]| && n < |levels'| && r < |levels'[n]| && levels'[m][p].id == levels'[n][r].id
      ensures m == n && p == r
    {
      assert levels'[m][p] == levels[m][p] && levels'[n][r] == levels[n][r];
    }
  }

  /** A node's new entries leave the links above it alone when its separator stays. */
  lemma {:induction false} ShapeWithView(levels: seq<Level>, cap: nat, l: nat, q: nat, v: seq<Sep>)
    requires l < |levels| && q < |levels[l]| && ShapeFrom(levels, l + 1, cap)
    requires Filled(levels[l], l == 0, l == |levels| - 1, cap)
    requires v != []
    requires l + 1 < |levels| ==> Linked(WithView(levels[l], q, v), levels[l + 1])
    requires (if l == |levels| - 1 then 1 else MinCount(cap)) <= Count(WithView(levels[l], q, v), q, l == 0) <= cap
    ensures ShapeFrom(levels[l := WithView(levels[l], q, v)], l, cap)
  {
    var levels': seq<Level> := levels[l := WithView(levels[l], q, v)];
    assert forall m :: l < m < |levels| ==> levels'[m] == levels[m];
    forall m | l <= m < |levels'|
      ensures Filled(levels'[m], m == 0, m == |levels'| - 1, cap)
    {
      if m == l {
        var leaf := l == 0;
        forall p | 0 <= p < |levels'[l]|
          ensures (if l == |levels| - 1 then 1 else MinCount(cap)) <= Count(levels'[l], p, leaf) <= cap
        {
          assert p != q ==> levels'[l][p] == levels[l][p];
        }
      } else {
        assert Filled(levels[m], m == 0, m == |levels| - 1, cap);
      }
    }
    forall m | l <= m < |levels'| - 1
      ensures Linked(levels'[m], levels'[m + 1])
    {
      assert m > l ==> Linked(levels[m], levels[m + 1]);
    }
  }

  /** Same bounds, same separators. */
  lemma {:induction false} SepsWithView(lv: Level, q: nat, v: seq<Sep>)
    requires q < |lv| && Inhabited(lv) && v != []
    requires q == |lv| - 1 || v[|v| - 1].bound == lv[q].view[|lv[q].view| - 1].bound
    ensures Inhabited(WithView(lv, q, v)) && Seps(WithView(lv, q, v)) == Seps(lv)
  {
    assert forall p :: 0 <= p < |lv| ==> Seps(WithView(lv, q, v))[p] == Seps(lv)[p];
  }

  /** A level may be replaced below `from` at will. */
  lemma {:induction false} ShapeAbove(levels: seq<Level>, levels': seq<Level>, from: nat, cap: nat)
    requires |levels| == |levels'| && from <= |levels| - 1 && levels[from..] == levels'[from..]
    requires ShapeFrom(levels, from, cap)
    ensures ShapeFrom(levels', from, cap)
  {
    assert forall m :: from <= m < |levels| ==> levels'[m] == levels[from..][m - from] == levels[m];
    forall m | from <= m < |levels'|
      ensures Filled(levels'[m], m == 0, m == |levels'| - 1, cap)
    {
      assert Filled(levels[m], m == 0, m == |levels| - 1, cap);
    }
    forall m | from <= m < |levels'| - 1
      ensures Linked(levels'[m], levels'[m + 1])
    {
      assert Linked(levels[m], levels[m + 1]);
    }
  }

  /** One more level of shape, from its own fill and its own link. */
  lemma {:induction false} ShapeDown(levels: seq<Level>, l: nat, cap: nat)
    requires l + 1 < |levels| && ShapeFrom(levels, l + 1, cap)
    requires Filled(levels[l], l == 0, false, cap) && Linked(levels[l], levels[l + 1])
    ensures ShapeFrom(levels, l, cap)
  {
    forall m | l <= m < |levels|
      ensures Filled(levels[m], m == 0, m == |levels| - 1, cap)
    {
    }
  }

  lemma {:induction false} FilledInhabited(lv: Level, leaf: bool, top: bool, cap: nat)
    requires 2 <= cap && Filled(lv, leaf, top, cap)
    ensures Inhabited(lv)
  {
    forall p | 0 <= p < |lv|
      ensures 0 < |lv[p].view|
    {
      assert 1 <= Count(lv, p, leaf);
    }
  }

  /** Everything but the links below level `from`. */
  ghost predicate Sane(pages: Store, levels: seq<Level>, root: Ptr, from: nat, cap: nat) {
    && 2 <= cap
    && Stored(pages, levels, cap)
    && Distinct(levels)
    && ShapeFrom(levels, from, cap)
    && root == levels[|levels| - 1][0].id
  }

  /** Level `h` took a page more: the separator of page `p` below it became two. The levels below `h` stayed. */
  ghost predicate SplitRecorded(before: seq<Level>, after: seq<Level>, h: nat, p: nat, k: Key, id: Ptr) {
    && h < |before| && h < |after| && after[..h] == before[..h]
    && p < |Flat(before[h])| && Flat(after[h]) == SplitAt(Flat(before[h]), p, k, id)
  }

  lemma {:induction false} SaneAbove(pages: Store, levels: seq<Level>, root: Ptr, from: nat, from': nat, cap: nat)
    requires Sane(pages, levels, root, from, cap) && from <= from'
    ensures Sane(pages, levels, root, from', cap)
  {
  }

  /** What the store holds for one node. */
  lemma {:induction false} NodeAt(pages: Store, levels: seq<Level>, root: Ptr, from: nat, cap: nat, l: nat, p: nat)
    requires Sane(pages, levels, root, from, cap) && l < |levels| && p < |levels[l]|
    ensures NodeStored(pages, levels, l, p, cap)
  {
  }

  /** A right-skew page with room records a split. */
  lemma {:induction false} SkewRoomStep(pages: Store, levels: seq<Level>, root: Ptr, cap: nat, h: nat, q: nat, i: nat, k: Key,
                                        id: Ptr, pg: Page)
    requires Sane(pages, levels, root, h, cap) && 0 < h < |levels| && q == |levels[h]| - 1
    requires i < |levels[h][q].view| && levels[h][q].id in pages
    requires SameFlags(pages[levels[h][q].id], pg) && pg.count == pages[levels[h][q].id].count + 1 <= cap
    requires View(pg, true) == SplitAt(levels[h][q].view, i, k, id)
    ensures
      var levels' := levels[h := WithView(levels[h], q, SplitAt(levels[h][q].view, i, k, id))];
      && Sane(pages[levels[h][q].id := pg], levels', root, h, cap)
      && SplitRecorded(levels, levels', h, Off(levels[h], q) + i, k, id)
  {
    hide Stored, Distinct, Flat;
    var v := SplitAt(levels[h][q].view, i, k, id);
    NodeAt(pages, levels, root, h, cap, h, q);
    FilledInhabited(levels[h], false, h == |levels| - 1, cap);
    FlatSplitAt(levels[h], q, i, k, id);
    StoredWithView(pages, levels, cap, h, q, pg, v);
    SepsWithView(levels[h], q, v);
    assert h + 1 < |levels| ==> Linked(levels[h], levels[h + 1]);
    ShapeWithView(levels, cap, h, q, v);
  }

  /** A page of level `l` and a fresh page share what the page was to hold. */
  lemma {:induction false} SplitStep(pages: Store, levels: seq<Level>, root: Ptr, cap: nat, l: nat, q: nat,
                  va: seq<Sep>, pa: Page, id: Ptr, vb: seq<Sep>, pb: Page)
    requires Sane(pages, levels, root, l + 1, cap) && l + 1 < |levels| && q < |levels[l]|
    requires Filled(levels[l], l == 0, false, cap)
    requires id != 0 && id !in pages
    requires MinCount(cap) <= |va| <= cap
    requires MinCount(cap) <= Count(SplitNode(levels[l], q, va, id, vb), q + 1, l == 0) <= cap
    requires PageIs(pa, SplitNode(levels[l], q, va, id, vb), q, l == 0, false, cap)
    requires PageIs(pb, SplitNode(levels[l], q, va, id, vb), q + 1, l == 0, false, cap)
    ensures
      var mid := levels[l := SplitNode(levels[l], q, va, id, vb)];
      && Sane(pages[levels[l][q].id := pa][id := pb], mid, root, l + 1, cap)
      && Filled(mid[l], l == 0, false, cap)
  {
    var mid: seq<Level> := levels[l := SplitNode(levels[l], q, va, id, vb)];
    NotInLevels(pages, levels, cap, id);
    StoredSplit(pages, levels, cap, l, q, va, pa, id, vb, pb);
    ShapeAbove(levels, mid, l + 1, cap);
    FilledSplit(levels[l], q, va, id, vb, l == 0, cap);
  }

  lemma {:induction false} NotInLevels(pages: Store, levels: seq<Level>, cap: nat, id: Ptr)
    requires Stored(pages, levels, cap) && id !in pages
    ensures !InLevels(levels, id)
  {
    forall l: nat, p: nat | l < |levels| && p < |levels[l]|
      ensures levels[l][p].id != id
    {
      assert NodeStored(pages, levels, l, p, cap);
    }
  }

  lemma {:induction false} FilledSplit(lv: Level, q: nat, va: seq<Sep>, id: Ptr, vb: seq<Sep>, leaf: bool, cap: nat)
    requires q < |lv| && Filled(lv, leaf, false, cap)
    requires MinCount(cap) <= |va| <= cap
    requires MinCount(cap) <= Count(SplitNode(lv, q, va, id, vb), q + 1, leaf) <= cap
    ensures Filled(SplitNode(lv, q, va, id, vb), leaf, false, cap)
  {
    var w := SplitNode(lv, q, va, id, vb);
    forall p | 0 <= p < |w|
      ensures MinCount(cap) <= Count(w, p, leaf) <= cap
    {
      if p < q {
        assert w[p] == lv[p];
      } else if q + 1 < p {
        assert w[p] == lv[p - 1];
      }
    }
  }

  /**
     Level `l` was to become `want`, and did so with node `q` split into `va` and
     `vb`, the latter in the new page `id`; the level above does not know yet.
   */
  ghost predicate SplitPending(before: seq<Level>, mid: seq<Level>, l: nat, want: Level, q: nat,
                               va: seq<Sep>, id: Ptr, vb: seq<Sep>, k: Key, cap: nat) {
    && l + 1 < |before| == |mid| && q < |want|
    && va != [] && vb != [] && va[|va| - 1].bound == Fin(k)
    && want[q].view == va + vb
    && Linked(want, before[l + 1])
    && mid[l] == SplitNode(want, q, va, id, vb)
    && mid[..l] == before[..l] && mid[l + 1..] == before[l + 1..]
    && Filled(mid[l], l == 0, false, cap)
  }

  /** Once the level above has recorded the split, the link to it is whole again. */
  lemma {:induction false} SplitDone(before: seq<Level>, mid: seq<Level>, after: seq<Level>, pages: Store, root: Ptr, cap: nat,
                                     l: nat, want: Level, q: nat, va: seq<Sep>, id: Ptr, vb: seq<Sep>, k: Key)
    requires SplitPending(before, mid, l, want, q, va, id, vb, k, cap)
    requires SplitRecorded(mid, after, l + 1, q, k, id) && Sane(pages, after, root, l + 1, cap)
    ensures Sane(pages, after, root, l, cap)
    ensures l < |after| && after[..l] == before[..l] && Flat(after[l]) == Flat(want)
  {
    assert mid[l + 1..][0] == mid[l + 1];
    assert after[..l + 1][l] == mid[..l + 1][l];
    assert after[..l] == after[..l + 1][..l] == mid[..l + 1][..l] == before[..l];
    assert want == WithView(want, q, va + vb);
    FlatSplitNode(want, q, va, id, vb);
    SepsSplitNode(want, q, va, id, vb, k);
    assert Linked(after[l], after[l + 1]);
    ShapeDown(after, l, cap);
  }

  /** The root is split, and a root with two children takes its place. */
  lemma {:induction false} GrowStep(pages: Store, levels: seq<Level>, root: Ptr, cap: nat, va: seq<Sep>, pa: Page, id: Ptr, vb: seq<Sep>, pb: Page,
                 top: Ptr, pt: Page, k: Key)
    requires Sane(pages, levels, root, |levels|, cap)
    requires id != 0 && id !in pages && top != 0 && top !in pages && top != id
    requires va != [] && va[|va| - 1].bound == Fin(k) && vb != []
    requires PageIs(pa, [Node(root, va), Node(id, vb)], 0, |levels| == 1, false, cap)
    requires PageIs(pb, [Node(root, va), Node(id, vb)], 1, |levels| == 1, false, cap)
    requires MinCount(cap) <= |va| <= cap && MinCount(cap) <= Count([Node(root, va), Node(id, vb)], 1, |levels| == 1) <= cap
    requires PageIs(pt, [Node(top, [Sep(Fin(k), root), Sep(Inf, id)])], 0, false, true, cap)
    ensures
      var h := |levels| - 1;
      var after := levels[h := [Node(root, va), Node(id, vb)]] + [[Node(top, [Sep(Fin(k), root), Sep(Inf, id)])]];
      && Sane(pages[root := pa][id := pb][top := pt], after, top, h, cap)
      && Flat(after[h]) == va + vb && after[..h] == levels[..h]
  {
    hide Stored, Distinct, PageIs;
    var h := |levels| - 1;
    var n := Node(top, [Sep(Fin(k), root), Sep(Inf, id)]);
    var after: seq<Level> := levels[h := [Node(root, va), Node(id, vb)]] + [[n]];
    assert levels[h] == [levels[h][0]];
    assert SplitNode(levels[h], 0, va, id, vb) == [Node(root, va), Node(id, vb)];
    NotInLevels(pages, levels, cap, id);
    NotInLevels(pages, levels, cap, top);
    StoredGrow(pages, levels, cap, va, pa, id, vb, pb, n, pt);
    FlatTwo(after[h][0], after[h][1]);
    GrowShape(after, cap, va, root, id, vb, top, k);
  }

  lemma {:induction false} GrowShape(after: seq<Level>, cap: nat, va: seq<Sep>, root: Ptr, id: Ptr, vb: seq<Sep>, top: Ptr, k: Key)
    requires 2 <= cap && 2 <= |after| && va != [] && vb != [] && va[|va| - 1].bound == Fin(k)
    requires after[|after| - 2] == [Node(root, va), Node(id, vb)]
    requires after[|after| - 1] == [Node(top, [Sep(Fin(k), root), Sep(Inf, id)])]
    requires MinCount(cap) <= |va| <= cap && MinCount(cap) <= Count([Node(root, va), Node(id, vb)], 1, |after| == 2) <= cap
    ensures ShapeFrom(after, |after| - 2, cap)
  {
    var h := |after| - 2;
    FlatOne(after[h + 1][0]);
    assert Flat(after[h + 1]) == Seps(after[h]);
    forall m | h <= m < |after|
      ensures Filled(after[m], m == 0, m == |after| - 1, cap)
    {
    }
  }

  /** A full right-skew page and a fresh one record a split below them. */
  lemma {:induction false} SkewSplitStep(pages: Store, levels: seq<Level>, root: Ptr, cap: nat, h: nat, q: nat, i: nat, k: Key, id: Ptr,
                                         va: seq<Sep>, pa: Page, nid: Ptr, vb: seq<Sep>, pb: Page)
    requires Sane(pages, levels, root, h, cap) && 0 < h && h + 1 < |levels| && q == |levels[h]| - 1
    requires i < |levels[h][q].view| && va + vb == SplitAt(levels[h][q].view, i, k, id)
    requires nid != 0 && nid !in pages
    requires MinCount(cap) <= |va| <= cap && MinCount(cap) < |vb| <= cap + 1 && |va| == pa.count
    requires Sound(pa, cap) && !pa.leaf && !pa.root && View(pa, false) == va
    requires Sound(pb, cap) && !pb.leaf && !pb.root && View(pb, true) == vb
    ensures
      var mid := levels[h := SplitNode(levels[h], q, va, nid, vb)];
      var want := WithView(levels[h], q, va + vb);
      && Sane(pages[levels[h][q].id := pa][nid := pb], mid, root, h + 1, cap)
      && SplitPending(levels, mid, h, want, q, va, nid, vb, LastKey(pa), cap)
      && Off(levels[h], q) + i < |Flat(levels[h])|
      && Flat(want) == SplitAt(Flat(levels[h]), Off(levels[h], q) + i, k, id)
  {
    hide Stored, Distinct, Flat;
    var want := WithView(levels[h], q, va + vb);
    FilledInhabited(levels[h], false, false, cap);
    assert Linked(levels[h], levels[h + 1]);
    SepsWithView(levels[h], q, va + vb);
    FlatSplitAt(levels[h], q, i, k, id);
    SaneAbove(pages, levels, root, h, h + 1, cap);
    SplitStep(pages, levels, root, cap, h, q, va, pa, nid, vb, pb);
    assert SplitNode(want, q, va, nid, vb) == SplitNode(levels[h], q, va, nid, vb);
  }

  /** The same for a root. */
  lemma {:induction false} SkewGrowStep(pages: Store, levels: seq<Level>, root: Ptr, cap: nat, i: nat, k: Key, id: Ptr,
                                        va: seq<Sep>, pa: Page, nid: Ptr, vb: seq<Sep>, pb: Page, top: Ptr, pt: Page)
    requires 1 < |levels| && Sane(pages, levels, root, |levels| - 1, cap)
    requires i < |levels[|levels| - 1][0].view| && va + vb == SplitAt(levels[|levels| - 1][0].view, i, k, id)
    requires nid != 0 && nid !in pages && top != 0 && top !in pages && top != nid
    requires MinCount(cap) <= |va| <= cap && MinCount(cap) < |vb| <= cap + 1 && |va| == pa.count
    requires Sound(pa, cap) && !pa.leaf && !pa.root && View(pa, false) == va
    requires Sound(pb, cap) && !pb.leaf && !pb.root && View(pb, true) == vb
    requires Sound(pt, cap) && !pt.leaf && pt.root && View(pt, true) == [Sep(Fin(LastKey(pa)), root), Sep(Inf, nid)]
    ensures
      var h := |levels| - 1;
      var after := levels[h := [Node(root, va), Node(nid, vb)]] + [[Node(top, [Sep(Fin(LastKey(pa)), root), Sep(Inf, nid)])]];
      && Sane(pages[root := pa][nid := pb][top := pt], after, top, h, cap)
      && SplitRecorded(levels, after, h, i, k, id)
  {
    var h := |levels| - 1;
    SaneAbove(pages, levels, root, h, |levels|, cap);
    GrowStep(pages, levels, root, cap, va, pa, nid, vb, pb, top, pt, LastKey(pa));
    assert levels[h] == [levels[h][0]];
    FlatOne(levels[h][0]);
  }

  /** Level `l` awaits the entries `v` in node `q`; the level above already agrees with them. */
  ghost predicate Awaits(levels: seq<Level>, l: nat, q: nat, v: seq<Sep>, cap: nat) {
    && l < |levels| && q < |levels[l]|
    && (l != 0 ==> q < |levels[l]| - 1)
    && Filled(levels[l], l == 0, l == |levels| - 1, cap)
    && (l + 1 < |levels| ==> Linked(WithView(levels[l], q, v), levels[l + 1]))
  }

  /** A leaf or leaf-like page with room takes its entries. */
  lemma {:induction false} RoomStep(pages: Store, levels: seq<Level>, root: Ptr, cap: nat, l: nat, q: nat, v: seq<Sep>, pg: Page)
    requires Awaits(levels, l, q, v, cap) && Sane(pages, levels, root, l + 1, cap)
    requires levels[l][q].id in pages
    requires SameFlags(pages[levels[l][q].id], pg) && pg.next == pages[levels[l][q].id].next
    requires pages[levels[l][q].id].count < pg.count <= cap && View(pg, false) == v
    ensures Sane(pages[levels[l][q].id := pg], levels[l := WithView(levels[l], q, v)], root, l, cap)
  {
    NodeAt(pages, levels, root, l + 1, cap, l, q);
    StoredWithView(pages, levels, cap, l, q, pg, v);
    assert Count(levels[l], q, l == 0) == pages[levels[l][q].id].count;
    ShapeWithView(levels, cap, l, q, v);
  }

  /** A full leaf or leaf-like page below the root shares its entries with a fresh page. */
  lemma {:induction false} PlainSplitStep(pages: Store, levels: seq<Level>, root: Ptr, cap: nat, l: nat, q: nat,
                                          pa: Page, nid: Ptr, pb: Page)
    requires Sane(pages, levels, root, l + 1, cap) && l + 1 < |levels|
    requires Sound(pa, cap) && Sound(pb, cap) && Awaits(levels, l, q, View(pa, false) + View(pb, false), cap)
    requires nid != 0 && nid !in pages && levels[l][q].id in pages
    requires MinCount(cap) <= pa.count && MinCount(cap) <= pb.count
    requires pa.leaf == (l == 0) && !pa.root && pb.leaf == (l == 0) && !pb.root
    requires l == 0 ==> pa.next == nid && pb.next == pages[levels[l][q].id].next
    ensures
      var va, vb := View(pa, false), View(pb, false);
      var mid := levels[l := SplitNode(levels[l], q, va, nid, vb)];
      && Sane(pages[levels[l][q].id := pa][nid := pb], mid, root, l + 1, cap)
      && SplitPending(levels, mid, l, WithView(levels[l], q, va + vb), q, va, nid, vb, LastKey(pa), cap)
  {
    var va, vb := View(pa, false), View(pb, false);
    NodeAt(pages, levels, root, l + 1, cap, l, q);
    SplitStep(pages, levels, root, cap, l, q, va, pa, nid, vb, pb);
    var want := WithView(levels[l], q, va + vb);
    assert SplitNode(want, q, va, nid, vb) == SplitNode(levels[l], q, va, nid, vb);
  }

  /** The root is a leaf and is split. */
  lemma {:induction false} LeafGrowStep(pages: Store, levels: seq<Level>, root: Ptr, cap: nat, pa: Page, nid: Ptr, pb: Page,
                                        top: Ptr, pt: Page)
    requires |levels| == 1 && Sane(pages, levels, root, 1, cap) && root in pages
    requires nid != 0 && nid !in pages && top != 0 && top !in pages && top != nid
    requires MinCount(cap) <= pa.count && MinCount(cap) <= pb.count
    requires Sound(pa, cap) && pa.leaf && !pa.root && pa.next == nid
    requires Sound(pb, cap) && pb.leaf && !pb.root && pb.next == pages[root].next
    requires Sound(pt, cap) && !pt.leaf && pt.root && View(pt, true) == [Sep(Fin(LastKey(pa)), root), Sep(Inf, nid)]
    ensures
      var va, vb := View(pa, false), View(pb, false);
      var after := [[Node(root, va), Node(nid, vb)], [Node(top, [Sep(Fin(LastKey(pa)), root), Sep(Inf, nid)])]];
      && Sane(pages[root := pa][nid := pb][top := pt], after, top, 0, cap)
      && Flat(after[0]) == va + vb
  {
    var va, vb := View(pa, false), View(pb, false);
    NodeAt(pages, levels, root, 1, cap, 0, 0);
    GrowStep(pages, levels, root, cap, va, pa, nid, vb, pb, top, pt, LastKey(pa));
    var after := [[Node(root, va), Node(nid, vb)], [Node(top, [Sep(Fin(LastKey(pa)), root), Sep(Inf, nid)])]];
    assert levels[0 := [Node(root, va), Node(nid, vb)]] + [[Node(top, [Sep(Fin(LastKey(pa)), root), Sep(Inf, nid)])]] == after;
  }

  /** A leaf-like page gets a new bound in front of an entry that waits to be inserted. */
  lemma {:induction false} RebindStep(pages: Store, levels: seq<Level>, root: Ptr, cap: nat, l: nat, q: nat, i: nat, k: Key, pg: Page,
                                      id: Ptr)
    requires Sane(pages, levels, root, l, cap) && 0 < l < |levels| && q < |levels[l]| - 1
    requires i < |levels[l][q].view| && levels[l][q].id in pages && i < |pages[levels[l][q].id].data|
    requires pg == SetKey(pages[levels[l][q].id], i, k)
    ensures
      var v := levels[l][q].view;
      var levels' := levels[l := WithView(levels[l], q, v[i := Sep(Fin(k), v[i].ptr)])];
      && Sane(pages[levels[l][q].id := pg], levels', root, l + 1, cap)
      && Awaits(levels', l, q, SplitAt(v, i, k, id), cap)
      && Off(levels[l], q) + i < |Flat(levels[l])|
      && Flat(WithView(levels'[l], q, SplitAt(v, i, k, id))) == SplitAt(Flat(levels[l]), Off(levels[l], q) + i, k, id)
  {
    hide Stored, Distinct, Flat;
    var v := levels[l][q].view;
    var v' := v[i := Sep(Fin(k), v[i].ptr)];
    var levels': seq<Level> := levels[l := WithView(levels[l], q, v')];
    NodeAt(pages, levels, root, l, cap, l, q);
    FilledInhabited(levels[l], false, l == |levels| - 1, cap);
    StoredWithView(pages, levels, cap, l, q, pg, v');
    SaneAbove(pages, levels, root, l, l + 1, cap);
    RebindShape(levels, cap, l, q, i, k);
    FlatSplitAt(levels[l], q, i, k, id);
    assert WithView(levels'[l], q, SplitAt(v, i, k, id)) == WithView(levels[l], q, SplitAt(v, i, k, id));
    SepsWithView(levels[l], q, SplitAt(v, i, k, id));
  }

  lemma {:induction false} RebindShape(levels: seq<Level>, cap: nat, l: nat, q: nat, i: nat, k: Key)
    requires ShapeFrom(levels, l, cap) && l < |levels| - 1 && q < |levels[l]| && i < |levels[l][q].view|
    ensures
      var v := levels[l][q].view;
      var levels' := levels[l := WithView(levels[l], q, v[i := Sep(Fin(k), v[i].ptr)])];
      && ShapeFrom(levels', l + 1, cap) && Filled(levels'[l], l == 0, false, cap)
      && Linked(levels[l], levels'[l + 1])
  {
    var v := levels[l][q].view;
    var levels': seq<Level> := levels[l := WithView(levels[l], q, v[i := Sep(Fin(k), v[i].ptr)])];
    ShapeAbove(levels, levels', l + 1, cap);
    var leaf := l == 0;
    forall p | 0 <= p < |levels'[l]|
      ensures MinCount(cap) <= Count(levels'[l], p, leaf) <= cap
    {
      assert p != q ==> levels'[l][p] == levels[l][p];
      assert Count(levels'[l], p, leaf) == Count(levels[l], p, leaf);
    }
  }
}
