/**
 The B+ tree indexer of `bpt.hpp`: a page store, the root's page id and the
 number of keys, changed in place along a search path.

 The buffer pool below it is the map `pages`; a page guard is a lookup in that
 map and its release is the update. A page from `NewPage` has arbitrary
 contents, and `DeletePage` may or may not take effect.
 */
module BPlusTreeIndexer {
  import opened BPlusTreePage
  import opened BPlusTreeLevels
  import opened BPlusTreeShape
  import opened BPlusTreeRepair
  import opened BPlusTreeSearch
  import opened FreshIds

  /** A search path entry: the page and the index followed in it. */
  datatype Step = Step(page: Ptr, idx: nat)

  /** The level that depth `d` of a path is on. */
  function LevelAt(levels: seq<Level>, d: nat): Level
    requires d < |levels|
  {
    levels[|levels| - 1 - d]
  }

  /** `qs[d]` is the position, in its level, of the page at depth `d` of the path. */
  ghost predicate OnPath(levels: seq<Level>, path: seq<Step>, qs: seq<nat>) {
    && 0 < |path| == |qs| <= |levels|
    && |levels[|levels| - 1]| == 1 && qs[0] == 0
    && (forall d {:trigger qs[d]} :: 0 <= d < |path| ==>
          qs[d] < |LevelAt(levels, d)| && path[d].page == LevelAt(levels, d)[qs[d]].id)
    && (forall d {:trigger path[d].idx} :: 0 <= d < |path| - 1 ==>
          path[d].idx < |LevelAt(levels, d)[qs[d]].view| &&
          qs[d + 1] == Off(LevelAt(levels, d), qs[d]) + path[d].idx)
  }

  lemma SameAbove(levels: seq<Level>, levels': seq<Level>, n: nat, k: nat)
    requires |levels| == |levels'| && n + k < |levels| && levels'[n..] == levels[n..]
    ensures levels'[n + k] == levels[n + k]
  {
    assert levels'[n..][k] == levels[n..][k];
  }

  /** The parent's path is a path, whatever happened on the page's own level and below. */
  lemma {:induction false} OnPathUp(levels: seq<Level>, levels': seq<Level>, path: seq<Step>, qs: seq<nat>, idx: nat)
    requires OnPath(levels, path, qs) && 2 <= |path| && |levels'| == |levels|
    requires levels'[|levels| - |path| + 2..] == levels[|levels| - |path| + 2..]
    requires |LevelAt(levels', |path| - 2)| > qs[|path| - 2]
    requires LevelAt(levels', |path| - 2)[qs[|path| - 2]].id == path[|path| - 2].page
    requires |path| == 2 ==> |LevelAt(levels', 0)| == 1
    ensures OnPath(levels', path[..|path| - 2] + [path[|path| - 2].(idx := idx)], qs[..|path| - 1])
    ensures OnPath(levels', path[..|path| - 1], qs[..|path| - 1])
  {
    hide Flat, Off;
    forall d | 0 <= d < |path| - 2 ensures LevelAt(levels', d) == LevelAt(levels, d) {
      SameAbove(levels, levels', |levels| - |path| + 2, |path| - 3 - d);
    }
  }

  lemma {:induction false} OnPathPrefix(levels: seq<Level>, path: seq<Step>, qs: seq<nat>)
    requires OnPath(levels, path, qs) && 2 <= |path|
    ensures OnPath(levels, path[..|path| - 1], qs[..|path| - 1])
  {
    OnPathUp(levels, levels, path, qs, 0);
  }

  /** A page is the last of its level exactly when the path reached it through the last pointer of a last page. */
  lemma {:induction false} LastOnPath(levels: seq<Level>, path: seq<Step>, qs: seq<nat>)
    requires OnPath(levels, path, qs) && 2 <= |path|
    requires |LevelAt(levels, |path| - 1)| == |Flat(LevelAt(levels, |path| - 2))| && Inhabited(LevelAt(levels, |path| - 2))
    ensures
      var n, hi := |path|, LevelAt(levels, |path| - 2);
      qs[n - 1] == |LevelAt(levels, n - 1)| - 1 <==>
      qs[n - 2] == |hi| - 1 && path[n - 2].idx == |hi[qs[n - 2]].view| - 1
  {
    LastPointer(LevelAt(levels, |path| - 2), qs[|path| - 2], path[|path| - 2].idx);
  }

  lemma {:induction false} PathAt(levels: seq<Level>, path: seq<Step>, qs: seq<nat>, d: nat)
    requires OnPath(levels, path, qs) && d < |path|
    ensures |path| == |qs| <= |levels|
    ensures qs[d] < |LevelAt(levels, d)| && path[d].page == LevelAt(levels, d)[qs[d]].id
    ensures d < |path| - 1 ==> path[d].idx < |LevelAt(levels, d)[qs[d]].view|
    ensures d < |path| - 1 ==> qs[d + 1] == Off(LevelAt(levels, d), qs[d]) + path[d].idx
    ensures d == 0 ==> |LevelAt(levels, 0)| == 1 && qs[0] == 0
  {
  }

  /** Above a right-skew page that was split, the path goes through the last pointer of a right-skew page. */
  lemma {:induction false} SkewParent(before: seq<Level>, mid: seq<Level>, path: seq<Step>, qs: seq<nat>)
    requires OnPath(before, path, qs) && 3 <= |path|
    requires qs[|path| - 2] == |LevelAt(before, |path| - 2)| - 1
    requires Linked(LevelAt(before, |path| - 2), LevelAt(before, |path| - 3)) && Inhabited(LevelAt(before, |path| - 3))
    requires |mid| == |before| && mid[|mid| - |path| + 2..] == before[|mid| - |path| + 2..]
    requires qs[|path| - 2] < |LevelAt(mid, |path| - 2)|
    requires LevelAt(mid, |path| - 2)[qs[|path| - 2]].id == LevelAt(before, |path| - 2)[qs[|path| - 2]].id
    ensures OnPath(mid, path[..|path| - 1], qs[..|path| - 1])
    ensures LevelAt(mid, |path| - 3) == LevelAt(before, |path| - 3)
    ensures qs[|path| - 3] == |LevelAt(mid, |path| - 3)| - 1
    ensures path[|path| - 3].idx == |LevelAt(mid, |path| - 3)[qs[|path| - 3]].view| - 1
  {
    OnPathUp(before, mid, path, qs, 0);
    OnPathUp(before, before, path, qs, 0);
    LastOnPath(before, path[..|path| - 1], qs[..|path| - 1]);
    assert LevelAt(mid, |path| - 3) == mid[|mid| - |path| + 2..][0] == LevelAt(before, |path| - 3);
  }

  /** What the level above says about a child is that child's separator. */
  lemma {:induction false} ChildSep(lo: Level, hi: Level, q: nat, i: nat)
    requires Linked(lo, hi) && q < |hi| && i < |hi[q].view|
    ensures Off(hi, q) + i < |lo| && hi[q].view[i] == SepOf(lo, Off(hi, q) + i)
  {
    FlatAt(hi, q, i);
  }

  lemma {:induction false} LinkedSize(lo: Level, hi: Level)
    requires Linked(lo, hi)
    ensures |lo| == |Flat(hi)|
  {
  }

  /** The test of lines 288 and 477: the parent is right-skew when its own parent was left through the last pointer. */
  lemma {:induction false} SkewTest(pages: Store, levels: seq<Level>, path: seq<Step>, qs: seq<nat>, cap: nat)
    requires OnPath(levels, path, qs) && 2 <= |path| && Stored(pages, levels, cap)
    requires 3 <= |path| ==> |LevelAt(levels, |path| - 2)| == |Flat(LevelAt(levels, |path| - 3))| && Inhabited(LevelAt(levels, |path| - 3))
    ensures 3 <= |path| ==> path[|path| - 3].page in pages
    ensures qs[|path| - 2] == |LevelAt(levels, |path| - 2)| - 1 <==>
            |path| == 2 || path[|path| - 3].idx == pages[path[|path| - 3].page].count
  {
    if 3 <= |path| {
      OnPathUp(levels, levels, path, qs, 0);
      LastOnPath(levels, path[..|path| - 1], qs[..|path| - 1]);
      PathAt(levels, path, qs, |path| - 3);
      assert NodeStored(pages, levels, |levels| - 1 - (|path| - 3), qs[|path| - 3], cap);
    }
  }

  /** The largest 32-bit number: what `Get` answers for an absent key. */
  const INVALID_VALUE_INDEX: Ptr := 0xFFFF_FFFF

  /** `std::lower_bound` finds the lower bound of a page's view, too. */
  lemma {:induction false} PageLowerBound(p: Page, skew: bool, key: Key, i: nat)
    requires p.count <= |p.data| && i <= p.count
    requires forall a :: 0 <= a < i ==> p.data[a].key < key
    requires forall a :: i <= a < p.count ==> key <= p.data[a].key
    ensures IsLowerBound(View(p, skew), key, i)
  {
  }

  /** One step of the search: the child's page and the lower bound in it extend the path. */
  lemma {:induction false} PathDown(levels: seq<Level>, path: seq<Step>, qs: seq<nat>, cap: nat, key: Key, page: Ptr, i: nat)
    requires OnPath(levels, path, qs) && |path| < |levels| && ShapeFrom(levels, 0, cap) && 2 <= cap
    requires Sorted(Flat(levels[0]))
    requires
      var hi, lo, q := LevelAt(levels, |path| - 1), LevelAt(levels, |path|), qs[|path| - 1];
      var c := Off(hi, q) + path[|path| - 1].idx;
      && path[|path| - 1].idx < |hi[q].view|
      && IsLowerBound(Flat(hi), key, c)
      && c < |lo| && page == lo[c].id && IsLowerBound(lo[c].view, key, i)
    ensures
      var hi, lo, q := LevelAt(levels, |path| - 1), LevelAt(levels, |path|), qs[|path| - 1];
      var c := Off(hi, q) + path[|path| - 1].idx;
      && OnPath(levels, path + [Step(page, i)], qs + [c])
      && IsLowerBound(Flat(lo), key, Off(lo, c) + i)
      && (c < |lo| - 1 ==> i < |lo[c].view|)
  {
    var h := |levels| - 1 - |path|;
    AllSorted(levels, cap, h);
    assert Linked(levels[h], levels[h + 1]);
    var hi, lo, q := levels[h + 1], levels[h], qs[|path| - 1];
    var c := Off(hi, q) + path[|path| - 1].idx;
    Descend(lo, hi, key, c, i);
    OnPathExtend(levels, path, qs, page, i, c);
  }

  lemma {:induction false} OnPathExtend(levels: seq<Level>, path: seq<Step>, qs: seq<nat>, page: Ptr, i: nat, c: nat)
    requires OnPath(levels, path, qs) && |path| < |levels|
    requires path[|path| - 1].idx < |LevelAt(levels, |path| - 1)[qs[|path| - 1]].view|
    requires c == Off(LevelAt(levels, |path| - 1), qs[|path| - 1]) + path[|path| - 1].idx
    requires c < |LevelAt(levels, |path|)| && page == LevelAt(levels, |path|)[c].id
    ensures OnPath(levels, path + [Step(page, i)], qs + [c])
  {
    hide Flat, Off;
    var path', qs' := path + [Step(page, i)], qs + [c];
    forall d | 0 <= d < |path'|
      ensures qs'[d] < |LevelAt(levels, d)| && path'[d].page == LevelAt(levels, d)[qs'[d]].id
      ensures d < |path| ==> path'[d].idx < |LevelAt(levels, d)[qs'[d]].view|
      ensures d < |path| ==> qs'[d + 1] == Off(LevelAt(levels, d), qs'[d]) + path'[d].idx
    {
      if d < |path| {
        assert path'[d] == path[d] && qs'[d] == qs[d];
        if d < |path| - 1 {
          assert qs'[d + 1] == qs[d + 1];
        }
      }
    }
  }

  /** A place in the leaf chain, or the end. */
  datatype Iter = Iter(page: Ptr, offset: nat, isEnd: bool)

  class BPlusTreeIndexer {
    const cap: nat
    var pages: Store
    var rootPageId: Ptr
    var siz: nat
    ghost var levels: seq<Level>

    /** A pending split shows at its own node only. */
    static lemma {:induction false} PendingNode(before: seq<Level>, mid: seq<Level>, l: nat, want: Level, q: nat,
                                                va: seq<Sep>, id: Ptr, vb: seq<Sep>, k: Key, cap: nat)
      requires SplitPending(before, mid, l, want, q, va, id, vb, k, cap)
      ensures l + 1 < |mid| == |before| && q < |want| && q < |mid[l]| && mid[l][q].id == want[q].id
      ensures mid[l + 1..] == before[l + 1..] && mid[..l] == before[..l]
    {
    }

    method NewPage() returns (id: Ptr)
      modifies this`pages
      ensures id != 0 && id !in old(pages) && id in pages
      ensures pages == old(pages)[id := pages[id]] && |pages[id].data| == cap
    {
      FreshIdExists(pages.Keys);
      id :| id != 0 && id !in pages;
      var blank: Page := Page(0, false, false, 0, seq(cap, _ => Entry(0, 0)));
      blank :| |blank.data| == cap;
      pages := pages[id := blank];
    }

    /** A new root: two children, the second behind the past-the-end pointer. */
    static method NewRoot(blank: Page, left: Page, leftId: Ptr, rightId: Ptr) returns (root: Page)
      requires 2 <= |blank.data| && 0 < left.count <= |left.data|
      ensures |root.data| == |blank.data| && !root.leaf && root.root && root.count == 1
      ensures View(root, true) == [Sep(Fin(LastKey(left)), leftId), Sep(Inf, rightId)]
    {
      root := blank.(leaf := false, root := true, count := 1);
      root := root.(data := root.data[0 := Entry(LastKey(left), leftId)]);
      root := root.(data := root.data[1 := Entry(0, rightId)]);
    }

    lemma {:induction false} PageIn(from: nat, l: nat, p: nat)
      requires Sane(pages, levels, rootPageId, from, cap) && l < |levels| && p < |levels[l]|
      ensures levels[l][p].id != 0 && levels[l][p].id in pages
      ensures
        var pg, lv := pages[levels[l][p].id], levels[l];
        && Sound(pg, cap) && pg.leaf == (l == 0) && pg.root == (l == |levels| - 1)
        && View(pg, l != 0 && p == |lv| - 1) == lv[p].view
        && (l == 0 ==> pg.next == NextId(lv, p))
    {
      hide Distinct, ShapeFrom;
      PageAt(l, p);
    }

    /** The stored page of one node. */
    lemma {:induction false} PageAt(l: nat, p: nat)
      requires Stored(pages, levels, cap) && l < |levels| && p < |levels[l]|
      ensures levels[l][p].id != 0 && levels[l][p].id in pages
      ensures
        var pg, lv := pages[levels[l][p].id], levels[l];
        && Sound(pg, cap) && pg.leaf == (l == 0) && pg.root == (l == |levels| - 1)
        && View(pg, l != 0 && p == |lv| - 1) == lv[p].view
        && (l == 0 ==> pg.next == NextId(lv, p))
    {
      assert NodeStored(pages, levels, l, p, cap);
    }

    static lemma {:induction false} LinkAt(pages: Store, levels: seq<Level>, root: Ptr, from: nat, l: nat, cap: nat)
      requires Sane(pages, levels, root, from, cap) && from <= l < |levels|
      ensures l + 1 < |levels| ==> Linked(levels[l], levels[l + 1]) && Inhabited(levels[l + 1])
      ensures Inhabited(levels[l]) && Filled(levels[l], l == 0, l == |levels| - 1, cap)
    {
      FilledInhabited(levels[l], l == 0, l == |levels| - 1, cap);
      if l + 1 < |levels| {
        FilledInhabited(levels[l + 1], false, l + 1 == |levels| - 1, cap);
      }
    }

    /**
     The separator of a right-skew page's child is replaced by two: the page
     itself with its new greatest key, and the page that was split off.
     */
    method InsertFixUpLoopPartA(path: seq<Step>, ghost qs: seq<nat>, pageId: Ptr, newId: Ptr)
      requires 2 <= |path| && OnPath(levels, path, qs)
      requires Sane(pages, levels, rootPageId, |levels| - (|path| - 1), cap)
      requires qs[|path| - 2] == |LevelAt(levels, |path| - 2)| - 1
      requires pageId in pages && 0 < pages[pageId].count <= |pages[pageId].data|
      requires newId in pages && 0 < pages[newId].count <= |pages[newId].data|
      requires
        var v, i := LevelAt(levels, |path| - 2)[qs[|path| - 2]].view, path[|path| - 2].idx;
        i < |v| - 1 ==> v[i].bound == Fin(LastKey(pages[newId]))
      modifies this`pages, this`rootPageId, this`levels
      ensures Sane(pages, levels, rootPageId, |old(levels)| - (|path| - 1), cap)
      ensures SplitRecorded(old(levels), levels, |old(levels)| - (|path| - 1), qs[|path| - 1], old(LastKey(pages[pageId])), newId)
      decreases |path|, 1
    {
      hide Stored, Distinct, ShapeFrom;
      var parentId, i := path[|path| - 2].page, path[|path| - 2].idx;
      ghost var h, q := |levels| - (|path| - 1), qs[|path| - 2];
      ghost var v := levels[h][q].view;
      NodeAt(pages, levels, rootPageId, h, cap, h, q);
      var parent := pages[parentId];
      var key, entry := LastKey(pages[pageId]), Entry(LastKey(pages[newId]), newId);
      if parent.count < cap {
        parent := InsertSkewWithRoom(parent, i, key, entry);
        pages := pages[parentId := parent];
        SkewRoomStep(old(pages), levels, rootPageId, cap, h, q, i, key, newId, parent);
        levels := levels[h := WithView(levels[h], q, SplitAt(v, i, key, newId))];
      } else {
        InsertFixUpLoopPartB(path, qs, key, entry);
      }
    }

    /** The right-skew page that should take the two separators is full: it is split, and its own split passed on. */
    method InsertFixUpLoopPartB(path: seq<Step>, ghost qs: seq<nat>, key: Key, entry: Entry)
      requires 2 <= |path| && OnPath(levels, path, qs)
      requires Sane(pages, levels, rootPageId, |levels| - (|path| - 1), cap)
      requires qs[|path| - 2] == |LevelAt(levels, |path| - 2)| - 1
      requires |LevelAt(levels, |path| - 2)[qs[|path| - 2]].view| == cap + 1
      requires
        var v, i := LevelAt(levels, |path| - 2)[qs[|path| - 2]].view, path[|path| - 2].idx;
        i < |v| - 1 ==> v[i].bound == Fin(entry.key)
      modifies this`pages, this`rootPageId, this`levels
      ensures Sane(pages, levels, rootPageId, |old(levels)| - (|path| - 1), cap)
      ensures SplitRecorded(old(levels), levels, |old(levels)| - (|path| - 1), qs[|path| - 1], key, entry.ptr)
      decreases |path|, 0
    {
      hide Stored, Distinct, ShapeFrom, Linked, Inhabited, Filled, Flat, SplitPending, OnPath;
      PathAt(levels, path, qs, |path| - 2);
      PathAt(levels, path, qs, |path| - 1);
      if |path| == 2 {
        OffZero(levels[|levels| - 1]);
        SplitSkewRoot(path[0].page, path[0].idx, key, entry);
      } else {
        var pageId := path[|path| - 2].page;
        ghost var h := |levels| - (|path| - 1);
        LinkAt(pages, levels, rootPageId, h, h, cap);
        var newPageId, want, va, vb := SplitSkewInner(path, qs, key, entry);
        ghost var mid, k := levels, LastKey(pages[pageId]);
        PendingNode(old(levels), mid, h, want, qs[|path| - 2], va, newPageId, vb, k, cap);
        SkewParent(old(levels), mid, path, qs);
        InsertFixUpLoopPartA(path[..|path| - 1], qs[..|path| - 1], pageId, newPageId);
        SplitDone(old(levels), mid, levels, pages, rootPageId, cap, h, want, qs[|path| - 2], va, newPageId, vb, k);
      }
    }

    /** The parent of a split page was itself split, to record that split; its own parent does not know yet. */
    ghost predicate SkewSplitPending(before: seq<Level>, path: seq<Step>, qs: seq<nat>, key: Key, id: Ptr, newPageId: Ptr,
                                     want: Level, va: seq<Sep>, vb: seq<Sep>)
      reads this
    {
      && 3 <= |path| == |qs| && |path| <= |before| == |levels|
      && var h, q, pageId := |before| - (|path| - 1), qs[|path| - 2], path[|path| - 2].page;
      && pageId in pages && 0 < pages[pageId].count <= |pages[pageId].data|
      && newPageId in pages && 0 < pages[newPageId].count <= |pages[newPageId].data|
      && Sane(pages, levels, rootPageId, h + 1, cap)
      && SplitPending(before, levels, h, want, q, va, newPageId, vb, LastKey(pages[pageId]), cap)
      && q < |want| && want[q].id == pageId
      && qs[|path| - 1] < |Flat(before[h])|
      && Flat(want) == SplitAt(Flat(before[h]), qs[|path| - 1], key, id)
    }

    method SplitSkewInner(path: seq<Step>, ghost qs: seq<nat>, key: Key, entry: Entry)
      returns (newPageId: Ptr, ghost want: Level, ghost va: seq<Sep>, ghost vb: seq<Sep>)
      requires 3 <= |path| && OnPath(levels, path, qs)
      requires Sane(pages, levels, rootPageId, |levels| - (|path| - 1), cap)
      requires qs[|path| - 2] == |LevelAt(levels, |path| - 2)| - 1
      requires |LevelAt(levels, |path| - 2)[qs[|path| - 2]].view| == cap + 1
      requires
        var v, i := LevelAt(levels, |path| - 2)[qs[|path| - 2]].view, path[|path| - 2].idx;
        i < |v| - 1 ==> v[i].bound == Fin(entry.key)
      modifies this`pages, this`levels
      ensures SkewSplitPending(old(levels), path, qs, key, entry.ptr, newPageId, want, va, vb)
    {
      hide Stored, Distinct, ShapeFrom, Flat, PageIs, SplitPending, OnPath;
      var pageId, i := path[|path| - 2].page, path[|path| - 2].idx;
      PathAt(levels, path, qs, |path| - 2);
      ghost var h, q := |levels| - (|path| - 1), qs[|path| - 2];
      PageAt(h, q);
      newPageId := NewPage();
      var page, newPage := SplitSkew(pages[pageId], pages[newPageId].(leaf := false, root := false), i, key, entry);
      va, vb := View(page, false), View(newPage, true);
      pages := pages[pageId := page][newPageId := newPage];
      assert pages == old(pages)[pageId := page][newPageId := newPage];
      SkewSplitStep(old(pages), levels, rootPageId, cap, h, q, i, key, entry.ptr, va, page, newPageId, vb, newPage);
      want := WithView(levels[h], q, va + vb);
      levels := levels[h := SplitNode(levels[h], q, va, newPageId, vb)];
    }

    method SplitSkewRoot(pageId: Ptr, i: nat, key: Key, entry: Entry)
      requires 1 < |levels| && Sane(pages, levels, rootPageId, |levels| - 1, cap) && pageId == rootPageId
      requires i < |levels[|levels| - 1][0].view| == cap + 1
      requires i < cap ==> levels[|levels| - 1][0].view[i].bound == Fin(entry.key)
      modifies this`pages, this`rootPageId, this`levels
      ensures Sane(pages, levels, rootPageId, |old(levels)| - 1, cap)
      ensures SplitRecorded(old(levels), levels, |old(levels)| - 1, i, key, entry.ptr)
    {
      hide PageIs, Filled, Linked, Inhabited, Stored, Distinct, Flat;
      PageAt(|levels| - 1, 0);
      var newPageId := NewPage();
      var page, newPage := SplitSkew(pages[pageId], pages[newPageId].(leaf := false, root := false), i, key, entry);
      page := page.(root := false);
      pages := pages[pageId := page][newPageId := newPage];
      var rootId := NewPage();
      var rootPage := NewRoot(pages[rootId], page, pageId, newPageId);
      pages := pages[rootId := rootPage];
      assert pages == old(pages)[pageId := page][newPageId := newPage][rootId := rootPage];
      SkewGrowStep(old(pages), levels, rootPageId, cap, i, key, entry.ptr,
                   View(page, false), page, newPageId, View(newPage, true), newPage, rootId, rootPage);
      rootPageId := rootId;
      levels := levels[|levels| - 1 := [Node(pageId, View(page, false)), Node(newPageId, View(newPage, true))]]
                + [[Node(rootId, View(rootPage, true))]];
    }

    /** An entry is inserted in the page at the end of the path: a leaf, or, `recursive`, a leaf-like page. */
    method InsertEntryAt(path: seq<Step>, ghost qs: seq<nat>, key: Key, value: Ptr, recursive: bool)
      requires OnPath(levels, path, qs) && recursive == (|path| < |levels|)
      requires path[|path| - 1].idx <= |LevelAt(levels, |path| - 1)[qs[|path| - 1]].view|
      requires Sane(pages, levels, rootPageId, |levels| - |path| + 1, cap)
      requires Awaits(levels, |levels| - |path|, qs[|path| - 1],
                      InsertAt(LevelAt(levels, |path| - 1)[qs[|path| - 1]].view, path[|path| - 1].idx, key, value), cap)
      modifies this`pages, this`rootPageId, this`levels
      ensures LevelBecame(|old(levels)| - |path|, old(levels), qs[|path| - 1],
                          InsertAt(LevelAt(old(levels), |path| - 1)[qs[|path| - 1]].view, path[|path| - 1].idx, key, value))
      decreases |path|, 2
    {
      hide Stored, Distinct, ShapeFrom, Linked, Inhabited, Filled, Flat, SplitPending, OnPath;
      PathAt(levels, path, qs, |path| - 1);
      var pageId, i := path[|path| - 1].page, path[|path| - 1].idx;
      ghost var l, q := |levels| - |path|, qs[|path| - 1];
      PageAt(l, q);
      if pages[pageId].count < cap {
        var page := InsertWithRoom(pages[pageId], i, Entry(key, value));
        pages := pages[pageId := page];
        RoomStep(old(pages), levels, rootPageId, cap, l, q, View(page, false), page);
        levels := levels[l := WithView(levels[l], q, View(page, false))];
      } else if pages[pageId].root {
        SplitRootLeaf(pageId, i, key, value);
      } else {
        var newPageId, want := SplitPlain(path, qs, key, value, recursive);
        ghost var mid, k := levels, LastKey(pages[pageId]);
        ghost var va, vb := View(pages[pageId], false), View(pages[newPageId], false);
        PassSplitOn(path, qs, pageId, newPageId, old(levels), want);
        SplitDone(old(levels), mid, levels, pages, rootPageId, cap, l, want, q, va, newPageId, vb, k);
      }
    }

    /** The parent learns of the split of a leaf or leaf-like page. */
    method PassSplitOn(path: seq<Step>, ghost qs: seq<nat>, pageId: Ptr, newId: Ptr, ghost before: seq<Level>, ghost want: Level)
      requires 2 <= |path| && OnPath(levels, path, qs) && pageId in pages && newId in pages
      requires Sound(pages[pageId], cap) && Sound(pages[newId], cap) && 0 < pages[pageId].count && 0 < pages[newId].count
      requires Sane(pages, levels, rootPageId, |levels| - |path| + 1, cap)
      requires SplitPending(before, levels, |levels| - |path|, want, qs[|path| - 1],
                            View(pages[pageId], false), newId, View(pages[newId], false), LastKey(pages[pageId]), cap)
      modifies this`pages, this`rootPageId, this`levels
      ensures Sane(pages, levels, rootPageId, |old(levels)| - |path| + 1, cap)
      ensures SplitRecorded(old(levels), levels, |old(levels)| - |path| + 1, qs[|path| - 1], old(LastKey(pages[pageId])), newId)
      decreases |path|, 1
    {
      hide Stored, Distinct, ShapeFrom, Linked, Inhabited, Filled, Flat, SplitPending, OnPath;
      ghost var h := |levels| - |path| + 1;
      PathAt(levels, path, qs, |path| - 2);
      PathAt(levels, path, qs, |path| - 1);
      LinkAt(pages, levels, rootPageId, h, h, cap);
      if h + 1 < |levels| {
        LinkedSize(levels[h], levels[h + 1]);
      }
      SkewTest(pages, levels, path, qs, cap);
      PendingSep(before, levels, path, qs, want, View(pages[pageId], false), newId, View(pages[newId], false), LastKey(pages[pageId]), cap);
      if |path| == 2 || path[|path| - 3].idx == pages[path[|path| - 3].page].count {
        InsertFixUpLoopPartA(path, qs, pageId, newId);
      } else {
        PassSplitToLeafLike(path, qs, pageId, newId);
      }
    }

    static lemma {:induction false} PendingSep(before: seq<Level>, levels: seq<Level>, path: seq<Step>, qs: seq<nat>, want: Level,
                                               va: seq<Sep>, newId: Ptr, vb: seq<Sep>, k: Key, cap: nat)
      requires 2 <= |path| && OnPath(levels, path, qs) && vb != []
      requires SplitPending(before, levels, |levels| - |path|, want, qs[|path| - 1], va, newId, vb, k, cap)
      requires Inhabited(LevelAt(levels, |path| - 2))
      ensures
        var v, i := LevelAt(levels, |path| - 2)[qs[|path| - 2]].view, path[|path| - 2].idx;
        i < |v| && (i < |v| - 1 || qs[|path| - 2] < |LevelAt(levels, |path| - 2)| - 1 ==> v[i].bound == vb[|vb| - 1].bound)
    {
      var hi, q, i := LevelAt(levels, |path| - 2), qs[|path| - 2], path[|path| - 2].idx;
      assert hi == levels[|levels| - |path| + 1..][0] == before[|levels| - |path| + 1..][0];
      ChildSep(want, hi, q, i);
      LastPointer(hi, q, i);
    }

    /** A leaf-like parent gets the page's new bound, and the split-off page's entry is inserted behind it. */
    method PassSplitToLeafLike(path: seq<Step>, ghost qs: seq<nat>, pageId: Ptr, newId: Ptr)
      requires 2 <= |path| && OnPath(levels, path, qs) && pageId in pages && newId in pages
      requires Sane(pages, levels, rootPageId, |levels| - |path| + 1, cap)
      requires Sound(pages[pageId], cap) && Sound(pages[newId], cap) && 0 < pages[pageId].count && 0 < pages[newId].count
      requires qs[|path| - 2] < |LevelAt(levels, |path| - 2)| - 1
      requires
        var v, i := LevelAt(levels, |path| - 2)[qs[|path| - 2]].view, path[|path| - 2].idx;
        i < |v| && v[i].bound == Fin(LastKey(pages[newId]))
      modifies this`pages, this`rootPageId, this`levels
      ensures Sane(pages, levels, rootPageId, |old(levels)| - |path| + 1, cap)
      ensures SplitRecorded(old(levels), levels, |old(levels)| - |path| + 1, qs[|path| - 1], old(LastKey(pages[pageId])), newId)
      decreases |path|, 0
    {
      hide Stored, Distinct, ShapeFrom, Linked, Inhabited, Filled, Flat, OnPath;
      PathAt(levels, path, qs, |path| - 2);
      ghost var l, q := |levels| - |path| + 1, qs[|path| - 2];
      PageAt(l, q);
      var parentId, i := path[|path| - 2].page, path[|path| - 2].idx;
      var key, newKey := LastKey(pages[pageId]), LastKey(pages[newId]);
      ghost var v := levels[l][q].view;
      var parent := SetKey(pages[parentId], i, key);
      RebindStep(pages, levels, rootPageId, cap, l, q, i, key, parent, newId);
      pages := pages[parentId := parent];
      ghost var v' := v[i := Sep(Fin(key), v[i].ptr)];
      levels := levels[l := WithView(levels[l], q, v')];
      OnPathUp(old(levels), levels, path, qs, i + 1);
      assert InsertAt(v', i + 1, newKey, newId) == SplitAt(v, i, key, newId);
      InsertEntryAt(path[..|path| - 2] + [path[|path| - 2].(idx := i + 1)], qs[..|path| - 1], newKey, newId, true);
    }

    /** A full leaf or leaf-like page below the root is split to take an entry. */
    method SplitPlain(path: seq<Step>, ghost qs: seq<nat>, key: Key, value: Ptr, recursive: bool)
      returns (newPageId: Ptr, ghost want: Level)
      requires 2 <= |path| && OnPath(levels, path, qs) && recursive == (|path| < |levels|)
      requires path[|path| - 1].idx <= |LevelAt(levels, |path| - 1)[qs[|path| - 1]].view| == cap
      requires Sane(pages, levels, rootPageId, |levels| - |path| + 1, cap)
      requires Awaits(levels, |levels| - |path|, qs[|path| - 1],
                      InsertAt(LevelAt(levels, |path| - 1)[qs[|path| - 1]].view, path[|path| - 1].idx, key, value), cap)
      modifies this`pages, this`levels
      ensures |levels| == |old(levels)| && Sane(pages, levels, rootPageId, |levels| - |path| + 1, cap)
      ensures path[|path| - 1].page in pages && newPageId in pages && OnPath(levels, path, qs)
      ensures
        var pa, pb := pages[path[|path| - 1].page], pages[newPageId];
        && Sound(pa, cap) && Sound(pb, cap) && 0 < pa.count && 0 < pb.count
        && want == WithView(LevelAt(old(levels), |path| - 1), qs[|path| - 1],
                            InsertAt(LevelAt(old(levels), |path| - 1)[qs[|path| - 1]].view, path[|path| - 1].idx, key, value))
        && SplitPending(old(levels), levels, |levels| - |path|, want, qs[|path| - 1],
                        View(pa, false), newPageId, View(pb, false), LastKey(pa), cap)
    {
      hide Stored, Distinct, ShapeFrom, Linked, Inhabited, Filled, Flat, SplitPending, OnPath;
      PathAt(levels, path, qs, |path| - 1);
      var pageId, i := path[|path| - 1].page, path[|path| - 1].idx;
      ghost var l, q := |levels| - |path|, qs[|path| - 1];
      PageAt(l, q);
      newPageId := NewPage();
      var blank := pages[newPageId].(leaf := !recursive, root := false);
      if !recursive {
        blank := blank.(next := pages[pageId].next);
      }
      var page, newPage := SplitWithInsert(pages[pageId], blank, i, Entry(key, value));
      if !recursive {
        page := page.(next := newPageId);
      }
      pages := pages[pageId := page][newPageId := newPage];
      assert pages == old(pages)[pageId := page][newPageId := newPage];
      want := WithView(levels[l], q, View(page, false) + View(newPage, false));
      PlainSplitStep(old(pages), levels, rootPageId, cap, l, q, page, newPageId, newPage);
      levels := levels[l := SplitNode(levels[l], q, View(page, false), newPageId, View(newPage, false))];
      OnPathSplit(old(levels), levels, path, qs);
    }

    static lemma {:induction false} OnPathSplit(levels: seq<Level>, levels': seq<Level>, path: seq<Step>, qs: seq<nat>)
      requires OnPath(levels, path, qs) && |levels'| == |levels| && 2 <= |path|
      requires levels'[|levels| - |path| + 1..] == levels[|levels| - |path| + 1..]
      requires qs[|path| - 1] < |LevelAt(levels', |path| - 1)|
      requires LevelAt(levels', |path| - 1)[qs[|path| - 1]].id == path[|path| - 1].page
      ensures OnPath(levels', path, qs)
    {
      hide Flat;
      forall d | 0 <= d < |path| - 1
        ensures LevelAt(levels', d) == LevelAt(levels, d)
      {
        var k := |path| - 2 - d;
        assert levels'[|levels| - |path| + 1..][k] == levels'[|levels| - |path| + 1 + k];
        assert levels[|levels| - |path| + 1..][k] == levels[|levels| - |path| + 1 + k];
      }
    }

    /** Level `l` holds, flattened, what it would with `v` in node `q`; it is whole from there up, and the levels below stayed. */
    ghost predicate LevelBecame(l: int, before: seq<Level>, q: nat, v: seq<Sep>)
      reads this
    {
      && 0 <= l < |before| && q < |before[l]|
      && Sane(pages, levels, rootPageId, l, cap)
      && l < |levels| && levels[..l] == before[..l]
      && Flat(levels[l]) == Flat(WithView(before[l], q, v))
    }

    /** A full leaf that is the root is split. */
    method SplitRootLeaf(pageId: Ptr, i: nat, key: Key, value: Ptr)
      requires |levels| == 1 && Sane(pages, levels, rootPageId, 1, cap) && pageId == rootPageId
      requires i <= |levels[0][0].view| == cap
      modifies this`pages, this`rootPageId, this`levels
      ensures LevelBecame(0, old(levels), 0, InsertAt(old(levels)[0][0].view, i, key, value))
    {
      hide Stored, Distinct, Flat;
      PageAt(0, 0);
      var newPageId := NewPage();
      var blank := pages[newPageId].(leaf := true, root := false, next := pages[pageId].next);
      var page, newPage := SplitWithInsert(pages[pageId], blank, i, Entry(key, value));
      page := page.(root := false, next := newPageId);
      pages := pages[pageId := page][newPageId := newPage];
      var rootId := NewPage();
      var rootPage := NewRoot(pages[rootId], page, pageId, newPageId);
      pages := pages[rootId := rootPage];
      assert pages == old(pages)[pageId := page][newPageId := newPage][rootId := rootPage];
      LeafGrowStep(old(pages), levels, rootPageId, cap, page, newPageId, newPage, rootId, rootPage);
      rootPageId := rootId;
      levels := [[Node(pageId, View(page, false)), Node(newPageId, View(newPage, false))], [Node(rootId, View(rootPage, true))]];
      assert old(levels)[0] == [old(levels)[0][0]];
      ghost var v := InsertAt(old(levels)[0][0].view, i, key, value);
      assert View(page, false) + View(newPage, false) == v;
      assert WithView(old(levels)[0], 0, v) == [Node(pageId, v)];
      FlatOne(Node(pageId, v));
    }

    /** The greatest key of the page at the end of the path changed: the bounds that name it are put right, up to the root. */
    method TryUpdateTillRoot(path: seq<Step>, ghost qs: seq<nat>)
      requires OnPath(levels, path, qs) && |path| < |levels|
      requires Sane(pages, levels, rootPageId, |levels| - |path| + 1, cap)
      requires Tidy(levels, |levels| - |path|, qs[|path| - 1], path[|path| - 1].idx, cap)
      modifies this`pages, this`levels
      ensures |levels| == |old(levels)| && Sane(pages, levels, rootPageId, |levels| - |path|, cap)
      ensures levels[..|levels| - |path| + 1] == old(levels)[..|levels| - |path| + 1]
      decreases |path|
    {
      hide Stored, Distinct, ShapeFrom, Inhabited, Filled, Flat, OnPath;
      PathAt(levels, path, qs, |path| - 1);
      ghost var l, q := |levels| - |path|, qs[|path| - 1];
      PageAt(l, q);
      if |path| < 2 {
        SaneDown(pages, levels, rootPageId, l, cap);
        return;
      }
      var page := pages[path[|path| - 1].page];
      if path[|path| - 1].idx != page.count - 1 {
        if q == |levels[l]| - 1 {
          ButIsLinked(levels[l], levels[l + 1], q);
        }
        SaneDown(pages, levels, rootPageId, l, cap);
        return;
      }
      PathAt(levels, path, qs, |path| - 2);
      LinkAt(pages, levels, rootPageId, l + 1, l + 1, cap);
      LastOnPath(levels, path, qs);
      PageAt(l + 1, qs[|path| - 2]);
      var parentId, i := path[|path| - 2].page, path[|path| - 2].idx;
      if i >= pages[parentId].count {
        ButIsLinked(levels[l], levels[l + 1], q);
        SaneDown(pages, levels, rootPageId, l, cap);
        return;
      }
      RepairParent(path, qs, LastKey(page));
      hide Sane, LinkedBut, Linked, LastKey;
      ghost var mid := levels;
      TryUpdateTillRoot(path[..|path| - 1], qs[..|path| - 1]);
      KeptBelow(old(levels), mid, levels, l);
      SaneDown(pages, levels, rootPageId, l, cap);
    }

    static lemma {:induction false} KeptBelow(before: seq<Level>, mid: seq<Level>, after: seq<Level>, l: nat)
      requires l + 1 < |before| == |mid| == |after|
      requires mid[..l + 1] == before[..l + 1] && after[..l + 2] == mid[..l + 2]
      ensures after[..l + 1] == before[..l + 1] && after[l] == mid[l] == before[l] && after[l + 1] == mid[l + 1]
    {
      assert after[..l + 2][l] == mid[..l + 2][l] && after[..l + 2][l + 1] == mid[..l + 2][l + 1];
      assert mid[..l + 1][l] == before[..l + 1][l];
      assert after[..l + 1] == after[..l + 2][..l + 1] == mid[..l + 2][..l + 1] == mid[..l + 1];
    }

    /** The bound of a page, not the last of its level, is set to its greatest key. */
    method RepairParent(path: seq<Step>, ghost qs: seq<nat>, key: Key)
      requires 2 <= |path| && OnPath(levels, path, qs)
      requires Sane(pages, levels, rootPageId, |levels| - |path| + 1, cap)
      requires LinkedBut(LevelAt(levels, |path| - 1), LevelAt(levels, |path| - 2), qs[|path| - 1])
      requires SepOf(LevelAt(levels, |path| - 1), qs[|path| - 1]).bound == Fin(key)
      modifies this`pages, this`levels
      ensures |levels| == |old(levels)| && Sane(pages, levels, rootPageId, |levels| - |path| + 2, cap)
      ensures levels[..|levels| - |path| + 1] == old(levels)[..|levels| - |path| + 1]
      ensures OnPath(levels, path, qs) && OnPath(levels, path[..|path| - 1], qs[..|path| - 1])
      ensures Linked(LevelAt(levels, |path| - 1), LevelAt(levels, |path| - 2))
      ensures Tidy(levels, |levels| - |path| + 1, qs[|path| - 2], path[|path| - 2].idx, cap)
      ensures
        var v, i := LevelAt(old(levels), |path| - 2)[qs[|path| - 2]].view, path[|path| - 2].idx;
        levels == old(levels)[|levels| - |path| + 1 :=
          WithView(LevelAt(old(levels), |path| - 2), qs[|path| - 2], v[i := Sep(Fin(key), v[i].ptr)])]
    {
      hide Stored, Distinct, ShapeFrom, Inhabited, Filled, Flat, OnPath, Tidy;
      PathAt(levels, path, qs, |path| - 1);
      PathAt(levels, path, qs, |path| - 2);
      ghost var l, q := |levels| - |path|, qs[|path| - 2];
      LinkAt(pages, levels, rootPageId, l + 1, l + 1, cap);
      LastOnPath(levels, path, qs);
      PageAt(l + 1, q);
      var parentId, i := path[|path| - 2].page, path[|path| - 2].idx;
      RepairStep(pages, levels, rootPageId, cap, l, qs[|path| - 1], q, i, key);
      pages := pages[parentId := SetKey(pages[parentId], i, key)];
      ghost var v := levels[l + 1][q].view;
      levels := levels[l + 1 := WithView(levels[l + 1], q, v[i := Sep(Fin(key), v[i].ptr)])];
      OnPathUp(old(levels), levels, path, qs, i);
      OnPathRebound(old(levels), path, qs, v[i := Sep(Fin(key), v[i].ptr)]);
    }

    /** New bounds in the parent move no pointer. */
    static lemma {:induction false} OnPathRebound(levels: seq<Level>, path: seq<Step>, qs: seq<nat>, v: seq<Sep>)
      requires OnPath(levels, path, qs) && 2 <= |path|
      requires |v| == |LevelAt(levels, |path| - 2)[qs[|path| - 2]].view|
      ensures OnPath(levels[|levels| - |path| + 1 := WithView(LevelAt(levels, |path| - 2), qs[|path| - 2], v)], path, qs)
    {
      var h, q := |levels| - |path| + 1, qs[|path| - 2];
      var levels': seq<Level> := levels[h := WithView(levels[h], q, v)];
      assert levels'[h][..q] == levels[h][..q];
      forall d | 0 <= d < |path|
        ensures |LevelAt(levels', d)| == |LevelAt(levels, d)|
        ensures LevelAt(levels', d)[qs[d]].id == LevelAt(levels, d)[qs[d]].id
        ensures |LevelAt(levels', d)[qs[d]].view| == |LevelAt(levels, d)[qs[d]].view|
        ensures Off(LevelAt(levels', d), qs[d]) == Off(LevelAt(levels, d), qs[d])
      {
        hide Flat;
        assert d != |path| - 2 ==> LevelAt(levels', d) == LevelAt(levels, d);
      }
    }

    /** Deleting a page frees it, unless a guard still pins it. */
    method DeletePage(id: Ptr, ghost from: nat)
      requires Sane(pages, levels, rootPageId, from, cap) && !InLevels(levels, id)
      modifies this`pages
      ensures Sane(pages, levels, rootPageId, from, cap)
      ensures pages == old(pages) || pages == old(pages) - {id}
    {
      hide ShapeFrom, Distinct;
      StoredWithout(pages, levels, cap, id);
      if * {
        pages := pages - {id};
      }
    }

    /** The pointer followed in the right-skew page at the end of the path is dropped: its child went into the left neighbour. */
    method RemoveEntryInRightSkewPath(path: seq<Step>, ghost qs: seq<nat>)
      requires 3 <= cap && SkewRemovalReady(path, qs)
      modifies this`pages, this`rootPageId, this`levels
      ensures var l := |old(levels)| - |path| - 1;
        && Sane(pages, levels, rootPageId, l, cap)
        && l + 1 <= |levels| && levels[..l + 1] == old(levels)[..l + 1]
      decreases |path|, 2
    {
      hide Stored, Distinct, ShapeFrom, Inhabited, Filled, Flat, Linked, OnPath, Short, MergePending;
      PathAt(levels, path, qs, |path| - 1);
      ghost var h, q := |levels| - |path|, qs[|path| - 1];
      PageAt(h, q);
      var pageId := path[|path| - 1].page;
      var hasEnoughKeys := pages[pageId].count > MinCount(cap) || pages[pageId].root;
      PendingFilled(levels, h - 1, Off(levels[h], q) + path[|path| - 1].idx, cap);
      LinkAt(pages, levels, rootPageId, h, h, cap);
      FillAt(levels[h], q, false, h == |levels| - 1, cap);
      CutSkewPointer(path, qs);
      if hasEnoughKeys {
        if pages[pageId].root && pages[pageId].count == 0 {
          ShrinkRoot();
          assert levels == old(levels)[..h];
          return;
        }
        SaneDown(pages, levels, rootPageId, h, cap);
      } else {
        ghost var mid := levels;
        FixShortSkewPage(path, qs);
        StillLinked(mid, levels, h);
      }
      SaneDown(pages, levels, rootPageId, h - 1, cap);
    }

    /** The right-skew page at the end of the path is one entry short. */
    ghost predicate SkewShort(path: seq<Step>, qs: seq<nat>)
      reads this
    {
      && 3 <= cap && OnPath(levels, path, qs) && 2 <= |path| == |qs| && |path| < |levels|
      && var h, q := |levels| - |path|, qs[|path| - 1];
      && Sane(pages, levels, rootPageId, h + 1, cap)
      && q == |levels[h]| - 1 && |levels[h][q].view| == MinCount(cap)
      && Linked(levels[h], levels[h + 1]) && Short(levels[h], q, false, cap)
    }

    /** A short right-skew page borrows from its left neighbour, or goes into it. */
    method FixShortSkewPage(path: seq<Step>, ghost qs: seq<nat>)
      requires SkewShort(path, qs)
      modifies this`pages, this`rootPageId, this`levels
      ensures Repaired(old(levels), |old(levels)| - |path|)
      decreases |path|, 1
    {
      hide Stored, Distinct, ShapeFrom, Inhabited, Filled, Flat, Linked, OnPath, Short;
      ghost var h, q := |levels| - |path|, qs[|path| - 1];
      LeftNeighbour(path, qs);
      var parentId, i := path[|path| - 2].page, path[|path| - 2].idx;
      var possiblePrevPageId := pages[parentId].data[i - 1].ptr;
      if pages[possiblePrevPageId].count > MinCount(cap) {
        SkewBorrow(path, qs, possiblePrevPageId);
      } else {
        SkewMerge(path, qs, possiblePrevPageId);
      }
    }

    /** Level `l` keeps its entries, and is whole from there up. */
    ghost predicate Repaired(before: seq<Level>, l: nat)
      reads this
    {
      && l < |before| && l < |levels|
      && Sane(pages, levels, rootPageId, l, cap)
      && levels[..l] == before[..l] && Flat(levels[l]) == Flat(before[l])
    }

    ghost predicate HasLeftNeighbour(path: seq<Step>, qs: seq<nat>)
      reads this
    {
      && 2 <= |path| == |qs| && |path| < |levels|
      && var h, q, r, i := |levels| - |path|, qs[|path| - 1], qs[|path| - 2], path[|path| - 2].idx;
      && var hi, parentId := levels[h + 1], path[|path| - 2].page;
      && r == |hi| - 1 && 0 <= r && hi[r].id == parentId
      && 0 < i == |hi[r].view| - 1
      && q == Off(hi, r) + i && 0 < q < |levels[h]|
      && parentId in pages && path[|path| - 1].page in pages && levels[h][q].id == path[|path| - 1].page
      && i == pages[parentId].count <= |pages[parentId].data|
      && pages[parentId].data[i - 1].ptr == levels[h][q - 1].id
      && levels[h][q - 1].id in pages && levels[h][q - 1].id != 0
    }

    /** The page left of a right-skew page, and the parent's entries for the two. */
    lemma {:induction false} LeftNeighbour(path: seq<Step>, qs: seq<nat>)
      requires SkewShort(path, qs)
      ensures HasLeftNeighbour(path, qs)
    {
      hide Stored, Distinct, ShapeFrom, Filled, Flat, OnPath, Short;
      var h, q := |levels| - |path|, qs[|path| - 1];
      var hi, r, i := levels[h + 1], qs[|path| - 2], path[|path| - 2].idx;
      PathAt(levels, path, qs, |path| - 2);
      PathAt(levels, path, qs, |path| - 1);
      LinkAt(pages, levels, rootPageId, h + 1, h + 1, cap);
      LastOnPath(levels, path, qs);
      PageAt(h + 1, r);
      PageAt(h, q);
      FillAt(hi, r, false, h + 1 == |levels| - 1, cap);
      ChildSep(levels[h], hi, r, i - 1);
      PageAt(h, q - 1);
    }

    static lemma {:induction false} FillAt(lv: Level, p: nat, leaf: bool, top: bool, cap: nat)
      requires p < |lv| && Filled(lv, leaf, top, cap)
      ensures (if top then 1 else MinCount(cap)) <= Count(lv, p, leaf) <= cap
    {
      assert lv[p] == lv[p];
    }

    method SkewBorrow(path: seq<Step>, ghost qs: seq<nat>, prevId: Ptr)
      requires SkewShort(path, qs)
      requires qs[|path| - 1] > 0 && prevId == LevelAt(levels, |path| - 1)[qs[|path| - 1] - 1].id
      requires prevId in pages && pages[prevId].count > MinCount(cap)
      modifies this`pages, this`levels
      ensures Repaired(old(levels), |old(levels)| - |path|)
    {
      hide Stored, Distinct, ShapeFrom, Inhabited, Filled, Flat, Linked, OnPath, Short, Tidy;
      LeftNeighbour(path, qs);
      ghost var h, q, r := |levels| - |path|, qs[|path| - 1], qs[|path| - 2];
      PageAt(h, q);
      PageAt(h, q - 1);
      var pageId, parentId, i := path[|path| - 1].page, path[|path| - 2].page, path[|path| - 2].idx;
      var page, prev := BorrowLastSkew(pages[pageId], pages[prevId]);
      ghost var a, b := View(prev, false), View(page, true);
      MoveLast(levels[h][q - 1].view, levels[h][q].view);
      SaneIsTidy(pages, levels, rootPageId, h + 1, r, i, cap);
      SaneAbove(pages, levels, rootPageId, h + 1, h + 2, cap);
      BorrowStep(pages, levels, rootPageId, cap, h, q - 1, q, prev, a, page, b, r, i, i - 1);
      pages := pages[prevId := prev][pageId := page];
      pages := pages[parentId := SetKey(pages[parentId], i - 1, LastKey(prev))];
      ghost var v := levels[h + 1][r].view;
      levels := levels[h := Exchange(levels[h], q - 1, a, b)]
                      [h + 1 := WithView(levels[h + 1], r, v[i - 1 := Sep(Fin(LastKey(prev)), v[i - 1].ptr)])];
      TidyIsSane(pages, levels, rootPageId, h + 1, r, i, cap);
      SaneDown(pages, levels, rootPageId, h, cap);
    }

    method SkewMerge(path: seq<Step>, ghost qs: seq<nat>, prevId: Ptr)
      requires SkewShort(path, qs)
      requires qs[|path| - 1] > 0 && prevId == LevelAt(levels, |path| - 1)[qs[|path| - 1] - 1].id
      requires prevId in pages && pages[prevId].count <= MinCount(cap)
      modifies this`pages, this`rootPageId, this`levels
      ensures Repaired(old(levels), |old(levels)| - |path|)
      decreases |path|, 0
    {
      hide Stored, Distinct, ShapeFrom, Inhabited, Filled, Flat, Linked, OnPath, Short, Tidy, MergePending, Sane, InLevels;
      LeftNeighbour(path, qs);
      ghost var h, q, r := |levels| - |path|, qs[|path| - 1], qs[|path| - 2];
      var parentId, i := path[|path| - 2].page, path[|path| - 2].idx;
      var prev := SkewAbsorbedByPrev(path, qs, prevId);
      SaneIsTidy(pages, levels, rootPageId, h + 1, r, i, cap);
      SaneAbove(pages, levels, rootPageId, h + 1, h + 2, cap);
      MergeStep(pages, levels, rootPageId, cap, h, q, q, prev, r, i, i - 1);
      pages := pages[prevId := prev];
      pages := pages[parentId := SetKey(pages[parentId], i - 1, LastKey(prev))];
      ghost var v := levels[h + 1][r].view;
      ghost var w := v[i - 1 := Sep(Fin(LastKey(prev)), v[i - 1].ptr)];
      levels := levels[h := MergeNodes(levels[h], q)][h + 1 := WithView(levels[h + 1], r, w)];
      TidyIsSane(pages, levels, rootPageId, h + 1, r, i, cap);
      OnPathParent(old(levels), levels, path, qs, w, i);
      ghost var mid := levels;
      RemoveEntryInRightSkewPath(path[..|path| - 1], qs[..|path| - 1]);
      assert levels[..h + 1][h] == mid[..h + 1][h];
      assert levels[..h] == levels[..h + 1][..h] == mid[..h + 1][..h] == old(levels)[..h];
    }

    method SkewAbsorbedByPrev(path: seq<Step>, ghost qs: seq<nat>, prevId: Ptr) returns (prev: Page)
      requires SkewShort(path, qs)
      requires qs[|path| - 1] > 0 && prevId == LevelAt(levels, |path| - 1)[qs[|path| - 1] - 1].id
      requires prevId in pages && pages[prevId].count <= MinCount(cap)
      ensures
        var lv, q := LevelAt(levels, |path| - 1), qs[|path| - 1];
        && PageIs(prev, MergeNodes(lv, q), q - 1, false, false, cap)
        && MinCount(cap) <= prev.count == Count(lv, q - 1, false) + Count(lv, q, false)
        && 0 < prev.count <= |prev.data|
    {
      hide Stored, Distinct, ShapeFrom, Inhabited, Filled, Flat, Linked, OnPath, Short;
      LeftNeighbour(path, qs);
      ghost var h, q := |levels| - |path|, qs[|path| - 1];
      PageAt(h, q);
      PageAt(h, q - 1);
      PrevCount(path, qs);
      prev := MergeSkewIntoPrev(pages[path[|path| - 1].page], pages[prevId]);
    }

    lemma {:induction false} PrevCount(path: seq<Step>, qs: seq<nat>)
      requires SkewShort(path, qs) && qs[|path| - 1] > 0
      ensures Count(LevelAt(levels, |path| - 1), qs[|path| - 1] - 1, false) >= MinCount(cap)
    {
      assert LevelAt(levels, |path| - 1)[qs[|path| - 1] - 1] == LevelAt(levels, |path| - 1)[qs[|path| - 1] - 1];
    }

    /** The parent's path, after its bounds were renewed. */
    static lemma {:induction false} OnPathParent(levels: seq<Level>, levels': seq<Level>, path: seq<Step>, qs: seq<nat>,
                                                 w: seq<Sep>, i: nat)
      requires OnPath(levels, path, qs) && 2 <= |path| && |levels'| == |levels|
      requires
        var h, r := |levels| - |path| + 1, qs[|path| - 2];
        && levels'[h] == WithView(levels[h], r, w) && levels'[h + 1..] == levels[h + 1..]
      ensures OnPath(levels', path[..|path| - 1], qs[..|path| - 1])
      ensures OnPath(levels', path[..|path| - 2] + [path[|path| - 2].(idx := i)], qs[..|path| - 1])
      ensures Off(LevelAt(levels', |path| - 2), qs[|path| - 2]) == Off(LevelAt(levels, |path| - 2), qs[|path| - 2])
    {
      OnPathUp(levels, levels', path, qs, i);
      assert LevelAt(levels', |path| - 2)[..qs[|path| - 2]] == LevelAt(levels, |path| - 2)[..qs[|path| - 2]];
    }

    static lemma {:induction false} StillLinked(before: seq<Level>, after: seq<Level>, h: nat)
      requires 0 < h < |before| && h < |after| && after[..h] == before[..h]
      requires Linked(before[h - 1], before[h]) && Flat(after[h]) == Flat(before[h])
      ensures after[h - 1] == before[h - 1] && Linked(after[h - 1], after[h])
    {
      assert after[..h][h - 1] == before[..h][h - 1];
    }

    ghost predicate SkewRemovalReady(path: seq<Step>, qs: seq<nat>)
      reads this
    {
      && OnPath(levels, path, qs) && 0 < |path| == |qs| && |path| < |levels|
      && var h, q, i := |levels| - |path|, qs[|path| - 1], path[|path| - 1].idx;
      && Sane(pages, levels, rootPageId, h, cap)
      && q == |levels[h]| - 1 && 0 < i < |levels[h][q].view|
      && (i < |levels[h][q].view| - 1 ==> levels[h][q].view[i - 1].bound == levels[h][q].view[i].bound)
      && MergePending(levels, h - 1, Off(levels[h], q) + i, cap)
    }

    static lemma {:induction false} PendingFilled(levels: seq<Level>, l: nat, p: nat, cap: nat)
      requires MergePending(levels, l, p, cap)
      ensures l < |levels| && Filled(levels[l], l == 0, false, cap)
    {
    }

    /** The right-skew page lost a pointer and its level agrees with the one below; it may be one entry short. */
    ghost predicate SkewCut(was: Store, before: seq<Level>, path: seq<Step>, qs: seq<nat>)
      reads this
    {
      && 0 < |path| == |qs| && |path| < |before| == |levels|
      && var h, q, i, pageId := |levels| - |path|, qs[|path| - 1], path[|path| - 1].idx, path[|path| - 1].page;
      && q < |before[h]| && 0 < i < |before[h][q].view|
      && pageId in pages && pageId in was
      && levels == before[h := WithView(before[h], q, MergeAt(before[h][q].view, i))]
      && pages[pageId].count == was[pageId].count - 1
      && pages[pageId].root == (|path| == 1)
      && |levels[h][q].view| == pages[pageId].count + 1
      && Sane(pages, levels, rootPageId, h + 1, cap)
      && Linked(levels[h - 1], levels[h])
      && (h + 1 < |levels| ==> Linked(levels[h], levels[h + 1]) && Short(levels[h], q, false, cap))
      && (h + 1 < |levels| && MinCount(cap) <= pages[pageId].count ==> Filled(levels[h], false, false, cap))
      && (h + 1 == |levels| && 1 <= pages[pageId].count ==> Filled(levels[h], false, true, cap))
    }

    method CutSkewPointer(path: seq<Step>, ghost qs: seq<nat>)
      requires SkewRemovalReady(path, qs)
      modifies this`pages, this`levels
      ensures OnPath(levels, path, qs) && SkewCut(old(pages), old(levels), path, qs)
    {
      hide Stored, Distinct, ShapeFrom, Inhabited, Filled, Flat, Linked, OnPath, Short, MergePending;
      PathAt(levels, path, qs, |path| - 1);
      ghost var h, q := |levels| - |path|, qs[|path| - 1];
      PageAt(h, q);
      var pageId, i := path[|path| - 1].page, path[|path| - 1].idx;
      ghost var v := levels[h][q].view;
      var page := RemoveSkewPointer(pages[pageId], i);
      SkewCutStep(pages, levels, rootPageId, cap, h, q, i, page);
      pages := pages[pageId := page];
      levels := levels[h := WithView(levels[h], q, MergeAt(v, i))];
      OnPathCut(old(levels), path, qs, MergeAt(v, i));
    }

    /** What happens inside the page at the end of the path is not the path's business. */
    static lemma {:induction false} OnPathCut(levels: seq<Level>, path: seq<Step>, qs: seq<nat>, v: seq<Sep>)
      requires OnPath(levels, path, qs)
      ensures OnPath(levels[|levels| - |path| := WithView(LevelAt(levels, |path| - 1), qs[|path| - 1], v)], path, qs)
    {
      hide Flat;
      var levels': seq<Level> := levels[|levels| - |path| := WithView(LevelAt(levels, |path| - 1), qs[|path| - 1], v)];
      assert forall d {:trigger LevelAt(levels', d)} :: 0 <= d < |path| - 1 ==> LevelAt(levels', d) == LevelAt(levels, d);
    }

    method ShrinkRoot()
      requires 2 <= |levels| && Sane(pages, levels, rootPageId, |levels|, cap) && rootPageId in pages
      requires Linked(levels[|levels| - 2], levels[|levels| - 1])
      requires |levels[|levels| - 1][0].view| == 1 == pages[rootPageId].count + 1
      requires Filled(levels[|levels| - 2], |levels| == 2, false, cap)
      modifies this`pages, this`rootPageId, this`levels
      ensures levels == old(levels)[..|old(levels)| - 1]
      ensures Sane(pages, levels, rootPageId, |levels| - 1, cap)
    {
      hide Stored, Distinct, Flat;
      PageAt(|levels| - 1, 0);
      var pageToDelete := rootPageId;
      ShrinkStep(pages, levels, rootPageId, cap);
      rootPageId := pages[pageToDelete].data[0].ptr;
      pages := pages[rootPageId := pages[rootPageId].(root := true)];
      levels := levels[..|levels| - 1];
      DeletePage(pageToDelete, |levels| - 1);
    }

    /** The leaf or leaf-like page at the end of the path may lose the entry at its index. */
    ghost predicate RemovalReady(path: seq<Step>, qs: seq<nat>)
      reads this
    {
      && 3 <= cap && OnPath(levels, path, qs) && 0 < |path| == |qs| <= |levels|
      && var l, q, i := |levels| - |path|, qs[|path| - 1], path[|path| - 1].idx;
      && Sane(pages, levels, rootPageId, l + 1, cap)
      && q < |levels[l]| && (l != 0 ==> q < |levels[l]| - 1)
      && Tidy(levels, l, q, i, cap)
      && 2 <= |levels[l][q].view| && i < |levels[l][q].view|
    }

    /** An entry is removed from a leaf or, `recursive`, from a leaf-like page. */
    method RemoveEntryAt(path: seq<Step>, ghost qs: seq<nat>, recursive: bool)
      requires RemovalReady(path, qs) && recursive == (|path| < |levels|)
      modifies this`pages, this`rootPageId, this`levels
      ensures LevelBecame(|old(levels)| - |path|, old(levels), qs[|path| - 1],
                          CutAt(LevelAt(old(levels), |path| - 1)[qs[|path| - 1]].view, path[|path| - 1].idx))
      decreases |path|, 3
    {
      hide Sane, Stored, Distinct, ShapeFrom, Inhabited, Filled, Flat, Linked, OnPath, Short, LinkedBut;
      PathAt(levels, path, qs, |path| - 1);
      ghost var l, q := |levels| - |path|, qs[|path| - 1];
      PageIn(l + 1, l, q);
      FillAt(levels[l], q, l == 0, l == |levels| - 1, cap);
      var pageId := path[|path| - 1].page;
      var hasEnoughKeys := pages[pageId].count > MinCount(cap) || pages[pageId].root;
      var needUpdate := CutEntry(path, qs);
      ghost var mid := levels;
      if hasEnoughKeys {
        if needUpdate {
          OnPathPrefix(levels, path, qs);
          TryUpdateTillRoot(path[..|path| - 1], qs[..|path| - 1]);
          SameUpTo(mid, levels, l);
        }
        SaneDown(pages, levels, rootPageId, l, cap);
      } else {
        FixShortPage(path, qs, recursive, needUpdate);
      }
    }

    static lemma {:induction false} SameUpTo(mid: seq<Level>, after: seq<Level>, l: nat)
      requires l + 1 < |mid| == |after| && after[..l + 2] == mid[..l + 2]
      ensures after[..l] == mid[..l] && after[l] == mid[l] && after[l + 1] == mid[l + 1]
    {
      assert after[..l + 2][l] == mid[..l + 2][l] && after[..l + 2][l + 1] == mid[..l + 2][l + 1];
      assert after[..l] == after[..l + 2][..l] == mid[..l + 2][..l] == mid[..l];
    }

    /** The state after an entry left the page at the end of the path and its bound above was renewed. */
    ghost predicate EntryCut(path: seq<Step>, qs: seq<nat>, needUpdate: bool)
      reads this
    {
      && 3 <= cap && OnPath(levels, path, qs) && 0 < |path| == |qs| <= |levels|
      && var l, q := |levels| - |path|, qs[|path| - 1];
      && q < |levels[l]| && (l != 0 ==> q < |levels[l]| - 1)
      && (needUpdate ==> 2 <= |path|)
      && (!needUpdate ==> Sane(pages, levels, rootPageId, l + 1, cap))
      && (2 <= |path| ==>
            && Sane(pages, levels, rootPageId, l + 2, cap)
            && Linked(levels[l], levels[l + 1]) && Short(levels[l], q, l == 0, cap)
            && Tidy(levels, l + 1, qs[|path| - 2], path[|path| - 2].idx, cap))
    }

    /** Node `q` of level `l` lost entry `i`; the levels below stayed, and level `l` is filled if the page had one to spare. */
    ghost predicate OnlyCut(before: seq<Level>, l: int, q: nat, i: nat)
      reads this
    {
      && 0 <= l < |before| == |levels| && q < |before[l]| && i < |before[l][q].view|
      && levels[..l] == before[..l]
      && levels[l] == WithView(before[l], q, CutAt(before[l][q].view, i))
      && (l + 1 < |levels| && MinCount(cap) < |before[l][q].view| ==> Filled(levels[l], l == 0, false, cap))
      && (l + 1 == |levels| ==> Filled(levels[l], l == 0, true, cap))
    }

    method CutEntry(path: seq<Step>, ghost qs: seq<nat>) returns (needUpdate: bool)
      requires RemovalReady(path, qs)
      modifies this`pages, this`levels
      ensures EntryCut(path, qs, needUpdate)
      ensures OnlyCut(old(levels), |old(levels)| - |path|, qs[|path| - 1], path[|path| - 1].idx)
    {
      hide Stored, Distinct, ShapeFrom, Inhabited, Filled, Flat, Linked, OnPath, Short, LinkedBut, Tidy;
      ghost var l, q, i := |levels| - |path|, qs[|path| - 1], path[|path| - 1].idx;
      hide Sane, WithView;
      var page := CutPage(path, qs);
      ghost var mid := levels;
      needUpdate := false;
      if |path| >= 2 {
        if page.count != path[|path| - 1].idx {
          CutKeepsLink(old(levels), l, q, i, cap);
        }
        needUpdate := RenewBound(path, qs, page);
        KeptHere(old(levels), mid, levels, l);
      }
    }

    static lemma {:induction false} KeptHere(before: seq<Level>, mid: seq<Level>, after: seq<Level>, l: nat)
      requires l < |before| == |mid| == |after| && mid == before[l := mid[l]] && after[..l + 1] == mid[..l + 1]
      ensures after[..l] == before[..l] && after[l] == mid[l]
    {
      assert after[..l + 1][l] == mid[..l + 1][l];
      assert after[..l] == after[..l + 1][..l] == mid[..l + 1][..l] == before[..l];
    }

    /** Node `q` of level `l` lost entry `i` and is now `page`. */
    ghost predicate PageCut(before: seq<Level>, l: int, q: nat, i: nat, page: Page)
      reads this
    {
      && 0 <= l < |before| == |levels| && q < |before[l]| && i < |before[l][q].view|
      && levels == before[l := WithView(before[l], q, CutAt(before[l][q].view, i))]
      && Sound(page, cap) && View(page, false) == levels[l][q].view
      && Sane(pages, levels, rootPageId, l + 1, cap)
      && (l + 1 < |levels| ==> LinkedBut(levels[l], levels[l + 1], q) && Short(levels[l], q, l == 0, cap))
      && (l + 1 < |levels| && MinCount(cap) < |before[l][q].view| ==> Filled(levels[l], l == 0, false, cap))
      && (l + 1 == |levels| ==> Filled(levels[l], l == 0, true, cap))
    }

    method CutPage(path: seq<Step>, ghost qs: seq<nat>) returns (page: Page)
      requires RemovalReady(path, qs)
      modifies this`pages, this`levels
      ensures OnPath(levels, path, qs)
      ensures PageCut(old(levels), |old(levels)| - |path|, qs[|path| - 1], path[|path| - 1].idx, page)
    {
      hide Stored, Distinct, ShapeFrom, Inhabited, Filled, Flat, Linked, OnPath, Short, LinkedBut;
      PathAt(levels, path, qs, |path| - 1);
      ghost var l, q := |levels| - |path|, qs[|path| - 1];
      PageAt(l, q);
      var pageId, i := path[|path| - 1].page, path[|path| - 1].idx;
      ghost var v := levels[l][q].view;
      page := RemoveEntry(pages[pageId], i);
      CutStep(pages, levels, rootPageId, cap, l, q, CutAt(v, i), page);
      pages := pages[pageId := page];
      levels := levels[l := WithView(levels[l], q, CutAt(v, i))];
      OnPathCut(old(levels), path, qs, CutAt(v, i));
    }

    static lemma {:induction false} CutKeepsLink(levels: seq<Level>, l: nat, q: nat, i: nat, cap: nat)
      requires Tidy(levels, l, q, i, cap) && l + 1 < |levels| && i < |levels[l][q].view| - 1
      ensures Linked(WithView(levels[l], q, CutAt(levels[l][q].view, i)), levels[l + 1])
    {
      SepsWithView(levels[l], q, CutAt(levels[l][q].view, i));
    }

    /** When the last entry of a page is gone and the page is not the last of its level, its bound is renewed. */
    method RenewBound(path: seq<Step>, ghost qs: seq<nat>, page: Page) returns (renewed: bool)
      requires OnPath(levels, path, qs) && 2 <= |path|
      requires Sane(pages, levels, rootPageId, |levels| - |path| + 1, cap)
      requires LinkedBut(LevelAt(levels, |path| - 1), LevelAt(levels, |path| - 2), qs[|path| - 1])
      requires 0 < page.count <= |page.data|
      requires |path| < |levels| ==> qs[|path| - 1] < |LevelAt(levels, |path| - 1)| - 1
      requires View(page, false) == LevelAt(levels, |path| - 1)[qs[|path| - 1]].view
      requires page.count != path[|path| - 1].idx ==> Linked(LevelAt(levels, |path| - 1), LevelAt(levels, |path| - 2))
      modifies this`pages, this`levels
      ensures |levels| == |old(levels)| && OnPath(levels, path, qs)
      ensures levels[..|levels| - |path| + 1] == old(levels)[..|levels| - |path| + 1]
      ensures Sane(pages, levels, rootPageId, |levels| - |path| + 2, cap)
      ensures !renewed ==> Sane(pages, levels, rootPageId, |levels| - |path| + 1, cap)
      ensures Linked(LevelAt(levels, |path| - 1), LevelAt(levels, |path| - 2))
      ensures Tidy(levels, |levels| - |path| + 1, qs[|path| - 2], path[|path| - 2].idx, cap)
    {
      hide Stored, Distinct, ShapeFrom, Inhabited, Filled, Flat, OnPath, Tidy;
      PathAt(levels, path, qs, |path| - 1);
      PathAt(levels, path, qs, |path| - 2);
      ghost var l, q, r := |levels| - |path|, qs[|path| - 1], qs[|path| - 2];
      LinkAt(pages, levels, rootPageId, l + 1, l + 1, cap);
      LastOnPath(levels, path, qs);
      PageAt(l + 1, r);
      if page.count == path[|path| - 1].idx && path[|path| - 2].idx < pages[path[|path| - 2].page].count {
        RepairParent(path, qs, LastKey(page));
        renewed := true;
      } else {
        if page.count == path[|path| - 1].idx {
          ButIsLinked(levels[l], levels[l + 1], q);
        }
        SaneIsTidy(pages, levels, rootPageId, l + 1, r, path[|path| - 2].idx, cap);
        SaneAbove(pages, levels, rootPageId, l + 1, l + 2, cap);
        renewed := false;
      }
    }

    ghost predicate PageShort(path: seq<Step>, qs: seq<nat>, needUpdate: bool)
      reads this
    {
      && 2 <= |path| && EntryCut(path, qs, needUpdate)
      && |levels[|levels| - |path|][qs[|path| - 1]].view| == MinCount(cap) - 1
    }

    /** A page, its parent and its neighbours below that parent. */
    ghost predicate Siblings(path: seq<Step>, qs: seq<nat>)
      reads this
    {
      && 2 <= |path| == |qs| && |path| <= |levels|
      && var l, q, r, i := |levels| - |path|, qs[|path| - 1], qs[|path| - 2], path[|path| - 2].idx;
      && var lo, hi := levels[l], levels[l + 1];
      && q < |lo| && path[|path| - 1].page == lo[q].id && lo[q].id in pages
      && r < |hi| && path[|path| - 2].page == hi[r].id && hi[r].id in pages
      && var v, parent := hi[r].view, pages[hi[r].id];
      && Sound(parent, cap) && View(parent, r == |hi| - 1) == v
      && i < |v| && 2 <= |v| && q == Off(hi, r) + i
      && (i > 0 ==> 0 < q && v[i - 1].ptr == lo[q - 1].id != 0 && lo[q - 1].id in pages)
      && (i < |v| - 1 ==> q + 1 < |lo| && v[i + 1].ptr == lo[q + 1].id != 0 && lo[q + 1].id in pages)
      && (i < |v| - 1 ==> (q + 1 == |lo| - 1 <==> r == |hi| - 1 && i + 1 == |v| - 1))
      && (q == |lo| - 1 <==> r == |hi| - 1 && i == |v| - 1)
    }

    lemma {:induction false} SiblingsAt(path: seq<Step>, qs: seq<nat>, needUpdate: bool)
      requires PageShort(path, qs, needUpdate)
      ensures Siblings(path, qs)
    {
      hide Stored, Distinct, ShapeFrom, Filled, Flat, OnPath, Short, LinkedBut;
      var l, q, r, i := |levels| - |path|, qs[|path| - 1], qs[|path| - 2], path[|path| - 2].idx;
      var lo, hi := levels[l], levels[l + 1];
      PathAt(levels, path, qs, |path| - 2);
      PathAt(levels, path, qs, |path| - 1);
      FillAt(hi, r, false, l + 1 == |levels| - 1, cap);
      FilledInhabited(hi, false, l + 1 == |levels| - 1, cap);
      PageAt(l + 1, r);
      PageAt(l, q);
      LastPointer(hi, r, i);
      if i > 0 {
        ChildSep(lo, hi, r, i - 1);
        PageAt(l, q - 1);
      }
      if i < |hi[r].view| - 1 {
        ChildSep(lo, hi, r, i + 1);
        LastPointer(hi, r, i + 1);
        PageAt(l, q + 1);
      }
    }

    /** A short leaf or leaf-like page borrows from a neighbour, left first, or merges with one, left first. */
    method FixShortPage(path: seq<Step>, ghost qs: seq<nat>, recursive: bool, needUpdate: bool)
      requires PageShort(path, qs, needUpdate) && recursive == (|path| < |levels|)
      modifies this`pages, this`rootPageId, this`levels
      ensures Repaired(old(levels), |old(levels)| - |path|)
      decreases |path|, 2
    {
      hide Stored, Distinct, ShapeFrom, Inhabited, Filled, Flat, Linked, OnPath, Short, Tidy;
      SiblingsAt(path, qs, needUpdate);
      var isInRightSkewPath := InRightSkewPath(path, qs, needUpdate);
      var possiblePrevPageId, possibleNextPageId := FindSiblings(path, qs, isInRightSkewPath);
      if possiblePrevPageId != 0 && pages[possiblePrevPageId].count > MinCount(cap) {
        BorrowFromPrev(path, qs, possiblePrevPageId, needUpdate);
      } else if possibleNextPageId != 0 && pages[possibleNextPageId].count > MinCount(cap) {
        BorrowFromNext(path, qs, possibleNextPageId, recursive, needUpdate);
      } else if possiblePrevPageId != 0 {
        MergeSelfIntoPrev(path, qs, possiblePrevPageId, isInRightSkewPath, needUpdate);
      } else {
        MergeNextIntoPage(path, qs, possibleNextPageId, recursive, isInRightSkewPath, needUpdate);
      }
    }

    /** Is the parent right-skew? */
    method InRightSkewPath(path: seq<Step>, ghost qs: seq<nat>, ghost needUpdate: bool) returns (skew: bool)
      requires PageShort(path, qs, needUpdate) && Siblings(path, qs)
      ensures skew == (qs[|path| - 2] == |LevelAt(levels, |path| - 2)| - 1)
    {
      hide Stored, Distinct, Filled, Flat, OnPath, Short;
      ghost var h := |levels| - |path| + 1;
      if h + 1 < |levels| {
        LinkAt(pages, levels, rootPageId, h + 1, h + 1, cap);
      }
      SkewTest(pages, levels, path, qs, cap);
      skew := |path| == 2 || path[|path| - 3].idx == pages[path[|path| - 3].page].count;
    }

    method FindSiblings(path: seq<Step>, ghost qs: seq<nat>, isInRightSkewPath: bool) returns (prevId: Ptr, nextId: Ptr)
      requires Siblings(path, qs)
      requires isInRightSkewPath == (qs[|path| - 2] == |LevelAt(levels, |path| - 2)| - 1)
      ensures
        var i, v := path[|path| - 2].idx, LevelAt(levels, |path| - 2)[qs[|path| - 2]].view;
        var lo, q := LevelAt(levels, |path| - 1), qs[|path| - 1];
        && (if i > 0 then prevId == lo[q - 1].id && prevId != 0 else prevId == 0)
        && (if i < |v| - 1 then nextId == lo[q + 1].id && nextId != 0 else nextId == 0)
    {
      hide Flat;
      var i, parent := path[|path| - 2].idx, pages[path[|path| - 2].page];
      prevId, nextId := 0, 0;
      if isInRightSkewPath {
        if i < parent.count {
          if i + 1 < cap {
            nextId := parent.data[i + 1].ptr;
          } else {
            nextId := parent.next;
          }
        }
      } else {
        if i < parent.count - 1 {
          nextId := parent.data[i + 1].ptr;
        }
      }
      if i > 0 {
        prevId := parent.data[i - 1].ptr;
      }
    }

    method BorrowFromPrev(path: seq<Step>, ghost qs: seq<nat>, prevId: Ptr, needUpdate: bool)
      requires PageShort(path, qs, needUpdate) && Siblings(path, qs) && path[|path| - 2].idx > 0
      requires prevId == LevelAt(levels, |path| - 1)[qs[|path| - 1] - 1].id && pages[prevId].count > MinCount(cap)
      modifies this`pages, this`rootPageId, this`levels
      ensures Repaired(old(levels), |old(levels)| - |path|)
    {
      hide Stored, Distinct, ShapeFrom, Inhabited, Filled, Flat, Linked, OnPath, Short, Tidy, Siblings, BorrowFits;
      ghost var l := |levels| - |path|;
      var page, prev, a, b := LendLast(path, qs, prevId, needUpdate);
      CommitBorrow(path, qs, prevId, prev, a, path[|path| - 1].page, page, b, path[|path| - 2].idx - 1, qs[|path| - 1] - 1, needUpdate);
      if needUpdate {
        OnPathPrefix(levels, path, qs);
        ghost var mid := levels;
        TryUpdateTillRoot(path[..|path| - 1], qs[..|path| - 1]);
        SameUpTo(mid, levels, l);
      }
      SaneDown(pages, levels, rootPageId, l, cap);
    }

    /** The page and its left neighbour, after the last entry of the latter moved over. */
    method LendLast(path: seq<Step>, ghost qs: seq<nat>, prevId: Ptr, ghost needUpdate: bool)
      returns (page: Page, prev: Page, ghost a: seq<Sep>, ghost b: seq<Sep>)
      requires PageShort(path, qs, needUpdate) && Siblings(path, qs) && path[|path| - 2].idx > 0
      requires prevId == LevelAt(levels, |path| - 1)[qs[|path| - 1] - 1].id && pages[prevId].count > MinCount(cap)
      ensures 0 < qs[|path| - 1]
      ensures BorrowFits(path, qs, prevId, prev, a, path[|path| - 1].page, page, b, path[|path| - 2].idx - 1, qs[|path| - 1] - 1)
    {
      hide Stored, Distinct, ShapeFrom, Inhabited, Filled, Flat, Linked, OnPath, Short, Tidy;
      ghost var l, q := |levels| - |path|, qs[|path| - 1];
      PageAt(l, q);
      PageAt(l, q - 1);
      page, prev := BorrowLast(pages[path[|path| - 1].page], pages[prevId]);
      a, b := View(prev, false), View(page, false);
      MoveLast(levels[l][q - 1].view, levels[l][q].view);
    }

    method BorrowFromNext(path: seq<Step>, ghost qs: seq<nat>, nextId: Ptr, recursive: bool, ghost needUpdate: bool)
      requires PageShort(path, qs, needUpdate) && Siblings(path, qs) && recursive == (|path| < |levels|)
      requires path[|path| - 2].idx < |LevelAt(levels, |path| - 2)[qs[|path| - 2]].view| - 1
      requires nextId == LevelAt(levels, |path| - 1)[qs[|path| - 1] + 1].id && pages[nextId].count > MinCount(cap)
      modifies this`pages, this`rootPageId, this`levels
      ensures Repaired(old(levels), |old(levels)| - |path|)
    {
      hide Stored, Distinct, ShapeFrom, Inhabited, Filled, Flat, Linked, OnPath, Short, Tidy, Siblings, BorrowFits;
      ghost var l := |levels| - |path|;
      var page, next, a, b := LendFirst(path, qs, nextId, recursive, needUpdate);
      CommitBorrow(path, qs, path[|path| - 1].page, page, a, nextId, next, b, path[|path| - 2].idx, qs[|path| - 1], needUpdate);
      OnPathPrefix(levels, path, qs);
      ghost var mid := levels;
      TryUpdateTillRoot(path[..|path| - 1], qs[..|path| - 1]);
      SameUpTo(mid, levels, l);
      SaneDown(pages, levels, rootPageId, l, cap);
    }

    /** The page and its right neighbour, after the first entry of the latter moved over. */
    method LendFirst(path: seq<Step>, ghost qs: seq<nat>, nextId: Ptr, recursive: bool, ghost needUpdate: bool)
      returns (page: Page, next: Page, ghost a: seq<Sep>, ghost b: seq<Sep>)
      requires PageShort(path, qs, needUpdate) && Siblings(path, qs) && recursive == (|path| < |levels|)
      requires path[|path| - 2].idx < |LevelAt(levels, |path| - 2)[qs[|path| - 2]].view| - 1
      requires nextId == LevelAt(levels, |path| - 1)[qs[|path| - 1] + 1].id && pages[nextId].count > MinCount(cap)
      ensures BorrowFits(path, qs, path[|path| - 1].page, page, a, nextId, next, b, path[|path| - 2].idx, qs[|path| - 1])
    {
      hide Stored, Distinct, ShapeFrom, Inhabited, Filled, Flat, Linked, OnPath, Short, Tidy;
      ghost var l, q := |levels| - |path|, qs[|path| - 1];
      PageAt(l, q);
      PageAt(l, q + 1);
      var pageId, i := path[|path| - 1].page, path[|path| - 2].idx;
      var skew := recursive && i + 1 == pages[path[|path| - 2].page].count;
      page, next := BorrowFirst(pages[pageId], pages[nextId], skew);
      a, b := View(page, false), View(next, skew);
      MoveFirst(levels[l][q].view, levels[l][q + 1].view);
    }

    /** Nodes `p` and `p + 1` below one parent may become `a` and `b`. */
    ghost predicate BorrowFits(path: seq<Step>, qs: seq<nat>, leftId: Ptr, left: Page, a: seq<Sep>, rightId: Ptr, right: Page, b: seq<Sep>,
                               j: nat, p: nat)
      reads this
    {
      && Siblings(path, qs)
      && var l, q, r := |levels| - |path|, qs[|path| - 1], qs[|path| - 2];
      && p + 1 < |levels[l]| && (p == q || p + 1 == q)
      && j < |levels[l + 1][r].view| - 1 && p == Off(levels[l + 1], r) + j
      && leftId == levels[l][p].id && rightId == levels[l][p + 1].id && leftId in pages && rightId in pages
      && levels[l][p].view + levels[l][p + 1].view == a + b
      && PageIs(left, Exchange(levels[l], p, a, b), p, l == 0, false, cap)
      && PageIs(right, Exchange(levels[l], p, a, b), p + 1, l == 0, false, cap)
      && MinCount(cap) <= left.count <= |left.data| && MinCount(cap) <= right.count && 0 < left.count
    }

    method CommitBorrow(path: seq<Step>, ghost qs: seq<nat>, leftId: Ptr, left: Page, ghost a: seq<Sep>,
                        rightId: Ptr, right: Page, ghost b: seq<Sep>, j: nat, ghost p: nat, ghost needUpdate: bool)
      requires PageShort(path, qs, needUpdate) && BorrowFits(path, qs, leftId, left, a, rightId, right, b, j, p)
      modifies this`pages, this`levels
      ensures BorrowDone(old(levels), path, qs, needUpdate)
    {
      hide Sane, PageIs, View, Stored, Distinct, ShapeFrom, Inhabited, Filled, Flat, Linked, OnPath, Short, Tidy;
      ghost var l, r := |levels| - |path|, qs[|path| - 2];
      var parentId := path[|path| - 2].page;
      BorrowStep(pages, levels, rootPageId, cap, l, p, qs[|path| - 1], left, a, right, b, r, path[|path| - 2].idx, j);
      pages := pages[leftId := left][rightId := right];
      pages := pages[parentId := SetKey(pages[parentId], j, LastKey(left))];
      ghost var v := levels[l + 1][r].view;
      ghost var w := v[j := Sep(Fin(LastKey(left)), v[j].ptr)];
      levels := levels[l := Exchange(levels[l], p, a, b)][l + 1 := WithView(levels[l + 1], r, w)];
      OnPathParent(old(levels), levels, path, qs, w, path[|path| - 2].idx);
      OnPathExchange(old(levels), levels, path, qs, w);
      if !needUpdate {
        BoundKeepsSane(old(pages), old(levels), pages, levels, rootPageId, l + 1, r, j, Fin(LastKey(left)), cap);
      }
    }

    /** Level `l` is filled and linked again with its entries kept; above it only bounds on the path may be out of date. */
    ghost predicate BorrowDone(before: seq<Level>, path: seq<Step>, qs: seq<nat>, needUpdate: bool)
      reads this
    {
      && |levels| == |before| && 2 <= |path| == |qs| && |path| <= |levels| && OnPath(levels, path, qs)
      && var l := |levels| - |path|;
      && levels[..l] == before[..l] && Flat(levels[l]) == Flat(before[l])
      && Filled(levels[l], l == 0, false, cap) && Linked(levels[l], levels[l + 1])
      && Sane(pages, levels, rootPageId, l + 2, cap)
      && Tidy(levels, l + 1, qs[|path| - 2], path[|path| - 2].idx, cap)
      && (!needUpdate ==> Sane(pages, levels, rootPageId, l + 1, cap))
    }

    static lemma {:induction false} OnPathExchange(levels: seq<Level>, levels': seq<Level>, path: seq<Step>, qs: seq<nat>, w: seq<Sep>)
      requires OnPath(levels, path, qs) && 2 <= |path| && |levels'| == |levels|
      requires
        var l, q, r := |levels| - |path|, qs[|path| - 1], qs[|path| - 2];
        && |w| == |levels[l + 1][r].view|
        && levels' == levels[l := levels'[l]][l + 1 := WithView(levels[l + 1], r, w)]
        && q < |levels'[l]| && levels'[l][q].id == levels[l][q].id
      ensures OnPath(levels', path, qs)
    {
      hide Flat;
      var mid: seq<Level> := levels[|levels| - |path| + 1 := WithView(levels[|levels| - |path| + 1], qs[|path| - 2], w)];
      OnPathRebound(levels, path, qs, w);
      assert forall d {:trigger LevelAt(levels', d)} :: 0 <= d < |path| - 1 ==> LevelAt(levels', d) == LevelAt(mid, d);
    }

    /** Where the level above was whole, a new bound inside a node keeps it whole. */
    static lemma {:induction false} BoundKeepsSane(was: Store, before: seq<Level>, pages: Store, levels: seq<Level>, root: Ptr, l: nat, q: nat,
                                                   j: nat, b: Bound, cap: nat)
      requires Sane(was, before, root, l, cap) && |levels| == |before| && l < |levels| && q < |before[l]|
      requires j < |before[l][q].view| - 1
      requires levels[l] == WithView(before[l], q, before[l][q].view[j := Sep(b, before[l][q].view[j].ptr)])
      requires levels[l + 1..] == before[l + 1..]
      requires Sane(pages, levels, root, l + 1, cap)
      ensures Sane(pages, levels, root, l, cap)
    {
      hide Stored, Distinct, Flat;
      var w := before[l][q].view[j := Sep(b, before[l][q].view[j].ptr)];
      FilledRebound(before[l], q, w, l == 0, l == |levels| - 1, cap);
      if l + 1 < |levels| {
        assert levels[l + 1] == levels[l + 1..][0] == before[l + 1];
        assert Linked(before[l], before[l + 1]);
        SepsWithView(before[l], q, w);
      }
      SaneDown(pages, levels, root, l, cap);
    }

    method MergeSelfIntoPrev(path: seq<Step>, ghost qs: seq<nat>, prevId: Ptr, isInRightSkewPath: bool, ghost needUpdate: bool)
      requires PageShort(path, qs, needUpdate) && Siblings(path, qs) && path[|path| - 2].idx > 0
      requires prevId == LevelAt(levels, |path| - 1)[qs[|path| - 1] - 1].id && pages[prevId].count <= MinCount(cap)
      requires isInRightSkewPath == (qs[|path| - 2] == |LevelAt(levels, |path| - 2)| - 1)
      modifies this`pages, this`rootPageId, this`levels
      ensures Repaired(old(levels), |old(levels)| - |path|)
      decreases |path|, 1
    {
      hide Stored, Distinct, ShapeFrom, Inhabited, Filled, Flat, Linked, OnPath, Short, Tidy, MergePending, MergeFits;
      var i := path[|path| - 2].idx;
      var prev := AbsorbedByPrev(path, qs, prevId, needUpdate);
      CommitMerge(path, qs, prevId, path[|path| - 1].page, prev, i - 1, qs[|path| - 1], needUpdate);
      ghost var mid := levels;
      RemoveFromParent(path[..|path| - 2] + [path[|path| - 2].(idx := i)], qs[..|path| - 1], isInRightSkewPath);
      BelowKept(old(levels), mid, levels, |old(levels)| - |path|);
    }

    /** The left neighbour with the page appended. */
    method AbsorbedByPrev(path: seq<Step>, ghost qs: seq<nat>, prevId: Ptr, ghost needUpdate: bool) returns (prev: Page)
      requires PageShort(path, qs, needUpdate) && Siblings(path, qs) && path[|path| - 2].idx > 0
      requires prevId == LevelAt(levels, |path| - 1)[qs[|path| - 1] - 1].id && pages[prevId].count <= MinCount(cap)
      ensures MergeFits(path, qs, prevId, path[|path| - 1].page, prev, path[|path| - 2].idx - 1, qs[|path| - 1])
    {
      hide View, Stored, Distinct, ShapeFrom, Inhabited, Filled, Flat, Linked, OnPath, Short, Tidy;
      ghost var l, q := |levels| - |path|, qs[|path| - 1];
      PageAt(l, q);
      PageAt(l, q - 1);
      ShortCount(levels[l], q - 1, q, l == 0, cap);
      var i := path[|path| - 2].idx;
      prev := MergeIntoPrev(pages[path[|path| - 1].page], pages[prevId]);
      ChildSep(levels[l], levels[l + 1], qs[|path| - 2], i);
      LastOfSum(levels[l][q - 1].view, levels[l][q].view);
      LastBound(prev);
    }

    method MergeNextIntoPage(path: seq<Step>, ghost qs: seq<nat>, nextId: Ptr, recursive: bool, isInRightSkewPath: bool,
                             ghost needUpdate: bool)
      requires PageShort(path, qs, needUpdate) && Siblings(path, qs) && recursive == (|path| < |levels|)
      requires path[|path| - 2].idx < |LevelAt(levels, |path| - 2)[qs[|path| - 2]].view| - 1
      requires nextId == LevelAt(levels, |path| - 1)[qs[|path| - 1] + 1].id && pages[nextId].count <= MinCount(cap)
      requires isInRightSkewPath == (qs[|path| - 2] == |LevelAt(levels, |path| - 2)| - 1)
      modifies this`pages, this`rootPageId, this`levels
      ensures Repaired(old(levels), |old(levels)| - |path|)
      decreases |path|, 1
    {
      hide Stored, Distinct, ShapeFrom, Inhabited, Filled, Flat, Linked, OnPath, Short, Tidy, MergePending, MergeFits;
      var i := path[|path| - 2].idx;
      var page := AbsorbNext(path, qs, nextId, recursive, needUpdate);
      CommitMerge(path, qs, path[|path| - 1].page, nextId, page, i, qs[|path| - 1] + 1, needUpdate);
      ghost var mid := levels;
      RemoveFromParent(path[..|path| - 2] + [path[|path| - 2].(idx := i + 1)], qs[..|path| - 1], isInRightSkewPath);
      BelowKept(old(levels), mid, levels, |old(levels)| - |path|);
    }

    /** The page with its right neighbour appended. */
    method AbsorbNext(path: seq<Step>, ghost qs: seq<nat>, nextId: Ptr, recursive: bool, ghost needUpdate: bool) returns (page: Page)
      requires PageShort(path, qs, needUpdate) && Siblings(path, qs) && recursive == (|path| < |levels|)
      requires path[|path| - 2].idx < |LevelAt(levels, |path| - 2)[qs[|path| - 2]].view| - 1
      requires nextId == LevelAt(levels, |path| - 1)[qs[|path| - 1] + 1].id && pages[nextId].count <= MinCount(cap)
      ensures MergeFits(path, qs, path[|path| - 1].page, nextId, page, path[|path| - 2].idx, qs[|path| - 1] + 1)
    {
      hide View, Stored, Distinct, ShapeFrom, Inhabited, Filled, Flat, Linked, OnPath, Short, Tidy;
      ghost var l, q := |levels| - |path|, qs[|path| - 1];
      PageAt(l, q);
      PageAt(l, q + 1);
      ShortCount(levels[l], q + 1, q, l == 0, cap);
      var pageId, i := path[|path| - 1].page, path[|path| - 2].idx;
      var skew := recursive && i + 1 == pages[path[|path| - 2].page].count;
      page := MergeNextIntoSelf(pages[pageId], pages[nextId], recursive, skew);
      ChildSep(levels[l], levels[l + 1], qs[|path| - 2], i + 1);
      LastOfSum(levels[l][q].view, levels[l][q + 1].view);
      if !skew {
        LastBound(page);
      }
    }

    /** Node `p` below the parent may go into node `p - 1`, as the page `keep`. */
    ghost predicate MergeFits(path: seq<Step>, qs: seq<nat>, keepId: Ptr, goneId: Ptr, keep: Page, j: nat, p: nat)
      reads this
    {
      && Siblings(path, qs)
      && var l, q, r := |levels| - |path|, qs[|path| - 1], qs[|path| - 2];
      && 0 < p < |levels[l]| && (p == q || p == q + 1)
      && var v := levels[l + 1][r].view;
      && (if p == q then j + 1 else j) == path[|path| - 2].idx
      && j < |v| - 1 && p - 1 == Off(levels[l + 1], r) + j
      && keepId == levels[l][p - 1].id && goneId == levels[l][p].id
      && PageIs(keep, MergeNodes(levels[l], p), p - 1, l == 0, false, cap)
      && 0 < keep.count && MinCount(cap) <= keep.count == Count(levels[l], p - 1, l == 0) + Count(levels[l], p, l == 0)
      && (r < |levels[l + 1]| - 1 || j + 1 < |v| - 1 ==> v[j + 1].bound == Fin(LastKey(keep)))
    }

    method CommitMerge(path: seq<Step>, ghost qs: seq<nat>, keepId: Ptr, goneId: Ptr, keep: Page, j: nat, ghost p: nat,
                       ghost needUpdate: bool)
      requires PageShort(path, qs, needUpdate) && MergeFits(path, qs, keepId, goneId, keep, j, p)
      modifies this`pages, this`levels
      ensures 2 <= |path| && PointerStale(path[..|path| - 2] + [path[|path| - 2].(idx := j + 1)], qs[..|path| - 1])
      ensures MergeDone(old(levels), |old(levels)| - |path|, qs[|path| - 2])
    {
      hide Stored, Distinct, ShapeFrom, Inhabited, Filled, Flat, Linked, OnPath, Short, Tidy;
      hide MergePending, InLevels, View, Sane, MergeNodes, Count;
      ghost var l, r := |levels| - |path|, qs[|path| - 2];
      var parentId := path[|path| - 2].page;
      MergeStep(pages, levels, rootPageId, cap, l, p, qs[|path| - 1], keep, r, path[|path| - 2].idx, j);
      ghost var v := levels[l + 1][r].view;
      ghost var w := v[j := Sep(Fin(LastKey(keep)), v[j].ptr)];
      pages := pages[keepId := keep];
      pages := pages[parentId := SetKey(pages[parentId], j, LastKey(keep))];
      levels := levels[l := MergeNodes(levels[l], p)][l + 1 := WithView(levels[l + 1], r, w)];
      OnPathParent(old(levels), levels, path, qs, w, j + 1);
      DeletePage(goneId, l + 2);
      if j == path[|path| - 2].idx {
        TidyIsSane(pages, levels, rootPageId, l + 1, r, j, cap);
        SaneIsTidy(pages, levels, rootPageId, l + 1, r, j + 1, cap);
      }
    }

    /** Level `l` keeps its entries; the level above keeps its pages. */
    ghost predicate MergeDone(before: seq<Level>, l: int, r: nat)
      reads this
    {
      && 0 <= l && l + 1 < |before| == |levels|
      && levels[..l] == before[..l] && Flat(levels[l]) == Flat(before[l])
      && |levels[l + 1]| == |before[l + 1]|
    }

    static lemma {:induction false} ShortCount(lv: Level, p: nat, q: nat, leaf: bool, cap: nat)
      requires Short(lv, q, leaf, cap) && p < |lv|
      ensures MinCount(cap) - (if p == q then 1 else 0) <= Count(lv, p, leaf) <= cap
    {
      assert lv[p] == lv[p];
    }

    static lemma {:induction false} BelowKept(before: seq<Level>, mid: seq<Level>, after: seq<Level>, l: nat)
      requires l < |before| == |mid| && mid[..l] == before[..l] && l < |after| && after[..l + 1] == mid[..l + 1]
      ensures after[..l] == before[..l] && after[l] == mid[l]
    {
      assert after[..l + 1][l] == mid[..l + 1][l];
      assert after[..l] == after[..l + 1][..l] == mid[..l + 1][..l];
    }

    /** The pointer followed in the page at the end of the path is to go: its child went into the left neighbour. */
    ghost predicate PointerStale(path: seq<Step>, qs: seq<nat>)
      reads this
    {
      && 3 <= cap && OnPath(levels, path, qs) && 0 < |path| == |qs| && |path| < |levels|
      && var h, q, i := |levels| - |path|, qs[|path| - 1], path[|path| - 1].idx;
      && q < |levels[h]| && 0 < i < |levels[h][q].view|
      && Sane(pages, levels, rootPageId, h + 1, cap)
      && Tidy(levels, h, q, i, cap)
      && MergePending(levels, h - 1, Off(levels[h], q) + i, cap)
      && (q < |levels[h]| - 1 || i < |levels[h][q].view| - 1 ==> levels[h][q].view[i - 1].bound == levels[h][q].view[i].bound)
    }

    method RemoveFromParent(path: seq<Step>, ghost qs: seq<nat>, isInRightSkewPath: bool)
      requires PointerStale(path, qs)
      requires isInRightSkewPath == (qs[|path| - 1] == |LevelAt(levels, |path| - 1)| - 1)
      modifies this`pages, this`rootPageId, this`levels
      ensures PointerGone(old(levels), |old(levels)| - |path|)
      decreases |path|, 4
    {
      hide Stored, Distinct, ShapeFrom, Inhabited, Filled, Flat, Linked, OnPath, Short, LinkedBut, MergePending;
      ghost var h, q, i := |levels| - |path|, qs[|path| - 1], path[|path| - 1].idx;
      if isInRightSkewPath {
        TidyIsSane(pages, levels, rootPageId, h, q, i, cap);
        RemoveEntryInRightSkewPath(path, qs);
      } else {
        ghost var before := levels;
        RemoveEntryAt(path, qs, true);
        CutRelinks(before, levels, h, q, i, cap);
        SaneDown(pages, levels, rootPageId, h - 1, cap);
      }
    }

    /** Once the stale pointer is cut out, the level agrees with the one below. */
    static lemma {:induction false} CutRelinks(before: seq<Level>, after: seq<Level>, h: nat, q: nat, i: nat, cap: nat)
      requires 0 < h < |before| && q < |before[h]| && 0 < i < |before[h][q].view|
      requires before[h][q].view[i - 1].bound == before[h][q].view[i].bound
      requires MergePending(before, h - 1, Off(before[h], q) + i, cap)
      requires h < |after| && after[..h] == before[..h]
      requires Flat(after[h]) == Flat(WithView(before[h], q, CutAt(before[h][q].view, i)))
      ensures after[h - 1] == before[h - 1]
      ensures Linked(after[h - 1], after[h]) && Filled(after[h - 1], h == 1, false, cap)
    {
      var v := before[h][q].view;
      assert CutAt(v, i) == MergeAt(v, i);
      FlatMergeAt(before[h], q, i);
      assert after[..h][h - 1] == before[..h][h - 1];
    }

    /** Level `h - 1` is whole, and it and the levels below stayed. */
    ghost predicate PointerGone(before: seq<Level>, h: int)
      reads this
    {
      && 0 < h < |before| && h <= |levels|
      && Sane(pages, levels, rootPageId, h - 1, cap)
      && levels[..h] == before[..h]
    }

    // ---------------------------------------------------------------- the public operations

    ghost predicate Valid()
      reads this
    {
      && 2 <= cap && siz == |Entries()|
      && (levels == [] <==> siz == 0) && (siz == 0 ==> rootPageId == 0)
      && (siz != 0 ==> Sane(pages, levels, rootPageId, 0, cap))
      && Sorted(Entries()) && AllFin(Entries())
    }

    /** All entries in key order: the leaf level, flattened. */
    ghost function Entries(): seq<Sep>
      reads this
    {
      if levels == [] then [] else Flat(levels[0])
    }

    /** The map the tree stands for. */
    ghost function Contents(): map<Key, Ptr>
      requires Sorted(Entries())
      reads this
    {
      ToMap(Entries())
    }

    constructor (cap: nat)
      requires 2 <= cap
      ensures Valid() && this.cap == cap && Contents() == map[]
    {
      this.cap := cap;
      pages := map[];
      rootPageId := 0;
      siz := 0;
      levels := [];
    }

    /** The position a search ends at: `isEnd` when every key is below the one searched. */
    ghost predicate Found(key: Key, path: seq<Step>, isEnd: bool, qs: seq<nat>)
      reads this
    {
      if levels == [] then path == [] && isEnd
      else
        && 0 < |path| == |qs| == |levels| && OnPath(levels, path, qs)
        && var q, i := qs[|path| - 1], path[|path| - 1].idx;
        && q < |levels[0]| && i <= |levels[0][q].view|
        && IsLowerBound(Entries(), key, Off(levels[0], q) + i)
        && (isEnd <==> i == |levels[0][q].view|)
        && (q < |levels[0]| - 1 ==> !isEnd)
    }

    method FindPosition(key: Key) returns (path: seq<Step>, isEnd: bool, ghost qs: seq<nat>)
      requires Valid()
      ensures Found(key, path, isEnd, qs)
    {
      hide Stored, Distinct, ShapeFrom, Flat, OnPath, IsLowerBound, Sorted, AllFin;
      if rootPageId == 0 {
        RootIsPage();
        return [], true, [];
      }
      path, qs := SearchRoot(key);
      while !pages[path[|path| - 1].page].leaf
        invariant OnPath(levels, path, qs) && 0 < |path| == |qs| <= |levels|
        invariant path[|path| - 1].page in pages
        invariant OnTrack(key, path, qs)
        invariant pages[path[|path| - 1].page].leaf == (|path| == |levels|)
        decreases |levels| - |path|
      {
        path, qs := SearchDown(key, path, qs);
      }
      PathAt(levels, path, qs, |path| - 1);
      PageAt(0, qs[|path| - 1]);
      isEnd := path[|path| - 1].idx == pages[path[|path| - 1].page].count;
    }

    /** The search starts in the root. */
    method SearchRoot(key: Key) returns (path: seq<Step>, ghost qs: seq<nat>)
      requires Valid() && rootPageId != 0
      ensures OnTrack(key, path, qs) && OnPath(levels, path, qs) && |path| == 1
      ensures path[0].page in pages && pages[path[0].page].leaf == (1 == |levels|)
    {
      hide Stored, Distinct, Flat, OnPath, IsLowerBound, Sorted, AllFin;
      RootIsPage();
      PageAt(|levels| - 1, 0);
      TopSorted(levels[|levels| - 1]);
      var nxt := SearchPage(pages[rootPageId], key, |levels| - 1, 0);
      path, qs := [Step(rootPageId, nxt)], [0];
      TopOnPath(nxt);
    }

    /** The loop body of the search: the page behind the followed pointer. */
    method SearchDown(key: Key, path: seq<Step>, ghost qs: seq<nat>) returns (path': seq<Step>, ghost qs': seq<nat>)
      requires Valid() && OnTrack(key, path, qs) && |path| < |levels| && OnPath(levels, path, qs)
      requires path[|path| - 1].page in pages
      ensures OnTrack(key, path', qs') && OnPath(levels, path', qs') && |path'| == |path| + 1
      ensures path'[|path|].page in pages && pages[path'[|path|].page].leaf == (|path'| == |levels|)
    {
      hide Stored, Distinct, ShapeFrom, Flat, OnPath, IsLowerBound, Sorted;
      ghost var h, q := |levels| - |path|, qs[|path| - 1];
      ChildOnTrack(key, path, qs);
      PageAt(h, q);
      var current, internalId := pages[path[|path| - 1].page], path[|path| - 1].idx;
      var nextPageId;
      if internalId < cap {
        nextPageId := current.data[internalId].ptr;
      } else {
        nextPageId := current.next;
      }
      ghost var c := Off(levels[h], q) + internalId;
      PageAt(h - 1, c);
      var nxt := SearchPage(pages[nextPageId], key, h - 1, c);
      PathDown(levels, path, qs, cap, key, nextPageId, nxt);
      path', qs' := path + [Step(nextPageId, nxt)], qs + [c];
    }

    lemma {:induction false} RootIsPage()
      requires Valid()
      ensures rootPageId == 0 <==> levels == []
    {
      if levels != [] {
        PageAt(|levels| - 1, 0);
      }
    }

    lemma {:induction false} TopSorted(top: Level)
      requires Valid() && levels != [] && top == levels[|levels| - 1]
      ensures |top| == 1 && Flat(top) == top[0].view && Sorted(Flat(top)) && Off(top, 0) == 0
    {
      hide Stored, Distinct;
      AllSorted(levels, cap, |levels| - 1);
      assert top == [top[0]];
      FlatOne(top[0]);
      OffZero(top);
    }

    lemma {:induction false} TopOnPath(nxt: nat)
      requires Valid() && levels != []
      ensures OnPath(levels, [Step(rootPageId, nxt)], [0])
    {
    }

    /** The lower bound in a stored page. */
    method SearchPage(page: Page, key: Key, ghost l: nat, ghost q: nat) returns (i: nat)
      requires Valid() && l < |levels| && q < |levels[l]| && page.count <= |page.data|
      requires View(page, l != 0 && q == |levels[l]| - 1) == levels[l][q].view
      ensures i <= page.count && IsLowerBound(levels[l][q].view, key, i)
    {
      hide Stored, Distinct;
      AllSorted(levels, cap, l);
      ViewSorted(levels[l], q);
      hide Flat;
      ghost var skew := l != 0 && q == |levels[l]| - 1;
      assert forall a, b :: 0 <= a < b < page.count ==> Less(View(page, skew)[a].bound, View(page, skew)[b].bound);
      i := LowerBound(page, key);
      PageLowerBound(page, skew, key, i);
    }

    /** So far, the search stands at the lower bound of its level. */
    ghost predicate OnTrack(key: Key, path: seq<Step>, qs: seq<nat>)
      reads this
    {
      && 0 < |path| == |qs| <= |levels|
      && var l, q, i := |levels| - |path|, qs[|path| - 1], path[|path| - 1].idx;
      && q < |levels[l]| && i <= Count(levels[l], q, l == 0)
      && IsLowerBound(Flat(levels[l]), key, Off(levels[l], q) + i)
      && (q < |levels[l]| - 1 ==> i < |levels[l][q].view|)
    }

    /** The followed pointer leads to a page of the level below. */
    ghost predicate HasChild(path: seq<Step>, qs: seq<nat>)
      reads this
    {
      && 0 < |path| == |qs| && |path| < |levels|
      && var h, q, i := |levels| - |path|, qs[|path| - 1], path[|path| - 1].idx;
      && q < |levels[h]| && i < |levels[h][q].view|
      && Off(levels[h], q) + i < |levels[h - 1]|
      && levels[h][q].view[i].ptr == levels[h - 1][Off(levels[h], q) + i].id
      && path[|path| - 1].page == levels[h][q].id
    }

    lemma {:induction false} ChildOnTrack(key: Key, path: seq<Step>, qs: seq<nat>)
      requires Valid() && OnTrack(key, path, qs) && |path| < |levels| && OnPath(levels, path, qs)
      ensures HasChild(path, qs)
    {
      hide ShapeFrom, IsLowerBound, Sorted, AllFin, Flat, OnPath, Stored, Distinct;
      var h, q, i := |levels| - |path|, qs[|path| - 1], path[|path| - 1].idx;
      LinkAt(pages, levels, rootPageId, 0, h - 1, cap);
      PathAt(levels, path, qs, |path| - 1);
      ChildSep(levels[h - 1], levels[h], q, i);
    }

    /** The iterator stands before entry `g`. */
    ghost predicate At(it: Iter, g: nat)
      reads this
    {
      if it.isEnd then g == |Entries()|
      else levels != [] && exists q: nat {:trigger levels[0][q]} :: (
             q < |levels[0]| && levels[0][q].id == it.page
             && it.offset < |levels[0][q].view| && g == Off(levels[0], q) + it.offset)
    }

    /** `lower_bound`: the first entry whose key is not below `key`. */
    method FirstNotBelow(key: Key) returns (it: Iter, ghost g: nat)
      requires Valid()
      ensures At(it, g) && IsLowerBound(Entries(), key, g)
      ensures g <= |Entries()| && (it.isEnd <==> g == |Entries()|)
    {
      hide Stored, Distinct, ShapeFrom, OnPath, Flat, IsLowerBound;
      var path, isEnd, qs := FindPosition(key);
      if isEnd {
        it, g := Iter(0, 0, true), |Entries()|;
        EndOfEntries(key, path, qs);
      } else {
        ghost var q := qs[|path| - 1];
        it := Iter(path[|path| - 1].page, path[|path| - 1].idx, false);
        g := Off(levels[0], q) + it.offset;
        PathAt(levels, path, qs, |path| - 1);
        FlatAt(levels[0], q, it.offset);
      }
    }

    lemma {:induction false} EndOfEntries(key: Key, path: seq<Step>, qs: seq<nat>)
      requires Valid() && Found(key, path, true, qs)
      ensures IsLowerBound(Entries(), key, |Entries()|)
    {
      hide Stored, Distinct, ShapeFrom, OnPath, Flat;
      if levels == [] {
      } else {
        var q := qs[|path| - 1];
        OffNext(levels[0], q);
        OffEnd(levels[0]);
      }
    }

    method KeyAt(it: Iter, ghost g: nat) returns (key: Key)
      requires Valid() && At(it, g) && !it.isEnd
      ensures g < |Entries()| && Entries()[g].bound == Fin(key)
    {
      hide ShapeFrom, Flat, Distinct;
      ghost var q :| 0 <= q < |levels[0]| && levels[0][q].id == it.page
        && it.offset < |levels[0][q].view| && g == Off(levels[0], q) + it.offset;
      PageAt(0, q);
      FlatAt(levels[0], q, it.offset);
      key := pages[it.page].data[it.offset].key;
    }

    method ValueAt(it: Iter, ghost g: nat) returns (value: Ptr)
      requires Valid() && At(it, g) && !it.isEnd
      ensures g < |Entries()| && Entries()[g].ptr == value
    {
      hide ShapeFrom, Flat, Distinct;
      ghost var q :| 0 <= q < |levels[0]| && levels[0][q].id == it.page
        && it.offset < |levels[0][q].view| && g == Off(levels[0], q) + it.offset;
      PageAt(0, q);
      FlatAt(levels[0], q, it.offset);
      value := pages[it.page].data[it.offset].ptr;
    }

    /** `++it`: the next entry, in this leaf or, over the chain, in the next. */
    method Next(it: Iter, ghost g: nat) returns (next: Iter)
      requires Valid() && At(it, g)
      ensures it.isEnd ==> next == it
      ensures !it.isEnd ==> g < |Entries()| && At(next, g + 1) && (next.isEnd <==> g + 1 == |Entries()|)
    {
      hide ShapeFrom, Flat, Distinct;
      if it.isEnd {
        return it;
      }
      ghost var q :| 0 <= q < |levels[0]| && levels[0][q].id == it.page
        && it.offset < |levels[0][q].view| && g == Off(levels[0], q) + it.offset;
      PageAt(0, q);
      NextPlace(q, it.offset);
      next := it.(offset := it.offset + 1);
      if next.offset == pages[it.page].count {
        var nextPageId := pages[it.page].next;
        if nextPageId == 0 {
          next := Iter(0, 0, true);
        } else {
          next := Iter(nextPageId, 0, false);
        }
      }
    }

    /** The entry after a leaf's entry: in the leaf, at the front of the next one, or nowhere. */
    lemma {:induction false} NextPlace(q: nat, i: nat)
      requires Valid() && levels != [] && q < |levels[0]| && i < |levels[0][q].view|
      ensures Off(levels[0], q) + i < |Entries()|
      ensures i + 1 < |levels[0][q].view| ==>
        Off(levels[0], q) + i + 1 < |Entries()| && At(Iter(levels[0][q].id, i + 1, false), Off(levels[0], q) + i + 1)
      ensures i + 1 == |levels[0][q].view| && q + 1 == |levels[0]| ==> Off(levels[0], q) + i + 1 == |Entries()|
      ensures i + 1 == |levels[0][q].view| && q + 1 < |levels[0]| ==>
        && levels[0][q + 1].id != 0
        && Off(levels[0], q) + i + 1 < |Entries()| && At(Iter(levels[0][q + 1].id, 0, false), Off(levels[0], q) + i + 1)
    {
      hide ShapeFrom, Flat, Distinct, Stored;
      FlatAt(levels[0], q, i);
      OffNext(levels[0], q);
      OffEnd(levels[0]);
      if i + 1 < |levels[0][q].view| {
        FlatAt(levels[0], q, i + 1);
      } else if q + 1 < |levels[0]| {
        PageAt(0, q + 1);
        LeavesInhabited();
        FlatAt(levels[0], q + 1, 0);
      }
    }

    lemma {:induction false} LeavesInhabited()
      requires Valid() && levels != []
      ensures Inhabited(levels[0])
    {
      LinkAt(pages, levels, rootPageId, 0, 0, cap);
    }

    /** `lower_bound` followed by `++` to the end: every entry not below `key`, once, in ascending order. */
    method ScanFrom(key: Key) returns (found: seq<(Key, Ptr)>)
      requires Valid()
      ensures forall j :: 0 <= j < |found| ==> key <= found[j].0 && found[j].0 in Contents() && Contents()[found[j].0] == found[j].1
      ensures forall i, j :: 0 <= i < j < |found| ==> found[i].0 < found[j].0
      ensures forall k :: k in Contents() && key <= k ==> (k, Contents()[k]) in found
    {
      hide Stored, Distinct, ShapeFrom, Flat, Sorted, AllFin, ToMap, IsLowerBound, Sane, At;
      ghost var s := Entries();
      var it, g := FirstNotBelow(key);
      ghost var start := g;
      found := [];
      while !it.isEnd
        invariant At(it, g) && (it.isEnd <==> g == |s|) && IsLowerBound(s, key, start)
        invariant start <= g <= |s| && |found| == g - start && s == Entries()
        invariant forall j :: 0 <= j < |found| ==> s[start + j] == Sep(Fin(found[j].0), found[j].1)
        decreases |s| - g
      {
        var k := KeyAt(it, g);
        var v := ValueAt(it, g);
        it := Next(it, g);
        found := found + [(k, v)];
        g := g + 1;
      }
      ScannedAll(s, key, start, found);
    }

    static lemma {:induction false} ScannedAll(s: seq<Sep>, key: Key, start: nat, found: seq<(Key, Ptr)>)
      requires Sorted(s) && AllFin(s) && IsLowerBound(s, key, start) && |found| == |s| - start
      requires forall j :: 0 <= j < |found| ==> s[start + j] == Sep(Fin(found[j].0), found[j].1)
      ensures forall j :: 0 <= j < |found| ==> key <= found[j].0 && found[j].0 in ToMap(s) && ToMap(s)[found[j].0] == found[j].1
      ensures forall i, j :: 0 <= i < j < |found| ==> found[i].0 < found[j].0
      ensures forall k :: k in ToMap(s) && key <= k ==> (k, ToMap(s)[k]) in found
    {
      forall j | 0 <= j < |found|
        ensures key <= found[j].0 && found[j].0 in ToMap(s) && ToMap(s)[found[j].0] == found[j].1
      {
        assert s[start + j] == Sep(Fin(found[j].0), found[j].1);
      }
      forall i, j | 0 <= i < j < |found|
        ensures found[i].0 < found[j].0
      {
        assert Less(s[start + i].bound, s[start + j].bound);
      }
      forall k | k in ToMap(s) && key <= k
        ensures (k, ToMap(s)[k]) in found
      {
        var j :| 0 <= j < |s| && s[j].bound == Fin(k);
        assert start <= j;
        assert s[start + (j - start)] == s[j];
        assert found[j - start] == (k, s[j].ptr);
      }
    }

    method Get(key: Key) returns (value: Ptr)
      requires Valid()
      ensures value == if key in Contents() then Contents()[key] else INVALID_VALUE_INDEX
    {
      hide Stored, Distinct, ShapeFrom, Flat;
      var it, g := FirstNotBelow(key);
      ToMapAt(Entries(), key, g);
      if it.isEnd {
        return INVALID_VALUE_INDEX;
      }
      var k := KeyAt(it, g);
      if key < k {
        return INVALID_VALUE_INDEX;
      }
      value := ValueAt(it, g);
    }

    /** Insert or overwrite; says whether the key is new. */
    method Put(key: Key, value: Ptr) returns (isNew: bool)
      requires Valid()
      modifies this
      ensures Valid() && Contents() == old(Contents())[key := value]
      ensures isNew <==> key !in old(Contents())
      ensures siz == |Contents()| && siz == old(siz) + if isNew then 1 else 0
    {
      hide Stored, Distinct, ShapeFrom, Flat, OnPath, Sorted, ToMap, IsLowerBound;
      var path, isEnd, qs := FindPosition(key);
      ghost var s, g := Entries(), PositionOf(path, qs);
      PositionFound(key, path, isEnd, qs);
      ToMapAt(s, key, g);
      if !isEnd && !(key < pages[path[|path| - 1].page].data[path[|path| - 1].idx].key) {
        Overwrite(key, path, qs, value);
        SetSorted(s, g, value);
        isNew := false;
      } else {
        if siz == 0 {
          InsertFirst(key, value);
          assert InsertAt(s, g, key, value) == [Sep(Fin(key), value)];
        } else {
          InsertReady(key, path, isEnd, qs, value);
          InsertEntryAt(path, qs, key, value, false);
          FlatInsertAt(old(levels)[0], qs[|path| - 1], path[|path| - 1].idx, key, value);
        }
        InsertSorted(s, key, value, g);
        siz := siz + 1;
        isNew := true;
      }
      ToMapSize(s);
      ToMapSize(Entries());
    }

    ghost function PositionOf(path: seq<Step>, qs: seq<nat>): nat
      reads this
    {
      if levels == [] || |path| != |qs| || path == [] || qs[|path| - 1] >= |levels[0]| then 0
      else Off(levels[0], qs[|path| - 1]) + path[|path| - 1].idx
    }

    /** What the test at the found position decides. */
    lemma {:induction false} PositionFound(key: Key, path: seq<Step>, isEnd: bool, qs: seq<nat>)
      requires Valid() && Found(key, path, isEnd, qs)
      ensures IsLowerBound(Entries(), key, PositionOf(path, qs))
      ensures isEnd <==> PositionOf(path, qs) == |Entries()|
      ensures !isEnd ==>
        && levels != [] && 0 < |path| == |qs| && path[|path| - 1].page in pages
        && qs[|path| - 1] < |levels[0]| && levels[0][qs[|path| - 1]].id == path[|path| - 1].page
        && path[|path| - 1].idx < |levels[0][qs[|path| - 1]].view|
        && path[|path| - 1].idx < pages[path[|path| - 1].page].count <= |pages[path[|path| - 1].page].data|
        && PositionOf(path, qs) < |Entries()|
        && Entries()[PositionOf(path, qs)] ==
             Lift(pages[path[|path| - 1].page].data[path[|path| - 1].idx])
      ensures !isEnd && !(key < pages[path[|path| - 1].page].data[path[|path| - 1].idx].key) ==>
        Entries()[PositionOf(path, qs)].bound == Fin(key)
      ensures isEnd || key < pages[path[|path| - 1].page].data[path[|path| - 1].idx].key ==>
        key !in Contents()
    {
      hide Stored, Distinct, ShapeFrom, Flat, OnPath;
      ToMapAt(Entries(), key, PositionOf(path, qs));
      if levels != [] {
        var q, i := qs[|path| - 1], path[|path| - 1].idx;
        PathAt(levels, path, qs, |path| - 1);
        PageAt(0, q);
        if isEnd {
          OffNext(levels[0], q);
          OffEnd(levels[0]);
        } else {
          FlatAt(levels[0], q, i);
        }
      }
    }

    method Overwrite(key: Key, path: seq<Step>, ghost qs: seq<nat>, value: Ptr)
      requires Valid() && Found(key, path, false, qs)
      modifies this`pages, this`levels
      ensures levels != [] && Sane(pages, levels, rootPageId, 0, cap)
      ensures old(PositionOf(path, qs)) < |old(Entries())|
      ensures Entries() == old(Entries())[old(PositionOf(path, qs)) := old(Entries())[old(PositionOf(path, qs))].(ptr := value)]
    {
      hide Stored, Distinct, ShapeFrom, Flat, OnPath;
      ghost var q := qs[|path| - 1];
      var pageId, i := path[|path| - 1].page, path[|path| - 1].idx;
      PathAt(levels, path, qs, |path| - 1);
      PageAt(0, q);
      var page := SetPtr(pages[pageId], i, value);
      ghost var v := levels[0][q].view;
      OverwriteStep(pages, levels, rootPageId, cap, q, i, value, page);
      pages := pages[pageId := page];
      levels := levels[0 := WithView(levels[0], q, v[i := v[i].(ptr := value)])];
    }

    static lemma {:induction false} OverwriteStep(pages: Store, levels: seq<Level>, root: Ptr, cap: nat, q: nat, i: nat,
                                                  value: Ptr, pg: Page)
      requires Sane(pages, levels, root, 0, cap) && 0 < |levels| && q < |levels[0]| && levels[0][q].id in pages
      requires i < pages[levels[0][q].id].count <= |pages[levels[0][q].id].data| && i < |levels[0][q].view|
      requires pg == SetPtr(pages[levels[0][q].id], i, value)
      ensures
        var v := levels[0][q].view;
        var levels' := levels[0 := WithView(levels[0], q, v[i := v[i].(ptr := value)])];
        && Sane(pages[levels[0][q].id := pg], levels', root, 0, cap)
        && Off(levels[0], q) + i < |Flat(levels[0])| && Flat(levels[0])[Off(levels[0], q) + i] == v[i]
        && Flat(levels'[0]) == Flat(levels[0])[Off(levels[0], q) + i := v[i].(ptr := value)]
    {
      hide Distinct, Flat;
      var v := levels[0][q].view;
      var w := v[i := v[i].(ptr := value)];
      NodeAt(pages, levels, root, 0, cap, 0, q);
      assert View(pg, false) == w;
      StoredWithView(pages, levels, cap, 0, q, pg, w);
      LinkAt(pages, levels, root, 0, 0, cap);
      FlatAt(levels[0], q, i);
      FlatSetSep(levels[0], q, i, v[i].(ptr := value));
      SepsWithView(levels[0], q, w);
      FillAt(levels[0], q, true, |levels| == 1, cap);
      SaneAbove(pages, levels, root, 0, 1, cap);
      ShapeWithView(levels, cap, 0, q, w);
    }

    /** The first entry makes the root, a leaf. */
    method InsertFirst(key: Key, value: Ptr)
      requires Valid() && siz == 0
      modifies this`pages, this`rootPageId, this`levels
      ensures levels != [] && Sane(pages, levels, rootPageId, 0, cap)
      ensures Entries() == [Sep(Fin(key), value)]
    {
      rootPageId := NewPage();
      var page := pages[rootPageId].(leaf := true, root := true, count := 1, next := 0);
      page := page.(data := page.data[0 := Entry(key, value)]);
      pages := pages[rootPageId := page];
      ghost var root := Node(rootPageId, View(page, false));
      levels := [[root]];
      FlatOne(root);
    }

    /** The found leaf awaits the entry: no separator changes. */
    lemma {:induction false} InsertReady(key: Key, path: seq<Step>, isEnd: bool, qs: seq<nat>, value: Ptr)
      requires Valid() && siz != 0 && Found(key, path, isEnd, qs)
      ensures Sane(pages, levels, rootPageId, 1, cap)
      ensures Awaits(levels, 0, qs[|path| - 1], InsertAt(levels[0][qs[|path| - 1]].view, path[|path| - 1].idx, key, value), cap)
    {
      hide Stored, Distinct, ShapeFrom, Flat, OnPath;
      var q, i := qs[|path| - 1], path[|path| - 1].idx;
      LinkAt(pages, levels, rootPageId, 0, 0, cap);
      SaneAbove(pages, levels, rootPageId, 0, 1, cap);
      SepsWithView(levels[0], q, InsertAt(levels[0][q].view, i, key, value));
    }

    /** The counter is the number of keys. */
    method Size() returns (size: nat)
      requires Valid()
      ensures size == |Contents()|
    {
      hide Stored, Distinct, ShapeFrom, Flat, Sorted, ToMap;
      ToMapSize(Entries());
      size := siz;
    }

    /** Remove a key; says whether it was there, and what it mapped to. */
    method Remove(key: Key) returns (removed: bool, value: Ptr)
      requires Valid() && 3 <= cap
      modifies this
      ensures Valid() && Contents() == old(Contents()) - {key}
      ensures removed <==> key in old(Contents())
      ensures removed ==> value == old(Contents())[key]
      ensures siz == |Contents()| && siz == old(siz) - if removed then 1 else 0
    {
      hide Stored, Distinct, ShapeFrom, Flat, OnPath, Sorted, ToMap, IsLowerBound;
      value := 0;
      var path, isEnd, qs := FindPosition(key);
      ghost var s, g := Entries(), PositionOf(path, qs);
      PositionFound(key, path, isEnd, qs);
      ToMapAt(s, key, g);
      ToMapSize(s);
      if isEnd || key < pages[path[|path| - 1].page].data[path[|path| - 1].idx].key {
        removed := false;
        return;
      }
      value := pages[path[|path| - 1].page].data[path[|path| - 1].idx].ptr;
      removed := true;
      if siz == 1 {
        // the last entry: the root goes
        if * {
          pages := pages - {rootPageId};
        }
        rootPageId := 0;
        levels := [];
      } else {
        RemoveReady(key, path, qs);
        RemoveEntryAt(path, qs, false);
        FlatCutAt(old(levels)[0], qs[|path| - 1], path[|path| - 1].idx);
      }
      CutSorted(s, g);
      siz := siz - 1;
      ToMapSize(CutAt(s, g));
    }

    lemma {:induction false} RemoveReady(key: Key, path: seq<Step>, qs: seq<nat>)
      requires Valid() && 2 <= siz && 3 <= cap && Found(key, path, false, qs)
      ensures RemovalReady(path, qs)
    {
      hide Stored, Distinct, ShapeFrom, OnPath;
      var q, i := qs[|path| - 1], path[|path| - 1].idx;
      assert |levels| == 1 ==> |Flat(levels[0])| == |levels[0][q].view| by {
        if |levels| == 1 {
          PathAt(levels, path, qs, 0);
          FlatOne(levels[0][0]);
          assert levels[0] == [levels[0][0]];
        }
      }
      hide Flat;
      SaneIsTidy(pages, levels, rootPageId, 0, q, i, cap);
      SaneAbove(pages, levels, rootPageId, 0, 1, cap);
      FillAt(levels[0], q, true, |levels| == 1, cap);
    }
  }
}
