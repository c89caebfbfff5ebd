/**
 The 4096-byte page of the B+ tree indexer, as a record.

 `data` is the whole `p_data` array, stale entries included; only the first
 `count` entries carry keys. An internal page on the rightmost path ("right
 skew") has one more pointer than keys. That past-the-end pointer lives in
 `data[count].ptr`, or in `next` (`p_n`) when the array is full.

 The methods below are the straight-line edits of one or two pages that
 `bpt.hpp` performs through its page guards. Each is specified by what it does
 to the logical view of the pages.
 */
module BPlusTreePage {
  type Key = int
  type Ptr = nat

  datatype Entry = Entry(key: Key, ptr: Ptr)

  datatype Page = Page(next: Ptr, leaf: bool, root: bool, count: nat, data: seq<Entry>)

  /** A separator: the greatest key below a pointer, or no bound at all. */
  datatype Bound = Fin(k: Key) | Inf

  datatype Sep = Sep(bound: Bound, ptr: Ptr)

  /** kMinNumberOfKeysForLeaf for a page of `cap` entries. */
  function MinCount(cap: nat): nat {
    (cap + 1) / 2
  }

  predicate Sound(p: Page, cap: nat) {
    |p.data| == cap && p.count <= cap
  }

  function Lift(e: Entry): Sep {
    Sep(Fin(e.key), e.ptr)
  }

  function Lifts(s: seq<Entry>): (r: seq<Sep>)
    ensures |r| == |s|
    ensures forall i :: 0 <= i < |s| ==> r[i] == Lift(s[i])
  {
    seq(|s|, i requires 0 <= i < |s| => Lift(s[i]))
  }

  /** The past-the-end pointer of a right-skew page. */
  function Extra(p: Page): Ptr
    requires p.count <= |p.data|
  {
    if p.count < |p.data| then p.data[p.count].ptr else p.next
  }

  /** What a page says: its entries, and the unbounded pointer when it is right-skew. */
  function View(p: Page, skew: bool): (v: seq<Sep>)
    requires p.count <= |p.data|
    ensures |v| == p.count + (if skew then 1 else 0)
    ensures forall i :: 0 <= i < p.count ==> v[i] == Lift(p.data[i])
    ensures skew ==> v[p.count] == Sep(Inf, Extra(p))
  {
    Lifts(p.data[..p.count]) + if skew then [Sep(Inf, Extra(p))] else []
  }

  function LastKey(p: Page): Key
    requires 0 < p.count <= |p.data|
  {
    p.data[p.count - 1].key
  }

  /** memmove of `n` entries from `from[s..]` to `to[d..]`; the two may be one array. */
  method MemMove(to: seq<Entry>, d: nat, from: seq<Entry>, s: nat, n: nat) returns (r: seq<Entry>)
    requires d + n <= |to| && s + n <= |from|
    ensures |r| == |to|
    ensures forall i {:trigger r[i]} :: 0 <= i < |to| ==> r[i] == if d <= i < d + n then from[i - d + s] else to[i]
  {
    r := to[..d] + from[s..s + n] + to[d + n..];
  }

  function SetKey(p: Page, i: nat, k: Key): Page
    requires i < |p.data|
  {
    p.(data := p.data[i := p.data[i].(key := k)])
  }

  function SetPtr(p: Page, i: nat, ptr: Ptr): Page
    requires i < |p.data|
  {
    p.(data := p.data[i := p.data[i].(ptr := ptr)])
  }

  ghost predicate SameFlags(p: Page, q: Page) {
    |p.data| == |q.data| && p.leaf == q.leaf && p.root == q.root
  }

  /** `std::lower_bound` over the keys of a page: the first index whose key is not below `key`. */
  method LowerBound(p: Page, key: Key) returns (i: nat)
    requires p.count <= |p.data|
    requires forall a, b :: 0 <= a < b < p.count ==> p.data[a].key < p.data[b].key
    ensures i <= p.count
    ensures forall a :: 0 <= a < i ==> p.data[a].key < key
    ensures forall a :: i <= a < p.count ==> key <= p.data[a].key
  {
    i := 0;
    var n := p.count;
    while 0 < n
      invariant i + n <= p.count
      invariant forall a :: 0 <= a < i ==> p.data[a].key < key
      invariant forall a :: i + n <= a < p.count ==> key <= p.data[a].key
      decreases n
    {
      var half := n / 2;
      if p.data[i + half].key < key {
        i := i + half + 1;
        n := n - half - 1;
      } else {
        n := half;
      }
    }
  }

  /** A page with room takes an entry at index `i`. */
  method InsertWithRoom(p: Page, i: nat, e: Entry) returns (q: Page)
    requires i <= p.count < |p.data|
    ensures SameFlags(p, q) && q.next == p.next && q.count == p.count + 1
    ensures View(q, false) == View(p, false)[..i] + [Lift(e)] + View(p, false)[i..]
  {
    var data := MemMove(p.data, i + 1, p.data, i, p.count - i);
    data := data[i := e];
    q := p.(data := data, count := p.count + 1);
  }

  /** A full page and a fresh one share the entries and the new entry; the fresh page gets the last half. */
  method SplitWithInsert(p: Page, blank: Page, i: nat, e: Entry) returns (q: Page, r: Page)
    requires 2 <= |p.data| == |blank.data| && p.count == |p.data| && i <= p.count
    ensures SameFlags(p, q) && q.next == p.next && q.count == |p.data| + 1 - MinCount(|p.data|)
    ensures SameFlags(blank, r) && r.next == blank.next && r.count == MinCount(|p.data|)
    ensures View(q, false) + View(r, false) == View(p, false)[..i] + [Lift(e)] + View(p, false)[i..]
  {
    var cap, min := |p.data|, MinCount(|p.data|);
    var qd, rd := p.data, blank.data;
    if i <= cap - min {
      rd := MemMove(rd, 0, qd, cap - min, min);
      qd := MemMove(qd, i + 1, qd, i, cap - min - i);
      qd := qd[i := e];
    } else {
      var split := cap - min + 1;
      rd := MemMove(rd, 0, qd, split, i - split);
      rd := rd[i - split := e];
      rd := MemMove(rd, i - split + 1, qd, i, cap - i);
    }
    assert forall k :: 0 <= k < cap + 1 - min ==> qd[k] == InsertedAt(p.data, i, e, k);
    assert forall k :: 0 <= k < min ==> rd[k] == InsertedAt(p.data, i, e, cap + 1 - min + k);
    q := p.(data := qd, count := cap + 1 - min);
    r := blank.(data := rd, count := min);
    SplitInsertView(p, q, r, i, e);
  }

  /** Entry `k` of a full page with `e` inserted at `i`. */
  ghost function InsertedAt(d: seq<Entry>, i: nat, e: Entry, k: nat): Entry
    requires i <= |d| && k <= |d|
  {
    if k < i then d[k] else if k == i then e else d[k - 1]
  }

  lemma {:induction false} SplitInsertView(p: Page, q: Page, r: Page, i: nat, e: Entry)
    requires p.count == |p.data| == |q.data| == |r.data| && i <= p.count
    requires q.count <= |q.data| && r.count <= |r.data| && q.count + r.count == p.count + 1
    requires forall k :: 0 <= k < q.count ==> q.data[k] == InsertedAt(p.data, i, e, k)
    requires forall k :: 0 <= k < r.count ==> r.data[k] == InsertedAt(p.data, i, e, q.count + k)
    ensures View(q, false) + View(r, false) == View(p, false)[..i] + [Lift(e)] + View(p, false)[i..]
  {
    var got, want := View(q, false) + View(r, false), View(p, false)[..i] + [Lift(e)] + View(p, false)[i..];
    forall k | 0 <= k < |want|
      ensures got[k] == want[k]
    {
      assert want[k] == Lift(InsertedAt(p.data, i, e, k));
      if q.count <= k {
        assert r.data[k - q.count] == InsertedAt(p.data, i, e, q.count + (k - q.count));
      }
    }
  }

  function InsertAt(v: seq<Sep>, i: nat, key: Key, value: Ptr): seq<Sep>
    requires i <= |v|
  {
    v[..i] + [Sep(Fin(key), value)] + v[i..]
  }

  function CutAt(v: seq<Sep>, i: nat): seq<Sep>
    requires i < |v|
  {
    v[..i] + v[i + 1..]
  }

  /** The separators after the child behind index `i` was split: its own new bound, then the new page. */
  function SplitAt(v: seq<Sep>, i: nat, k: Key, ptr: Ptr): seq<Sep>
    requires i < |v|
  {
    v[..i] + [Sep(Fin(k), v[i].ptr), Sep(v[i].bound, ptr)] + v[i + 1..]
  }

  /** The separators after the child behind index `i` was absorbed by its left neighbour. */
  function MergeAt(v: seq<Sep>, i: nat): seq<Sep>
    requires 0 < i < |v|
  {
    v[..i - 1] + [Sep(v[i].bound, v[i - 1].ptr)] + v[i + 1..]
  }

  /** A right-skew page with room records that its child `i` was split. */
  method InsertSkewWithRoom(p: Page, i: nat, k: Key, e: Entry) returns (q: Page)
    requires i <= p.count < |p.data|
    requires i < p.count ==> e.key == p.data[i].key
    ensures SameFlags(p, q) && q.count == p.count + 1
    ensures View(q, true) == SplitAt(View(p, true), i, k, e.ptr)
  {
    var cap, at := |p.data|, i + 1;
    q := SetKey(p, at - 1, k);
    if q.count == cap - 1 {
      q := q.(next := q.data[q.count].ptr);
    } else {
      q := SetPtr(q, q.count + 1, q.data[q.count].ptr);
    }
    if at < q.count {
      var data := MemMove(q.data, at + 1, q.data, at, q.count - at);
      q := q.(data := data);
    }
    if at < cap {
      q := q.(data := q.data[at := e]);
    } else {
      q := q.(next := e.ptr);
    }
    q := q.(count := q.count + 1);
    SkewInsertView(p, q, i, k, e);
  }

  lemma {:induction false} SkewInsertView(p: Page, q: Page, i: nat, k: Key, e: Entry)
    requires i <= p.count < |p.data| == |q.data| && q.count == p.count + 1
    requires i < p.count ==> e.key == p.data[i].key
    requires forall j :: 0 <= j < i ==> q.data[j] == p.data[j]
    requires q.data[i] == Entry(k, p.data[i].ptr)
    requires i < p.count ==> q.data[i + 1] == e
    requires forall j :: i + 1 < j < q.count ==> q.data[j] == p.data[j - 1]
    requires Extra(q) == if i < p.count then Extra(p) else e.ptr
    ensures View(q, true) == SplitAt(View(p, true), i, k, e.ptr)
  {
    var got, want := View(q, true), SplitAt(View(p, true), i, k, e.ptr);
    forall j | 0 <= j < |want|
      ensures got[j] == want[j]
    {
      if j < i {
      } else if j == i {
      } else if j == i + 1 {
      } else {
        assert want[j] == View(p, true)[j - 1];
      }
    }
  }

  /** A page drops the entry at index `i`. */
  method RemoveEntry(p: Page, i: nat) returns (q: Page)
    requires i < p.count <= |p.data|
    ensures SameFlags(p, q) && q.next == p.next && q.count == p.count - 1
    ensures View(q, false) == View(p, false)[..i] + View(p, false)[i + 1..]
  {
    var data := MemMove(p.data, i, p.data, i + 1, p.count - i - 1);
    q := p.(data := data, count := p.count - 1);
  }

  /** A right-skew page drops the pointer at index `i`, whose child went into its left neighbour. */
  method RemoveSkewPointer(p: Page, i: nat) returns (q: Page)
    requires 0 < i <= p.count <= |p.data|
    requires i < p.count ==> p.data[i - 1].key == p.data[i].key
    ensures SameFlags(p, q) && q.count == p.count - 1
    ensures View(q, true) == MergeAt(View(p, true), i)
  {
    if i == p.count {
      q := p.(count := p.count - 1);
    } else {
      var data := MemMove(p.data, i, p.data, i + 1, p.count - i - 1);
      q := p.(data := data, count := p.count - 1);
      if q.count + 1 < |q.data| {
        q := SetPtr(q, q.count, q.data[q.count + 1].ptr);
      } else {
        q := SetPtr(q, q.count, q.next);
      }
    }
    SkewRemoveView(p, q, i);
  }

  lemma {:induction false} SkewRemoveView(p: Page, q: Page, i: nat)
    requires 0 < i <= p.count <= |p.data| == |q.data| && q.count == p.count - 1
    requires i < p.count ==> p.data[i - 1].key == p.data[i].key
    requires forall j :: 0 <= j < i && j < q.count ==> q.data[j] == p.data[j]
    requires forall j :: i <= j < q.count ==> q.data[j] == p.data[j + 1]
    requires Extra(q) == if i < p.count then Extra(p) else p.data[i - 1].ptr
    ensures View(q, true) == MergeAt(View(p, true), i)
  {
    var got, want := View(q, true), MergeAt(View(p, true), i);
    forall j | 0 <= j < |want|
      ensures got[j] == want[j]
    {
      if j < i - 1 {
      } else if j == i - 1 {
      } else {
        assert want[j] == View(p, true)[j + 1];
      }
    }
  }

  /** A leaf-like page takes over the last entry of its left neighbour. */
  method BorrowLast(p: Page, prev: Page) returns (q: Page, prev': Page)
    requires p.count < |p.data| && 0 < prev.count <= |prev.data|
    ensures SameFlags(p, q) && q.next == p.next && q.count == p.count + 1
    ensures SameFlags(prev, prev') && prev'.next == prev.next && prev'.count == prev.count - 1
    ensures View(prev', false) == View(prev, false)[..prev.count - 1]
    ensures View(q, false) == [View(prev, false)[prev.count - 1]] + View(p, false)
  {
    var data := MemMove(p.data, 1, p.data, 0, p.count);
    data := data[0 := prev.data[prev.count - 1]];
    q := p.(data := data, count := p.count + 1);
    prev' := prev.(count := prev.count - 1);
  }

  /** A right-skew page does the same, and moves its past-the-end pointer along. */
  method BorrowLastSkew(p: Page, prev: Page) returns (q: Page, prev': Page)
    requires p.count + 1 < |p.data| && 0 < prev.count <= |prev.data|
    ensures SameFlags(p, q) && q.count == p.count + 1
    ensures SameFlags(prev, prev') && prev'.count == prev.count - 1
    ensures View(prev', false) == View(prev, false)[..prev.count - 1]
    ensures View(q, true) == [View(prev, false)[prev.count - 1]] + View(p, true)
  {
    q := SetPtr(p, p.count + 1, p.data[p.count].ptr);
    var data := MemMove(q.data, 1, q.data, 0, q.count);
    data := data[0 := prev.data[prev.count - 1]];
    q := q.(data := data, count := q.count + 1);
    prev' := prev.(count := prev.count - 1);
    assert Extra(q) == Extra(p);
  }

  /** A page takes over the first entry of its right neighbour, which is right-skew iff `skew`. */
  method BorrowFirst(p: Page, nxt: Page, skew: bool) returns (q: Page, nxt': Page)
    requires p.count < |p.data| && 0 < nxt.count <= |nxt.data|
    ensures SameFlags(p, q) && q.next == p.next && q.count == p.count + 1
    ensures SameFlags(nxt, nxt') && nxt'.next == nxt.next && nxt'.count == nxt.count - 1
    ensures View(q, false) == View(p, false) + [View(nxt, skew)[0]]
    ensures View(nxt', skew) == View(nxt, skew)[1..]
  {
    q := p.(data := p.data[p.count := nxt.data[0]], count := p.count + 1);
    nxt' := nxt.(count := nxt.count - 1);
    var data := MemMove(nxt'.data, 0, nxt'.data, 1, nxt'.count);
    nxt' := nxt'.(data := data);
    if skew {
      if nxt'.count == |nxt'.data| - 1 {
        nxt' := SetPtr(nxt', nxt'.count, nxt'.next);
      } else {
        nxt' := SetPtr(nxt', nxt'.count, nxt'.data[nxt'.count + 1].ptr);
      }
      assert Extra(nxt') == Extra(nxt);
    }
  }

  /** A page is appended to its left neighbour, which inherits its place in the leaf chain. */
  method MergeIntoPrev(p: Page, prev: Page) returns (prev': Page)
    requires p.count <= |p.data| && prev.count + p.count <= |prev.data|
    ensures SameFlags(prev, prev') && prev'.next == p.next && prev'.count == prev.count + p.count
    ensures View(prev', false) == View(prev, false) + View(p, false)
  {
    var data := MemMove(prev.data, prev.count, p.data, 0, p.count);
    prev' := prev.(next := p.next, data := data, count := prev.count + p.count);
  }

  /** A right-skew page is appended to its left neighbour, which becomes right-skew. */
  method MergeSkewIntoPrev(p: Page, prev: Page) returns (prev': Page)
    requires p.count <= |p.data| && prev.count + p.count <= |prev.data|
    ensures SameFlags(prev, prev') && prev'.count == prev.count + p.count
    ensures View(prev', true) == View(prev, false) + View(p, true)
  {
    var data := MemMove(prev.data, prev.count, p.data, 0, p.count);
    prev' := prev.(data := data, count := prev.count + p.count);
    if p.count < |p.data| {
      if prev'.count < |prev'.data| {
        prev' := SetPtr(prev', prev'.count, p.data[p.count].ptr);
      } else {
        prev' := prev'.(next := p.data[p.count].ptr);
      }
    } else {
      if prev'.count < |prev'.data| {
        prev' := SetPtr(prev', prev'.count, p.next);
      } else {
        prev' := prev'.(next := p.next);
      }
    }
    assert Extra(prev') == Extra(p);
  }

  /** A page absorbs its right neighbour: a leaf (`!internal`), a leaf-like page, or a right-skew page (`skew`). */
  method MergeNextIntoSelf(p: Page, nxt: Page, internal: bool, skew: bool) returns (q: Page)
    requires nxt.count < |nxt.data| && p.count + nxt.count <= |p.data| && (skew ==> internal)
    ensures SameFlags(p, q) && q.count == p.count + nxt.count
    ensures !internal ==> q.next == nxt.next
    ensures View(q, skew) == View(p, false) + View(nxt, skew)
  {
    q := p;
    if skew {
      var intended := nxt.count + q.count;
      if intended == |q.data| {
        q := q.(next := nxt.data[nxt.count].ptr);
      } else {
        q := SetPtr(q, intended, nxt.data[nxt.count].ptr);
      }
    }
    if !internal {
      q := q.(next := nxt.next);
    }
    var data := MemMove(q.data, q.count, nxt.data, 0, nxt.count);
    q := q.(data := data, count := q.count + nxt.count);
    assert skew ==> Extra(q) == Extra(nxt);
  }

  /**
   A full right-skew page whose child `i` was split shares its pointers with a
   fresh page: the old page becomes leaf-like, the fresh one right-skew.
   */
  method SplitSkew(p: Page, blank: Page, i: nat, k: Key, e: Entry) returns (q: Page, r: Page)
    requires 2 <= |p.data| == |blank.data| && i <= p.count == |p.data|
    requires i < p.count ==> e.key == p.data[i].key
    ensures SameFlags(p, q) && q.count == |p.data| + 1 - MinCount(|p.data|)
    ensures SameFlags(blank, r) && r.count == MinCount(|p.data|)
    ensures View(q, false) + View(r, true) == SplitAt(View(p, true), i, k, e.ptr)
  {
    var cap, min, at := |p.data|, MinCount(|p.data|), i + 1;
    var qd, rd := p.data, blank.data;
    if at - 1 == cap {
      rd := MemMove(rd, 0, qd, cap - (min - 1), min - 1);
      rd := rd[min - 1 := Entry(k, p.next)];
      rd := rd[min := Entry(rd[min].key, e.ptr)];
    } else {
      qd := qd[at - 1 := Entry(k, qd[at - 1].ptr)];
      rd := rd[min := Entry(rd[min].key, p.next)];
      rd := CopyLastHalf(qd, rd, at, e);
      if at <= cap - min {
        qd := MemMove(qd, at + 1, qd, at, cap - min - at);
        qd := qd[at := e];
      }
    }
    assert forall j {:trigger qd[j]} :: 0 <= j < cap + 1 - min ==> qd[j] == SkewSplitAt(p, i, k, e, j);
    assert forall j {:trigger rd[j]} :: 0 <= j < min ==> rd[j] == SkewSplitAt(p, i, k, e, cap + 1 - min + j);
    q := p.(data := qd, count := p.count - (min - 1));
    r := blank.(data := rd, count := min);
    SkewSplitView(p, q, r, i, k, e);
  }

  /** The copying loop of the split: the last entries, the new one at `at` included, go to the fresh page. */
  method CopyLastHalf(qd: seq<Entry>, blank: seq<Entry>, at: nat, e: Entry) returns (rd: seq<Entry>)
    requires 2 <= |qd| == |blank| && 0 < at <= |qd|
    ensures |rd| == |qd|
    ensures forall j {:trigger rd[j]} :: MinCount(|qd|) <= j < |qd| ==> rd[j] == blank[j]
    ensures forall j {:trigger rd[j]} :: 0 <= j < MinCount(|qd|) ==>
      rd[j] == InsertedAt(qd, at, e, |qd| + 1 - MinCount(|qd|) + j)
  {
    var cap, min := |qd|, MinCount(|qd|);
    rd := blank;
    var dest, src := min - 1, cap - 1;
    var processed := false;
    while dest != -1
      invariant -1 <= dest < min && |rd| == cap
      invariant src == cap - min + dest + if processed then 1 else 0
      invariant if processed then src < at else at <= src + 1
      invariant forall j {:trigger rd[j]} :: min <= j < cap ==> rd[j] == blank[j]
      invariant forall j {:trigger rd[j]} :: dest < j < min ==> rd[j] == InsertedAt(qd, at, e, cap + 1 - min + j)
      decreases dest + 1
    {
      if !processed && at == src + 1 {
        rd := rd[dest := e];
        processed := true;
      } else {
        rd := rd[dest := qd[src]];
        src := src - 1;
      }
      dest := dest - 1;
    }
  }

  /** Entry `j` of a full right-skew page after its child `i` was split. */
  ghost function SkewSplitAt(p: Page, i: nat, k: Key, e: Entry, j: nat): Entry
    requires i <= |p.data| && j <= |p.data|
  {
    if j < i then p.data[j]
    else if j == i then Entry(k, if i < |p.data| then p.data[i].ptr else p.next)
    else if j == i + 1 then e
    else p.data[j - 1]
  }

  lemma {:induction false} SkewSplitView(p: Page, q: Page, r: Page, i: nat, k: Key, e: Entry)
    requires p.count == |p.data| == |q.data| == |r.data| && i <= p.count
    requires i < p.count ==> e.key == p.data[i].key
    requires q.count <= |q.data| && r.count < |r.data| && q.count + r.count == p.count + 1
    requires forall j {:trigger q.data[j]} :: 0 <= j < q.count ==> q.data[j] == SkewSplitAt(p, i, k, e, j)
    requires forall j {:trigger r.data[j]} :: 0 <= j < r.count ==> r.data[j] == SkewSplitAt(p, i, k, e, q.count + j)
    requires r.data[r.count].ptr == if i < p.count then p.next else e.ptr
    ensures View(q, false) + View(r, true) == SplitAt(View(p, true), i, k, e.ptr)
  {
    var got, want := View(q, false) + View(r, true), SplitAt(View(p, true), i, k, e.ptr);
    forall j | 0 <= j < |want|
      ensures got[j] == want[j]
    {
      if j <= p.count {
        SkewSplitEntry(p, i, k, e, j);
        if q.count <= j {
          assert r.data[j - q.count] == SkewSplitAt(p, i, k, e, q.count + (j - q.count));
        }
      }
    }
  }

  lemma {:induction false} SkewSplitEntry(p: Page, i: nat, k: Key, e: Entry, j: nat)
    requires p.count == |p.data| && i <= p.count && j <= p.count
    requires i < p.count ==> e.key == p.data[i].key
    ensures SplitAt(View(p, true), i, k, e.ptr)[j] == Lift(SkewSplitAt(p, i, k, e, j))
  {
    if i + 1 < j {
      assert SplitAt(View(p, true), i, k, e.ptr)[j] == View(p, true)[j - 1];
    }
  }

  lemma MoveFirst(x: seq<Sep>, y: seq<Sep>)
    requires y != []
    ensures x + y == (x + [y[0]]) + y[1..]
  {
  }

  lemma MoveLast(x: seq<Sep>, y: seq<Sep>)
    requires x != []
    ensures x + y == x[..|x| - 1] + ([x[|x| - 1]] + y)
  {
  }

  lemma LastOfSum(x: seq<Sep>, y: seq<Sep>)
    requires y != []
    ensures (x + y)[|x + y| - 1] == y[|y| - 1]
  {
  }

  lemma LastBound(p: Page)
    requires 0 < p.count <= |p.data|
    ensures View(p, false)[p.count - 1] == Lift(p.data[p.count - 1])
  {
  }
}
