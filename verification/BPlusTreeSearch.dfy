/**
 Order: the keys of every level ascend, so the search that follows lower bounds
 from page to page ends at the lower bound among all keys, and the sorted leaf
 level is a map.
 */
module BPlusTreeSearch {
  import opened BPlusTreePage
  import opened BPlusTreeLevels
  import opened BPlusTreeShape

  predicate Less(a: Bound, b: Bound) {
    a.Fin? && (b.Inf? || a.k < b.k)
  }

  ghost predicate Sorted(s: seq<Sep>) {
    forall i, j :: 0 <= i < j < |s| ==> Less(s[i].bound, s[j].bound)
  }

  predicate Below(b: Bound, key: Key) {
    b.Fin? && b.k < key
  }

  /** `g` is the index of the first bound that is not below `key`. */
  ghost predicate IsLowerBound(s: seq<Sep>, key: Key, g: nat) {
    && g <= |s|
    && (forall j :: 0 <= j < g ==> Below(s[j].bound, key))
    && (forall j :: g <= j < |s| ==> !Below(s[j].bound, key))
  }

  ghost predicate AllFin(s: seq<Sep>) {
    forall j :: 0 <= j < |s| ==> s[j].bound.Fin?
  }

  /** The map that a sorted sequence of entries stands for. */
  ghost function ToMap(s: seq<Sep>): (m: map<Key, Ptr>)
    requires Sorted(s)
  {
    map j | 0 <= j < |s| && s[j].bound.Fin? :: s[j].bound.k := s[j].ptr
  }

  lemma {:induction false} ToMapAt(s: seq<Sep>, key: Key, g: nat)
    requires Sorted(s) && AllFin(s) && IsLowerBound(s, key, g)
    ensures key in ToMap(s) <==> g < |s| && s[g].bound.k == key
    ensures g < |s| && s[g].bound.k == key ==> ToMap(s)[key] == s[g].ptr
  {
  }

  lemma {:induction false} PrefixSorted(s: seq<Sep>)
    requires Sorted(s) && AllFin(s) && s != []
    ensures Sorted(s[..|s| - 1]) && AllFin(s[..|s| - 1]) && s[|s| - 1].bound.k !in ToMap(s[..|s| - 1])
  {
    var t := s[..|s| - 1];
    assert forall j :: 0 <= j < |t| ==> t[j] == s[j];
    assert forall j :: 0 <= j < |t| ==> Less(s[j].bound, s[|s| - 1].bound);
  }

  lemma {:induction false} ToMapSize(s: seq<Sep>)
    requires Sorted(s) && AllFin(s)
    ensures |ToMap(s)| == |s|
    decreases |s|
  {
    if s != [] {
      var t, k := s[..|s| - 1], s[|s| - 1].bound.k;
      PrefixSorted(s);
      ToMapSize(t);
      assert InsertAt(t, |t|, k, s[|s| - 1].ptr) == s;
      InsertMembers(t, k, s[|s| - 1].ptr, |t|);
    }
  }

  lemma {:induction false} InsertAtIndex(s: seq<Sep>, g: nat, key: Key, value: Ptr, j: nat)
    requires g <= |s| && j <= |s|
    ensures |InsertAt(s, g, key, value)| == |s| + 1
    ensures InsertAt(s, g, key, value)[j] == if j < g then s[j] else if j == g then Sep(Fin(key), value) else s[j - 1]
  {
  }

  lemma {:induction false} InsertSorted(s: seq<Sep>, key: Key, value: Ptr, g: nat)
    requires Sorted(s) && AllFin(s) && IsLowerBound(s, key, g)
    requires g < |s| ==> s[g].bound.k != key
    ensures Sorted(InsertAt(s, g, key, value)) && AllFin(InsertAt(s, g, key, value))
    ensures ToMap(InsertAt(s, g, key, value)) == ToMap(s)[key := value]
  {
    hide InsertAt;
    InsertOrder(s, key, value, g);
    ToMapAt(s, key, g);
    InsertMembers(s, key, value, g);
  }

  lemma {:induction false} InsertOrder(s: seq<Sep>, key: Key, value: Ptr, g: nat)
    requires Sorted(s) && AllFin(s) && IsLowerBound(s, key, g)
    requires g < |s| ==> s[g].bound.k != key
    ensures Sorted(InsertAt(s, g, key, value)) && AllFin(InsertAt(s, g, key, value))
  {
    hide InsertAt;
    var t := InsertAt(s, g, key, value);
    InsertAtIndex(s, g, key, value, 0);
    forall i, j | 0 <= i < j < |t|
      ensures Less(t[i].bound, t[j].bound)
    {
      InsertAtIndex(s, g, key, value, i);
      InsertAtIndex(s, g, key, value, j);
    }
    forall j | 0 <= j < |t|
      ensures t[j].bound.Fin?
    {
      InsertAtIndex(s, g, key, value, j);
    }
  }

  lemma {:induction false} InsertMembers(s: seq<Sep>, key: Key, value: Ptr, g: nat)
    requires Sorted(s) && AllFin(s) && g <= |s| && Sorted(InsertAt(s, g, key, value))
    requires key !in ToMap(s)
    ensures ToMap(InsertAt(s, g, key, value)) == ToMap(s)[key := value]
  {
    var t, m := InsertAt(s, g, key, value), ToMap(s)[key := value];
    InsertKeeps(s, key, value, g);
    hide InsertAt;
    forall k | k in ToMap(t)
      ensures k in m && ToMap(t)[k] == m[k]
    {
      var j :| 0 <= j < |t| && t[j].bound == Fin(k);
      InsertAtIndex(s, g, key, value, j);
    }
  }

  lemma {:induction false} InsertKeeps(s: seq<Sep>, key: Key, value: Ptr, g: nat)
    requires Sorted(s) && AllFin(s) && g <= |s| && Sorted(InsertAt(s, g, key, value))
    ensures |InsertAt(s, g, key, value)| == |s| + 1
    ensures key in ToMap(InsertAt(s, g, key, value))
    ensures forall k :: k in ToMap(s) ==> k in ToMap(InsertAt(s, g, key, value))
  {
    hide InsertAt;
    InsertAtIndex(s, g, key, value, g);
    forall k | k in ToMap(s)
      ensures k in ToMap(InsertAt(s, g, key, value))
    {
      var j :| 0 <= j < |s| && s[j].bound == Fin(k);
      InsertAtIndex(s, g, key, value, if j < g then j else j + 1);
    }
  }

  lemma {:induction false} CutAtIndex(s: seq<Sep>, g: nat, j: nat)
    requires g < |s| && j < |s| - 1
    ensures |CutAt(s, g)| == |s| - 1 && CutAt(s, g)[j] == s[if j < g then j else j + 1]
  {
  }

  lemma {:induction false} CutSize(s: seq<Sep>, g: nat)
    requires g < |s|
    ensures |CutAt(s, g)| == |s| - 1
  {
  }

  lemma {:induction false} CutSorted(s: seq<Sep>, g: nat)
    requires Sorted(s) && AllFin(s) && g < |s|
    ensures Sorted(CutAt(s, g)) && AllFin(CutAt(s, g))
    ensures ToMap(CutAt(s, g)) == ToMap(s) - {s[g].bound.k}
  {
    CutOrder(s, g);
    CutHas(s, g);
    CutKeeps(s, g);
    hide CutAt, Sorted, AllFin, ToMap;
    assert s[g].bound.k !in ToMap(CutAt(s, g));
    assert ToMap(CutAt(s, g)).Keys == (ToMap(s) - {s[g].bound.k}).Keys;
  }

  lemma {:induction false} CutHas(s: seq<Sep>, g: nat)
    requires Sorted(s) && AllFin(s) && g < |s| && Sorted(CutAt(s, g))
    ensures forall k :: k in ToMap(CutAt(s, g)) ==> k != s[g].bound.k && k in ToMap(s) && ToMap(CutAt(s, g))[k] == ToMap(s)[k]
  {
    var t := CutAt(s, g);
    CutSize(s, g);
    forall k | k in ToMap(t) ensures k != s[g].bound.k && k in ToMap(s) && ToMap(t)[k] == ToMap(s)[k] {
      var j :| 0 <= j < |t| && t[j].bound == Fin(k);
      CutAtIndex(s, g, j);
    }
  }

  lemma {:induction false} CutKeeps(s: seq<Sep>, g: nat)
    requires Sorted(s) && AllFin(s) && g < |s| && Sorted(CutAt(s, g))
    ensures forall k :: k in ToMap(s) && k != s[g].bound.k ==> k in ToMap(CutAt(s, g))
  {
    CutSize(s, g);
    hide CutAt;
    forall k | k in ToMap(s) && k != s[g].bound.k
      ensures k in ToMap(CutAt(s, g))
    {
      var j :| 0 <= j < |s| && s[j].bound == Fin(k);
      CutAtIndex(s, g, if j < g then j else j - 1);
    }
  }

  lemma {:induction false} CutOrder(s: seq<Sep>, g: nat)
    requires Sorted(s) && AllFin(s) && g < |s|
    ensures Sorted(CutAt(s, g)) && AllFin(CutAt(s, g))
  {
    var t := CutAt(s, g);
    forall i, j | 0 <= i < j < |t|
      ensures Less(t[i].bound, t[j].bound)
    {
      CutAtIndex(s, g, i);
      CutAtIndex(s, g, j);
    }
    forall j | 0 <= j < |t|
      ensures t[j].bound.Fin?
    {
      CutAtIndex(s, g, j);
    }
  }

  lemma {:induction false} SetSorted(s: seq<Sep>, g: nat, value: Ptr)
    requires Sorted(s) && AllFin(s) && g < |s|
    ensures Sorted(s[g := s[g].(ptr := value)]) && AllFin(s[g := s[g].(ptr := value)])
    ensures ToMap(s[g := s[g].(ptr := value)]) == ToMap(s)[s[g].bound.k := value]
  {
    var t := s[g := s[g].(ptr := value)];
    assert forall j :: 0 <= j < |s| ==> t[j].bound == s[j].bound;
    forall k | k in ToMap(s)
      ensures k in ToMap(t)
    {
      var j :| 0 <= j < |s| && s[j].bound == Fin(k);
      assert t[j].bound == Fin(k);
    }
  }

  /** Separators ascend because they are the greatest keys of ascending pages. */
  lemma {:induction false} SortedUp(lo: Level, hi: Level)
    requires Linked(lo, hi) && Sorted(Flat(lo))
    ensures Sorted(Flat(hi))
  {
    forall p, r | 0 <= p < r < |lo|
      ensures Less(Flat(hi)[p].bound, Flat(hi)[r].bound)
    {
      FlatAt(lo, p, |lo[p].view| - 1);
      FlatAt(lo, r, |lo[r].view| - 1);
      OffNext(lo, p);
      OffMonotone(lo, p + 1, r);
      assert Flat(hi)[p] == SepOf(lo, p) && Flat(hi)[r] == SepOf(lo, r);
    }
  }

  lemma {:induction false} AllSorted(levels: seq<Level>, cap: nat, l: nat)
    requires ShapeFrom(levels, 0, cap) && l < |levels| && Sorted(Flat(levels[0]))
    ensures Sorted(Flat(levels[l]))
  {
    if l > 0 {
      var m := l - 1;
      AllSorted(levels, cap, m);
      assert Linked(levels[m], levels[m + 1]);
      SortedUp(levels[m], levels[m + 1]);
    }
  }

  lemma {:induction false} ViewSorted(lv: Level, q: nat)
    requires q < |lv| && Sorted(Flat(lv))
    ensures Sorted(lv[q].view)
  {
    forall i, j | 0 <= i < j < |lv[q].view|
      ensures Less(lv[q].view[i].bound, lv[q].view[j].bound)
    {
      FlatAt(lv, q, i);
      FlatAt(lv, q, j);
    }
  }

  /** From the lower bound among the separators to the lower bound among the entries below them. */
  lemma {:induction false} Descend(lo: Level, hi: Level, key: Key, c: nat, i: nat)
    requires Linked(lo, hi) && Sorted(Flat(lo)) && IsLowerBound(Flat(hi), key, c) && c < |lo|
    requires IsLowerBound(lo[c].view, key, i)
    ensures IsLowerBound(Flat(lo), key, Off(lo, c) + i)
    ensures c < |lo| - 1 ==> i < |lo[c].view|
  {
    OffNext(lo, c);
    OffMonotone(lo, c + 1, |lo|);
    OffEnd(lo);
    var s, g := Flat(lo), Off(lo, c) + i;
    DescendAround(lo, hi, key, c);
    forall j | 0 <= j < |s|
      ensures j < g ==> Below(s[j].bound, key)
      ensures g <= j ==> !Below(s[j].bound, key)
    {
      if Off(lo, c) <= j < Off(lo, c) + |lo[c].view| {
        FlatAt(lo, c, j - Off(lo, c));
      }
    }
  }

  /** Everything left of page `c` is below the key, everything right of it is not, and neither is its last entry. */
  lemma {:induction false} DescendAround(lo: Level, hi: Level, key: Key, c: nat)
    requires Linked(lo, hi) && Sorted(Flat(lo)) && IsLowerBound(Flat(hi), key, c) && c < |lo|
    ensures forall j :: 0 <= j < Off(lo, c) && j < |Flat(lo)| ==> Below(Flat(lo)[j].bound, key)
    ensures forall j :: Off(lo, c) + |lo[c].view| <= j < |Flat(lo)| ==> !Below(Flat(lo)[j].bound, key)
    ensures c < |lo| - 1 ==> !Below(lo[c].view[|lo[c].view| - 1].bound, key)
  {
    hide Flat;
    var s := Flat(lo);
    OffNext(lo, c);
    OffEnd(lo);
    if c > 0 {
      OffNext(lo, c - 1);
      FlatAt(lo, c - 1, |lo[c - 1].view| - 1);
      assert Flat(hi)[c - 1] == SepOf(lo, c - 1);
      assert forall j :: 0 <= j < Off(lo, c) ==> j == Off(lo, c) - 1 || Less(s[j].bound, s[Off(lo, c) - 1].bound);
    } else {
      OffZero(lo);
    }
    assert Flat(hi)[c] == SepOf(lo, c);
    FlatAt(lo, c, |lo[c].view| - 1);
    var z := Off(lo, c) + |lo[c].view| - 1;
    assert forall j :: z < j < |s| ==> Less(s[z].bound, s[j].bound);
  }

  /** Where an entry goes in a leaf is where it goes in the leaf level. */
  lemma {:induction false} FlatInsertAt(lv: Level, q: nat, i: nat, key: Key, value: Ptr)
    requires q < |lv| && i <= |lv[q].view|
    ensures Off(lv, q) + i <= |Flat(lv)|
    ensures Flat(WithView(lv, q, InsertAt(lv[q].view, i, key, value))) == InsertAt(Flat(lv), Off(lv, q) + i, key, value)
  {
    FlatAround(lv, q);
    FlatWithView(lv, q, InsertAt(lv[q].view, i, key, value));
    InsertAround(Flat(lv[..q]), lv[q].view, Flat(lv[q + 1..]), i, key, value);
  }

  lemma InsertAround(a: seq<Sep>, v: seq<Sep>, b: seq<Sep>, i: nat, key: Key, value: Ptr)
    requires i <= |v|
    ensures InsertAt(a + v + b, |a| + i, key, value) == a + InsertAt(v, i, key, value) + b
  {
    assert (a + v + b)[..|a| + i] == a + v[..i];
    assert (a + v + b)[|a| + i..] == v[i..] + b;
  }

  lemma {:induction false} FlatCutAt(lv: Level, q: nat, i: nat)
    requires q < |lv| && i < |lv[q].view|
    ensures Off(lv, q) + i < |Flat(lv)|
    ensures Flat(WithView(lv, q, CutAt(lv[q].view, i))) == CutAt(Flat(lv), Off(lv, q) + i)
  {
    FlatAt(lv, q, i);
    FlatAround(lv, q);
    FlatWithView(lv, q, CutAt(lv[q].view, i));
    CutAround(Flat(lv[..q]), lv[q].view, Flat(lv[q + 1..]), i);
  }

  lemma CutAround(a: seq<Sep>, v: seq<Sep>, b: seq<Sep>, i: nat)
    requires i < |v|
    ensures CutAt(a + v + b, |a| + i) == a + CutAt(v, i) + b
  {
    assert (a + v + b)[..|a| + i] == a + v[..i];
    assert (a + v + b)[|a| + i + 1..] == v[i + 1..] + b;
  }
}
