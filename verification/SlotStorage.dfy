/**
 Fixed-size records in the slots of a page file. Blank slots form a chain; a new
 page is cut into slots when the chain is empty. A slot's id is its page's number
 times the slots in a page, plus its place in the page.
 */
module SlotStorage {
  datatype Element<T> = Element(data: T, nextBlank: nat)

  datatype Page<T> = Page(count: nat, elements: seq<Element<T>>)

  /** The page of a slot, numbered from 1, and its place there. */
  function PageOf(s: nat, m: nat): nat
    requires 0 < m
  {
    s / m
  }

  function PlaceOf(s: nat, m: nat): nat
    requires 0 < m
  {
    s % m
  }

  predicate IsSlot<T>(pages: seq<Page<T>>, m: nat, s: nat)
    requires 0 < m
  {
    1 <= PageOf(s, m) <= |pages| && PlaceOf(s, m) < |pages[PageOf(s, m) - 1].elements|
  }

  function At<T>(pages: seq<Page<T>>, m: nat, s: nat): Element<T>
    requires 0 < m && IsSlot(pages, m, s)
  {
    pages[PageOf(s, m) - 1].elements[PlaceOf(s, m)]
  }

  function SetAt<T>(pages: seq<Page<T>>, m: nat, s: nat, e: Element<T>, count: nat): seq<Page<T>>
    requires 0 < m && IsSlot(pages, m, s)
  {
    pages[PageOf(s, m) - 1 := Page(count, pages[PageOf(s, m) - 1].elements[PlaceOf(s, m) := e])]
  }

  predicate Full<T>(pages: seq<Page<T>>, m: nat) {
    forall p :: 0 <= p < |pages| ==> |pages[p].elements| == m
  }

  /** The chain of blank slots that starts with `first` is `free`; 0 ends it. */
  predicate Chain<T>(pages: seq<Page<T>>, m: nat, first: nat, free: seq<nat>)
    requires 0 < m
    decreases |free|
  {
    if free == [] then first == 0
    else first == free[0] && IsSlot(pages, m, first) && Chain(pages, m, At(pages, m, first).nextBlank, free[1..])
  }

  ghost predicate Distinct(s: seq<nat>) {
    forall i, j :: 0 <= i < j < |s| ==> s[i] != s[j]
  }

  /** Every slot is either blank or live, and live slots hold their contents. */
  ghost predicate Partition<T>(pages: seq<Page<T>>, m: nat, contents: map<nat, T>, free: seq<nat>)
    requires 0 < m
  {
    && (forall s: nat :: IsSlot(pages, m, s) <==> s in contents || s in free)
    && (forall s: nat :: s in free ==> s !in contents)
    && (forall s :: s in contents ==> IsSlot(pages, m, s) && At(pages, m, s).data == contents[s])
  }

  ghost function LiveOn(live: set<nat>, m: nat, p: nat): set<nat>
    requires 0 < m
  {
    set s | s in live && PageOf(s, m) == p
  }

  /** Each page counts its live slots. */
  ghost predicate Counted<T>(pages: seq<Page<T>>, m: nat, live: set<nat>)
    requires 0 < m
  {
    forall p :: 0 <= p < |pages| ==> pages[p].count == |LiveOn(live, m, p + 1)|
  }

  lemma {:induction false} SlotOf(p: nat, i: nat, m: nat)
    requires i < m
    ensures PageOf(p * m + i, m) == p && PlaceOf(p * m + i, m) == i
  {
    OnePlace(p, i, PageOf(p * m + i, m), PlaceOf(p * m + i, m), m);
  }

  lemma OnePlace(p: nat, i: nat, q: nat, r: nat, m: nat)
    requires i < m && r < m && p * m + i == q * m + r
    ensures p == q && i == r
  {
    if p < q {
      Multiple(p, q, m);
    } else if q < p {
      Multiple(q, p, m);
    }
  }

  lemma {:induction false} Multiple(p: nat, q: nat, m: nat)
    requires p < q
    ensures p * m + m <= q * m
  {
    assert (q - 1) * m + m == q * m;
    if p < q - 1 {
      Multiple(p, q - 1, m);
    }
  }

  lemma {:induction false} SetAtMeans<T>(pages: seq<Page<T>>, m: nat, s: nat, e: Element<T>, count: nat)
    requires 0 < m && Full(pages, m) && IsSlot(pages, m, s)
    ensures Full(SetAt(pages, m, s, e, count), m)
    ensures forall r: nat :: IsSlot(SetAt(pages, m, s, e, count), m, r) <==> IsSlot(pages, m, r)
    ensures forall r: nat {:trigger At(SetAt(pages, m, s, e, count), m, r)} :: IsSlot(pages, m, r) ==>
              At(SetAt(pages, m, s, e, count), m, r) == if r == s then e else At(pages, m, r)
  {
    hide PageOf, PlaceOf;
    var after := SetAt(pages, m, s, e, count);
    forall r: nat | IsSlot(pages, m, r) ensures At(after, m, r) == if r == s then e else At(pages, m, r) {
      if PageOf(r, m) == PageOf(s, m) && PlaceOf(r, m) == PlaceOf(s, m) {
        SameSlot(r, s, m);
      }
    }
  }

  lemma Split(s: nat, m: nat)
    requires 0 < m
    ensures s == PageOf(s, m) * m + PlaceOf(s, m) && PlaceOf(s, m) < m
  {
  }

  lemma SameSlot(r: nat, s: nat, m: nat)
    requires 0 < m && PageOf(r, m) == PageOf(s, m) && PlaceOf(r, m) == PlaceOf(s, m)
    ensures r == s
  {
    Split(r, m);
    Split(s, m);
  }

  /** Changes to other slots leave the chain alone. */
  lemma {:induction false} ChainKept<T>(before: seq<Page<T>>, after: seq<Page<T>>, m: nat, first: nat, free: seq<nat>)
    requires 0 < m && Chain(before, m, first, free)
    requires forall s :: s in free && IsSlot(before, m, s) ==>
               IsSlot(after, m, s) && At(after, m, s).nextBlank == At(before, m, s).nextBlank
    ensures Chain(after, m, first, free)
    decreases |free|
  {
    hide PageOf, PlaceOf;
    if free != [] {
      assert free[0] in free;
      ChainKept(before, after, m, At(before, m, first).nextBlank, free[1..]);
    }
  }

  lemma {:induction false} LiveMore(live: set<nat>, m: nat, s: nat, p: nat)
    requires 0 < m && s !in live
    ensures |LiveOn(live + {s}, m, p)| == |LiveOn(live, m, p)| + if PageOf(s, m) == p then 1 else 0
  {
    hide PageOf, PlaceOf;
    if PageOf(s, m) == p {
      assert LiveOn(live + {s}, m, p) == LiveOn(live, m, p) + {s};
    } else {
      assert LiveOn(live + {s}, m, p) == LiveOn(live, m, p);
    }
  }

  /** What holds between operations. */
  ghost predicate Sound<T>(pages: seq<Page<T>>, m: nat, first: nat, contents: map<nat, T>, free: seq<nat>) {
    && 0 < m && Full(pages, m) && Chain(pages, m, first, free) && Distinct(free)
    && Partition(pages, m, contents, free) && Counted(pages, m, contents.Keys)
  }

  /** A slot becomes live, and its page counts it. */
  lemma {:induction false} CountedMore<T>(pages: seq<Page<T>>, m: nat, live: set<nat>, s: nat, e: Element<T>)
    requires 0 < m && Full(pages, m) && IsSlot(pages, m, s) && Counted(pages, m, live) && s !in live
    ensures Counted(SetAt(pages, m, s, e, pages[PageOf(s, m) - 1].count + 1), m, live + {s})
  {
    hide PageOf, PlaceOf;
    var after := SetAt(pages, m, s, e, pages[PageOf(s, m) - 1].count + 1);
    forall p | 0 <= p < |after| ensures after[p].count == |LiveOn(live + {s}, m, p + 1)| {
      LiveMore(live, m, s, p + 1);
    }
  }

  lemma {:induction false} CountedLess<T>(pages: seq<Page<T>>, m: nat, live: set<nat>, s: nat, e: Element<T>)
    requires 0 < m && Full(pages, m) && IsSlot(pages, m, s) && Counted(pages, m, live + {s}) && s !in live
    ensures pages[PageOf(s, m) - 1].count > 0 && Counted(SetAt(pages, m, s, e, pages[PageOf(s, m) - 1].count - 1), m, live)
  {
    hide PageOf, PlaceOf;
    LiveMore(live, m, s, PageOf(s, m));
    var after := SetAt(pages, m, s, e, pages[PageOf(s, m) - 1].count - 1);
    forall p | 0 <= p < |after| ensures after[p].count == |LiveOn(live, m, p + 1)| {
      LiveMore(live, m, s, p + 1);
    }
  }

  /** The first blank slot is taken. */
  lemma {:induction false} Reused<T>(pages: seq<Page<T>>, m: nat, first: nat, contents: map<nat, T>, free: seq<nat>, t: T)
    requires Sound(pages, m, first, contents, free) && first != 0
    ensures first !in contents && IsSlot(pages, m, first) && free != []
    ensures
      var e, count := At(pages, m, first), pages[PageOf(first, m) - 1].count;
      && IsSlot(SetAt(pages, m, first, Element(t, e.nextBlank), count + 1), m, first)
      && Sound(SetAt(pages, m, first, Element(t, e.nextBlank), count + 1), m, e.nextBlank, contents[first := t], free[1..])
  {
    hide PageOf, PlaceOf;
    FirstFree(pages, m, first, free);
    var e, count := Element(t, At(pages, m, first).nextBlank), pages[PageOf(first, m) - 1].count;
    SetAtMeans(pages, m, first, e, count + 1);
    var after := SetAt(pages, m, first, e, count + 1);
    CountedMore(pages, m, contents.Keys, first, e);
    assert contents[first := t].Keys == contents.Keys + {first};
    hide IsSlot, At, SetAt, Counted;
    ChainKept(pages, after, m, e.nextBlank, free[1..]);
    hide Chain, Distinct;
    PartitionTake(pages, after, m, contents, free, first, t);
    hide Partition;
  }

  lemma PartitionTake<T>(pages: seq<Page<T>>, after: seq<Page<T>>, m: nat, contents: map<nat, T>, free: seq<nat>, s: nat, t: T)
    requires 0 < m && Partition(pages, m, contents, free) && free != [] && free == [s] + free[1..] && s in free && s !in free[1..]
    requires forall r: nat :: IsSlot(after, m, r) <==> IsSlot(pages, m, r)
    requires forall r: nat :: IsSlot(pages, m, r) ==> At(after, m, r).data == if r == s then t else At(pages, m, r).data
    ensures Partition(after, m, contents[s := t], free[1..])
  {
    hide IsSlot, At;
    assert forall r :: r in free <==> r == s || r in free[1..];
  }

  lemma FirstFree<T>(pages: seq<Page<T>>, m: nat, first: nat, free: seq<nat>)
    requires 0 < m && Chain(pages, m, first, free) && Distinct(free) && first != 0
    ensures free == [first] + free[1..] && Distinct(free[1..]) && first in free && first !in free[1..] && IsSlot(pages, m, first)
    ensures Chain(pages, m, At(pages, m, first).nextBlank, free[1..])
  {
    hide PageOf, PlaceOf;
  }

  lemma {:induction false} Overwritten<T>(pages: seq<Page<T>>, m: nat, first: nat, contents: map<nat, T>, free: seq<nat>, s: nat, t: T)
    requires Sound(pages, m, first, contents, free) && s in contents
    ensures IsSlot(pages, m, s)
    ensures Sound(SetAt(pages, m, s, At(pages, m, s).(data := t), pages[PageOf(s, m) - 1].count), m, first, contents[s := t], free)
  {
    hide PageOf, PlaceOf;
    var after := SetAt(pages, m, s, At(pages, m, s).(data := t), pages[PageOf(s, m) - 1].count);
    SetAtMeans(pages, m, s, At(pages, m, s).(data := t), pages[PageOf(s, m) - 1].count);
    ChainKept(pages, after, m, first, free);
    assert contents[s := t].Keys == contents.Keys;
  }

  /** A live slot becomes the first blank one. */
  lemma {:induction false} Blanked<T>(pages: seq<Page<T>>, m: nat, first: nat, contents: map<nat, T>, free: seq<nat>, s: nat)
    requires Sound(pages, m, first, contents, free) && s in contents
    ensures IsSlot(pages, m, s) && pages[PageOf(s, m) - 1].count > 0
    ensures Sound(SetAt(pages, m, s, At(pages, m, s).(nextBlank := first), pages[PageOf(s, m) - 1].count - 1), m, s,
                  contents - {s}, [s] + free)
  {
    hide PageOf, PlaceOf;
    var live := contents.Keys - {s};
    assert live + {s} == contents.Keys && (contents - {s}).Keys == live;
    var e, count := At(pages, m, s).(nextBlank := first), pages[PageOf(s, m) - 1].count - 1;
    CountedLess(pages, m, live, s, e);
    SetAtMeans(pages, m, s, e, count);
    var after := SetAt(pages, m, s, e, count);
    hide IsSlot, At, SetAt, Counted;
    ChainKept(pages, after, m, first, free);
    assert ([s] + free)[1..] == free;
    assert IsSlot(after, m, s) && At(after, m, s).nextBlank == first;
    PartitionBlank(pages, after, m, contents, free, s);
    hide Partition;
    DistinctMore(s, free);
  }

  lemma PartitionBlank<T>(pages: seq<Page<T>>, after: seq<Page<T>>, m: nat, contents: map<nat, T>, free: seq<nat>, s: nat)
    requires 0 < m && Partition(pages, m, contents, free) && s in contents
    requires forall r: nat :: IsSlot(after, m, r) <==> IsSlot(pages, m, r)
    requires forall r: nat :: IsSlot(pages, m, r) ==> At(after, m, r).data == At(pages, m, r).data
    ensures Partition(after, m, contents - {s}, [s] + free) && s !in free
  {
    hide PageOf, PlaceOf, IsSlot, At;
    assert forall r :: r in [s] + free <==> r == s || r in free;
  }

  lemma DistinctMore(s: nat, free: seq<nat>)
    requires Distinct(free) && s !in free
    ensures Distinct([s] + free)
  {
  }

  /** The blank slots of a new page. */
  function NewSlots(id: nat, m: nat, from: nat): (r: seq<nat>)
    requires from <= m
    ensures |r| == m - from && forall k {:trigger r[k]} :: 0 <= k < |r| ==> r[k] == id * m + from + k
  {
    seq(m - from, k requires 0 <= k < m - from => id * m + from + k)
  }

  /** A new page's links lead from each of its slots to the next, and end with the last. */
  ghost predicate Strung<T>(page: Page<T>, id: nat, m: nat) {
    && |page.elements| == m
    && forall i :: 1 <= i < m ==> page.elements[i].nextBlank == if i == m - 1 then 0 else id * m + i + 1
  }

  lemma {:induction false} NewChain<T>(pages: seq<Page<T>>, page: Page<T>, m: nat, from: nat)
    requires 0 < m && Strung(page, |pages| + 1, m) && 1 <= from <= m
    ensures
      var id := |pages| + 1;
      Chain(pages + [page], m, if from == m then 0 else id * m + from, NewSlots(id, m, from))
    decreases m - from
  {
    hide PageOf, PlaceOf;
    var id := |pages| + 1;
    if from < m {
      SlotOf(id, from, m);
      NewChain(pages, page, m, from + 1);
      assert NewSlots(id, m, from)[1..] == NewSlots(id, m, from + 1);
    }
  }

  /** The slots of the file with one more page. */
  lemma {:induction false} SlotsMore<T>(pages: seq<Page<T>>, page: Page<T>, m: nat)
    requires 0 < m && Full(pages, m) && |page.elements| == m
    ensures
      var id := |pages| + 1;
      forall s: nat :: IsSlot(pages + [page], m, s) <==> IsSlot(pages, m, s) || s == id * m || s in NewSlots(id, m, 1)
    ensures forall s: nat :: IsSlot(pages, m, s) ==> At(pages + [page], m, s) == At(pages, m, s)
    ensures forall s: nat :: s in NewSlots(|pages| + 1, m, 1) ==> PageOf(s, m) == |pages| + 1 && s != (|pages| + 1) * m
    ensures PageOf((|pages| + 1) * m, m) == |pages| + 1 && PlaceOf((|pages| + 1) * m, m) == 0
  {
    hide PageOf, PlaceOf;
    var id := |pages| + 1;
    var r := NewSlots(id, m, 1);
    SlotOf(id, 0, m);
    forall s: nat | s in r ensures PageOf(s, m) == id && s != id * m && IsSlot(pages + [page], m, s) {
      var k :| 0 <= k < |r| && r[k] == s;
      SlotOf(id, k + 1, m);
    }
    forall s: nat | IsSlot(pages + [page], m, s) && !IsSlot(pages, m, s) && s != id * m ensures s in r {
      Split(s, m);
      assert PageOf(s, m) == id && r[PlaceOf(s, m) - 1] == s;
    }
  }

  /** A new page: its first slot is live, the others are blank. */
  lemma {:induction false} Extended<T>(pages: seq<Page<T>>, m: nat, contents: map<nat, T>, free: seq<nat>, page: Page<T>, t: T)
    requires Sound(pages, m, 0, contents, free) && Strung(page, |pages| + 1, m) && page.count == 1 && page.elements[0].data == t
    ensures
      var id := |pages| + 1;
      && id * m !in contents && id * m != 0 && IsSlot(pages + [page], m, id * m)
      && Sound(pages + [page], m, if m > 1 then id * m + 1 else 0, contents[id * m := t], NewSlots(id, m, 1))
  {
    hide PageOf, PlaceOf;
    var id, after := |pages| + 1, pages + [page];
    var r := NewSlots(id, m, 1);
    NewChain(pages, page, m, 1);
    SlotsMore(pages, page, m);
    NoneFree(pages, m, free);
    NewCounted(pages, m, contents.Keys, page);
    Multiple(0, id, m);
    assert !IsSlot(pages, m, id * m) && At(after, m, id * m).data == t;
    assert Full(after, m);
    hide Chain, Counted, Strung, Full, IsSlot, At, NewSlots;
    assert contents[id * m := t].Keys == contents.Keys + {id * m};
    PartitionNew(pages, after, m, contents, id * m, r, t);
    SlotsApart(id, m);
    hide Partition, Distinct;
  }

  lemma PartitionNew<T>(pages: seq<Page<T>>, after: seq<Page<T>>, m: nat, contents: map<nat, T>, s: nat, r: seq<nat>, t: T)
    requires 0 < m && Partition(pages, m, contents, []) && !IsSlot(pages, m, s) && IsSlot(after, m, s) && At(after, m, s).data == t
    requires forall i: nat :: IsSlot(after, m, i) <==> IsSlot(pages, m, i) || i == s || i in r
    requires forall i: nat :: IsSlot(pages, m, i) ==> At(after, m, i) == At(pages, m, i)
    requires forall i: nat :: i in r ==> !IsSlot(pages, m, i) && i != s
    ensures Partition(after, m, contents[s := t], r) && s !in contents
  {
    hide PageOf, PlaceOf, IsSlot, At;
  }

  lemma SlotsApart(id: nat, m: nat)
    requires 1 <= m
    ensures Distinct(NewSlots(id, m, 1))
  {
  }

  lemma {:induction false} NewCounted<T>(pages: seq<Page<T>>, m: nat, live: set<nat>, page: Page<T>)
    requires 0 < m && Counted(pages, m, live) && page.count == 1 && forall s :: s in live ==> IsSlot(pages, m, s)
    ensures Counted(pages + [page], m, live + {(|pages| + 1) * m})
  {
    hide PageOf, PlaceOf;
    var id, after := |pages| + 1, pages + [page];
    SlotOf(id, 0, m);
    assert LiveOn(live, m, id) == {};
    forall p | 0 <= p < |after| ensures after[p].count == |LiveOn(live + {id * m}, m, p + 1)| {
      LiveMore(live, m, id * m, p + 1);
    }
  }

  lemma NoneFree<T>(pages: seq<Page<T>>, m: nat, free: seq<nat>)
    requires 0 < m && Chain(pages, m, 0, free)
    ensures free == []
  {
    assert 0 / m == 0;
    assert !IsSlot(pages, m, 0);
  }

  class SlotStorage<T> {
    const m: nat
    var pages: seq<Page<T>>
    var firstBlank: nat
    ghost var contents: map<nat, T>
    ghost var free: seq<nat>

    ghost predicate Valid()
      reads this
    {
      Sound(pages, m, firstBlank, contents, free)
    }

    constructor (m: nat)
      requires 0 < m
      ensures Valid() && this.m == m && contents == map[] && pages == []
    {
      this.m := m;
      pages, firstBlank, contents, free := [], 0, map[], [];
    }

    /** The slot that the next record gets. */
    function NextSlot(): nat
      reads this
    {
      if firstBlank != 0 then firstBlank else (|pages| + 1) * m
    }

    /** A record is stored in a slot that was not in use. */
    method Write(t: T) returns (id: nat)
      requires Valid()
      modifies this
      ensures Valid() && id != 0 && id !in old(contents) && contents == old(contents)[id := t]
      ensures id == old(NextSlot())
    {
      hide PageOf, PlaceOf, Chain, Partition, Counted;
      if firstBlank != 0 {
        id := firstBlank;
        Reused(pages, m, firstBlank, contents, free, t);
        var e, count := At(pages, m, id), pages[PageOf(id, m) - 1].count;
        pages := SetAt(pages, m, id, Element(t, e.nextBlank), count + 1);
        firstBlank := e.nextBlank;
        contents, free := contents[id := t], free[1..];
      } else {
        var page := NewPage(t);
        id := (|pages| + 1) * m;
        page := StringSlots(page, |pages| + 1);
        Extended(pages, m, contents, free, page, t);
        firstBlank := if m > 1 then id + 1 else firstBlank;
        free := NewSlots(|pages| + 1, m, 1);
        pages := pages + [page];
        contents := contents[id := t];
      }
    }

    /** A new page, with whatever its frame held, and the record in its first slot. */
    method NewPage(t: T) returns (page: Page<T>)
      requires 0 < m
      ensures |page.elements| == m && page.elements[0].data == t
    {
      page := Page(0, seq(m, _ => Element(t, 0)));
      page :| |page.elements| == m;
      page := page.(elements := page.elements[0 := page.elements[0].(data := t)]);
    }

    method StringSlots(blank: Page<T>, id: nat) returns (page: Page<T>)
      requires 0 < m == |blank.elements|
      ensures Strung(page, id, m) && page.count == 1 && page.elements[0].data == blank.elements[0].data
    {
      page := blank;
      var i := 1;
      while i < m - 1
        invariant 1 <= i && (i <= m - 1 || m == 1) && |page.elements| == m && page.elements[0].data == blank.elements[0].data
        invariant forall k :: 1 <= k < i && k < m ==> page.elements[k].nextBlank == id * m + k + 1
      {
        page := page.(elements := page.elements[i := page.elements[i].(nextBlank := id * m + i + 1)]);
        i := i + 1;
      }
      page := page.(elements := page.elements[m - 1 := page.elements[m - 1].(nextBlank := 0)]);
      page := page.(count := 1);
    }

    method Update(t: T, id: nat)
      requires Valid() && id in contents
      modifies this
      ensures Valid() && contents == old(contents)[id := t] && |pages| == old(|pages|)
    {
      hide PageOf, PlaceOf, Chain, Partition, Counted;
      Overwritten(pages, m, firstBlank, contents, free, id, t);
      pages := SetAt(pages, m, id, At(pages, m, id).(data := t), pages[PageOf(id, m) - 1].count);
      contents := contents[id := t];
    }

    method Read(id: nat) returns (t: T)
      requires Valid() && id in contents
      ensures t == contents[id]
    {
      hide PageOf, PlaceOf;
      t := At(pages, m, id).data;
    }

    /** The slot goes to the head of the chain of blank ones. */
    method Delete(id: nat)
      requires Valid() && id in contents
      modifies this
      ensures Valid() && contents == old(contents) - {id} && |pages| == old(|pages|) && firstBlank == id
    {
      hide PageOf, PlaceOf, Chain, Partition, Counted;
      Blanked(pages, m, firstBlank, contents, free, id);
      var e, count := At(pages, m, id).(nextBlank := firstBlank), pages[PageOf(id, m) - 1].count - 1;
      pages := SetAt(pages, m, id, e, count);
      firstBlank := id;
      contents, free := contents - {id}, [id] + free;
    }
  }
}
