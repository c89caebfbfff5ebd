/**
 Which pages a pool of frames keeps, and which it gives up, in terms of the pages
 its clients access: an access to a page that is kept is added to its history; one
 to another page brings it in, in place of the page that LRU-K names if there is
 no room.
 */
module PageCache {
  import opened BufferPool
  import opened LruKReplacer
  import D = DiskManager

  type PageId = D.PageId

  /** The times at which each page in the pool has been accessed since it came in. */
  datatype Cache = Cache(accesses: map<PageId, seq<nat>>, clock: nat)

  /**
   The rule of LRU-K among some pages: those accessed fewer than `k` times first,
   the one whose last access is the oldest; then the one whose `k`th access from
   the end is.
   */
  ghost predicate GivenUp(accesses: map<PageId, seq<nat>>, pages: set<PageId>, k: nat, v: PageId)
    requires 0 < k && forall p :: p in pages ==> p in accesses && accesses[p] != []
  {
    && v in pages
    && if |accesses[v]| < k then
         forall p :: p in pages && |accesses[p]| < k ==>
           accesses[v][|accesses[v]| - 1] <= accesses[p][|accesses[p]| - 1]
       else
         forall p :: p in pages ==> |accesses[p]| >= k && accesses[v][|accesses[v]| - k] <= accesses[p][|accesses[p]| - k]
  }

  /** One access to a page, by a pool of `size` frames whose `held` pages must stay. */
  ghost predicate Accesses(size: nat, k: nat, held: set<PageId>, before: Cache, p: PageId, after: Cache) {
    && after.clock == before.clock + 1
    && if p in before.accesses then after.accesses == before.accesses[p := before.accesses[p] + [after.clock]]
       else if |before.accesses| < size then after.accesses == before.accesses[p := [after.clock]]
       else exists v :: Replaces(k, held, before.accesses, v, p, after)
  }

  ghost predicate Replaces(k: nat, held: set<PageId>, accesses: map<PageId, seq<nat>>, v: PageId, p: PageId, after: Cache) {
    && v in accesses && v !in held && after.accesses == (accesses - {v})[p := [after.clock]]
    && 0 < k && (forall q :: q in accesses ==> accesses[q] != [])
    && (2 <= k ==> GivenUp(accesses, accesses.Keys - held, k, v))
  }

  /** The histories are those of the frames that hold the pages. */
  ghost predicate Mirrors(table: Table, visits: seq<seq<nat>>, accesses: map<PageId, seq<nat>>) {
    accesses.Keys == table.Keys && forall p :: p in table ==> table[p] < |visits| && accesses[p] == visits[table[p]]
  }

  ghost predicate OneToOne(table: Table) {
    forall p, q :: p in table && q in table && table[p] == table[q] ==> p == q
  }

  lemma {:induction false} HitMirrors(table: Table, visits: seq<seq<nat>>, accesses: map<PageId, seq<nat>>, p: PageId, t: nat)
    requires Mirrors(table, visits, accesses) && OneToOne(table) && p in table
    ensures Mirrors(table, visits[table[p] := visits[table[p]] + [t]], accesses[p := accesses[p] + [t]])
  {
  }

  lemma {:induction false} MissMirrors(table: Table, visits: seq<seq<nat>>, accesses: map<PageId, seq<nat>>, p: PageId,
                                       f: FrameId, t: nat)
    requires Mirrors(table, visits, accesses) && p !in table && f < |visits| && forall q :: q in table ==> table[q] != f
    ensures Mirrors(table[p := f], visits[f := [t]], accesses[p := [t]])
  {
  }

  lemma {:induction false} GoneMirrors(table: Table, visits: seq<seq<nat>>, accesses: map<PageId, seq<nat>>, v: PageId, h: seq<nat>)
    requires Mirrors(table, visits, accesses) && OneToOne(table) && v in table
    ensures Mirrors(table - {v}, visits[table[v] := h], accesses - {v})
  {
  }

  /** The page whose frame the replacer gives up is the one that the rule names among the pages. */
  lemma {:induction false} VictimMirrors(table: Table, visits: seq<seq<nat>>, accesses: map<PageId, seq<nat>>,
                                         evictable: set<FrameId>, pages: set<PageId>, k: nat, f: FrameId, v: PageId)
    requires Mirrors(table, visits, accesses) && v in table && table[v] == f && pages <= table.Keys
    requires 0 < k && forall g :: g in evictable ==> g < |visits| && visits[g] != []
    requires IsLruKVictim(visits, evictable, k, f)
    requires forall p :: p in table ==> (table[p] in evictable <==> p in pages)
    ensures forall p :: p in pages ==> accesses[p] != []
    ensures GivenUp(accesses, pages, k, v)
  {
    forall p | p in pages ensures accesses[p] != [] && accesses[p] == visits[table[p]] && table[p] in evictable {
      assert table[p] in evictable;
    }
  }

  /** No two accesses are at the same time, and none is in the future. */
  ghost predicate Timely(cache: Cache) {
    && (forall p :: p in cache.accesses ==> cache.accesses[p] != [])
    && (forall p, t :: p in cache.accesses && t in cache.accesses[p] ==> t <= cache.clock)
    && (forall p, q, t :: p in cache.accesses && q in cache.accesses && t in cache.accesses[p] && t in cache.accesses[q] ==> p == q)
  }

  /** So the rule names one page only, and a run of accesses decides which pages are kept. */
  lemma {:induction false} OneGivenUp(cache: Cache, pages: set<PageId>, k: nat, v: PageId, w: PageId)
    requires Timely(cache) && 0 < k && pages <= cache.accesses.Keys
    requires GivenUp(cache.accesses, pages, k, v) && GivenUp(cache.accesses, pages, k, w)
    ensures v == w
  {
    var a, b := cache.accesses[v], cache.accesses[w];
    var i, j := if |a| < k then |a| - 1 else |a| - k, if |b| < k then |b| - 1 else |b| - k;
    assert a[i] in a && b[j] in b;
  }

  lemma {:induction false} StaysTimely(size: nat, k: nat, held: set<PageId>, before: Cache, p: PageId, after: Cache)
    requires Timely(before) && Accesses(size, k, held, before, p, after)
    ensures Timely(after)
  {
    var now := after.accesses;
    forall q, t | q in now && t in now[q]
      ensures t <= after.clock && (t == after.clock ==> q == p)
      ensures t != after.clock ==> q in before.accesses && t in before.accesses[q]
    {
      assert q != p ==> q in before.accesses && now[q] == before.accesses[q];
    }
  }

  /** For `k >= 2` the pages that are kept are determined by the accesses. */
  lemma {:induction false} OneOutcome(size: nat, k: nat, held: set<PageId>, before: Cache, p: PageId, after: Cache, other: Cache)
    requires Timely(before) && 2 <= k
    requires Accesses(size, k, held, before, p, after) && Accesses(size, k, held, before, p, other)
    ensures after == other
  {
    if p !in before.accesses && |before.accesses| >= size {
      var v :| Replaces(k, held, before.accesses, v, p, after);
      var w :| Replaces(k, held, before.accesses, w, p, other);
      OneGivenUp(before, before.accesses.Keys - held, k, v, w);
    }
  }

  /** The pages in the frames before frame `n`. */
  ghost function MappedBelow(pages: seq<Page>, table: Table, n: nat): set<PageId> {
    set p | p in table && table[p] < n && table[p] < |pages|
  }

  /** There are at most as many pages in the pool as frames, and as many exactly if every frame holds one. */
  lemma {:induction false} MappedFrames(pages: seq<Page>, table: Table, live: set<PageId>, n: nat)
    requires TableOk(pages, table, live) && n <= |pages|
    ensures |MappedBelow(pages, table, n)| <= n
    ensures |MappedBelow(pages, table, n)| == n <==> forall f :: 0 <= f < n ==> Mapped(pages, table, f)
  {
    var all := MappedBelow(pages, table, n);
    if n == 0 {
      assert all == {};
    } else {
      MappedFrames(pages, table, live, n - 1);
      var fewer := MappedBelow(pages, table, n - 1);
      if Mapped(pages, table, n - 1) {
        assert all == fewer + {pages[n - 1].pageId};
      } else {
        assert all == fewer;
      }
    }
  }

  /** What a sound pool's frames and histories are to its pages. */
  lemma {:induction false} FramesOfPages(pages: seq<Page>, table: Table, free: seq<FrameId>, visits: seq<seq<nat>>,
                                         evictable: set<FrameId>, live: set<PageId>)
    requires FramesOk(pages, table, free, visits, evictable, -1) && TableOk(pages, table, live)
    ensures OneToOne(table) && |table| <= |pages| == |visits| && (free == [] <==> |table| == |pages|)
    ensures forall p :: p in table ==>
      table[p] < |pages| && table[p] !in free && visits[table[p]] != [] && (table[p] in evictable <==> pages[table[p]].pin == 0)
  {
    forall p, q | p in table && q in table && table[p] == table[q] ensures p == q {
      TableInjective(pages, table, live, p, q);
    }
    forall p | p in table
      ensures table[p] < |pages| && table[p] !in free && visits[table[p]] != []
      ensures table[p] in evictable <==> pages[table[p]].pin == 0
    {
      assert FrameOk(pages, table, free, visits, evictable, table[p]);
    }
    MappedFrames(pages, table, live, |pages|);
    assert table.Keys == MappedBelow(pages, table, |pages|);
    forall f: nat | f < |pages| ensures Mapped(pages, table, f) <==> f !in free {
      assert FrameOk(pages, table, free, visits, evictable, f);
    }
    if free != [] {
      assert free[0] in free;
    }
  }
}
