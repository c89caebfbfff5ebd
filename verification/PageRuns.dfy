/**
 Whole runs of a client of the buffer pool: any number of guards at a time, new
 pages, writes, flushes and deletions in any order, on a pool of any size. What
 the client is told is what one flat store would tell it.
 */
module PageRuns {
  import opened BufferPool
  import opened BufferPoolManager
  import opened PageCache
  import opened PageGuards
  import D = DiskManager

  /** `Look`, `Put`, `Drop` and `Flush` name one of the guards the client has. */
  datatype Command =
    | Open(p: PageId)
    | New
    | Look(i: nat)
    | Put(i: nat, data: Block)
    | Drop(i: nat)
    | Flush(i: nat)
    | FlushAll
    | Delete(p: PageId)

  /** `Stays` is a deletion that reports success and does nothing: the page was in no frame. */
  datatype Reply = Ignored | Full | Opened(id: PageId) | Seen(block: Block) | Done | Gone | Stays | Refused

  /** The contents written so far, the pages there are, and the page of each guard. */
  datatype Flat = Flat(store: D.File, known: set<PageId>, handles: seq<PageId>)

  function Without<T>(s: seq<T>, i: nat): seq<T>
    requires i < |s|
  {
    s[..i] + s[i + 1..]
  }

  ghost function Elements<T>(s: seq<T>): set<T> {
    set x | x in s
  }

  /** The replies a flat store with room for `size` open pages may give. */
  ghost predicate Allowed(size: nat, s: Flat, c: Command, r: Reply) {
    match c
    case Open(p) =>
      if p !in s.known then r == Ignored
      else if p !in s.handles && |Elements(s.handles)| == size then r == Full
      else r == Opened(p)
    case New =>
      if |Elements(s.handles)| == size then r == Full
      else r.Opened? && r.id !in s.known
    case Look(i) =>
      if |s.handles| <= i then r == Ignored
      else r.Seen? && (s.handles[i] in s.store ==> r.block == s.store[s.handles[i]])
    case Put(i, _) => r == if i < |s.handles| then Done else Ignored
    case Drop(i) => r == if i < |s.handles| then Done else Ignored
    case Flush(i) => r == if i < |s.handles| then Done else Ignored
    case FlushAll => r == Done
    case Delete(p) =>
      if p !in s.known then r == Ignored
      else if p in s.handles then r == Refused
      else r == Gone || r == Stays
  }

  /** What a flat store is after a command and its reply. */
  function Next(s: Flat, c: Command, r: Reply): Flat {
    match c
    case Open(_) => if r.Opened? then s.(handles := s.handles + [r.id]) else s
    case New => if r.Opened? then s.(known := s.known + {r.id}, handles := s.handles + [r.id]) else s
    case Put(i, data) => if i < |s.handles| then s.(store := s.store[s.handles[i] := data]) else s
    case Drop(i) => if i < |s.handles| then s.(handles := Without(s.handles, i)) else s
    case Delete(p) => if r == Gone then s.(store := s.store - {p}, known := s.known - {p}) else s
    case _ => s
  }

  /**
   What a command does to the pages that a pool of `size` frames keeps: opening one
   accesses it, deleting one takes it out if it is kept, and nothing else matters.
   */
  ghost predicate CacheStep(size: nat, k: nat, s: Flat, c: Command, r: Reply, before: Cache, after: Cache) {
    if r.Opened? && (c.Open? || c.New?) then
      Accesses(size, k, Elements(s.handles), before, r.id, after) && (c.New? ==> r.id !in before.accesses)
    else if c.Delete? && r == Gone then
      c.p in before.accesses && after == before.(accesses := before.accesses - {c.p})
    else
      after == before && (c.Delete? && r == Stays ==> c.p !in before.accesses)
  }

  /** What it is after a run. */
  function After(s: Flat, commands: seq<Command>, replies: seq<Reply>): Flat
    requires |commands| == |replies|
    decreases |commands|
  {
    if commands == [] then s
    else
      var n := |commands| - 1;
      Next(After(s, commands[..n], replies[..n]), commands[n], replies[n])
  }

  lemma {:induction false} AfterMore(s: Flat, commands: seq<Command>, replies: seq<Reply>, c: Command, r: Reply)
    requires |commands| == |replies|
    ensures After(s, commands + [c], replies + [r]) == Next(After(s, commands, replies), c, r)
  {
    assert (commands + [c])[..|commands|] == commands && (replies + [r])[..|commands|] == replies;
  }

  /** The pages with a pin, in the frames before frame `n`. */
  ghost function PinnedBelow(pages: seq<Page>, table: Table, n: nat): set<PageId> {
    set p | p in table && table[p] < n && table[p] < |pages| && 0 < pages[table[p]].pin
  }

  predicate Pinned(pages: seq<Page>, table: Table, f: FrameId) {
    Mapped(pages, table, f) && 0 < pages[f].pin
  }

  /** There are at most as many pinned pages as frames, and as many only if each frame holds one. */
  lemma {:induction false} PinnedFrames(pages: seq<Page>, table: Table, live: set<PageId>, n: nat)
    requires TableOk(pages, table, live) && n <= |pages|
    ensures |PinnedBelow(pages, table, n)| <= n
    ensures |PinnedBelow(pages, table, n)| == n <==> forall f :: 0 <= f < n ==> Pinned(pages, table, f)
  {
    var all := PinnedBelow(pages, table, n);
    if n == 0 {
      assert all == {};
    } else {
      PinnedFrames(pages, table, live, n - 1);
      var fewer := PinnedBelow(pages, table, n - 1);
      if Pinned(pages, table, n - 1) {
        assert all == fewer + {pages[n - 1].pageId};
      } else {
        assert all == fewer;
      }
    }
  }

  ghost function HeldBy(guards: seq<BasicPageGuard>): set<PageId>
    reads Elements(guards)
  {
    set g | g in guards :: g.held
  }

  /** The pages with a pin are those of the guards, and the pool is full exactly if they fill its frames. */
  lemma {:induction false} RoomIff(bpm: BufferPoolManager, guards: seq<BasicPageGuard>)
    requires bpm.Valid() && Accounted(bpm, Elements(guards))
    ensures forall p :: p in HeldBy(guards) <==> 0 < PinOf(bpm.pages, bpm.pageTable, p)
    ensures bpm.HasRoom() <==> |HeldBy(guards)| != bpm.poolSize
    ensures !bpm.HasRoom() ==> bpm.pageTable.Keys <= HeldBy(guards)
  {
    forall p ensures p in HeldBy(guards) <==> 0 < PinOf(bpm.pages, bpm.pageTable, p) {
      HeldIff(bpm, guards, p);
    }
    assert HeldBy(guards) == PinnedBelow(bpm.pages, bpm.pageTable, bpm.poolSize);
    PinnedFrames(bpm.pages, bpm.pageTable, bpm.disk.Live(), bpm.poolSize);
    RoomIsFrame(bpm);
    if !bpm.HasRoom() {
      forall p | p in bpm.pageTable ensures p in HeldBy(guards) {
        assert Pinned(bpm.pages, bpm.pageTable, bpm.pageTable[p]);
      }
    }
  }

  lemma {:induction false} HeldIff(bpm: BufferPoolManager, guards: seq<BasicPageGuard>, p: PageId)
    requires Accounted(bpm, Elements(guards))
    ensures p in HeldBy(guards) <==> 0 < PinOf(bpm.pages, bpm.pageTable, p)
  {
    var hs := HoldersOf(Elements(guards), p);
    assert PinOf(bpm.pages, bpm.pageTable, p) == |hs|;
    if p in HeldBy(guards) {
      var g :| g in guards && g.held == p;
      assert g in hs;
    } else {
      assert hs == {};
    }
  }

  lemma {:induction false} RoomIsFrame(bpm: BufferPoolManager)
    requires bpm.Valid()
    ensures bpm.HasRoom() <==> exists f :: 0 <= f < bpm.poolSize && !Pinned(bpm.pages, bpm.pageTable, f)
  {
    forall f: nat | f < bpm.poolSize
      ensures Pinned(bpm.pages, bpm.pageTable, f) <==> f !in bpm.freeList && f !in bpm.replacer.Evictable()
    {
      assert FrameOk(bpm.pages, bpm.pageTable, bpm.freeList, bpm.replacer.visits, bpm.replacer.Evictable(), f);
    }
    if bpm.freeList != [] {
      assert bpm.freeList[0] in bpm.freeList;
    }
  }

  /** The flat store has what is committed, or what is in memory if that is newer. */
  ghost predicate Reflects(bpm: BufferPoolManager, store: D.File)
    reads bpm`pages, bpm`pageTable, bpm`committed, bpm`unsaved
  {
    forall p :: p in store ==>
      if p in bpm.unsaved then
        p in bpm.pageTable && bpm.pageTable[p] < |bpm.pages| && bpm.pages[bpm.pageTable[p]].data == store[p]
      else
        p in bpm.committed && bpm.committed[p] == store[p]
  }

  /** The client's guards, one for each handle. */
  ghost predicate Handled(guards: seq<BasicPageGuard>, handles: seq<PageId>)
    reads Elements(guards)
  {
    && |guards| == |handles| && (forall i :: 0 <= i < |guards| ==> guards[i].held == handles[i])
    && forall i, j :: 0 <= i < j < |guards| ==> guards[i] != guards[j]
  }

  ghost predicate Agrees(bpm: BufferPoolManager, guards: seq<BasicPageGuard>, s: Flat)
    reads bpm, bpm.replacer, bpm.lru, bpm.mainChain, bpm.disk, Elements(guards)
  {
    && bpm.Valid() && Accounted(bpm, Elements(guards)) && Handled(guards, s.handles)
    && s.known == bpm.disk.Live() && s.store.Keys <= s.known && Reflects(bpm, s.store)
  }

  lemma {:induction false} HandlesHeld(guards: seq<BasicPageGuard>, handles: seq<PageId>)
    requires Handled(guards, handles)
    ensures Elements(handles) == HeldBy(guards)
  {
    forall p | p in handles ensures p in HeldBy(guards) {
      var i :| 0 <= i < |handles| && handles[i] == p;
      assert guards[i] in guards && guards[i].held == p;
    }
    forall p | p in HeldBy(guards) ensures p in handles {
      var g :| g in guards && g.held == p;
      var i :| 0 <= i < |guards| && guards[i] == g;
      assert handles[i] == p;
    }
  }

  /** Pages with unsaved changes are held, so the flat store does not notice what happens to others. */
  lemma {:induction false} StillReflects(pages: seq<Page>, table: Table, unsaved: set<PageId>, committed: D.File, store: D.File,
                                         bpm: BufferPoolManager)
    requires forall p :: p in unsaved ==> 0 < PinOf(pages, table, p)
    requires Undisturbed(pages, table, bpm.pages, bpm.pageTable)
    requires forall p :: p in store ==> if p in unsaved then p in table && table[p] < |pages| && pages[table[p]].data == store[p]
                                        else p in committed && committed[p] == store[p]
    requires bpm.unsaved <= unsaved && forall p :: p in store && p !in bpm.unsaved ==> p in bpm.committed && bpm.committed[p] == store[p]
    ensures Reflects(bpm, store)
  {
    forall p | p in store && p in bpm.unsaved
      ensures p in bpm.pageTable && bpm.pageTable[p] < |bpm.pages| && bpm.pages[bpm.pageTable[p]].data == store[p]
    {
      assert 0 < PinOf(pages, table, p);
    }
  }

  /** The pages that the pool keeps, and their histories. */
  ghost predicate Caches(bpm: BufferPoolManager, cache: Cache)
    reads bpm`pageTable, bpm.replacer
  {
    Mirrors(bpm.pageTable, bpm.replacer.visits, cache.accesses) && cache.clock == bpm.replacer.currentTimestamp
  }

  /** What is known of a sound pool before an access. */
  ghost predicate Known(table: Table, free: seq<FrameId>, visits: seq<seq<nat>>, evictable: set<FrameId>, size: nat,
                        held: set<PageId>, cache: Cache) {
    && Mirrors(table, visits, cache.accesses) && OneToOne(table) && |table| <= size && (free == [] <==> |table| == size)
    && forall p :: p in table ==>
         table[p] !in free && visits[table[p]] != [] && (table[p] in evictable <==> p !in held)
  }

  lemma {:induction false} PoolKnown(bpm: BufferPoolManager, guards: seq<BasicPageGuard>, cache: Cache)
    requires bpm.Valid() && Accounted(bpm, Elements(guards)) && Caches(bpm, cache)
    ensures Known(bpm.pageTable, bpm.freeList, bpm.replacer.visits, bpm.replacer.Evictable(), bpm.poolSize, HeldBy(guards), cache)
  {
    FramesOfPages(bpm.pages, bpm.pageTable, bpm.freeList, bpm.replacer.visits, bpm.replacer.Evictable(), bpm.disk.Live());
    RoomIff(bpm, guards);
  }

  /** A page that is deleted is kept no longer. */
  lemma {:induction false} GoneCached(bpm: BufferPoolManager, p: PageId, table: Table, visits: seq<seq<nat>>, ok: bool, cache: Cache)
    requires OneToOne(table) && Mirrors(table, visits, cache.accesses) && cache.clock == bpm.replacer.currentTimestamp
    requires bpm.pageTable == if ok then table - {p} else table
    requires ok && p in table ==> table[p] < |visits| && bpm.replacer.visits == visits[table[p] := []]
    requires !(ok && p in table) ==> bpm.replacer.visits == visits
    ensures Caches(bpm, if ok && p in table then cache.(accesses := cache.accesses - {p}) else cache)
  {
    if ok && p in table {
      GoneMirrors(table, visits, cache.accesses, p, []);
    } else {
      assert table - {p} == table || p in table;
    }
  }

  lemma ClockIs(bpm: BufferPoolManager, cache: Cache)
    requires Caches(bpm, cache)
    ensures cache.clock == bpm.replacer.currentTimestamp && cache.accesses.Keys == bpm.pageTable.Keys
  {
  }

  lemma KnownTable(bpm: BufferPoolManager, guards: seq<BasicPageGuard>, cache: Cache)
    requires bpm.Valid() && Accounted(bpm, Elements(guards)) && Caches(bpm, cache)
    ensures OneToOne(bpm.pageTable) && Mirrors(bpm.pageTable, bpm.replacer.visits, cache.accesses)
    ensures cache.clock == bpm.replacer.currentTimestamp && cache.accesses.Keys == bpm.pageTable.Keys
  {
    PoolKnown(bpm, guards, cache);
  }

  lemma LivePages(bpm: BufferPoolManager)
    requires bpm.Valid()
    ensures bpm.pageTable.Keys <= bpm.disk.Live()
  {
  }

  /** A pool without room keeps what it has. */
  lemma SameCached(bpm: BufferPoolManager, p: PageId, table: Table, pages: seq<Page>, free: seq<FrameId>, visits: seq<seq<nat>>,
                   evictable: set<FrameId>, wasThere: bool, cache: Cache)
    requires bpm.Accessed(false, p, 0, wasThere, pages, table, free, visits, evictable, cache.clock)
    requires Mirrors(table, visits, cache.accesses)
    ensures Caches(bpm, cache)
  {
  }

  /** An access of the pool is one of its pages. */
  lemma {:induction false} AccessCached(bpm: BufferPoolManager, p: PageId, f: FrameId, pages: seq<Page>, table: Table,
                                        free: seq<FrameId>, visits: seq<seq<nat>>, evictable: set<FrameId>, held: set<PageId>,
                                        before: Cache) returns (after: Cache)
    requires bpm.Accessed(true, p, f, p in table, pages, table, free, visits, evictable, before.clock)
    requires Known(table, free, visits, evictable, bpm.poolSize, held, before)
    ensures Caches(bpm, after) && Accesses(bpm.poolSize, bpm.replacer.kValue, held, before, p, after)
  {
    var t := before.clock + 1;
    if p in table {
      after := Cache(before.accesses[p := before.accesses[p] + [t]], t);
      HitMirrors(table, visits, before.accesses, p, t);
    } else if free != [] {
      after := Cache(before.accesses[p := [t]], t);
      assert f in free && [] + [t] == [t];
      MissMirrors(table, visits, before.accesses, p, f, t);
    } else {
      assert [] + [t] == [t];
      after := Evicted(bpm, p, f, pages, table, visits, evictable, held, before);
    }
  }

  lemma {:induction false} Evicted(bpm: BufferPoolManager, p: PageId, f: FrameId, pages: seq<Page>, table: Table,
                                   visits: seq<seq<nat>>, evictable: set<FrameId>, held: set<PageId>, before: Cache)
    returns (after: Cache)
    requires p !in table && |table| == bpm.poolSize && f < |visits| && f < |pages|
    requires Known(table, [], visits, evictable, bpm.poolSize, held, before)
    requires bpm.replacer.visits == visits[f := [before.clock + 1]] && bpm.replacer.currentTimestamp == before.clock + 1
    requires pages[f].pageId in table && table[pages[f].pageId] == f && BufferPoolManager.Chosen(visits, evictable, bpm.replacer.kValue, f)
    requires bpm.pageTable == (table - {pages[f].pageId})[p := f]
    ensures Caches(bpm, after) && Accesses(bpm.poolSize, bpm.replacer.kValue, held, before, p, after)
  {
    var t, v, k := before.clock + 1, pages[f].pageId, bpm.replacer.kValue;
    after := Cache((before.accesses - {v})[p := [t]], t);
    GoneMirrors(table, visits, before.accesses, v, []);
    assert visits[f := []][f := [t]] == visits[f := [t]];
    MissMirrors(table - {v}, visits[f := []], before.accesses - {v}, p, f, t);
    assert f in evictable && v !in held;
    if 2 <= k {
      VictimMirrors(table, visits, before.accesses, evictable, before.accesses.Keys - held, k, f, v);
    }
    assert Replaces(k, held, before.accesses, v, p, after);
    assert |before.accesses.Keys| == |table.Keys|;
  }

  lemma {:induction false} ElementsJoin<T>(s: seq<T>, x: T)
    ensures Elements(s + [x]) == Elements(s) + {x}
  {
    assert forall y :: y in s + [x] <==> y in s || y == x;
  }

  lemma {:induction false} HandledJoin(guards: seq<BasicPageGuard>, handles: seq<PageId>, g: BasicPageGuard)
    requires Handled(guards, handles) && g !in guards
    ensures Handled(guards + [g], handles + [g.held])
  {
  }

  /** One guard of the client's goes. */
  lemma {:induction false} ElementsLeave(guards: seq<BasicPageGuard>, handles: seq<PageId>, i: nat)
    requires Handled(guards, handles) && i < |guards|
    ensures Elements(Without(guards, i)) == Elements(guards) - {guards[i]}
    ensures Handled(Without(guards, i), Without(handles, i))
  {
    var rest := Without(guards, i);
    forall g | g in guards && g != guards[i] ensures g in rest {
      var j :| 0 <= j < |guards| && guards[j] == g;
      assert rest[if j < i then j else j - 1] == g;
    }
    forall g | g in rest ensures g in guards && g != guards[i] {
      var j :| 0 <= j < |rest| && rest[j] == g;
      assert g == guards[if j < i then j else j + 1];
    }
  }

  /** What the agreement says, for the proofs that keep the pool's own invariant folded. */
  lemma {:induction false} AgreesParts(bpm: BufferPoolManager, guards: seq<BasicPageGuard>, s: Flat)
    ensures Agrees(bpm, guards, s) <==>
      && bpm.Valid() && Accounted(bpm, Elements(guards)) && Handled(guards, s.handles)
      && s.known == bpm.disk.Live() && s.store.Keys <= s.known && Reflects(bpm, s.store)
    ensures Accounted(bpm, Elements(guards)) ==> forall p :: p in bpm.unsaved ==> 0 < PinOf(bpm.pages, bpm.pageTable, p)
    ensures Reflects(bpm, s.store) <==>
      forall p :: p in s.store ==> if p in bpm.unsaved then p in bpm.pageTable && bpm.pageTable[p] < |bpm.pages|
                                                            && bpm.pages[bpm.pageTable[p]].data == s.store[p]
                                   else p in bpm.committed && bpm.committed[p] == s.store[p]
  {
    if Accounted(bpm, Elements(guards)) {
      forall p | p in bpm.unsaved ensures 0 < PinOf(bpm.pages, bpm.pageTable, p) {
        var g :| g in guards && g.held == p;
        HeldIff(bpm, guards, p);
      }
    }
  }

  method OpenPage(bpm: BufferPoolManager, guards: seq<BasicPageGuard>, p: PageId, ghost s: Flat, ghost cache: Cache)
    returns (r: Reply, now: seq<BasicPageGuard>, ghost cache': Cache)
    requires Agrees(bpm, guards, s) && p in s.known && Caches(bpm, cache)
    modifies bpm, bpm.replacer, bpm.lru, bpm.mainChain, bpm.disk
    ensures Allowed(bpm.poolSize, s, Open(p), r) && Agrees(bpm, now, Next(s, Open(p), r))
    ensures Caches(bpm, cache') && CacheStep(bpm.poolSize, bpm.replacer.kValue, s, Open(p), r, cache, cache')
    ensures fresh(Elements(now) - Elements(guards))
  {
    hide FramesOk, TableOk, StoreOk, PinsBut, PinsSame, Undisturbed, BufferPoolManager.Valid, BufferPoolManager.Wired,
      BufferPoolManager.InOrder, BufferPoolManager.HasRoom, Accounted, Agrees, Reflects, HeldBy, Handled, Caches, Known,
      BufferPoolManager.Accessed, Accesses;
    AgreesParts(bpm, guards, s);
    RoomIff(bpm, guards);
    HandlesHeld(guards, s.handles);
    assert p in bpm.pageTable && !bpm.HasRoom() ==> p in s.handles;
    PoolKnown(bpm, guards, cache);
    ghost var pages, table, free, visits := bpm.pages, bpm.pageTable, bpm.freeList, bpm.replacer.visits;
    ghost var evictable, held := bpm.replacer.Evictable(), HeldBy(guards);
    ClockIs(bpm, cache);
    var g, all := FetchPageBasic(bpm, p, Elements(guards));
    StillReflects(pages, table, bpm.unsaved, bpm.committed, s.store, bpm);
    if g == null {
      r, now, cache' := Full, guards, cache;
      SameCached(bpm, p, table, pages, free, visits, evictable, p in table, cache);
      AgreesParts(bpm, guards, s);
      return;
    }
    var guard: BasicPageGuard := g;
    cache' := AccessCached(bpm, p, g.page, pages, table, free, visits, evictable, held, cache);
    r, now := Opened(p), guards + [guard];
    ElementsJoin(guards, guard);
    HandledJoin(guards, s.handles, guard);
    AgreesParts(bpm, now, s.(handles := s.handles + [p]));
  }

  method NewPage(bpm: BufferPoolManager, guards: seq<BasicPageGuard>, ghost s: Flat, ghost cache: Cache)
    returns (r: Reply, now: seq<BasicPageGuard>, ghost cache': Cache)
    requires Agrees(bpm, guards, s) && Caches(bpm, cache)
    modifies bpm, bpm.replacer, bpm.lru, bpm.mainChain, bpm.disk
    ensures Allowed(bpm.poolSize, s, New, r) && Agrees(bpm, now, Next(s, New, r))
    ensures Caches(bpm, cache') && CacheStep(bpm.poolSize, bpm.replacer.kValue, s, New, r, cache, cache')
    ensures fresh(Elements(now) - Elements(guards))
  {
    hide FramesOk, TableOk, StoreOk, PinsBut, PinsSame, Undisturbed, BufferPoolManager.Valid, BufferPoolManager.Wired,
      BufferPoolManager.InOrder, BufferPoolManager.HasRoom, Accounted, Agrees, Reflects, HeldBy, Handled, Caches, Known,
      BufferPoolManager.Accessed, Accesses;
    AgreesParts(bpm, guards, s);
    RoomIff(bpm, guards);
    HandlesHeld(guards, s.handles);
    PoolKnown(bpm, guards, cache);
    ghost var pages, table, free, visits := bpm.pages, bpm.pageTable, bpm.freeList, bpm.replacer.visits;
    ghost var evictable, held := bpm.replacer.Evictable(), HeldBy(guards);
    ClockIs(bpm, cache);
    LivePages(bpm);
    var g, p, all := NewPageGuarded(bpm, Elements(guards));
    StillReflects(pages, table, bpm.unsaved, bpm.committed, s.store, bpm);
    if g == null {
      r, now, cache' := Full, guards, cache;
      SameCached(bpm, p, table, pages, free, visits, evictable, false, cache);
      AgreesParts(bpm, guards, s);
      return;
    }
    var guard: BasicPageGuard := g;
    cache' := AccessCached(bpm, p, g.page, pages, table, free, visits, evictable, held, cache);
    r, now := Opened(p), guards + [guard];
    ElementsJoin(guards, guard);
    HandledJoin(guards, s.handles, guard);
    AgreesParts(bpm, now, s.(known := s.known + {p}, handles := s.handles + [p]));
  }

  /** The page of a guard is in memory, with the contents the flat store has. */
  lemma {:induction false} GuardSees(bpm: BufferPoolManager, guards: seq<BasicPageGuard>, s: Flat, i: nat)
    requires Agrees(bpm, guards, s) && i < |guards|
    ensures |guards| == |s.handles|
    ensures
      var g := guards[i];
      && Holds(bpm, g) && g.page < |bpm.pages| && g in Elements(guards) && g.held == s.handles[i] && g.held in s.known
      && bpm.pages[g.page].pageId == g.held && 0 < |bpm.pages| == bpm.poolSize
      && (s.handles[i] in s.store ==> bpm.pages[g.page].data == s.store[s.handles[i]])
  {
    var g := guards[i];
    assert g in Elements(guards);
    bpm.Resident(g.held);
  }

  method Write(bpm: BufferPoolManager, guards: seq<BasicPageGuard>, i: nat, data: Block, ghost s: Flat)
    requires Agrees(bpm, guards, s) && i < |guards|
    modifies bpm`pages, bpm`unsaved, Elements(guards)
    ensures Agrees(bpm, guards, Next(s, Put(i, data), Done))
  {
    hide FramesOk, TableOk, StoreOk, PinsBut, PinsSame, Undisturbed, BufferPoolManager.Valid, BufferPoolManager.Wired,
      BufferPoolManager.InOrder, BufferPoolManager.HasRoom, Accounted, Agrees, HeldBy;
    AgreesParts(bpm, guards, s);
    GuardSees(bpm, guards, s, i);
    bpm.FrameOfOthers(guards[i].held);
    WriteThrough(guards[i], data, Elements(guards));
    AgreesParts(bpm, guards, s.(store := s.store[s.handles[i] := data]));
  }

  method Release(bpm: BufferPoolManager, guards: seq<BasicPageGuard>, i: nat, ghost s: Flat)
    returns (now: seq<BasicPageGuard>)
    requires Agrees(bpm, guards, s) && i < |guards|
    modifies bpm, bpm.replacer, bpm.lru, bpm.mainChain, Elements(guards)
    ensures bpm.pageTable == old(bpm.pageTable) && bpm.replacer.visits == old(bpm.replacer.visits)
    ensures bpm.replacer.currentTimestamp == old(bpm.replacer.currentTimestamp)
    ensures now == Without(guards, i) && Agrees(bpm, now, Next(s, Drop(i), Done))
  {
    hide FramesOk, TableOk, StoreOk, PinsBut, PinsSame, Undisturbed, BufferPoolManager.Valid, BufferPoolManager.Wired,
      BufferPoolManager.InOrder, BufferPoolManager.HasRoom, Accounted, Agrees, HeldBy, Handled, Reflects;
    AgreesParts(bpm, guards, s);
    GuardSees(bpm, guards, s, i);
    ElementsLeave(guards, s.handles, i);
    ghost var pages, table, committed, unsaved := bpm.pages, bpm.pageTable, bpm.committed, bpm.unsaved;
    now := Without(guards, i);
    ghost var all := PageGuards.Drop(guards[i], Elements(guards));
    StillReflects(pages, table, unsaved, committed, s.store, bpm);
    AgreesParts(bpm, now, s.(handles := Without(s.handles, i)));
  }

  /** Nothing the client can tell has changed. */
  lemma {:induction false} SeesTheSame(pages: seq<Page>, table: Table, bpm: BufferPoolManager, guards: seq<BasicPageGuard>,
                                       store: D.File)
    requires forall g :: g in Elements(guards) ==> g.bpm == bpm && g.held in table && g.page == table[g.held]
    requires forall p :: PinOf(pages, table, p) == |HoldersOf(Elements(guards), p)|
    requires forall p :: p in bpm.unsaved ==> exists g :: g in Elements(guards) && g.held == p && g.isDirty
    requires forall p :: p in store ==>
      if p in bpm.unsaved then p in table && table[p] < |pages| && pages[table[p]].data == store[p]
      else p in bpm.committed && bpm.committed[p] == store[p]
    requires Undisturbed(pages, table, bpm.pages, bpm.pageTable) && PinsSame(pages, table, bpm.pages, bpm.pageTable)
    ensures Accounted(bpm, Elements(guards)) && Reflects(bpm, store)
  {
    AccountSame(pages, table, bpm, Elements(guards));
    forall p | p in bpm.unsaved ensures 0 < PinOf(pages, table, p) {
      var g :| g in Elements(guards) && g.held == p;
      assert g in HoldersOf(Elements(guards), p);
    }
    StillReflects(pages, table, bpm.unsaved, bpm.committed, store, bpm);
  }

  method FlushHeld(bpm: BufferPoolManager, guards: seq<BasicPageGuard>, i: nat, ghost s: Flat)
    requires Agrees(bpm, guards, s) && i < |guards|
    modifies bpm`pages, bpm`pageTable, bpm.disk
    ensures Agrees(bpm, guards, s) && bpm.pageTable == old(bpm.pageTable)
  {
    hide FramesOk, TableOk, StoreOk, PinsBut, PinsSame, Undisturbed, BufferPoolManager.Valid, BufferPoolManager.Wired,
      BufferPoolManager.InOrder, BufferPoolManager.HasRoom, Agrees, HeldBy, Handled, Reflects;
    AgreesParts(bpm, guards, s);
    GuardSees(bpm, guards, s, i);
    ghost var pages, table := bpm.pages, bpm.pageTable;
    var ok := bpm.FlushPage(bpm.pages[guards[i].page].pageId);
    SeesTheSame(pages, table, bpm, guards, s.store);
    AgreesParts(bpm, guards, s);
  }

  method FlushEvery(bpm: BufferPoolManager, guards: seq<BasicPageGuard>, ghost s: Flat)
    requires Agrees(bpm, guards, s)
    modifies bpm`pages, bpm`pageTable, bpm.disk
    ensures Agrees(bpm, guards, s) && bpm.pageTable == old(bpm.pageTable)
  {
    hide FramesOk, TableOk, StoreOk, PinsBut, PinsSame, Undisturbed, BufferPoolManager.Valid, BufferPoolManager.Wired,
      BufferPoolManager.InOrder, BufferPoolManager.HasRoom, Agrees, HeldBy, Handled, Reflects;
    AgreesParts(bpm, guards, s);
    ghost var pages, table := bpm.pages, bpm.pageTable;
    bpm.FlushAllPages();
    SeesTheSame(pages, table, bpm, guards, s.store);
    AgreesParts(bpm, guards, s);
  }

  method Remove(bpm: BufferPoolManager, guards: seq<BasicPageGuard>, p: PageId, ghost s: Flat, ghost cache: Cache)
    returns (r: Reply, ghost cache': Cache)
    requires Agrees(bpm, guards, s) && p in s.known && Caches(bpm, cache)
    modifies bpm, bpm.replacer, bpm.lru, bpm.mainChain, bpm.disk
    ensures Caches(bpm, cache') && CacheStep(bpm.poolSize, bpm.replacer.kValue, s, Delete(p), r, cache, cache')
    ensures Allowed(bpm.poolSize, s, Delete(p), r) && Agrees(bpm, guards, Next(s, Delete(p), r))
  {
    hide FramesOk, TableOk, StoreOk, PinsBut, PinsSame, Undisturbed, BufferPoolManager.Valid, BufferPoolManager.Wired,
      BufferPoolManager.InOrder, BufferPoolManager.HasRoom, Agrees, HeldBy, Handled, Reflects, Caches, Mirrors, Known, OneToOne;
    AgreesParts(bpm, guards, s);
    HandlesHeld(guards, s.handles);
    HeldIff(bpm, guards, p);
    ghost var pages, table, visits := bpm.pages, bpm.pageTable, bpm.replacer.visits;
    KnownTable(bpm, guards, cache);
    var resident := p in bpm.pageTable;
    var ok := bpm.DeletePage(p);
    r := if !ok then Refused else if resident then Gone else Stays;
    var after := if ok && resident then s.(store := s.store - {p}, known := s.known - {p}) else s;
    cache' := if ok && resident then cache.(accesses := cache.accesses - {p}) else cache;
    GoneCached(bpm, p, table, visits, ok, cache);
    SeesTheSame(pages, table, bpm, guards, after.store);
    AgreesParts(bpm, guards, after);
  }

  /** One command of the client's, and what it is told. */
  method Execute(bpm: BufferPoolManager, command: Command, guards: seq<BasicPageGuard>, known: set<PageId>, ghost s: Flat,
                 ghost cache: Cache)
    returns (r: Reply, now: seq<BasicPageGuard>, known': set<PageId>, ghost cache': Cache)
    requires Agrees(bpm, guards, s) && known == s.known && Caches(bpm, cache)
    modifies bpm, bpm.replacer, bpm.lru, bpm.mainChain, bpm.disk, Elements(guards)
    ensures Caches(bpm, cache') && CacheStep(bpm.poolSize, bpm.replacer.kValue, s, command, r, cache, cache')
    ensures Allowed(bpm.poolSize, s, command, r)
    ensures Agrees(bpm, now, Next(s, command, r)) && known' == Next(s, command, r).known
    ensures fresh(Elements(now) - Elements(guards))
  {
    hide BufferPoolManager.Valid, Accounted, Reflects;
    r, now, known', cache' := Ignored, guards, known, cache;
    match command
    case Open(p) =>
      if p in known {
        r, now, cache' := OpenPage(bpm, guards, p, s, cache);
      }
    case New =>
      r, now, cache' := NewPage(bpm, guards, s, cache);
      if r.Opened? {
        known' := known + {r.id};
      }
    case Look(i) =>
      if i < |guards| {
        GuardSees(bpm, guards, s, i);
        r := Seen(bpm.pages[guards[i].page].data);
      }
    case Put(i, data) =>
      if i < |guards| {
        Write(bpm, guards, i, data, s);
        r := Done;
      }
    case Drop(i) =>
      if i < |guards| {
        now := Release(bpm, guards, i, s);
        r := Done;
      }
    case Flush(i) =>
      if i < |guards| {
        FlushHeld(bpm, guards, i, s);
        r := Done;
      }
    case FlushAll =>
      FlushEvery(bpm, guards, s);
      r := Done;
    case Delete(p) =>
      if p in known {
        r, cache' := Remove(bpm, guards, p, s, cache);
        known' := if r == Gone then known - {p} else known;
      }
  }

  /** Each reply is one that a flat store, in the state it then has, may give. */
  ghost predicate AsFlat(size: nat, s: Flat, commands: seq<Command>, replies: seq<Reply>)
    requires |commands| == |replies|
  {
    forall i :: 0 <= i < |commands| ==> Allowed(size, After(s, commands[..i], replies[..i]), commands[i], replies[i])
  }

  lemma {:induction false} AsFlatMore(size: nat, s: Flat, commands: seq<Command>, replies: seq<Reply>, c: Command, r: Reply)
    requires |commands| == |replies| && AsFlat(size, s, commands, replies) && Allowed(size, After(s, commands, replies), c, r)
    ensures AsFlat(size, s, commands + [c], replies + [r])
  {
    hide After, Allowed;
    var cs, rs, n := commands + [c], replies + [r], |commands|;
    forall i | 0 <= i < |cs| ensures Allowed(size, After(s, cs[..i], rs[..i]), cs[i], rs[i]) {
      assert cs[..i] == commands[..i] && rs[..i] == replies[..i];
      if i == n {
        assert commands[..n] == commands && replies[..n] == replies;
      }
    }
  }

  /** The pages that are kept change as the commands say, step by step. */
  ghost predicate CacheRun(size: nat, k: nat, s: Flat, commands: seq<Command>, replies: seq<Reply>, caches: seq<Cache>)
    requires |commands| == |replies|
  {
    && |caches| == |commands| + 1
    && forall i :: 0 <= i < |commands| ==>
         CacheStep(size, k, After(s, commands[..i], replies[..i]), commands[i], replies[i], caches[i], caches[i + 1])
  }

  lemma {:induction false} CacheRunMore(size: nat, k: nat, s: Flat, commands: seq<Command>, replies: seq<Reply>, caches: seq<Cache>,
                                        c: Command, r: Reply, next: Cache)
    requires |commands| == |replies| && CacheRun(size, k, s, commands, replies, caches)
    requires CacheStep(size, k, After(s, commands, replies), c, r, caches[|caches| - 1], next)
    ensures CacheRun(size, k, s, commands + [c], replies + [r], caches + [next])
  {
    hide After, CacheStep;
    var cs, rs, xs, n := commands + [c], replies + [r], caches + [next], |commands|;
    forall i | 0 <= i < |cs| ensures CacheStep(size, k, After(s, cs[..i], rs[..i]), cs[i], rs[i], xs[i], xs[i + 1]) {
      assert cs[..i] == commands[..i] && rs[..i] == replies[..i];
      if i == n {
        assert commands[..n] == commands && replies[..n] == replies;
      }
    }
  }

  /** No two accesses of a run are at one time, if none were before. */
  lemma {:induction false} RunTimely(size: nat, k: nat, s: Flat, commands: seq<Command>, replies: seq<Reply>, caches: seq<Cache>,
                                     n: nat)
    requires |commands| == |replies| && CacheRun(size, k, s, commands, replies, caches) && Timely(caches[0]) && n <= |commands|
    ensures Timely(caches[n])
  {
    if n > 0 {
      RunTimely(size, k, s, commands, replies, caches, n - 1);
      var before := After(s, commands[..n - 1], replies[..n - 1]);
      assert CacheStep(size, k, before, commands[n - 1], replies[n - 1], caches[n - 1], caches[n]);
      if replies[n - 1].Opened? && (commands[n - 1].Open? || commands[n - 1].New?) {
        StaysTimely(size, k, Elements(before.handles), caches[n - 1], replies[n - 1].id, caches[n]);
      }
    }
  }

  /** For `k >= 2` the commands and the replies determine which pages are kept at every point of a run, and so each victim. */
  lemma {:induction false} OneCacheRun(size: nat, k: nat, s: Flat, commands: seq<Command>, replies: seq<Reply>, caches: seq<Cache>,
                                       others: seq<Cache>, n: nat)
    requires 2 <= k && |commands| == |replies| && n <= |commands|
    requires CacheRun(size, k, s, commands, replies, caches) && CacheRun(size, k, s, commands, replies, others)
    requires caches[0] == others[0] && Timely(caches[0])
    ensures caches[n] == others[n]
  {
    if n > 0 {
      OneCacheRun(size, k, s, commands, replies, caches, others, n - 1);
      RunTimely(size, k, s, commands, replies, caches, n - 1);
      var before, c, r := After(s, commands[..n - 1], replies[..n - 1]), commands[n - 1], replies[n - 1];
      assert CacheStep(size, k, before, c, r, caches[n - 1], caches[n]) && CacheStep(size, k, before, c, r, others[n - 1], others[n]);
      if r.Opened? && (c.Open? || c.New?) {
        OneOutcome(size, k, Elements(before.handles), caches[n - 1], r.id, caches[n], others[n]);
      }
    }
  }

  /** The histories of the pages in the pool. */
  ghost function CacheOf(bpm: BufferPoolManager): Cache
    reads bpm`pageTable, bpm.replacer
  {
    Cache(map p | p in bpm.pageTable && bpm.pageTable[p] < |bpm.replacer.visits| :: bpm.replacer.visits[bpm.pageTable[p]],
          bpm.replacer.currentTimestamp)
  }

  /**
   Any run, whatever the pool evicts: each reply is one that a flat store gives
   at that point, and the pages given up are those that LRU-K names among the
   pages opened so far. The client starts without guards and knows every page there is.
   */
  method Replay(bpm: BufferPoolManager, known: set<PageId>, commands: seq<Command>)
    returns (replies: seq<Reply>, guards: seq<BasicPageGuard>, ghost caches: seq<Cache>)
    requires bpm.Valid() && Accounted(bpm, {}) && known == bpm.disk.Live()
    modifies bpm, bpm.replacer, bpm.lru, bpm.mainChain, bpm.disk
    ensures |replies| == |commands|
    ensures
      var s := Flat(old(bpm.committed), known, []);
      && AsFlat(bpm.poolSize, s, commands, replies) && Agrees(bpm, guards, After(s, commands, replies))
      && CacheRun(bpm.poolSize, bpm.replacer.kValue, s, commands, replies, caches) && caches[0] == old(CacheOf(bpm))
      && caches[|commands|] == CacheOf(bpm)
  {
    hide Agrees, After, Allowed, Next, AsFlat, BufferPoolManager.Valid, Accounted, CacheRun, CacheStep, Caches, CacheOf;
    ghost var s := Flat(bpm.committed, known, []);
    replies, guards, caches := [], [], [CacheOf(bpm)];
    AtFirst(bpm, s);
    CacheFirst(bpm);
    NoCommands(bpm.poolSize, bpm.replacer.kValue, s, CacheOf(bpm));
    var now := known;
    var n := 0;
    assert commands[..0] == [];
    while n < |commands|
      invariant 0 <= n <= |commands| && |replies| == n && fresh(Elements(guards)) && |caches| == n + 1
      invariant Agrees(bpm, guards, After(s, commands[..n], replies)) && now == After(s, commands[..n], replies).known
      invariant AsFlat(bpm.poolSize, s, commands[..n], replies)
      invariant CacheRun(bpm.poolSize, bpm.replacer.kValue, s, commands[..n], replies, caches)
      invariant caches[0] == old(CacheOf(bpm)) && Caches(bpm, caches[n])
    {
      ghost var past := commands[..n];
      var r;
      ghost var next;
      r, guards, now, next := Execute(bpm, commands[n], guards, now, After(s, past, replies), caches[n]);
      AfterMore(s, past, replies, commands[n], r);
      AsFlatMore(bpm.poolSize, s, past, replies, commands[n], r);
      CacheRunMore(bpm.poolSize, bpm.replacer.kValue, s, past, replies, caches, commands[n], r, next);
      assert commands[..n + 1] == past + [commands[n]];
      replies := replies + [r];
      caches := caches + [next];
      n := n + 1;
    }
    assert commands[..n] == commands;
    CachesOne(bpm, caches[n]);
  }

  lemma CachesOne(bpm: BufferPoolManager, cache: Cache)
    requires Caches(bpm, cache)
    ensures cache == CacheOf(bpm)
  {
    assert cache.accesses == CacheOf(bpm).accesses;
  }

  lemma {:induction false} AtFirst(bpm: BufferPoolManager, s: Flat)
    requires bpm.Valid() && Accounted(bpm, {}) && s == Flat(bpm.committed, bpm.disk.Live(), [])
    ensures Agrees(bpm, [], s)
  {
    assert Elements<BasicPageGuard>([]) == {};
  }

  lemma NoCommands(size: nat, k: nat, s: Flat, cache: Cache)
    ensures After(s, [], []) == s && AsFlat(size, s, [], []) && CacheRun(size, k, s, [], [], [cache])
  {
  }

  lemma {:induction false} CacheFirst(bpm: BufferPoolManager)
    requires bpm.Valid()
    ensures Caches(bpm, CacheOf(bpm))
  {
    FramesOfPages(bpm.pages, bpm.pageTable, bpm.freeList, bpm.replacer.visits, bpm.replacer.Evictable(), bpm.disk.Live());
    hide BufferPoolManager.InOrder;
  }

  /** No command but a write to it through some guard, or its deletion, touches a page. */
  predicate Touches(s: Flat, c: Command, r: Reply, p: PageId) {
    (c.Put? && c.i < |s.handles| && s.handles[c.i] == p) || (c.Delete? && c.p == p && r == Gone)
  }

  lemma {:induction false} StaysStored(size: nat, s: Flat, commands: seq<Command>, replies: seq<Reply>, m: nat, n: nat, p: PageId,
                                       data: Block)
    requires |commands| == |replies| && m <= n <= |commands|
    requires p in After(s, commands[..m], replies[..m]).store && After(s, commands[..m], replies[..m]).store[p] == data
    requires forall i :: m <= i < n ==> !Touches(After(s, commands[..i], replies[..i]), commands[i], replies[i], p)
    ensures p in After(s, commands[..n], replies[..n]).store && After(s, commands[..n], replies[..n]).store[p] == data
    decreases n - m
  {
    if m < n {
      StaysStored(size, s, commands, replies, m, n - 1, p, data);
      assert commands[..n][..n - 1] == commands[..n - 1] && replies[..n][..n - 1] == replies[..n - 1];
      assert !Touches(After(s, commands[..n - 1], replies[..n - 1]), commands[n - 1], replies[n - 1], p);
    }
  }

  /** What is written is read: a look at a page shows what the last write to it, under any guard, left there. */
  lemma {:induction false} LooksAtLastPut(size: nat, s: Flat, commands: seq<Command>, replies: seq<Reply>, m: nat, n: nat, i: nat,
                                          j: nat, data: Block)
    requires |commands| == |replies| && AsFlat(size, s, commands, replies) && m < n < |commands|
    requires commands[m] == Put(i, data) && replies[m] == Done && commands[n] == Look(j) && replies[n] != Ignored
    requires
      var was, now := After(s, commands[..m], replies[..m]), After(s, commands[..n], replies[..n]);
      && (i < |was.handles| && j < |now.handles| ==> was.handles[i] == now.handles[j])
      && forall x :: m < x < n && i < |was.handles| ==>
           !Touches(After(s, commands[..x], replies[..x]), commands[x], replies[x], was.handles[i])
    ensures replies[n] == Seen(data)
  {
    var was := After(s, commands[..m], replies[..m]);
    assert Allowed(size, was, commands[m], replies[m]);
    assert Allowed(size, After(s, commands[..n], replies[..n]), commands[n], replies[n]);
    assert commands[..m + 1][..m] == commands[..m] && replies[..m + 1][..m] == replies[..m];
    StaysStored(size, s, commands, replies, m + 1, n, was.handles[i], data);
  }
}
