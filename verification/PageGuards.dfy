/**
 Page guards over the buffer pool: who holds which page, and why the pool's
 demand on unpinning is always met. Every pin is a guard's, and a page with
 unsaved changes has a dirty guard, so the last guard to go commits them.
 */
module PageGuards {
  import opened BufferPool
  import opened BufferPoolManager
  import D = DiskManager

  class BasicPageGuard {
    var bpm: BufferPoolManager?
    var page: FrameId
    var isDirty: bool
    ghost var held: PageId

    /** A guard for a page that has just been pinned. */
    constructor (bpm: BufferPoolManager, page: FrameId, ghost held: PageId)
      ensures this.bpm == bpm && this.page == page && !isDirty && this.held == held
    {
      this.bpm, this.page, this.isDirty := bpm, page, false;
      this.held := held;
    }
  }

  /** The guards of one page. */
  ghost function HoldersOf(guards: set<BasicPageGuard>, p: PageId): set<BasicPageGuard>
    reads guards`held
  {
    set g | g in guards && g.held == p
  }

  ghost predicate Holds(bpm: BufferPoolManager, g: BasicPageGuard)
    reads bpm`pageTable, g`bpm, g`held, g`page
  {
    g.bpm == bpm && g.held in bpm.pageTable && g.page == bpm.pageTable[g.held]
  }

  /** The guards account for every pin and for every page with unsaved changes. */
  ghost predicate Accounted(bpm: BufferPoolManager, guards: set<BasicPageGuard>)
    reads bpm, guards
  {
    && (forall g :: g in guards ==> Holds(bpm, g))
    && (forall p :: PinOf(bpm.pages, bpm.pageTable, p) == |HoldersOf(guards, p)|)
    && (forall p :: p in bpm.unsaved ==> exists g :: g in guards && g.held == p && g.isDirty)
  }

  lemma {:induction false} HolderPins(bpm: BufferPoolManager, guards: set<BasicPageGuard>, g: BasicPageGuard)
    requires Accounted(bpm, guards) && g in guards
    ensures 0 < PinOf(bpm.pages, bpm.pageTable, g.held)
  {
    assert g in HoldersOf(guards, g.held);
  }

  /** The last guard of a page with unsaved changes is the dirty one. */
  lemma {:induction false} LastIsDirty(bpm: BufferPoolManager, guards: set<BasicPageGuard>, g: BasicPageGuard)
    requires Accounted(bpm, guards) && g in guards && PinOf(bpm.pages, bpm.pageTable, g.held) == 1 && g.held in bpm.unsaved
    ensures g.isDirty
  {
    var d :| d in guards && d.held == g.held && d.isDirty;
    var hs := HoldersOf(guards, g.held);
    assert {g, d} <= hs;
    assert |hs - {g}| == 0;
    assert d !in hs - {g};
  }

  /** The guards of each page when one guard joins. */
  lemma {:induction false} Joins(guards: set<BasicPageGuard>, g: BasicPageGuard, p: PageId)
    requires g !in guards
    ensures |HoldersOf(guards + {g}, p)| == |HoldersOf(guards, p)| + (if g.held == p then 1 else 0)
  {
    assert HoldersOf(guards + {g}, p) == HoldersOf(guards, p) + (if g.held == p then {g} else {});
  }

  lemma {:induction false} Leaves(guards: set<BasicPageGuard>, g: BasicPageGuard, p: PageId)
    requires g in guards
    ensures |HoldersOf(guards - {g}, p)| == |HoldersOf(guards, p)| - (if g.held == p then 1 else 0)
  {
    assert HoldersOf(guards - {g}, p) == HoldersOf(guards, p) - (if g.held == p then {g} else {});
    assert g.held == p ==> g in HoldersOf(guards, p);
  }

  /** The pool has changed, the guards have not, and one has joined. */
  lemma {:induction false} AccountJoin(pages: seq<Page>, table: Table, bpm: BufferPoolManager, guards: set<BasicPageGuard>,
                                       g: BasicPageGuard)
    requires g !in guards && Holds(bpm, g)
    requires forall h :: h in guards ==> h.bpm == bpm && h.held in table && h.page == table[h.held]
    requires forall p :: PinOf(pages, table, p) == |HoldersOf(guards, p)|
    requires Undisturbed(pages, table, bpm.pages, bpm.pageTable)
    requires PinsBut(pages, table, bpm.pages, bpm.pageTable, g.held, PinOf(pages, table, g.held) + 1)
    requires forall p :: p in bpm.unsaved ==> exists h :: h in guards && h.held == p && h.isDirty
    ensures Accounted(bpm, guards + {g})
  {
    forall h | h in guards ensures Holds(bpm, h) {
      assert h in HoldersOf(guards, h.held);
      assert 0 < PinOf(pages, table, h.held);
    }
    forall p ensures PinOf(bpm.pages, bpm.pageTable, p) == |HoldersOf(guards + {g}, p)| {
      Joins(guards, g, p);
      assert PinOf(pages, table, p) == |HoldersOf(guards, p)|;
    }
    forall p | p in bpm.unsaved ensures exists h :: h in guards + {g} && h.held == p && h.isDirty {
      var h :| h in guards && h.held == p && h.isDirty;
      assert h in guards + {g};
    }
  }

  /** `FetchPageBasic`, and the source's error when the pool is full as no guard. */
  method FetchPageBasic(bpm: BufferPoolManager, pageId: PageId, ghost guards: set<BasicPageGuard>)
    returns (g: BasicPageGuard?, ghost now: set<BasicPageGuard>)
    requires bpm.Valid() && Accounted(bpm, guards) && pageId in bpm.disk.Live()
    modifies bpm, bpm.replacer, bpm.lru, bpm.mainChain, bpm.disk
    ensures bpm.Valid() && Accounted(bpm, now)
    ensures bpm.committed == old(bpm.committed) && bpm.unsaved == old(bpm.unsaved)
    ensures bpm.disk.Live() == old(bpm.disk.Live()) && (g != null ==> !g.isDirty)
    ensures Undisturbed(old(bpm.pages), old(bpm.pageTable), bpm.pages, bpm.pageTable)
    ensures (g != null) == (old(pageId in bpm.pageTable) || old(bpm.HasRoom()))
    ensures now == if g == null then guards else guards + {g}
    ensures g != null ==> fresh(g) && Holds(bpm, g) && g.held == pageId && g.page < |bpm.pages|
    ensures g != null && pageId in bpm.committed && pageId !in bpm.unsaved ==> bpm.pages[g.page].data == bpm.committed[pageId]
    ensures bpm.Accessed(g != null, pageId, if g == null then 0 else g.page, old(pageId in bpm.pageTable), old(bpm.pages),
                         old(bpm.pageTable), old(bpm.freeList), old(bpm.replacer.visits), old(bpm.replacer.Evictable()),
                         old(bpm.replacer.currentTimestamp))
  {
    hide FramesOk, TableOk, StoreOk, PinsBut, PinsSame, Undisturbed, BufferPoolManager.Valid, BufferPoolManager.Wired,
      BufferPoolManager.InOrder, BufferPoolManager.Chosen;
    var ok, f := bpm.FetchPage(pageId);
    ghost var pages, table := old(bpm.pages), old(bpm.pageTable);
    if !ok {
      AccountSame(pages, table, bpm, guards);
      return null, guards;
    }
    g := new BasicPageGuard(bpm, f, pageId);
    now := guards + {g};
    AccountJoin(pages, table, bpm, guards, g);
  }

  lemma {:induction false} AccountSame(pages: seq<Page>, table: Table, bpm: BufferPoolManager, guards: set<BasicPageGuard>)
    requires forall h :: h in guards ==> h.bpm == bpm && h.held in table && h.page == table[h.held]
    requires forall p :: PinOf(pages, table, p) == |HoldersOf(guards, p)|
    requires Undisturbed(pages, table, bpm.pages, bpm.pageTable) && PinsSame(pages, table, bpm.pages, bpm.pageTable)
    requires forall p :: p in bpm.unsaved ==> exists h :: h in guards && h.held == p && h.isDirty
    ensures Accounted(bpm, guards)
  {
    forall h | h in guards ensures Holds(bpm, h) {
      assert h in HoldersOf(guards, h.held);
      assert 0 < PinOf(pages, table, h.held);
    }
    forall p ensures PinOf(bpm.pages, bpm.pageTable, p) == |HoldersOf(guards, p)| {
      assert PinOf(pages, table, p) == |HoldersOf(guards, p)|;
    }
  }

  /** `GetDataMut`, and a write through the pointer it returns. */
  method WriteThrough(g: BasicPageGuard, data: Block, ghost guards: set<BasicPageGuard>)
    requires g.bpm != null && g in guards && g.bpm.Valid() && Accounted(g.bpm, guards)
    modifies g`isDirty, g.bpm`pages, g.bpm`unsaved
    ensures g.bpm.Valid() && Accounted(g.bpm, guards) && g.isDirty
    ensures g.bpm.unsaved == old(g.bpm.unsaved) + {g.held}
    ensures g.page < |old(g.bpm.pages)|
    ensures g.bpm.pages == old(g.bpm.pages)[g.page := old(g.bpm.pages)[g.page].(data := data)]
  {
    hide FramesOk, TableOk, StoreOk, PinsBut, PinsSame, Undisturbed, BufferPoolManager.Valid, BufferPoolManager.Wired,
      BufferPoolManager.InOrder;
    var bpm := g.bpm;
    HolderPins(bpm, guards, g);
    assert bpm.Pin(g.held) == PinOf(bpm.pages, bpm.pageTable, g.held);
    bpm.Resident(g.held);
    ghost var pages := bpm.pages;
    g.isDirty := true;
    bpm.Write(bpm.pages[g.page].pageId, data);
    forall p ensures PinOf(bpm.pages, bpm.pageTable, p) == |HoldersOf(guards, p)| {
      assert PinOf(pages, bpm.pageTable, p) == |HoldersOf(guards, p)|;
    }
    forall p | p in bpm.unsaved ensures exists h :: h in guards && h.held == p && h.isDirty {
      if p == g.held {
        assert g in guards && g.held == p && g.isDirty;
      } else {
        var h :| h in guards && h.held == p && old(h.isDirty);
        assert h.isDirty;
      }
    }
  }

  /** A guard lets go: its page has one pin less, and what a dirty guard leaves is committed. */
  method Drop(g: BasicPageGuard, ghost guards: set<BasicPageGuard>) returns (ghost now: set<BasicPageGuard>)
    requires g.bpm != null && g in guards && g.bpm.Valid() && Accounted(g.bpm, guards)
    modifies g, g.bpm, g.bpm.replacer, g.bpm.lru, g.bpm.mainChain
    ensures g.bpm == null && now == guards - {g}
    ensures old(g.bpm).Valid() && Accounted(old(g.bpm), now)
    ensures old(g.page) < |old(g.bpm.pages)|
    ensures old(g.isDirty) ==>
      && old(g.bpm).committed == old(g.bpm.committed)[old(g.held) := old(g.bpm.pages)[old(g.page)].data]
      && old(g.bpm).unsaved == old(g.bpm.unsaved) - {old(g.held)}
    ensures !old(g.isDirty) ==> old(g.bpm).committed == old(g.bpm.committed) && old(g.bpm).unsaved == old(g.bpm.unsaved)
    ensures Undisturbed(old(g.bpm.pages), old(g.bpm.pageTable), old(g.bpm).pages, old(g.bpm).pageTable)
    ensures old(g.bpm).pageTable == old(g.bpm.pageTable) && old(g.bpm).replacer.visits == old(g.bpm.replacer.visits)
    ensures old(g.bpm).replacer.currentTimestamp == old(g.bpm.replacer.currentTimestamp)
  {
    hide FramesOk, TableOk, StoreOk, PinsBut, PinsSame, Undisturbed, BufferPoolManager.Valid, BufferPoolManager.Wired,
      BufferPoolManager.InOrder;
    var bpm := g.bpm;
    now := guards - {g};
    HolderPins(bpm, guards, g);
    assert bpm.Pin(g.held) == PinOf(bpm.pages, bpm.pageTable, g.held);
    bpm.Resident(g.held);
    if PinOf(bpm.pages, bpm.pageTable, g.held) == 1 && g.held in bpm.unsaved {
      LastIsDirty(bpm, guards, g);
    }
    ghost var pages, table, wasDirty, held := bpm.pages, bpm.pageTable, g.isDirty, g.held;
    forall p ensures |HoldersOf(now, p)| == |HoldersOf(guards, p)| - (if p == held then 1 else 0) {
      Leaves(guards, g, p);
    }
    var ok := bpm.UnpinPage(bpm.pages[g.page].pageId, g.isDirty);
    g.bpm := null;
    g.isDirty := false;
    AccountLeave(pages, table, bpm, now, held);
  }

  lemma {:induction false} AccountLeave(pages: seq<Page>, table: Table, bpm: BufferPoolManager, now: set<BasicPageGuard>,
                                        held: PageId)
    requires bpm.pageTable == table && forall h :: h in now ==> h.bpm == bpm && h.held in table && h.page == table[h.held]
    requires forall p :: |HoldersOf(now, p)| == PinOf(pages, table, p) - (if p == held then 1 else 0)
    requires 0 < PinOf(pages, table, held)
    requires PinsBut(pages, table, bpm.pages, bpm.pageTable, held, PinOf(pages, table, held) - 1)
    requires forall p :: p in bpm.unsaved ==> exists h :: h in now && h.held == p && h.isDirty
    ensures Accounted(bpm, now)
  {
    forall p ensures PinOf(bpm.pages, bpm.pageTable, p) == |HoldersOf(now, p)| {
      assert |HoldersOf(now, p)| == PinOf(pages, table, p) - (if p == held then 1 else 0);
    }
  }

  /** A new page under a guard; its contents are not specified. */
  method NewPageGuarded(bpm: BufferPoolManager, ghost guards: set<BasicPageGuard>)
    returns (g: BasicPageGuard?, pageId: PageId, ghost now: set<BasicPageGuard>)
    requires bpm.Valid() && Accounted(bpm, guards)
    modifies bpm, bpm.replacer, bpm.lru, bpm.mainChain, bpm.disk
    ensures bpm.Valid() && Accounted(bpm, now)
    ensures (g != null) == old(bpm.HasRoom()) && now == if g == null then guards else guards + {g}
    ensures g != null ==> fresh(g) && Holds(bpm, g) && g.held == pageId && bpm.disk.Live() == old(bpm.disk.Live()) + {pageId}
    ensures g != null ==> pageId !in old(bpm.disk.Live()) && pageId !in bpm.committed
    ensures bpm.committed == old(bpm.committed) && bpm.unsaved == old(bpm.unsaved)
    ensures g == null ==> bpm.disk.Live() == old(bpm.disk.Live())
    ensures bpm.Accessed(g != null, pageId, if g == null then 0 else g.page, false, old(bpm.pages),
                         old(bpm.pageTable), old(bpm.freeList), old(bpm.replacer.visits), old(bpm.replacer.Evictable()),
                         old(bpm.replacer.currentTimestamp))
    ensures Undisturbed(old(bpm.pages), old(bpm.pageTable), bpm.pages, bpm.pageTable)
  {
    hide FramesOk, TableOk, StoreOk, PinsBut, PinsSame, Undisturbed, BufferPoolManager.Valid, BufferPoolManager.Wired,
      BufferPoolManager.InOrder, BufferPoolManager.Chosen;
    ghost var pages, table := bpm.pages, bpm.pageTable;
    NewIsUnpinned(bpm);
    var ok, id, f := bpm.NewPage();
    pageId := id;
    if !ok {
      AccountSame(pages, table, bpm, guards);
      return null, pageId, guards;
    }
    g := new BasicPageGuard(bpm, f, pageId);
    now := guards + {g};
    assert PinOf(pages, table, pageId) == 0;
    AccountJoin(pages, table, bpm, guards, g);
  }

  /** Pages that are not handed out are not pinned. */
  lemma {:induction false} NewIsUnpinned(bpm: BufferPoolManager)
    requires bpm.Valid()
    ensures forall p :: p !in bpm.disk.Live() ==> PinOf(bpm.pages, bpm.pageTable, p) == 0
  {
  }
}
