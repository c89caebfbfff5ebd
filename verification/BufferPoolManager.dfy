/**
 The buffer pool manager: pages in frames, fetched, pinned, written back and
 evicted. Whatever is evicted, clients see one flat store.
 */
module BufferPoolManager {
  import opened BufferPool
  import D = DiskManager
  import opened LruKReplacer
  import Chains = ReplacerChains

  type PageId = D.PageId
  type Block = D.Block

  class BufferPoolManager {
    const poolSize: nat
    const replacer: LRUKReplacer
    const disk: D.DiskManager
    const lru: Chains.LruChain
    const mainChain: Chains.MainChain
    var pages: seq<Page>
    var pageTable: Table
    var freeList: seq<FrameId>
    ghost var committed: D.File
    ghost var unsaved: set<PageId>

    ghost predicate Wired()
      reads this, replacer, lru, mainChain
    {
      && replacer.lru == lru && replacer.mainChain == mainChain && replacer.Valid()
      && replacer.maxFrameCount == poolSize == |pages|
    }

    ghost predicate InOrder(limbo: int)
      reads this, replacer, disk
    {
      && disk.Valid()
      && FramesOk(pages, pageTable, freeList, replacer.visits, replacer.Evictable(), limbo)
      && TableOk(pages, pageTable, disk.Live()) && 0 !in pageTable
      && StoreOk(pages, pageTable, disk.file, disk.Live(), committed, unsaved)
    }

    ghost predicate Valid()
      reads this, replacer, lru, mainChain, disk
    {
      Wired() && InOrder(-1)
    }

    /** How many guards hold a page. */
    ghost function Pin(p: PageId): nat
      reads this`pages, this`pageTable
    {
      PinOf(pages, pageTable, p)
    }

    /** Nothing a client can tell has changed. */
    twostate predicate Unseen()
      reads this
    {
      && committed == old(committed) && unsaved == old(unsaved)
      && PinsSame(old(pages), old(pageTable), pages, pageTable) && Undisturbed(old(pages), old(pageTable), pages, pageTable)
    }

    constructor (poolSize: nat, replacerK: nat, disk: D.DiskManager)
      requires 0 < replacerK && disk.Valid()
      ensures Valid() && fresh(replacer) && fresh(lru) && fresh(mainChain)
      ensures this.poolSize == poolSize && this.disk == disk && committed == map[] && unsaved == {} && pageTable == map[]
    {
      this.poolSize, this.disk := poolSize, disk;
      var r := new LRUKReplacer(poolSize, replacerK);
      replacer, lru, mainChain := r, r.lru, r.mainChain;
      pages := seq(poolSize, _ => Page(D.Block(0, []), false, 0, 0));
      pageTable, committed, unsaved := map[], map[], {};
      freeList := seq(poolSize, i => i);
      new;
      hide *;
      AllFree(pages, freeList, replacer.visits);
      LiveInFile(disk);
      NothingStored(pages, disk.file, disk.Live());
      Parts(-1);
    }

    static lemma LiveInFile(disk: D.DiskManager)
      ensures disk.Live() <= disk.file.Keys
    {
    }

    /** Some page may leave its frame, or some frame is empty. */
    ghost predicate HasRoom()
      reads this, replacer
    {
      freeList != [] || replacer.Evictable() != {}
    }

    /** The invariant, taken apart and put together. */
    lemma {:induction false} Parts(limbo: int)
      ensures InOrder(limbo) <==>
        && disk.Valid()
        && FramesOk(pages, pageTable, freeList, replacer.visits, replacer.Evictable(), limbo)
        && TableOk(pages, pageTable, disk.Live()) && 0 !in pageTable
        && StoreOk(pages, pageTable, disk.file, disk.Live(), committed, unsaved)
      ensures Wired() <==>
        && replacer.lru == lru && replacer.mainChain == mainChain && replacer.Valid()
        && replacer.maxFrameCount == poolSize == |pages|
      ensures Valid() <==> Wired() && InOrder(-1)
      ensures HasRoom() <==> freeList != [] || replacer.Evictable() != {}
    {
    }

    twostate lemma SeenNothing()
      requires committed == old(committed) && unsaved == old(unsaved)
      requires PinsSame(old(pages), old(pageTable), pages, pageTable)
      requires Undisturbed(old(pages), old(pageTable), pages, pageTable)
      ensures Unseen()
    {
    }

    static lemma NoPinChanged(ps: seq<Page>, t: Table)
      ensures PinsSame(ps, t, ps, t) && Undisturbed(ps, t, ps, t)
    {
    }

    method PopFreeFrame() returns (f: FrameId)
      requires Valid() && freeList != []
      modifies this`freeList
      ensures Wired() && InOrder(f) && f < poolSize && f == old(freeList)[0] && freeList == old(freeList)[1..]
    {
      hide *;
      Parts(-1);
      PopFree(pages, pageTable, freeList, replacer.visits, replacer.Evictable());
      f := freeList[0];
      freeList := freeList[1..];
      Parts(f);
    }

    /** The frame is the one that LRU-K gives up; for `k == 1` see `LruKReplacer`. */
    static ghost predicate Chosen(visits: seq<seq<nat>>, evictable: set<FrameId>, k: nat, f: FrameId) {
      && 0 < k && (forall g :: g in evictable ==> g < |visits| && visits[g] != [])
      && IsVictim(visits, evictable, k, f) && (2 <= k ==> IsLruKVictim(visits, evictable, k, f))
    }

    method EvictVictim() returns (ok: bool, f: FrameId)
      requires Valid() && freeList == []
      modifies this`pageTable, replacer, lru, mainChain, disk
      ensures ok == old(HasRoom()) && Wired() && disk.Live() == old(disk.Live())
      ensures !ok ==> Valid() && pageTable == old(pageTable) && !HasRoom()
      ensures ok ==> InOrder(f) && f < poolSize
      ensures PinsSame(pages, old(pageTable), pages, pageTable) && Undisturbed(pages, old(pageTable), pages, pageTable)
      ensures forall p :: p in pageTable ==> p in old(pageTable)
      ensures replacer.currentTimestamp == old(replacer.currentTimestamp)
      ensures !ok ==> replacer.visits == old(replacer.visits)
      ensures ok ==> f < |old(replacer.visits)| == |pages| && replacer.visits == old(replacer.visits)[f := []]
      ensures ok ==> pages[f].pageId in old(pageTable) && old(pageTable)[pages[f].pageId] == f
      ensures ok ==> pageTable == old(pageTable) - {pages[f].pageId}
      ensures ok ==> Chosen(old(replacer.visits), old(replacer.Evictable()), replacer.kValue, f)
    {
      hide *;
      Parts(-1);
      ghost var visits, evictable := replacer.visits, replacer.Evictable();
      replacer.Bounds();
      ok, f := replacer.TryEvictLeastImportant();
      if !ok {
        NoPinChanged(pages, pageTable);
        Parts(-1);
        return;
      }
      VictimIsEvictable(visits, evictable, replacer.kValue, f);
      IsChosen(visits, evictable, replacer.kValue, f);
      EvictFrame(pages, pageTable, freeList, visits, evictable, disk.Live(), f);
      ghost var file := if pages[f].dirty then disk.file[pages[f].pageId := pages[f].data] else disk.file;
      EvictStore(pages, pageTable, disk.file, disk.Live(), committed, unsaved, f, file);
      VictimLive(f);
      if pages[f].dirty {
        disk.WritePage(pages[f].pageId, pages[f].data);
      }
      pageTable := pageTable - {pages[f].pageId};
      Parts(f);
    }

    static lemma IsChosen(visits: seq<seq<nat>>, evictable: set<FrameId>, k: nat, f: FrameId)
      requires 0 < k && forall g :: g in evictable ==> g < |visits| && visits[g] != []
      requires IsVictim(visits, evictable, k, f) && (2 <= k ==> IsLruKVictim(visits, evictable, k, f))
      ensures Chosen(visits, evictable, k, f)
    {
    }

    static lemma VictimIsEvictable(visits: seq<seq<nat>>, evictable: set<FrameId>, k: nat, f: FrameId)
      requires 0 < k && (forall g :: g in evictable ==> g < |visits|) && IsVictim(visits, evictable, k, f)
      ensures f in evictable
    {
    }

    lemma VictimLive(f: FrameId)
      requires TableOk(pages, pageTable, disk.Live()) && Mapped(pages, pageTable, f)
      ensures f < |pages| && pages[f].pageId in disk.Live()
    {
    }

    /** The frame that was taken gets its page, pinned once. */
    method Occupy(f: FrameId, page: Page)
      requires Wired() && InOrder(f) && f < poolSize
      requires page.pageId !in pageTable && page.pageId in disk.Live() && page.pageId != 0 && page.pin == 1
      requires page.pageId in committed ==> page.pageId in disk.file && page.data == disk.file[page.pageId]
      modifies this`pages, this`pageTable, replacer, lru, mainChain
      ensures Valid() && pageTable == old(pageTable)[page.pageId := f] && pages == old(pages)[f := page]
      ensures PinsBut(old(pages), old(pageTable), pages, pageTable, page.pageId, 1)
      ensures Undisturbed(old(pages), old(pageTable), pages, pageTable)
      ensures replacer.currentTimestamp == old(replacer.currentTimestamp) + 1
      ensures f < |old(replacer.visits)| && replacer.visits == old(replacer.visits)[f := [replacer.currentTimestamp]]
    {
      hide *;
      Parts(f);
      replacer.Bounds();
      LimboFree(f);
      assert replacer.visits[f] + [replacer.currentTimestamp + 1] == [replacer.currentTimestamp + 1];
      OccupyStore(pages, pageTable, disk.file, disk.Live(), committed, unsaved, f, page);
      pageTable := pageTable[page.pageId := f];
      pages := pages[f := page];
      ghost var visits, evictable := replacer.visits, replacer.Evictable();
      replacer.RecordAccess(f);
      replacer.SetEvictable(f, false);
      OccupyFrame(old(pages), old(pageTable), freeList, visits, evictable, disk.Live(), f, page, replacer.visits[f]);
      assert evictable - {f} == evictable && replacer.visits == visits[f := replacer.visits[f]];
      Parts(-1);
    }

    lemma LimboFree(f: FrameId)
      requires FramesOk(pages, pageTable, freeList, replacer.visits, replacer.Evictable(), f) && f < |pages|
      ensures !Mapped(pages, pageTable, f) && replacer.visits[f] == [] && f !in replacer.Evictable()
    {
    }

    /**
     What an access is to the replacer, and which frame it uses: the page's own,
     the first free one, or the victim of LRU-K. Exactly one access is added, at
     the end of the frame's history if the page was there, and as all of it otherwise.
     */
    ghost predicate Accessed(ok: bool, pageId: PageId, f: FrameId, wasThere: bool, pages: seq<Page>, table: Table,
                             free: seq<FrameId>, visits: seq<seq<nat>>, evictable: set<FrameId>, time: nat)
      reads this`pageTable, replacer
    {
      if !ok then pageTable == table && replacer.visits == visits && replacer.currentTimestamp == time
      else
        && f < |visits| && f < |pages| && replacer.currentTimestamp == time + 1
        && replacer.visits == visits[f := (if wasThere then visits[f] else []) + [time + 1]]
        && if wasThere then pageTable == table && pageId in table && table[pageId] == f
           else if free != [] then f == free[0] && pageTable == table[pageId := f]
           else
             && pages[f].pageId in table && table[pages[f].pageId] == f && Chosen(visits, evictable, replacer.kValue, f)
             && pageTable == (table - {pages[f].pageId})[pageId := f]
    }

    lemma {:induction false} AccessedIs(ok: bool, pageId: PageId, f: FrameId, wasThere: bool, pages: seq<Page>, table: Table,
                                        free: seq<FrameId>, visits: seq<seq<nat>>, evictable: set<FrameId>, time: nat)
      ensures !ok && pageTable == table && replacer.visits == visits && replacer.currentTimestamp == time ==>
                Accessed(ok, pageId, f, wasThere, pages, table, free, visits, evictable, time)
      ensures ok && f < |visits| && f < |pages| && replacer.currentTimestamp == time + 1 ==>
                && (wasThere && replacer.visits == visits[f := visits[f] + [time + 1]]
                    && pageTable == table && pageId in table && table[pageId] == f ==>
                      Accessed(ok, pageId, f, wasThere, pages, table, free, visits, evictable, time))
                && (!wasThere && free != [] && replacer.visits == visits[f := [time + 1]] && f == free[0]
                    && pageTable == table[pageId := f] ==>
                      Accessed(ok, pageId, f, wasThere, pages, table, free, visits, evictable, time))
                && (!wasThere && free == [] && replacer.visits == visits[f := []][f := [time + 1]]
                    && pages[f].pageId in table && table[pages[f].pageId] == f && Chosen(visits, evictable, replacer.kValue, f)
                    && pageTable == (table - {pages[f].pageId})[pageId := f] ==>
                      Accessed(ok, pageId, f, wasThere, pages, table, free, visits, evictable, time))
    {
      hide Chosen;
      assert [] + [time + 1] == [time + 1];
    }

    /** A new page, pinned, whose contents are not specified. */
    method NewPage() returns (ok: bool, pageId: PageId, f: FrameId)
      requires Valid()
      modifies this, replacer, lru, mainChain, disk
      ensures Valid() && ok == old(HasRoom())
      ensures !ok ==> Unseen() && disk.Live() == old(disk.Live())
      ensures ok ==> pageId !in old(disk.Live()) && disk.Live() == old(disk.Live()) + {pageId}
      ensures ok ==> committed == old(committed) && unsaved == old(unsaved) && pageId !in committed
      ensures ok ==> pageId in pageTable && pageTable[pageId] == f && f < |pages|
      ensures ok ==> PinsBut(old(pages), old(pageTable), pages, pageTable, pageId, 1)
      ensures Undisturbed(old(pages), old(pageTable), pages, pageTable)
      ensures Accessed(ok, pageId, f, false, old(pages), old(pageTable), old(freeList), old(replacer.visits),
                       old(replacer.Evictable()), old(replacer.currentTimestamp))
    {
      hide *;
      ok, pageId, f := true, 0, 0;
      Parts(-1);
      NoPinChanged(pages, pageTable);
      if freeList != [] {
        f := PopFreeFrame();
        ghost var live, file := disk.Live(), disk.file;
        Parts(f);
        pageId := disk.AllocNewEmptyPageId();
        FromAlloc(f, live, file, pageId);
        Occupy(f, Page(pages[f].data, false, 1, pageId));
      } else {
        ok, f := EvictVictim();
        if ok {
          ghost var live, file := disk.Live(), disk.file;
          Parts(f);
          pageId := disk.AllocNewEmptyPageId();
          FromAlloc(f, live, file, pageId);
          ghost var table := pageTable;
          Occupy(f, Page(D.Block(0, []), false, 1, pageId));
          PinsTwice(old(pages), old(pageTable), old(pages), table, pages, pageTable, pageId, 1);
          UndisturbedTwice(old(pages), old(pageTable), old(pages), table, pages, pageTable);
        } else {
          SeenNothing();
        }
      }
      AccessedIs(ok, pageId, f, false, old(pages), old(pageTable), old(freeList), old(replacer.visits),
                 old(replacer.Evictable()), old(replacer.currentTimestamp));
    }

    lemma FromAlloc(limbo: int, live: set<PageId>, file: D.File, p: PageId)
      requires FramesOk(pages, pageTable, freeList, replacer.visits, replacer.Evictable(), limbo) && 0 !in pageTable
      requires TableOk(pages, pageTable, live) && StoreOk(pages, pageTable, file, live, committed, unsaved)
      requires disk.Valid() && disk.Live() == live + {p} && p !in live
      requires forall q :: q in live ==> q in disk.file && disk.file[q] == file[q]
      ensures InOrder(limbo) && p !in pageTable && p !in committed
    {
      MoreLive(pages, pageTable, file, live, committed, unsaved, p, disk.file);
    }

    /** Pages that are handed out are in the file, and none has id 0. */
    lemma LiveStored()
      requires disk.Valid() && StoreOk(pages, pageTable, disk.file, disk.Live(), committed, unsaved)
      ensures disk.Live() <= disk.file.Keys && 0 !in disk.Live()
    {
    }

    /** What is known of a page in a frame. */
    lemma Resident(p: PageId)
      requires Valid() && p in pageTable
      ensures pageTable[p] < |pages| && pages[pageTable[p]].pageId == p && Mapped(pages, pageTable, pageTable[p])
      ensures p in disk.Live() && Pin(p) == pages[pageTable[p]].pin && p != 0
      ensures pageTable[p] < |replacer.visits| && replacer.visits[pageTable[p]] != []
      ensures pageTable[p] in replacer.Evictable() <==> Pin(p) == 0
      ensures p in committed && p !in unsaved ==> pages[pageTable[p]].data == committed[p]
    {
      assert FrameOk(pages, pageTable, freeList, replacer.visits, replacer.Evictable(), pageTable[p]);
      assert p in committed ==> PageOk(pages, pageTable, disk.file, committed, unsaved, p);
    }

    /** One guard more for a page in a frame. */
    method Repin(f: FrameId, pageId: PageId)
      requires Valid() && pageId in pageTable && f == pageTable[pageId]
      modifies this`pages, replacer, lru, mainChain
      ensures Valid()
      ensures PinsBut(old(pages), old(pageTable), pages, pageTable, pageId, old(Pin(pageId)) + 1)
      ensures Undisturbed(old(pages), old(pageTable), pages, pageTable)
      ensures replacer.currentTimestamp == old(replacer.currentTimestamp) + 1 && f < |old(replacer.visits)|
      ensures replacer.visits == old(replacer.visits)[f := old(replacer.visits)[f] + [replacer.currentTimestamp]]
    {
      hide *;
      Parts(-1);
      replacer.Bounds();
      Resident(pageId);
      ghost var visits, evictable := replacer.visits, replacer.Evictable();
      var page := pages[f].(pin := pages[f].pin + 1);
      PinStore(pages, pageTable, disk.file, disk.Live(), committed, unsaved, f, page, false);
      AfterUnpin(page, false);
      pages := pages[f := page];
      replacer.RecordAccess(f);
      replacer.SetEvictable(f, false);
      RepinFrame(old(pages), pageTable, freeList, visits, evictable, disk.Live(), f, page, replacer.visits, replacer.Evictable());
      Parts(-1);
    }

    /** A page in memory, pinned once more; its committed contents, unless a guard has unsaved changes. */
    method FetchPage(pageId: PageId) returns (ok: bool, f: FrameId)
      requires Valid() && pageId in disk.Live()
      modifies this, replacer, lru, mainChain, disk
      ensures Valid() && disk.Live() == old(disk.Live()) && committed == old(committed) && unsaved == old(unsaved)
      ensures ok == (old(pageId in pageTable) || old(HasRoom()))
      ensures !ok ==> Unseen()
      ensures ok ==> pageId in pageTable && pageTable[pageId] == f && f < |pages|
      ensures ok ==> PinsBut(old(pages), old(pageTable), pages, pageTable, pageId, old(Pin(pageId)) + 1)
      ensures Undisturbed(old(pages), old(pageTable), pages, pageTable)
      ensures ok && pageId in committed && pageId !in unsaved ==> pages[f].data == committed[pageId]
      ensures Accessed(ok, pageId, f, old(pageId in pageTable), old(pages), old(pageTable), old(freeList), old(replacer.visits),
                       old(replacer.Evictable()), old(replacer.currentTimestamp))
    {
      hide *;
      ok, f := true, 0;
      Parts(-1);
      NoPinChanged(pages, pageTable);
      LiveStored();
      if pageId !in pageTable {
        NoPin(pageId);
      }
      if pageId in pageTable {
        f := pageTable[pageId];
        Resident(pageId);
        Repin(f, pageId);
      } else if freeList != [] {
        f := PopFreeFrame();
        var data := disk.ReadPage(pageId);
        Occupy(f, Page(data, false, 1, pageId));
      } else {
        ok, f := EvictVictim();
        if ok {
          Parts(f);
          LiveStored();
          var data := disk.ReadPage(pageId);
          ghost var table := pageTable;
          Occupy(f, Page(data, false, 1, pageId));
          PinsTwice(old(pages), old(pageTable), old(pages), table, pages, pageTable, pageId, 1);
          UndisturbedTwice(old(pages), old(pageTable), old(pages), table, pages, pageTable);
        } else {
          SeenNothing();
        }
      }
      if ok {
        Resident(pageId);
      }
      AccessedIs(ok, pageId, f, old(pageId in pageTable), old(pages), old(pageTable), old(freeList), old(replacer.visits),
                 old(replacer.Evictable()), old(replacer.currentTimestamp));
    }

    /**
     A guard lets go of a page. A dirty one commits the page's memory. When the
     last guard goes the page may be evicted: if none was dirty after a change,
     it is open whether the change is kept.
     */
    method UnpinPage(pageId: PageId, isDirty: bool) returns (ok: bool)
      requires Valid()
      modifies this, replacer, lru, mainChain
      ensures Valid() && ok == (0 < old(Pin(pageId))) && pageTable == old(pageTable)
      ensures !ok ==> Unseen()
      ensures ok ==> PinsBut(old(pages), old(pageTable), pages, pageTable, pageId, old(Pin(pageId)) - 1)
      ensures Undisturbed(old(pages), old(pageTable), pages, pageTable)
      ensures replacer.visits == old(replacer.visits) && replacer.currentTimestamp == old(replacer.currentTimestamp)
      ensures ok ==> pageId in pageTable && pageTable[pageId] < |old(pages)|
      ensures ok && isDirty ==> committed == old(committed)[pageId := old(pages)[pageTable[pageId]].data]
                                && unsaved == old(unsaved) - {pageId}
      ensures ok && !isDirty && (old(Pin(pageId)) != 1 || pageId !in old(unsaved)) ==>
                committed == old(committed) && unsaved == old(unsaved)
      ensures ok && !isDirty && old(Pin(pageId)) == 1 && pageId in old(unsaved) ==>
                committed == old(committed) - {pageId} && unsaved == old(unsaved) - {pageId}
    {
      hide *;
      Parts(-1);
      ok := false;
      NoPinChanged(pages, pageTable);
      if pageId !in pageTable {
        NoPin(pageId);
        NoPinChanged(pages, pageTable);
        SeenNothing();
        return;
      }
      Resident(pageId);
      replacer.Bounds();
      var f := pageTable[pageId];
      if pages[f].pin <= 0 {
        NoPinChanged(pages, pageTable);
        SeenNothing();
        return;
      }
      ghost var visits, evictable := replacer.visits, replacer.Evictable();
      var page := pages[f].(pin := pages[f].pin - 1);
      if page.pin == 0 {
        replacer.SetEvictable(f, true);
      }
      if isDirty {
        page := page.(dirty := true);
      }
      PinStore(pages, pageTable, disk.file, disk.Live(), committed, unsaved, f, page, isDirty);
      RepinFrame(pages, pageTable, freeList, visits, evictable, disk.Live(), f, page, replacer.visits, replacer.Evictable());
      pages := pages[f := page];
      AfterUnpin(page, isDirty);
      committed, unsaved := CommittedAfter(committed, unsaved, page, isDirty), UnsavedAfter(unsaved, page, isDirty);
      ok := true;
      Parts(-1);
    }

    lemma AfterUnpin(page: Page, save: bool)
      ensures save ==> CommittedAfter(committed, unsaved, page, save) == committed[page.pageId := page.data]
                       && UnsavedAfter(unsaved, page, save) == unsaved - {page.pageId}
      ensures !save && (page.pin != 0 || page.pageId !in unsaved) ==>
                CommittedAfter(committed, unsaved, page, save) == committed && UnsavedAfter(unsaved, page, save) == unsaved
      ensures !save && page.pin == 0 && page.pageId in unsaved ==>
                CommittedAfter(committed, unsaved, page, save) == committed - {page.pageId}
                && UnsavedAfter(unsaved, page, save) == unsaved - {page.pageId}
    {
    }

    lemma NoPin(p: PageId)
      requires p !in pageTable
      ensures Pin(p) == 0
    {
    }

    /** A client writes the memory of a page it holds. */
    method Write(pageId: PageId, data: Block)
      requires Valid() && 0 < Pin(pageId)
      modifies this`pages, this`unsaved
      ensures Valid() && unsaved == old(unsaved) + {pageId}
      ensures PinsBut(old(pages), old(pageTable), pages, pageTable, pageId, old(Pin(pageId)))
      ensures pageId in pageTable && pageTable[pageId] < |old(pages)| && pageTable == old(pageTable)
      ensures pages == old(pages)[pageTable[pageId] := old(pages)[pageTable[pageId]].(data := data)]
    {
      hide *;
      Parts(-1);
      Pinned(pageId);
      Resident(pageId);
      replacer.Bounds();
      var f := pageTable[pageId];
      var page := pages[f].(data := data);
      WriteStore(pages, pageTable, disk.file, disk.Live(), committed, unsaved, f, data);
      RepinFrame(pages, pageTable, freeList, replacer.visits, replacer.Evictable(), disk.Live(), f, page,
                 replacer.visits, replacer.Evictable());
      pages := pages[f := page];
      unsaved := unsaved + {pageId};
      Parts(-1);
    }

    lemma Pinned(p: PageId)
      requires 0 < Pin(p)
      ensures p in pageTable && pageTable[p] < |pages|
    {
    }

    /**
     Writes a page's memory to the file. The table is indexed before it is
     tested, so the page must be in a frame: for any other page the index makes
     a stray entry, the test succeeds, and the pool is out of order.
     */
    method FlushPage(pageId: PageId) returns (ok: bool)
      requires Valid() && 0 < poolSize && pageId in disk.Live()
      modifies this`pages, this`pageTable, disk
      ensures ok && disk.Live() == old(disk.Live())
      ensures old(pageId in pageTable) ==> Valid() && Unseen() && Flushed(pageId)
      ensures old(pageId in pageTable) ==> pageTable == old(pageTable) && pageTable[pageId] < |old(pages)|
                                           && pageId in disk.file && disk.file[pageId] == old(pages)[pageTable[pageId]].data
      ensures old(pageId !in pageTable) ==> !Valid()
    {
      hide FramesOk, TableOk, StoreOk, PinsSame, Undisturbed;
      Parts(-1);
      FrameInRange(pageId);
      ghost var file := disk.file;
      var frameId := IndexTable(pageId);
      ok := pageId in pageTable;
      if ok {
        WriteBack(pageId, frameId);
      }
      FlushOutcome(pageId, frameId, old(pages), old(pageTable), file);
      NoPinChanged(pages, pageTable);
    }

    /** The page's memory is in the file, and the page is clean; nothing else has changed. */
    twostate predicate Flushed(pageId: PageId)
      reads this, disk
    {
      && pageId in pageTable && pageTable == old(pageTable) && pageTable[pageId] < |old(pages)|
      && disk.file == old(disk.file)[pageId := old(pages)[pageTable[pageId]].data]
      && pages == old(pages)[pageTable[pageId] := old(pages)[pageTable[pageId]].(dirty := false)]
    }

    lemma FrameInRange(pageId: PageId)
      requires Valid() && 0 < poolSize
      ensures pageId in pageTable ==> pageTable[pageId] < |pages|
      ensures 0 < |pages| && disk.Valid()
    {
    }

    /** The pool is in order after a flush exactly if the page was in a frame. */
    lemma FlushOutcome(pageId: PageId, f: FrameId, before: seq<Page>, table: Table, file: D.File)
      requires Wired() && 0 < poolSize && disk.Valid() && 0 !in table
      requires FramesOk(before, table, freeList, replacer.visits, replacer.Evictable(), -1)
      requires TableOk(before, table, disk.Live()) && StoreOk(before, table, file, disk.Live(), committed, unsaved)
      requires if pageId in table then pageTable == table && f == table[pageId] else pageTable == table[pageId := 0] && f == 0
      requires f < |before| && disk.file == file[pageId := before[f].data] && pages == before[f := before[f].(dirty := false)]
      ensures pageId in table ==> Valid() && PinsSame(before, table, pages, pageTable)
                                  && Undisturbed(before, table, pages, pageTable)
      ensures pageId !in table ==> !Valid()
    {
      if pageId in table {
        assert before[f].pageId == pageId;
        assert FrameOk(before, table, freeList, replacer.visits, replacer.Evictable(), f);
        FlushStore(before, table, file, disk.Live(), committed, unsaved, f);
        RepinFrame(before, table, freeList, replacer.visits, replacer.Evictable(), disk.Live(), f, pages[f],
                   replacer.visits, replacer.Evictable());
      } else {
        StrayEntry(before, table, freeList, replacer.visits, replacer.Evictable(), disk.Live(), pageId, pages);
      }
    }

    method WriteBack(pageId: PageId, f: FrameId)
      requires disk.Valid() && pageId in disk.Live() && f < |pages|
      modifies this`pages, disk
      ensures disk.Valid() && disk.Live() == old(disk.Live()) && disk.file == old(disk.file)[pageId := old(pages)[f].data]
      ensures pages == old(pages)[f := old(pages)[f].(dirty := false)]
    {
      disk.WritePage(pageId, pages[f].data);
      pages := pages[f := pages[f].(dirty := false)];
    }

    /** `operator[]` of the table: a missing key is put in, with frame 0. */
    method IndexTable(pageId: PageId) returns (f: FrameId)
      modifies this`pageTable
      ensures pageId in old(pageTable) ==> pageTable == old(pageTable) && f == old(pageTable)[pageId]
      ensures pageId !in old(pageTable) ==> pageTable == old(pageTable)[pageId := 0] && f == 0
    {
      if pageId !in pageTable {
        pageTable := pageTable[pageId := 0];
      }
      f := pageTable[pageId];
    }

    method FlushAllPages()
      requires Valid()
      modifies this`pages, this`pageTable, disk
      ensures Valid() && Unseen() && pageTable == old(pageTable) && disk.Live() == old(disk.Live())
      ensures forall p :: p in pageTable ==> Saved(p)
      ensures forall p :: p in pageTable ==>
                pageTable[p] < |pages| && p in disk.file && disk.file[p] == pages[pageTable[p]].data && !pages[pageTable[p]].dirty
    {
      hide Valid, FramesOk, TableOk, StoreOk, Saved;
      var todo := pageTable.Keys;
      NoPinChanged(pages, pageTable);
      while todo != {}
        invariant Valid() && pageTable == old(pageTable) && disk.Live() == old(disk.Live()) && todo <= pageTable.Keys
        invariant PinsSame(old(pages), old(pageTable), pages, pageTable) && |pages| == |old(pages)|
        invariant Undisturbed(old(pages), old(pageTable), pages, pageTable)
        invariant forall p :: p in pageTable && p !in todo ==> Saved(p)
        decreases |todo|
      {
        var p :| p in todo;
        ghost var ps := pages;
        todo := FlushOne(p, todo);
        UndisturbedTwice(old(pages), old(pageTable), ps, pageTable, pages, pageTable);
        PinsChain(old(pages), old(pageTable), ps, pageTable, pages, pageTable);
      }
      SeenNothing();
      SavedIs();
    }

    lemma SavedIs()
      ensures forall p :: Saved(p) ==>
                && p in pageTable && pageTable[p] < |pages| && p in disk.file && disk.file[p] == pages[pageTable[p]].data
                && !pages[pageTable[p]].dirty
    {
    }

    /** The file has what the frame has. */
    ghost predicate Saved(p: PageId)
      reads this`pages, this`pageTable, disk
    {
      && p in pageTable && pageTable[p] < |pages| && p in disk.file
      && disk.file[p] == pages[pageTable[p]].data && !pages[pageTable[p]].dirty
    }

    method FlushOne(p: PageId, todo: set<PageId>) returns (rest: set<PageId>)
      requires Valid() && p in todo && todo <= pageTable.Keys
      requires forall q :: q in pageTable && q !in todo ==> Saved(q)
      modifies this`pages, this`pageTable, disk
      ensures Valid() && pageTable == old(pageTable) && disk.Live() == old(disk.Live())
      ensures PinsSame(old(pages), old(pageTable), pages, pageTable)
      ensures Undisturbed(old(pages), old(pageTable), pages, pageTable)
      ensures |pages| == |old(pages)| && rest == todo - {p} && forall q :: q in pageTable && q !in rest ==> Saved(q)
    {
      Resident(p);
      ghost var before, file, live := pages, disk.file, disk.Live();
      FrameOfOthers(p);
      var ok := FlushPage(p);
      rest := todo - {p};
      forall q | q in pageTable && q !in rest ensures Saved(q) {
        assert q != p ==> old(Saved(q)) && pageTable[q] != pageTable[p];
      }
    }

    lemma FrameOfOthers(p: PageId)
      requires Valid() && p in pageTable
      ensures forall q :: q in pageTable && q != p ==> pageTable[q] != pageTable[p]
    {
      forall q | q in pageTable && q != p ensures pageTable[q] != pageTable[p] {
        assert pages[pageTable[q]].pageId == q && pages[pageTable[p]].pageId == p;
      }
    }

    /**
     A page nobody holds leaves its frame and the file. A page that is in no
     frame stays as it is: it is not given back to the file.
     */
    method DeletePage(pageId: PageId) returns (ok: bool)
      requires Valid()
      modifies this, replacer, lru, mainChain, disk
      ensures Valid() && ok == (old(Pin(pageId)) == 0) && unsaved == old(unsaved)
      ensures PinsSame(old(pages), old(pageTable), pages, pageTable)
      ensures Undisturbed(old(pages), old(pageTable), pages, pageTable)
      ensures ok && old(pageId in pageTable) ==> disk.Live() == old(disk.Live()) - {pageId} && committed == old(committed) - {pageId}
      ensures !(ok && old(pageId in pageTable)) ==> disk.Live() == old(disk.Live()) && committed == old(committed)
      ensures replacer.currentTimestamp == old(replacer.currentTimestamp)
      ensures pageTable == if ok then old(pageTable) - {pageId} else old(pageTable)
      ensures ok && old(pageId in pageTable) ==>
                && old(pageTable)[pageId] < |old(replacer.visits)|
                && replacer.visits == old(replacer.visits)[old(pageTable)[pageId] := []]
                && freeList == old(freeList) + [old(pageTable)[pageId]]
      ensures !(ok && old(pageId in pageTable)) ==> replacer.visits == old(replacer.visits)
    {
      hide *;
      Parts(-1);
      replacer.Bounds();
      NoPinChanged(pages, pageTable);
      if pageId !in pageTable {
        NoPin(pageId);
        return true;
      }
      Resident(pageId);
      var f := pageTable[pageId];
      if pages[f].pin > 0 {
        return false;
      }
      ghost var visits, evictable, live, file := replacer.visits, replacer.Evictable(), disk.Live(), disk.file;
      EvictFrame(pages, pageTable, freeList, visits, evictable, live, f);
      pageTable := pageTable - {pageId};
      var evicted := replacer.TryEvictExactFrame(f);
      freeList := freeList + [f];
      var page := Page(D.Block(0, []), false, 0, 0);
      pages := pages[f := page];
      disk.DeallocatePage(pageId);
      committed := committed - {pageId};
      DeleteStore(old(pages), old(pageTable), file, live, old(committed), unsaved, f, disk.file);
      StillLimbo(old(pages), pageTable, old(freeList), replacer.visits, replacer.Evictable(), f);
      UnmappedStore(old(pages), pageTable, disk.file, disk.Live(), committed, unsaved, f, page);
      FreeFrame(old(pages), pageTable, old(freeList), replacer.visits, replacer.Evictable(), disk.Live(), f, page);
      PinsChain(old(pages), old(pageTable), old(pages), pageTable, pages, pageTable);
      UndisturbedTwice(old(pages), old(pageTable), old(pages), pageTable, pages, pageTable);
      Parts(-1);
      return true;
    }

    static lemma StillLimbo(pages: seq<Page>, table: Table, freeList: seq<FrameId>, visits: seq<seq<nat>>,
                            evictable: set<FrameId>, f: FrameId)
      requires FramesOk(pages, table, freeList, visits, evictable, f) && f < |pages|
      ensures !Mapped(pages, table, f)
    {
    }
  }
}
