/**
 The state of the buffer pool as values: frames, page table, free list, what the
 replacer knows, and the flat store the pool stands for, with the lemmas that
 each step keeps them consistent.

 `committed` is the store the client sees: for each page the contents that the
 last dirty unpin left. A page has no committed contents before its first dirty
 unpin. `unsaved` are the pages written since, which some guard still holds.
 */
module BufferPool {
  import opened DiskManager

  type FrameId = nat

  datatype Page = Page(data: Block, dirty: bool, pin: nat, pageId: PageId)

  type Table = map<PageId, FrameId>

  /** The table sends a page to the frame that holds it; so it is injective. */
  ghost predicate TableOk(pages: seq<Page>, table: Table, live: set<PageId>) {
    forall p :: p in table ==> table[p] < |pages| && pages[table[p]].pageId == p && p in live
  }

  predicate Mapped(pages: seq<Page>, table: Table, f: FrameId) {
    f < |pages| && pages[f].pageId in table && table[pages[f].pageId] == f
  }

  /** A frame is free or mapped, not both; the replacer tracks the mapped ones, and may evict those nobody pins. */
  ghost predicate FrameOk(pages: seq<Page>, table: Table, freeList: seq<FrameId>, visits: seq<seq<nat>>,
                          evictable: set<FrameId>, f: FrameId)
    requires f < |pages| == |visits|
  {
    && (f in freeList <==> !Mapped(pages, table, f))
    && (visits[f] != [] <==> Mapped(pages, table, f))
    && (f in evictable <==> Mapped(pages, table, f) && pages[f].pin == 0)
  }

  /** All frames are in order, but for one that is between two uses. */
  ghost predicate FramesOk(pages: seq<Page>, table: Table, freeList: seq<FrameId>, visits: seq<seq<nat>>,
                           evictable: set<FrameId>, limbo: int) {
    && |visits| == |pages| && Distinct(freeList)
    && (forall f :: f in freeList ==> f < |pages|) && (forall f :: f in evictable ==> f < |pages|)
    && (forall f: nat :: f < |pages| && f != limbo ==> FrameOk(pages, table, freeList, visits, evictable, f))
    && (0 <= limbo < |pages| ==> !Mapped(pages, table, limbo) && limbo !in freeList && visits[limbo] == [] && limbo !in evictable)
  }

  function PinOf(pages: seq<Page>, table: Table, p: PageId): nat {
    if p in table && table[p] < |pages| then pages[table[p]].pin else 0
  }

  /** The pin counts of all pages are as they were, but for one page. */
  ghost predicate PinsBut(pages: seq<Page>, table: Table, pages': seq<Page>, table': Table, p: PageId, n: nat) {
    forall q :: PinOf(pages', table', q) == if q == p then n else PinOf(pages, table, q)
  }

  ghost predicate PinsSame(pages: seq<Page>, table: Table, pages': seq<Page>, table': Table) {
    forall q :: PinOf(pages', table', q) == PinOf(pages, table, q)
  }

  lemma PinsTwice(pages: seq<Page>, table: Table, pages': seq<Page>, table': Table, pages'': seq<Page>, table'': Table,
                  p: PageId, n: nat)
    requires PinsSame(pages, table, pages', table') && PinsBut(pages', table', pages'', table'', p, n)
    ensures PinsBut(pages, table, pages'', table'', p, n)
  {
  }

  /** Pages that are held stay in their frames, and their memory stays. */
  ghost predicate Undisturbed(pages: seq<Page>, table: Table, pages': seq<Page>, table': Table) {
    forall p :: 0 < PinOf(pages, table, p) ==>
      && p in table' && table'[p] == table[p] && table[p] < |pages'|
      && pages'[table[p]].data == pages[table[p]].data && pages'[table[p]].pageId == pages[table[p]].pageId
  }

  lemma UndisturbedTwice(pages: seq<Page>, table: Table, pages': seq<Page>, table': Table, pages'': seq<Page>, table'': Table)
    requires PinsSame(pages, table, pages', table') && Undisturbed(pages, table, pages', table')
    requires Undisturbed(pages', table', pages'', table'')
    ensures Undisturbed(pages, table, pages'', table'')
  {
    forall p | 0 < PinOf(pages, table, p)
      ensures p in table'' && table''[p] == table[p] && table[p] < |pages''|
        && pages''[table[p]].data == pages[table[p]].data && pages''[table[p]].pageId == pages[table[p]].pageId
    {
      assert 0 < PinOf(pages', table', p);
    }
  }

  /** Where the committed contents of one page are to be found. */
  ghost predicate PageOk(pages: seq<Page>, table: Table, file: File, committed: File, unsaved: set<PageId>, p: PageId)
    requires p in committed
  {
    p in file &&
    if p in table && table[p] < |pages| then
      p !in unsaved ==> pages[table[p]].data == committed[p] && (!pages[table[p]].dirty ==> file[p] == committed[p])
    else file[p] == committed[p]
  }

  ghost predicate StoreOk(pages: seq<Page>, table: Table, file: File, live: set<PageId>, committed: File, unsaved: set<PageId>) {
    && (forall p :: p in committed ==> p in live && PageOk(pages, table, file, committed, unsaved, p))
    && (forall p :: p in unsaved ==> p in table && 0 < PinOf(pages, table, p))
    && live <= file.Keys
  }

  /** Distinct pages are in distinct frames. */
  lemma TableInjective(pages: seq<Page>, table: Table, live: set<PageId>, p: PageId, q: PageId)
    requires TableOk(pages, table, live) && p in table && q in table && table[p] == table[q]
    ensures p == q
  {
    assert pages[table[p]].pageId == p && pages[table[q]].pageId == q;
  }

  lemma {:induction false} PopFree(pages: seq<Page>, table: Table, freeList: seq<FrameId>, visits: seq<seq<nat>>,
                                   evictable: set<FrameId>)
    requires FramesOk(pages, table, freeList, visits, evictable, -1) && freeList != []
    ensures FramesOk(pages, table, freeList[1..], visits, evictable, freeList[0]) && freeList[0] < |pages|
  {
    var f := freeList[0];
    assert f in freeList && freeList == [f] + freeList[1..];
    TailOf(freeList);
    assert f !in freeList[1..] by {
      assert f !in Elements(freeList[1..]);
    }
    var rest := freeList[1..];
    forall g: nat | g < |pages| && g != f ensures FrameOk(pages, table, rest, visits, evictable, g) {
      assert FrameOk(pages, table, freeList, visits, evictable, g);
      assert g in rest <==> g in freeList;
    }
    assert FrameOk(pages, table, freeList, visits, evictable, f);
    forall g | g in rest ensures g < |pages| {
      assert g in freeList;
    }
  }

  /** A victim is forgotten and its table entry erased. */
  lemma {:induction false} EvictFrame(pages: seq<Page>, table: Table, freeList: seq<FrameId>, visits: seq<seq<nat>>,
                                      evictable: set<FrameId>, live: set<PageId>, f: FrameId)
    requires FramesOk(pages, table, freeList, visits, evictable, -1) && TableOk(pages, table, live) && f in evictable
    ensures f < |pages| && Mapped(pages, table, f) && pages[f].pin == 0
    ensures FramesOk(pages, table - {pages[f].pageId}, freeList, visits[f := []], evictable - {f}, f)
    ensures TableOk(pages, table - {pages[f].pageId}, live)
  {
    assert FrameOk(pages, table, freeList, visits, evictable, f);
    var t, vs, es := table - {pages[f].pageId}, visits[f := []], evictable - {f};
    forall g: nat | g < |pages| && g != f ensures FrameOk(pages, t, freeList, vs, es, g) {
      assert FrameOk(pages, table, freeList, visits, evictable, g);
      assert Mapped(pages, t, g) <==> Mapped(pages, table, g);
    }
  }

  /** Evicting an unpinned page, written back if it is dirty, loses nothing. */
  lemma {:induction false} EvictStore(pages: seq<Page>, table: Table, file: File, live: set<PageId>, committed: File,
                                      unsaved: set<PageId>, f: FrameId, file': File)
    requires StoreOk(pages, table, file, live, committed, unsaved) && TableOk(pages, table, live)
    requires Mapped(pages, table, f) && pages[f].pin == 0
    requires file' == if pages[f].dirty then file[pages[f].pageId := pages[f].data] else file
    ensures StoreOk(pages, table - {pages[f].pageId}, file', live, committed, unsaved)
    ensures PinsSame(pages, table, pages, table - {pages[f].pageId})
    ensures Undisturbed(pages, table, pages, table - {pages[f].pageId})
    ensures pages[f].pageId !in unsaved
  {
    var q, t := pages[f].pageId, table - {pages[f].pageId};
    assert PinOf(pages, table, q) == 0;
    forall p | p in committed ensures PageOk(pages, t, file', committed, unsaved, p) {
      assert PageOk(pages, table, file, committed, unsaved, p);
    }
  }

  /** A frame between two uses takes a page that is in no frame. */
  lemma {:induction false} OccupyFrame(pages: seq<Page>, table: Table, freeList: seq<FrameId>, visits: seq<seq<nat>>,
                                       evictable: set<FrameId>, live: set<PageId>, f: FrameId, page: Page, v: seq<nat>)
    requires FramesOk(pages, table, freeList, visits, evictable, f) && TableOk(pages, table, live) && f < |pages|
    requires page.pageId !in table && page.pageId in live && page.pin == 1 && v != []
    ensures FramesOk(pages[f := page], table[page.pageId := f], freeList, visits[f := v], evictable, -1)
    ensures TableOk(pages[f := page], table[page.pageId := f], live)
    ensures PinsBut(pages, table, pages[f := page], table[page.pageId := f], page.pageId, 1)
    ensures Undisturbed(pages, table, pages[f := page], table[page.pageId := f])
  {
    var ps, t, vs := pages[f := page], table[page.pageId := f], visits[f := v];
    forall p | p in table ensures table[p] != f {
      assert pages[table[p]].pageId == p;
    }
    forall p ensures PinOf(ps, t, p) == if p == page.pageId then 1 else PinOf(pages, table, p) {
      assert p in table ==> table[p] != f;
    }
    forall g: nat | g < |ps| ensures FrameOk(ps, t, freeList, vs, evictable, g) {
      if g != f {
        assert FrameOk(pages, table, freeList, visits, evictable, g);
        assert Mapped(ps, t, g) <==> Mapped(pages, table, g);
      }
    }
  }

  lemma {:induction false} OccupyStore(pages: seq<Page>, table: Table, file: File, live: set<PageId>, committed: File,
                                       unsaved: set<PageId>, f: FrameId, page: Page)
    requires StoreOk(pages, table, file, live, committed, unsaved) && TableOk(pages, table, live) && f < |pages|
    requires !Mapped(pages, table, f) && page.pageId !in table && page.pin == 1
    requires page.pageId in committed ==> page.data == file[page.pageId]
    ensures StoreOk(pages[f := page], table[page.pageId := f], file, live, committed, unsaved)
  {
    var ps, t := pages[f := page], table[page.pageId := f];
    forall p | p in committed ensures PageOk(ps, t, file, committed, unsaved, p) {
      assert PageOk(pages, table, file, committed, unsaved, p);
      assert p in table ==> table[p] != f;
    }
    forall p | p in unsaved ensures p in t && 0 < PinOf(ps, t, p) {
      assert p in table && table[p] != f;
    }
  }

  /** A frame's page stays, its pin count changes. */
  lemma {:induction false} RepinFrame(pages: seq<Page>, table: Table, freeList: seq<FrameId>, visits: seq<seq<nat>>,
                                      evictable: set<FrameId>, live: set<PageId>, f: FrameId, page: Page,
                                      visits': seq<seq<nat>>, evictable': set<FrameId>)
    requires FramesOk(pages, table, freeList, visits, evictable, -1) && TableOk(pages, table, live)
    requires Mapped(pages, table, f) && page.pageId == pages[f].pageId
    requires |visits'| == |visits| && visits'[f] != [] && visits' == visits[f := visits'[f]]
    requires evictable' == if page.pin == 0 then evictable + {f} else evictable - {f}
    ensures FramesOk(pages[f := page], table, freeList, visits', evictable', -1)
    ensures TableOk(pages[f := page], table, live)
    ensures PinsBut(pages, table, pages[f := page], table, page.pageId, page.pin)
    ensures page.data == pages[f].data ==> Undisturbed(pages, table, pages[f := page], table)
  {
    var ps := pages[f := page];
    forall p | p in table && p != page.pageId ensures table[p] != f {
      assert pages[table[p]].pageId == p;
    }
    forall p ensures PinOf(ps, table, p) == if p == page.pageId then page.pin else PinOf(pages, table, p) {
      assert p in table && p != page.pageId ==> table[p] != f;
    }
    forall g: nat | g < |ps| ensures FrameOk(ps, table, freeList, visits', evictable', g) {
      assert FrameOk(pages, table, freeList, visits, evictable, g);
      assert Mapped(ps, table, g) <==> Mapped(pages, table, g);
    }
  }

  /** A frame that nobody pins is freed, its page dropped. */
  lemma {:induction false} FreeFrame(pages: seq<Page>, table: Table, freeList: seq<FrameId>, visits: seq<seq<nat>>,
                                     evictable: set<FrameId>, live: set<PageId>, f: FrameId, page: Page)
    requires FramesOk(pages, table, freeList, visits, evictable, f) && TableOk(pages, table, live) && f < |pages|
    requires page.pageId == 0 && 0 !in table
    ensures FramesOk(pages[f := page], table, freeList + [f], visits, evictable, -1)
    ensures TableOk(pages[f := page], table, live)
    ensures PinsSame(pages, table, pages[f := page], table) && Undisturbed(pages, table, pages[f := page], table)
  {
    var ps := pages[f := page];
    forall p | p in table ensures table[p] != f {
      assert pages[table[p]].pageId == p;
    }
    assert Distinct(freeList + [f]) by {
      forall i, j | 0 <= i < j < |freeList + [f]| ensures (freeList + [f])[i] != (freeList + [f])[j] {
        assert (freeList + [f])[i] in freeList;
      }
    }
    forall g: nat | g < |ps| ensures FrameOk(ps, table, freeList + [f], visits, evictable, g) {
      if g != f {
        assert FrameOk(pages, table, freeList, visits, evictable, g);
        assert Mapped(ps, table, g) <==> Mapped(pages, table, g);
      }
    }
  }

  /** A frame without a page may be overwritten. */
  lemma {:induction false} UnmappedStore(pages: seq<Page>, table: Table, file: File, live: set<PageId>, committed: File,
                                         unsaved: set<PageId>, f: FrameId, page: Page)
    requires StoreOk(pages, table, file, live, committed, unsaved) && TableOk(pages, table, live) && f < |pages|
    requires !Mapped(pages, table, f)
    ensures StoreOk(pages[f := page], table, file, live, committed, unsaved)
  {
    var ps := pages[f := page];
    forall p | p in table ensures table[p] != f {
      assert pages[table[p]].pageId == p;
    }
    forall p | p in committed ensures PageOk(ps, table, file, committed, unsaved, p) {
      assert PageOk(pages, table, file, committed, unsaved, p);
    }
  }

  /** A page more, and whatever happens to pages that are not handed out, does not matter. */
  lemma {:induction false} MoreLive(pages: seq<Page>, table: Table, file: File, live: set<PageId>, committed: File,
                                    unsaved: set<PageId>, p: PageId, file': File)
    requires TableOk(pages, table, live) && StoreOk(pages, table, file, live, committed, unsaved)
    requires forall q :: q in live ==> q in file' && file'[q] == file[q]
    requires p in file' && p !in live
    ensures TableOk(pages, table, live + {p}) && StoreOk(pages, table, file', live + {p}, committed, unsaved)
    ensures p !in committed && p !in table
  {
    forall q | q in committed ensures PageOk(pages, table, file', committed, unsaved, q) {
      assert PageOk(pages, table, file, committed, unsaved, q);
    }
  }

  /** A page that nobody holds leaves its frame, the file and the store. */
  lemma {:induction false} DeleteStore(pages: seq<Page>, table: Table, file: File, live: set<PageId>, committed: File,
                                       unsaved: set<PageId>, f: FrameId, file': File)
    requires TableOk(pages, table, live) && StoreOk(pages, table, file, live, committed, unsaved)
    requires Mapped(pages, table, f) && pages[f].pin == 0
    requires forall q :: q in live - {pages[f].pageId} ==> q in file' && file'[q] == file[q]
    ensures
      var p := pages[f].pageId;
      && TableOk(pages, table - {p}, live - {p})
      && StoreOk(pages, table - {p}, file', live - {p}, committed - {p}, unsaved)
      && PinsSame(pages, table, pages, table - {p}) && Undisturbed(pages, table, pages, table - {p})
  {
    var p := pages[f].pageId;
    var t, cs := table - {p}, committed - {p};
    assert PinOf(pages, table, p) == 0;
    forall q | q in cs ensures PageOk(pages, t, file', cs, unsaved, q) {
      assert PageOk(pages, table, file, committed, unsaved, q);
    }
    forall q | q in unsaved ensures q in t && 0 < PinOf(pages, t, q) {
      assert 0 < PinOf(pages, table, q);
    }
  }

  lemma PinsChain(pages: seq<Page>, table: Table, pages': seq<Page>, table': Table, pages'': seq<Page>, table'': Table)
    requires PinsSame(pages, table, pages', table') && PinsSame(pages', table', pages'', table'')
    ensures PinsSame(pages, table, pages'', table'')
  {
  }

  /** A pinned page's memory is written by a client. */
  lemma {:induction false} WriteStore(pages: seq<Page>, table: Table, file: File, live: set<PageId>, committed: File,
                                      unsaved: set<PageId>, f: FrameId, data: Block)
    requires TableOk(pages, table, live) && StoreOk(pages, table, file, live, committed, unsaved)
    requires Mapped(pages, table, f) && 0 < pages[f].pin
    ensures StoreOk(pages[f := pages[f].(data := data)], table, file, live, committed, unsaved + {pages[f].pageId})
  {
    var ps, us := pages[f := pages[f].(data := data)], unsaved + {pages[f].pageId};
    forall p | p in table && p != pages[f].pageId ensures table[p] != f {
      assert pages[table[p]].pageId == p;
    }
    forall p | p in committed ensures PageOk(ps, table, file, committed, us, p) {
      assert PageOk(pages, table, file, committed, unsaved, p);
    }
    forall p | p in us ensures p in table && 0 < PinOf(ps, table, p) {
      assert p in unsaved ==> 0 < PinOf(pages, table, p);
    }
  }

  /** What is committed after a guard has let go: a dirty one commits the page's memory; unsaved changes without guard are nobody's. */
  function CommittedAfter(committed: File, unsaved: set<PageId>, page: Page, save: bool): File {
    if save then committed[page.pageId := page.data]
    else if page.pin == 0 && page.pageId in unsaved then committed - {page.pageId}
    else committed
  }

  function UnsavedAfter(unsaved: set<PageId>, page: Page, save: bool): set<PageId> {
    if save || page.pin == 0 then unsaved - {page.pageId} else unsaved
  }

  /** A pin more or less; `save` if a dirty guard goes. */
  lemma {:induction false} PinStore(pages: seq<Page>, table: Table, file: File, live: set<PageId>, committed: File,
                                    unsaved: set<PageId>, f: FrameId, page: Page, save: bool)
    requires TableOk(pages, table, live) && StoreOk(pages, table, file, live, committed, unsaved)
    requires Mapped(pages, table, f) && page.pageId == pages[f].pageId && page.data == pages[f].data
    requires page.dirty == (pages[f].dirty || save)
    ensures StoreOk(pages[f := page], table, file, live, CommittedAfter(committed, unsaved, page, save),
                    UnsavedAfter(unsaved, page, save))
  {
    var ps, q := pages[f := page], page.pageId;
    var cs, us := CommittedAfter(committed, unsaved, page, save), UnsavedAfter(unsaved, page, save);
    assert q in table && q in live;
    forall p | p in table && p != q ensures table[p] != f {
      assert pages[table[p]].pageId == p;
    }
    forall p | p in cs ensures PageOk(ps, table, file, cs, us, p) {
      assert p in committed ==> PageOk(pages, table, file, committed, unsaved, p);
    }
    forall p | p in us ensures p in table && 0 < PinOf(ps, table, p) {
      assert p in unsaved && 0 < PinOf(pages, table, p);
    }
  }

  /** A page's memory is written to the file, and the page is clean. */
  lemma {:induction false} FlushStore(pages: seq<Page>, table: Table, file: File, live: set<PageId>, committed: File,
                                      unsaved: set<PageId>, f: FrameId)
    requires TableOk(pages, table, live) && StoreOk(pages, table, file, live, committed, unsaved) && Mapped(pages, table, f)
    ensures StoreOk(pages[f := pages[f].(dirty := false)], table, file[pages[f].pageId := pages[f].data], live, committed, unsaved)
    ensures PinsSame(pages, table, pages[f := pages[f].(dirty := false)], table)
  {
    var ps, q := pages[f := pages[f].(dirty := false)], pages[f].pageId;
    var file' := file[q := pages[f].data];
    forall p | p in table && p != q ensures table[p] != f {
      assert pages[table[p]].pageId == p;
    }
    forall p ensures PinOf(ps, table, p) == PinOf(pages, table, p) {
    }
    forall p | p in committed ensures PageOk(ps, table, file', committed, unsaved, p) {
      assert PageOk(pages, table, file, committed, unsaved, p);
    }
    forall p | p in unsaved ensures p in table && 0 < PinOf(ps, table, p) {
      assert 0 < PinOf(pages, table, p);
    }
  }

  /** Indexing the table with a page in no frame makes an entry for frame 0; nothing is in order after that. */
  lemma {:induction false} StrayEntry(pages: seq<Page>, table: Table, freeList: seq<FrameId>, visits: seq<seq<nat>>,
                                      evictable: set<FrameId>, live: set<PageId>, p: PageId, pages': seq<Page>)
    requires FramesOk(pages, table, freeList, visits, evictable, -1) && p !in table && 0 < |pages|
    requires |pages'| == |pages| && pages'[0].pageId == pages[0].pageId
    ensures !TableOk(pages', table[p := 0], live) || !FramesOk(pages', table[p := 0], freeList, visits, evictable, -1)
  {
    var t := table[p := 0];
    assert FrameOk(pages, table, freeList, visits, evictable, 0);
    var frameOk := FrameOk(pages', t, freeList, visits, evictable, 0);
    assert TableOk(pages', t, live) ==> pages'[t[p]].pageId == p;
  }

  /** At first every frame is free. */
  lemma {:induction false} AllFree(pages: seq<Page>, freeList: seq<FrameId>, visits: seq<seq<nat>>)
    requires |freeList| == |pages| == |visits|
    requires forall f {:trigger freeList[f]} :: 0 <= f < |pages| ==> freeList[f] == f
    requires forall f {:trigger visits[f]} :: 0 <= f < |pages| ==> visits[f] == []
    ensures FramesOk(pages, map[], freeList, visits, {}, -1)
  {
    forall f: nat | f < |pages| ensures FrameOk(pages, map[], freeList, visits, {}, f) {
      assert freeList[f] == f && visits[f] == [];
    }
    forall f | f in freeList ensures f < |pages| {
      var i :| 0 <= i < |freeList| && freeList[i] == f;
    }
  }

  lemma NothingStored(pages: seq<Page>, file: File, live: set<PageId>)
    requires live <= file.Keys
    ensures TableOk(pages, map[], live) && StoreOk(pages, map[], file, live, map[], {})
  {
  }
}
