/**
 The page file and its chain of empty pages: the first word of an empty page is
 the id of the next one. A page is modelled as its first word and the rest.
 */
module DiskManager {
  type PageId = nat

  datatype Block = Block(link: PageId, rest: seq<int>)

  type File = map<PageId, Block>

  ghost predicate Distinct(s: seq<PageId>) {
    forall i, j :: 0 <= i < j < |s| ==> s[i] != s[j]
  }

  /** The chain of empty pages that starts with `first` is `free`; 0 ends it. */
  predicate Chain(file: File, first: PageId, free: seq<PageId>)
    decreases |free|
  {
    if free == [] then first == 0
    else first == free[0] && first != 0 && first in file && Chain(file, file[first].link, free[1..])
  }

  /** Changes to other pages leave the chain alone. */
  lemma {:induction false} ChainKept(before: File, file: File, first: PageId, free: seq<PageId>)
    requires Chain(before, first, free)
    requires forall p :: p in free ==> p in file && (p in before ==> file[p] == before[p])
    ensures Chain(file, first, free)
    decreases |free|
  {
    if free != [] {
      assert free[0] in free;
      ChainKept(before, file, file[first].link, free[1..]);
    }
  }

  function Pages(total: nat): (r: set<PageId>)
    ensures forall p :: p in r <==> 1 <= p <= total
  {
    if total == 0 then {} else Pages(total - 1) + {total}
  }

  lemma {:induction false} PagesSize(total: nat)
    ensures |Pages(total)| == total
  {
    if total == 0 {
      assert Pages(0) == {};
    } else {
      PagesSize(total - 1);
      assert Pages(total) == Pages(total - 1) + {total};
    }
  }

  ghost function Elements(s: seq<PageId>): set<PageId> {
    set p | p in s
  }

  lemma {:induction false} TailOf(s: seq<PageId>)
    requires s != [] && Distinct(s)
    ensures Distinct(s[1..]) && Elements(s[1..]) == Elements(s) - {s[0]} && s[0] in Elements(s)
  {
    assert s == [s[0]] + s[1..];
    forall i | 0 <= i < |s[1..]| ensures s[1..][i] != s[0] {
      assert s[1..][i] == s[i + 1];
    }
  }

  lemma {:induction false} ElementsSize(s: seq<PageId>)
    requires Distinct(s)
    ensures |Elements(s)| == |s|
  {
    if s == [] {
      assert Elements(s) == {};
    } else {
      TailOf(s);
      ElementsSize(s[1..]);
    }
  }

  class DiskManager {
    var file: File
    var firstEmptyPageId: PageId
    var currentTotalPageCount: nat
    var currentNoneEmptyPageCount: int
    var pageBuf: Block
    ghost var free: seq<PageId>

    ghost predicate Valid()
      reads this
    {
      && file.Keys == Pages(currentTotalPageCount)
      && Distinct(free) && Elements(free) <= file.Keys
      && Chain(file, firstEmptyPageId, free)
      && currentNoneEmptyPageCount == currentTotalPageCount - |free|
    }

    /** The pages that are handed out. */
    ghost function Live(): set<PageId>
      reads this
    {
      file.Keys - Elements(free)
    }

    /** A new file. */
    constructor ()
      ensures Valid() && Live() == {}
    {
      file, firstEmptyPageId, currentTotalPageCount, currentNoneEmptyPageCount := map[], 0, 0, 0;
      pageBuf, free := Block(0, []), [];
      new;
      assert Pages(0) == {};
    }

    method CurrentNoneEmptyPageCount() returns (n: int)
      requires Valid()
      ensures n == |Live()|
    {
      n := currentNoneEmptyPageCount;
      PagesSize(currentTotalPageCount);
      ElementsSize(free);
    }

    method ReadPage(pageId: PageId) returns (data: Block)
      requires pageId in file
      ensures data == file[pageId]
    {
      data := file[pageId];
    }

    method WritePage(pageId: PageId, data: Block)
      requires Valid() && pageId in Live()
      modifies this`file
      ensures Valid() && Live() == old(Live()) && file == old(file)[pageId := data]
    {
      file := file[pageId := data];
      ChainKept(old(file), file, firstEmptyPageId, free);
    }

    /** A page id that is not in use: the first of the empty pages, or one past the end of the file. */
    method AllocNewEmptyPageId() returns (pageId: PageId)
      requires Valid()
      modifies this
      ensures Valid() && pageId != 0 && pageId !in old(Live()) && Live() == old(Live()) + {pageId}
      ensures forall p :: p in old(Live()) ==> p in file && file[p] == old(file)[p]
      ensures currentTotalPageCount == old(currentTotalPageCount) + (if old(free) == [] then 1 else 0)
      ensures pageId == if old(free) == [] then currentTotalPageCount else old(free)[0]
      ensures free == if old(free) == [] then [] else old(free)[1..]
    {
      if firstEmptyPageId == 0 {
        currentTotalPageCount := currentTotalPageCount + 1;
        pageId := currentTotalPageCount;
        file := file[pageId := pageBuf];
        assert free == [];
        assert Pages(currentTotalPageCount) == Pages(currentTotalPageCount - 1) + {pageId};
      } else {
        pageId := firstEmptyPageId;
        pageBuf := ReadPage(pageId);
        firstEmptyPageId := pageBuf.link;
        free := free[1..];
        TailOf(old(free));
      }
      currentNoneEmptyPageCount := currentNoneEmptyPageCount + 1;
    }

    /** A page put in front of the chain of empty pages. */
    method DeallocatePage(pageId: PageId)
      requires Valid() && pageId in Live()
      modifies this
      ensures Valid() && Live() == old(Live()) - {pageId} && free == [pageId] + old(free)
      ensures forall p :: p in Live() ==> p in file && p in old(file) && file[p] == old(file)[p]
    {
      pageBuf := pageBuf.(link := firstEmptyPageId);
      file := file[pageId := pageBuf];
      firstEmptyPageId := pageId;
      currentNoneEmptyPageCount := currentNoneEmptyPageCount - 1;
      free := [pageId] + free;
      assert pageId != 0 && free[1..] == old(free);
      ChainKept(old(file), file, old(firstEmptyPageId), old(free));
      assert Elements(free) == Elements(old(free)) + {pageId};
    }
  }
}
