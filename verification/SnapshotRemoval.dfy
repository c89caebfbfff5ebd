/**
 The removal of a version, as values. The sons of the removed version are rebased
 to its ancestor one after the other, and for each of them the way from the
 current version is walked again. When the way enters the removed version from a
 son that has been rebased already, the walk ends in the ancestor's contents
 instead. So removal is right whatever the files hold if and only if the current
 version is not below a son other than the one listed last.
 */
module SnapshotRemoval {
  import opened SnapshotDelta
  import opened SnapshotTree

  /** What a walk along deltas gives; nothing if one of its patches does not end. */
  datatype File = Lost | Got(bytes: seq<Byte>)

  datatype Outcome = Broken | Rebuilt(deltas: map<Id, Delta>)

  /** The deltas of a way applied one after the other. */
  function Walk(deltas: map<Id, Delta>, src: seq<Byte>, way: seq<WayEntry>): File
    decreases |way|
  {
    if way == [] then Got(src)
    else if way[0].diff in deltas && Fits(deltas[way[0].diff], src, way[0].isReverse) then
      Walk(deltas, Patch(deltas[way[0].diff], src, way[0].isReverse), way[1..])
    else Lost
  }

  /** The removed version rebuilt, then the son and the ancestor from it, and the son's delta made anew. */
  function RebaseSon(deltas: map<Id, Delta>, frontier: seq<Byte>, way: seq<WayEntry>, id: Id, son: Id): Outcome {
    match Walk(deltas, frontier, way)
    case Lost => Broken
    case Got(own) =>
      if son in deltas && id in deltas && Fits(deltas[son], own, false) && Fits(deltas[id], own, true)
         && |Patch(deltas[son], own, false)| < MAX_SIZE && |Patch(deltas[id], own, true)| < MAX_SIZE
      then Rebuilt(deltas[son := DeltaOf(Patch(deltas[id], own, true), Patch(deltas[son], own, false))])
      else Broken
  }

  function RebaseSons(deltas: map<Id, Delta>, frontier: seq<Byte>, way: seq<WayEntry>, id: Id, sons: seq<Id>): Outcome {
    if sons == [] then Rebuilt(deltas)
    else
      match RebaseSons(deltas, frontier, way, id, sons[..|sons| - 1])
      case Broken => Broken
      case Rebuilt(ds) => RebaseSon(ds, frontier, way, id, sons[|sons| - 1])
  }

  lemma {:induction false} OneSonMore(deltas: map<Id, Delta>, frontier: seq<Byte>, way: seq<WayEntry>, id: Id, sons: seq<Id>, n: nat)
    requires n < |sons|
    ensures RebaseSons(deltas, frontier, way, id, sons[..n + 1])
         == match RebaseSons(deltas, frontier, way, id, sons[..n])
            case Broken => Broken
            case Rebuilt(ds) => RebaseSon(ds, frontier, way, id, sons[n])
  {
    assert sons[..n + 1][..n] == sons[..n];
  }

  /** Every edge that remains has the right delta. */
  ghost predicate Right(edges: seq<Edge>, contents: Contents, outcome: Outcome, id: Id, anc: Id) {
    outcome.Rebuilt? &&
    forall e :: e in Untouched(edges, id) + Rebased(Sons(edges, id), anc) ==> EdgeOk(e, contents - {id}, outcome.deltas)
  }

  /** The removal as coded, on a repository whose current version is `head`. */
  ghost predicate RemovedRight(edges: seq<Edge>, contents: Contents, deltas: map<Id, Delta>, head: Id, way: seq<WayEntry>, id: Id,
                               anc: Id)
    requires head in contents
  {
    Right(edges, contents, RebaseSons(deltas, contents[head], way, id, Sons(edges, id)), id, anc)
  }

  /** The current version is not below any son but the one listed last. */
  ghost predicate Safe(edges: seq<Edge>, rank: map<Id, nat>, head: Id, id: Id)
    requires IsTree(edges, rank)
  {
    var sons := Sons(edges, id);
    forall i :: 0 <= i < |sons| - 1 ==> !Below(edges, rank, head, sons[i])
  }

  /** A repository of these versions with some contents. */
  ghost predicate Stored(edges: seq<Edge>, contents: Contents, deltas: map<Id, Delta>) {
    RepositoryOk(edges, contents, deltas) && contents.Keys == Nodes(edges) && contents[INIT] == []
  }

  /** A version that can be removed, and a way to it. */
  ghost predicate Removable(edges: seq<Edge>, rank: map<Id, nat>, head: Id, way: seq<WayEntry>, id: Id, anc: Id) {
    && IsTree(edges, rank) && head in Nodes(edges) && head != id && Edge(id, anc) in edges && WayOk(edges, head, way, id)
  }

  /** The deltas when some of the sons have been rebased. */
  ghost predicate HalfRebased(edges: seq<Edge>, contents: Contents, ds: map<Id, Delta>, id: Id, anc: Id, n: nat)
    requires n <= |Sons(edges, id)|
  {
    && (forall e :: e in edges && !(e.anc == id && e.cur in Sons(edges, id)[..n]) ==> EdgeOk(e, contents, ds))
    && (forall e :: e in edges && e.anc == id && e.cur in Sons(edges, id)[..n] ==> EdgeOk(Edge(e.cur, anc), contents, ds))
  }

  /** The way does not enter the removed version from one of its first `n` sons. */
  predicate EntersLater(way: seq<WayEntry>, sons: seq<Id>, n: nat)
    requires n <= |sons|
  {
    way != [] && way[|way| - 1].isReverse ==> LastDiff(way) !in sons[..n]
  }

  lemma {:induction false} WalkPatches(contents: Contents, deltas: map<Id, Delta>, from: Id, way: seq<WayEntry>, to: Id)
    requires WayPatches(contents, deltas, from, way, to) && from in contents
    ensures to in contents && Walk(deltas, contents[from], way) == Got(contents[to])
    decreases |way|
  {
    if way != [] {
      WalkPatches(contents, deltas, way[0].snap, way[1..], to);
    }
  }

  /** A step that uses a version's own delta comes to it from its ancestor. */
  lemma {:induction false} OwnDeltaIsLast(edges: seq<Edge>, rank: map<Id, nat>, from: Id, way: seq<WayEntry>, to: Id, i: nat)
    requires WayOk(edges, from, way, to) && IsTree(edges, rank) && i < |way| && way[i].diff == to
    ensures i == |way| - 1 && !way[i].isReverse
    decreases |way|
  {
    if i > 0 {
      OwnDeltaIsLast(edges, rank, way[0].snap, way[1..], to, i - 1);
    }
  }

  /** Before the way's own entrance has been rebased, or if that made no difference, the walk gives the removed version. */
  lemma {:induction false} WayUntouched(edges: seq<Edge>, rank: map<Id, nat>, contents: Contents, ds: map<Id, Delta>, head: Id,
                                        way: seq<WayEntry>, id: Id, anc: Id, n: nat)
    requires Removable(edges, rank, head, way, id, anc) && n <= |Sons(edges, id)| && HalfRebased(edges, contents, ds, id, anc, n)
    requires forall v :: v in contents ==> |contents[v]| < MAX_SIZE
    requires id in contents && anc in contents
    requires EntersLater(way, Sons(edges, id), n) || contents[id] == contents[anc]
    ensures WayPatches(contents, ds, head, way, id)
  {
    forall e, i | e in edges && 0 <= i < |way| && way[i].diff == e.cur ensures EdgeOk(e, contents, ds) {
      if e.anc == id && e.cur in Sons(edges, id)[..n] {
        assert Edge(way[i].diff, id) == e;
        OnlyLastStep(edges, rank, head, way, id, i);
        assert EdgeOk(Edge(e.cur, anc), contents, ds);
      }
    }
    WayIsPatches(edges, contents, ds, head, way, id);
  }

  /** Once the son that the way comes from has been rebased, the walk leads to the ancestor's contents. */
  lemma {:induction false} RewalkedWay(edges: seq<Edge>, rank: map<Id, nat>, contents: Contents, deltas: map<Id, Delta>,
                                       head: Id, way: seq<WayEntry>, id: Id, anc: Id)
    requires IsTree(edges, rank) && WayOk(edges, head, way, id) && way != [] && way[|way| - 1].isReverse
    requires Edge(id, anc) in edges && id in contents && anc in contents
    requires forall v :: v in contents ==> |contents[v]| < MAX_SIZE
    requires forall e :: e in edges && e.anc != id ==> EdgeOk(e, contents, deltas)
    requires EdgeOk(Edge(LastDiff(way), anc), contents, deltas)
    ensures WayPatches(contents[id := contents[anc]], deltas, head, way, id)
    ensures contents[id := contents[anc]][head] == contents[head]
  {
    var seen := contents[id := contents[anc]];
    LastStepIsReverse(edges, head, way, id);
    forall e, i | e in edges && 0 <= i < |way| && way[i].diff == e.cur ensures EdgeOk(e, seen, deltas) {
      if e.cur == id {
        OwnDeltaIsLast(edges, rank, head, way, id, i);
        assert false;
      }
      assert rank[e.anc] < rank[e.cur];
      if e.anc == id {
        assert e == Edge(way[i].diff, id);
        OnlyLastStep(edges, rank, head, way, id, i);
      } else {
        assert EdgeOk(e, contents, deltas);
      }
    }
    WayIsPatches(edges, seen, deltas, head, way, id);
  }

  /** So it rebuilds the removed version if and only if that has the ancestor's contents. */
  lemma {:induction false} RewalkedRight(edges: seq<Edge>, rank: map<Id, nat>, contents: Contents, deltas: map<Id, Delta>,
                                         head: Id, way: seq<WayEntry>, id: Id, anc: Id)
    requires IsTree(edges, rank) && WayOk(edges, head, way, id) && way != [] && way[|way| - 1].isReverse
    requires Edge(id, anc) in edges && id in contents && anc in contents && head in contents
    requires forall v :: v in contents ==> |contents[v]| < MAX_SIZE
    requires forall e :: e in edges && e.anc != id ==> EdgeOk(e, contents, deltas)
    requires EdgeOk(Edge(LastDiff(way), anc), contents, deltas)
    ensures Walk(deltas, contents[head], way) == Got(contents[anc])
    ensures Walk(deltas, contents[head], way) == Got(contents[id]) <==> contents[id] == contents[anc]
  {
    RewalkedWay(edges, rank, contents, deltas, head, way, id, anc);
    WalkPatches(contents[id := contents[anc]], deltas, head, way, id);
  }

  /** Before a son is rebased its delta, and the removed version's own, are those of its edge. */
  lemma {:induction false} SonReady(edges: seq<Edge>, rank: map<Id, nat>, contents: Contents, ds: map<Id, Delta>, id: Id, anc: Id, n: nat)
    requires IsTree(edges, rank) && Edge(id, anc) in edges && n < |Sons(edges, id)| && HalfRebased(edges, contents, ds, id, anc, n)
    ensures
      var son := Sons(edges, id)[n];
      && son in Sons(edges, id) && son !in Sons(edges, id)[..n] && Edge(son, id) in edges
      && EdgeOk(Edge(son, id), contents, ds) && EdgeOk(Edge(id, anc), contents, ds)
  {
    var son := Sons(edges, id)[n];
    assert son in Sons(edges, id);
    DistinctSons(edges, id);
    assert rank[anc] < rank[id];
  }

  lemma {:induction false} SonDone(edges: seq<Edge>, rank: map<Id, nat>, contents: Contents, before: map<Id, Delta>,
                                   ds: map<Id, Delta>, id: Id, anc: Id, n: nat)
    requires IsTree(edges, rank) && n < |Sons(edges, id)| && HalfRebased(edges, contents, before, id, anc, n)
    requires Sons(edges, id)[n] in contents && anc in contents
    requires ds == before[Sons(edges, id)[n] := DeltaOf(contents[anc], contents[Sons(edges, id)[n]])]
    ensures HalfRebased(edges, contents, ds, id, anc, n + 1)
  {
    var sons := Sons(edges, id);
    var son := sons[n];
    assert sons[..n + 1] == sons[..n] + [son] && son in sons;
    forall e | e in edges && !(e.anc == id && e.cur in sons[..n + 1]) ensures EdgeOk(e, contents, ds) {
      assert EdgeOk(e, contents, before);
      if e.cur == son {
        AncUnique(edges, rank, e);
        AncUnique(edges, rank, Edge(son, id));
      }
    }
    forall e | e in edges && e.anc == id && e.cur in sons[..n + 1] ensures EdgeOk(Edge(e.cur, anc), contents, ds) {
      if e.cur != son {
        assert EdgeOk(Edge(e.cur, anc), contents, before);
      }
    }
  }

  /** From the right version the patches give the son and the ancestor. */
  lemma {:induction false} SonPatched(contents: Contents, ds: map<Id, Delta>, frontier: seq<Byte>, way: seq<WayEntry>, id: Id,
                                      anc: Id, son: Id)
    requires EdgeOk(Edge(son, id), contents, ds) && EdgeOk(Edge(id, anc), contents, ds)
    requires Walk(ds, frontier, way) == Got(contents[id]) && forall v :: v in contents ==> |contents[v]| < MAX_SIZE
    ensures RebaseSon(ds, frontier, way, id, son) == Rebuilt(ds[son := DeltaOf(contents[anc], contents[son])])
    ensures son in contents && anc in contents
  {
    RoundTrip(contents[id], contents[son]);
    RoundTrip(contents[anc], contents[id]);
    hide Walk, Patch, Fits, DeltaOf;
  }

  /** One son is rebased, and comes out right. */
  lemma {:induction false} SonRebased(edges: seq<Edge>, rank: map<Id, nat>, contents: Contents, ds: map<Id, Delta>, head: Id,
                                      way: seq<WayEntry>, id: Id, anc: Id, n: nat)
    requires Removable(edges, rank, head, way, id, anc) && n < |Sons(edges, id)| && HalfRebased(edges, contents, ds, id, anc, n)
    requires forall v :: v in contents ==> |contents[v]| < MAX_SIZE
    requires head in contents && id in contents && anc in contents
    requires EntersLater(way, Sons(edges, id), n) || contents[id] == contents[anc]
    ensures
      var o := RebaseSon(ds, contents[head], way, id, Sons(edges, id)[n]);
      o.Rebuilt? && HalfRebased(edges, contents, o.deltas, id, anc, n + 1)
  {
    var son := Sons(edges, id)[n];
    hide HalfRebased, EntersLater, WayPatches, WayOk, IsTree, Sons, RebaseSon;
    WayUntouched(edges, rank, contents, ds, head, way, id, anc, n);
    WalkPatches(contents, ds, head, way, id);
    SonReady(edges, rank, contents, ds, id, anc, n);
    SonPatched(contents, ds, contents[head], way, id, anc, son);
    hide EdgeOk, Walk, Patch, Fits, DeltaOf;
    SonDone(edges, rank, contents, ds, ds[son := DeltaOf(contents[anc], contents[son])], id, anc, n);
  }

  lemma {:induction false} NoneRebased(edges: seq<Edge>, contents: Contents, deltas: map<Id, Delta>, id: Id, anc: Id)
    requires RepositoryOk(edges, contents, deltas)
    ensures HalfRebased(edges, contents, deltas, id, anc, 0)
  {
    assert Sons(edges, id)[..0] == [];
  }

  /** The first `n` sons come out right as long as the way does not come from one of those before them. */
  lemma {:induction false} SonsRebased(edges: seq<Edge>, rank: map<Id, nat>, contents: Contents, deltas: map<Id, Delta>, head: Id,
                                       way: seq<WayEntry>, id: Id, anc: Id, n: nat)
    requires Removable(edges, rank, head, way, id, anc) && Stored(edges, contents, deltas) && n <= |Sons(edges, id)|
    requires (n > 0 ==> EntersLater(way, Sons(edges, id), n - 1)) || (id in contents && anc in contents && contents[id] == contents[anc])
    ensures
      var o := RebaseSons(deltas, contents[head], way, id, Sons(edges, id)[..n]);
      o.Rebuilt? && HalfRebased(edges, contents, o.deltas, id, anc, n)
  {
    assert EdgeOk(Edge(id, anc), contents, deltas);
    if n == 0 {
      NoneRebased(edges, contents, deltas, id, anc);
    } else {
      SonsRebased(edges, rank, contents, deltas, head, way, id, anc, n - 1);
      OneSonMore(deltas, contents[head], way, id, Sons(edges, id), n - 1);
      var o := RebaseSons(deltas, contents[head], way, id, Sons(edges, id)[..n - 1]);
      SonRebased(edges, rank, contents, o.deltas, head, way, id, anc, n - 1);
    }
  }

  /** With all sons rebased every edge that remains is right. */
  lemma {:induction false} AllRebased(edges: seq<Edge>, rank: map<Id, nat>, contents: Contents, ds: map<Id, Delta>, id: Id, anc: Id)
    requires IsTree(edges, rank) && Edge(id, anc) in edges && HalfRebased(edges, contents, ds, id, anc, |Sons(edges, id)|)
    ensures Right(edges, contents, Rebuilt(ds), id, anc)
  {
    var sons := Sons(edges, id);
    var now := Untouched(edges, id) + Rebased(sons, anc);
    assert sons[..|sons|] == sons;
    TreeRebased(edges, rank, id, anc);
    assert rank[anc] < rank[id];
    forall e | e in now ensures EdgeOk(e, contents - {id}, ds) {
      if e in edges && e.cur != id && e.anc != id {
        assert EdgeOk(e, contents, ds);
      } else {
        assert Edge(e.cur, id) in edges && e.cur in sons && rank[id] < rank[e.cur];
        assert EdgeOk(Edge(e.cur, anc), contents, ds);
      }
    }
  }

  /** Removal is right if the current version is below no son but the last, or the removed version equals its ancestor. */
  lemma {:induction false} SafeIsRight(edges: seq<Edge>, rank: map<Id, nat>, contents: Contents, deltas: map<Id, Delta>, head: Id,
                                       way: seq<WayEntry>, id: Id, anc: Id)
    requires Removable(edges, rank, head, way, id, anc) && Stored(edges, contents, deltas)
    requires Safe(edges, rank, head, id) || (id in contents && anc in contents && contents[id] == contents[anc])
    ensures RemovedRight(edges, contents, deltas, head, way, id, anc)
  {
    var sons := Sons(edges, id);
    assert sons[..|sons|] == sons;
    if Safe(edges, rank, head, id) && sons != [] && way != [] && way[|way| - 1].isReverse {
      EntersThrough(edges, rank, head, way, id);
      DistinctSons(edges, id);
    }
    SonsRebased(edges, rank, contents, deltas, head, way, id, anc, |sons|);
    AllRebased(edges, rank, contents, RebaseSons(deltas, contents[head], way, id, sons).deltas, id, anc);
  }

  /** A way to a version from below one of its sons enters it from that son. */
  lemma {:induction false} EntersFrom(edges: seq<Edge>, rank: map<Id, nat>, from: Id, way: seq<WayEntry>, to: Id, t: Id)
    requires IsTree(edges, rank) && WayOk(edges, from, way, to) && Edge(t, to) in edges && Below(edges, rank, from, t)
    ensures way != [] && way[|way| - 1].isReverse && LastDiff(way) == t
    decreases |way|
  {
    BelowRank(edges, rank, from, t);
    var w := way[0];
    if from == t && w.isReverse {
      AncUnique(edges, rank, Edge(t, to));
      AncUnique(edges, rank, Edge(t, w.snap));
      assert way[1..] == [] && way == [w];
    } else {
      if w.isReverse {
        var e :| e in edges && e.cur == from && Below(edges, rank, e.anc, t);
        AncUnique(edges, rank, e);
        AncUnique(edges, rank, Edge(from, w.snap));
      } else {
        assert Edge(w.snap, from) in edges;
      }
      EntersFrom(edges, rank, w.snap, way[1..], to, t);
      assert way[1..][|way| - 2] == way[|way| - 1];
    }
  }

  lemma {:induction false} BelowRank(edges: seq<Edge>, rank: map<Id, nat>, x: Id, t: Id)
    requires IsTree(edges, rank) && Below(edges, rank, x, t) && exists p :: Edge(t, p) in edges
    ensures t in rank && x in rank && rank[t] <= rank[x] && forall p :: Edge(t, p) in edges ==> x != p
    decreases if x in rank then rank[x] else 0
  {
    if x != t {
      var e :| e in edges && e.cur == x && Below(edges, rank, e.anc, t);
      BelowRank(edges, rank, e.anc, t);
    }
  }

  /** If the later outcome is no break neither was the earlier, and they agree on one version's delta. */
  predicate Keeps(o: Outcome, later: Outcome, v: Id) {
    later.Rebuilt? ==>
      o.Rebuilt? && (v in later.deltas <==> v in o.deltas) && (v in o.deltas ==> later.deltas[v] == o.deltas[v])
  }

  lemma OthersKept(ds: map<Id, Delta>, frontier: seq<Byte>, way: seq<WayEntry>, id: Id, son: Id, v: Id)
    requires v != son
    ensures Keeps(Rebuilt(ds), RebaseSon(ds, frontier, way, id, son), v)
  {
    hide Walk, Fits, Patch, DeltaOf;
  }

  lemma KeepsTwice(a: Outcome, b: Outcome, c: Outcome, v: Id)
    requires Keeps(a, b, v) && Keeps(b, c, v)
    ensures Keeps(a, c, v)
  {
  }

  lemma KeepsSelf(a: Outcome, v: Id)
    ensures Keeps(a, a, v) && Keeps(a, Broken, v)
  {
  }

  /** A delta that was made wrong stays wrong, and a removal that broke stays broken. */
  lemma {:induction false} LaterSons(deltas: map<Id, Delta>, frontier: seq<Byte>, way: seq<WayEntry>, id: Id, sons: seq<Id>, m: nat, n: nat)
    requires 0 < m <= n <= |sons| && forall i, j :: 0 <= i < j < |sons| ==> sons[i] != sons[j]
    ensures Keeps(RebaseSons(deltas, frontier, way, id, sons[..m]), RebaseSons(deltas, frontier, way, id, sons[..n]), sons[m - 1])
    decreases n
  {
    hide *;
    var v, o := sons[m - 1], RebaseSons(deltas, frontier, way, id, sons[..m]);
    KeepsSelf(o, v);
    if m < n {
      var p := RebaseSons(deltas, frontier, way, id, sons[..n - 1]);
      LaterSons(deltas, frontier, way, id, sons, m, n - 1);
      OneSonMore(deltas, frontier, way, id, sons, n - 1);
      assert sons[..n - 1 + 1] == sons[..n] && sons[n - 1] != v;
      if p.Rebuilt? {
        OthersKept(p.deltas, frontier, way, id, sons[n - 1], v);
        KeepsTwice(o, p, RebaseSons(deltas, frontier, way, id, sons[..n]), v);
      }
    }
  }

  /** The son listed after the one that the current version is below is rebuilt from the ancestor's contents. */
  lemma {:induction false} NextSon(edges: seq<Edge>, rank: map<Id, nat>, contents: Contents, deltas: map<Id, Delta>, head: Id,
                                   way: seq<WayEntry>, id: Id, anc: Id, j: nat) returns (ds: map<Id, Delta>)
    requires Removable(edges, rank, head, way, id, anc) && Stored(edges, contents, deltas)
    requires j + 1 < |Sons(edges, id)| && Below(edges, rank, head, Sons(edges, id)[j])
    ensures
      var u := Sons(edges, id)[j + 1];
      && RebaseSons(deltas, contents[head], way, id, Sons(edges, id)[..j + 2]) == RebaseSon(ds, contents[head], way, id, u)
      && Walk(ds, contents[head], way) == Got(contents[anc])
      && Edge(u, id) in edges && EdgeOk(Edge(u, id), contents, ds) && EdgeOk(Edge(id, anc), contents, ds)
  {
    var sons := Sons(edges, id);
    assert sons[j] in sons;
    DistinctSons(edges, id);
    EntersFrom(edges, rank, head, way, id, sons[j]);
    SonsRebased(edges, rank, contents, deltas, head, way, id, anc, j + 1);
    ds := RebaseSons(deltas, contents[head], way, id, sons[..j + 1]).deltas;
    assert sons[..j + 1][j] == sons[j] && Edge(sons[j], id) in edges;
    assert EdgeOk(Edge(sons[j], anc), contents, ds);
    SonReady(edges, rank, contents, ds, id, anc, j + 1);
    RewalkedRight(edges, rank, contents, ds, head, way, id, anc);
    OneSonMore(deltas, contents[head], way, id, sons, j + 1);
  }

  /**
   Two bytes suffice: the ancestor holds 1 0, the removed version 2 0, and that son
   2 7. Its delta changes the second byte only, and is applied to 1 0. When the
   ancestor is `INIT` the removed version's own delta cannot be undone on it.
   */
  lemma {:induction false} WrongSon(edges: seq<Edge>, rank: map<Id, nat>, contents: Contents, deltas: map<Id, Delta>, head: Id,
                                    way: seq<WayEntry>, id: Id, anc: Id, j: nat)
    requires Removable(edges, rank, head, way, id, anc) && Stored(edges, contents, deltas) && head in contents
    requires j + 1 < |Sons(edges, id)| && Below(edges, rank, head, Sons(edges, id)[j]) && Sons(edges, id)[j + 1] in contents
    requires id in contents && contents[id] == [2, 0] && contents[Sons(edges, id)[j + 1]] == [2, 7]
    requires anc in contents && contents[anc] == if anc == INIT then [] else [1, 0]
    ensures
      var o, u := RebaseSons(deltas, contents[head], way, id, Sons(edges, id)[..j + 2]), Sons(edges, id)[j + 1];
      && (anc == INIT ==> o == Broken)
      && (anc != INIT ==> o.Rebuilt? && u in o.deltas && o.deltas[u] == DeltaOf([1, 0], [1, 7]) != DeltaOf(contents[anc], contents[u]))
  {
    hide *;
    var u := Sons(edges, id)[j + 1];
    var ds := NextSon(edges, rank, contents, deltas, head, way, id, anc, j);
    EdgeMeans(Edge(u, id), contents, ds);
    EdgeMeans(Edge(id, anc), contents, ds);
    if anc != INIT {
      WrongBytes(ds, contents[head], way, id, u);
    } else {
      NoBytes(ds, contents[head], way, id, u);
    }
  }

  lemma EdgeMeans(e: Edge, contents: Contents, deltas: map<Id, Delta>)
    requires EdgeOk(e, contents, deltas)
    ensures e.cur in contents && e.anc in contents && e.cur in deltas && deltas[e.cur] == DeltaOf(contents[e.anc], contents[e.cur])
  {
  }

  /** Then the removal does not come out right. */
  lemma {:induction false} WrongRemoval(edges: seq<Edge>, rank: map<Id, nat>, contents: Contents, deltas: map<Id, Delta>, head: Id,
                                        way: seq<WayEntry>, id: Id, anc: Id, j: nat)
    requires Removable(edges, rank, head, way, id, anc) && Stored(edges, contents, deltas) && head in contents
    requires j + 1 < |Sons(edges, id)| && Below(edges, rank, head, Sons(edges, id)[j]) && Sons(edges, id)[j + 1] in contents
    requires id in contents && contents[id] == [2, 0] && contents[Sons(edges, id)[j + 1]] == [2, 7]
    requires anc in contents && contents[anc] == if anc == INIT then [] else [1, 0]
    ensures !RemovedRight(edges, contents, deltas, head, way, id, anc)
  {
    var sons := Sons(edges, id);
    var u := sons[j + 1];
    assert u in sons;
    DistinctSons(edges, id);
    hide Stored, Below, IsTree, Right, DeltaOf, Fits, Walk, RebaseSon, RebaseSons;
    WrongSon(edges, rank, contents, deltas, head, way, id, anc, j);
    LaterSons(deltas, contents[head], way, id, sons, j + 2, |sons|);
    assert sons[..|sons|] == sons;
    if RemovedRight(edges, contents, deltas, head, way, id, anc) {
      RightAt(edges, rank, contents, RebaseSons(deltas, contents[head], way, id, sons), id, anc, u);
    }
  }

  lemma {:induction false} RightAt(edges: seq<Edge>, rank: map<Id, nat>, contents: Contents, o: Outcome, id: Id, anc: Id, u: Id)
    requires IsTree(edges, rank) && Edge(id, anc) in edges && Edge(u, id) in edges && Right(edges, contents, o, id, anc)
    ensures o.Rebuilt? && u in o.deltas && u in contents && anc in contents && o.deltas[u] == DeltaOf(contents[anc], contents[u])
  {
    hide DeltaOf;
    TreeRebased(edges, rank, id, anc);
    assert Edge(u, anc) in Untouched(edges, id) + Rebased(Sons(edges, id), anc);
    assert EdgeOk(Edge(u, anc), contents - {id}, o.deltas);
  }

  lemma {:induction false} WrongBytes(ds: map<Id, Delta>, frontier: seq<Byte>, way: seq<WayEntry>, id: Id, u: Id)
    requires Walk(ds, frontier, way) == Got([1, 0]) && u in ds && id in ds
    requires ds[u] == DeltaOf([2, 0], [2, 7]) && ds[id] == DeltaOf([1, 0], [2, 0])
    ensures RebaseSon(ds, frontier, way, id, u) == Rebuilt(ds[u := DeltaOf([1, 0], [1, 7])])
    ensures DeltaOf([1, 0], [1, 7]) != DeltaOf([1, 0], [2, 7])
  {
    hide DeltaOf, Fits, Patch;
    var a: seq<Byte>, s: seq<Byte>, t: seq<Byte>, w: seq<Byte> := [1, 0], [2, 0], [2, 7], [1, 7];
    OneByte(s, t, a, 1, false);
    OneByte(a, s, a, 0, true);
    Differ(a, w, t);
    assert a[1 := 7] == w && a[0 := 1] == a;
  }

  /** The removed version's own delta adds two bytes, and cannot be undone on an empty file. */
  lemma {:induction false} NoBytes(ds: map<Id, Delta>, frontier: seq<Byte>, way: seq<WayEntry>, id: Id, u: Id)
    requires Walk(ds, frontier, way) == Got([]) && id in ds && ds[id] == DeltaOf([], [2, 0])
    ensures RebaseSon(ds, frontier, way, id, u) == Broken
  {
    hide Walk, RunsOk;
  }

  /** Deltas from one string to two different ones differ. */
  lemma {:induction false} Differ(a: seq<Byte>, b: seq<Byte>, c: seq<Byte>)
    requires |a| < MAX_SIZE && |b| < MAX_SIZE && |c| < MAX_SIZE && b != c
    ensures DeltaOf(a, b) != DeltaOf(a, c)
  {
    RoundTrip(a, b);
    RoundTrip(a, c);
  }

  /** Two strings of two bytes that differ in one place only: their delta puts in that byte. */
  lemma {:induction false} OneByte(a: seq<Byte>, b: seq<Byte>, src: seq<Byte>, i: nat, reverse: bool)
    requires |a| == |b| == |src| == 2 && i < 2 && a[i] != b[i] && a[1 - i] == b[1 - i]
    ensures Fits(DeltaOf(a, b), src, reverse)
    ensures Patch(DeltaOf(a, b), src, reverse) == src[i := if reverse then a[i] else b[i]]
  {
    var runs := [Run(i, [a[i]], [b[i]])];
    OneRun(a, b, i);
    assert runs[..0] == [] && runs[|runs| - 1] == Run(i, [a[i]], [b[i]]);
    assert RunsOk(runs, MAX_SIZE - 1) && PatchRuns(runs, src, reverse) == src[..i] + [if reverse then a[i] else b[i]];
    assert Rest(src, i + 1, 2) == src[i + 1..];
  }

  lemma {:induction false} OneRun(a: seq<Byte>, b: seq<Byte>, i: nat)
    requires |a| == |b| == 2 && i < 2 && a[i] != b[i] && a[1 - i] == b[1 - i]
    ensures DeltaOf(a, b) == Delta([Run(i, [a[i]], [b[i]])], None)
  {
    assert ScanUpTo(a, b, 0) == Scan([], false, Run(0, [], []));
    if i == 0 {
      assert ScanUpTo(a, b, 1) == Scan([], true, Run(0, [a[0]], [b[0]]));
      assert ScanUpTo(a, b, 2).runs == [Run(0, [a[0]], [b[0]])];
    } else {
      assert ScanUpTo(a, b, 1) == Scan([], false, Run(0, [], []));
      assert ScanUpTo(a, b, 2) == Scan([], true, Run(1, [a[1]], [b[1]]));
    }
  }

  /** Contents for any tree, made to go wrong at one son. */
  function BadContents(edges: seq<Edge>, id: Id, anc: Id, u: Id): (c: Contents)
    ensures c.Keys == Nodes(edges) && forall v :: v in c ==> |c[v]| <= 2
  {
    map v | v in Nodes(edges) ::
      if v == INIT then [] else if v == anc then [1, 0] else if v == id then [2, 0] else if v == u then [2, 7] else []
  }

  function EdgeDeltas(edges: seq<Edge>, contents: Contents): map<Id, Delta>
    requires forall e :: e in edges ==> e.cur in contents && e.anc in contents
  {
    map v | v in Nodes(edges) && HasAnc(edges, v) ::
      assert Edge(v, Anc(edges, v)) in edges;
      DeltaOf(contents[Anc(edges, v)], contents[v])
  }

  /** Any contents can be stored. */
  lemma {:induction false} DeltasStored(edges: seq<Edge>, rank: map<Id, nat>, contents: Contents)
    requires IsTree(edges, rank) && contents.Keys == Nodes(edges) && contents[INIT] == []
    requires forall v :: v in contents ==> |contents[v]| <= 2
    ensures forall e :: e in edges ==> e.cur in contents && e.anc in contents
    ensures Stored(edges, contents, EdgeDeltas(edges, contents))
  {
    hide DeltaOf, HasAnc;
    forall e | e in edges ensures EdgeOk(e, contents, EdgeDeltas(edges, contents)) {
      AncUnique(edges, rank, e);
    }
  }

  lemma {:induction false} BadStored(edges: seq<Edge>, rank: map<Id, nat>, id: Id, anc: Id, u: Id)
    requires IsTree(edges, rank) && Edge(id, anc) in edges && Edge(u, id) in edges
    ensures forall e :: e in edges ==> e.cur in Nodes(edges) && e.anc in Nodes(edges)
    ensures
      var contents := BadContents(edges, id, anc, u);
      && Stored(edges, contents, EdgeDeltas(edges, contents))
      && contents[id] == [2, 0] && contents[u] == [2, 7]
      && contents[anc] == if anc == INIT then [] else [1, 0]
  {
    assert rank[anc] < rank[id] < rank[u];
    DeltasStored(edges, rank, BadContents(edges, id, anc, u));
  }

  /** If the current version is below a son listed before another, some contents go wrong. */
  lemma {:induction false} UnsafeGoesWrong(edges: seq<Edge>, rank: map<Id, nat>, head: Id, way: seq<WayEntry>, id: Id, anc: Id)
    returns (contents: Contents, deltas: map<Id, Delta>)
    requires Removable(edges, rank, head, way, id, anc) && !Safe(edges, rank, head, id)
    ensures Stored(edges, contents, deltas) && !RemovedRight(edges, contents, deltas, head, way, id, anc)
  {
    var sons := Sons(edges, id);
    var j :| 0 <= j < |sons| - 1 && Below(edges, rank, head, sons[j]);
    assert sons[j + 1] in sons;
    BadStored(edges, rank, id, anc, sons[j + 1]);
    contents := BadContents(edges, id, anc, sons[j + 1]);
    deltas := EdgeDeltas(edges, contents);
    WrongRemoval(edges, rank, contents, deltas, head, way, id, anc, j);
  }

  /**
   The exact condition: removal leaves every remaining edge with the right delta,
   whatever the versions hold, if and only if the current version is below no son
   but the one listed last.
   */
  lemma {:induction false} RemovalIsRightIff(edges: seq<Edge>, rank: map<Id, nat>, head: Id, way: seq<WayEntry>, id: Id, anc: Id)
    requires Removable(edges, rank, head, way, id, anc)
    ensures (forall contents: Contents, deltas: map<Id, Delta> :: Stored(edges, contents, deltas) ==>
               RemovedRight(edges, contents, deltas, head, way, id, anc))
            <==> Safe(edges, rank, head, id)
  {
    if Safe(edges, rank, head, id) {
      forall contents: Contents, deltas: map<Id, Delta> | Stored(edges, contents, deltas)
        ensures RemovedRight(edges, contents, deltas, head, way, id, anc)
      {
        SafeIsRight(edges, rank, contents, deltas, head, way, id, anc);
      }
    } else {
      var contents, deltas := UnsafeGoesWrong(edges, rank, head, way, id, anc);
    }
  }

  /**
   A run of it: the current version 3 and version 4 are sons of version 2, in this
   order, and version 1 is the ancestor of version 2. The removal of version 2
   ends, and version 4's delta leads from version 1 to other contents than its own.
   */
  lemma {:induction false} RemovalCanLose() returns (edges: seq<Edge>, rank: map<Id, nat>, contents: Contents, deltas: map<Id, Delta>,
                                                     after: map<Id, Delta>)
    ensures IsTree(edges, rank) && Stored(edges, contents, deltas) && Sons(edges, 2) == [3, 4] && Edge(2, 1) in edges
    ensures {1, 3, 4} <= contents.Keys && WayOk(edges, 3, [WayEntry(2, 3, true)], 2)
    ensures RebaseSons(deltas, contents[3], [WayEntry(2, 3, true)], 2, [3, 4]) == Rebuilt(after)
    ensures 4 in after && Fits(after[4], contents[1], false) && Patch(after[4], contents[1], false) == [1, 7] != contents[4]
  {
    hide *;
    edges := [Edge(1, 0), Edge(2, 1), Edge(3, 2), Edge(4, 2)];
    rank := map[0 := 0, 1 := 1, 2 := 2, 3 := 3, 4 := 3];
    var way := [WayEntry(2, 3, true)];
    ExampleReady(edges, rank, way);
    BadStored(edges, rank, 2, 1, 4);
    contents := BadContents(edges, 2, 1, 4);
    deltas := EdgeDeltas(edges, contents);
    WrongSon(edges, rank, contents, deltas, 3, way, 2, 1, 0);
    assert [3, 4][..2] == [3, 4];
    after := RebaseSons(deltas, contents[3], way, 2, [3, 4]).deltas;
    Bounds();
    RoundTrip([1, 0], [1, 7]);
  }

  lemma Bounds()
    ensures MAX_SIZE > 2 && INIT == 0
  {
  }

  lemma {:induction false} ExampleReady(edges: seq<Edge>, rank: map<Id, nat>, way: seq<WayEntry>)
    requires edges == [Edge(1, 0), Edge(2, 1), Edge(3, 2), Edge(4, 2)] && way == [WayEntry(2, 3, true)]
    requires rank == map[0 := 0, 1 := 1, 2 := 2, 3 := 3, 4 := 3]
    ensures Removable(edges, rank, 3, way, 2, 1) && Sons(edges, 2) == [3, 4] && Below(edges, rank, 3, 3)
    ensures IsTree(edges, rank) && Edge(2, 1) in edges && Edge(4, 2) in edges && WayOk(edges, 3, way, 2)
    ensures forall c: Contents :: c.Keys == Nodes(edges) ==> {1, 2, 3, 4} <= c.Keys
  {
    ExampleTree(edges, rank);
    SonsOfTwo(edges);
    assert edges[1] in edges && edges[2] in edges && edges[3] in edges && way[1..] == [];
  }

  lemma {:induction false} ExampleTree(edges: seq<Edge>, rank: map<Id, nat>)
    requires edges == [Edge(1, 0), Edge(2, 1), Edge(3, 2), Edge(4, 2)]
    requires rank == map[0 := 0, 1 := 1, 2 := 2, 3 := 3, 4 := 3]
    ensures IsTree(edges, rank) && Below(edges, rank, 3, 3) && Nodes(edges) == {0, 1, 2, 3, 4}
  {
    assert edges[0] in edges && edges[1] in edges && edges[2] in edges && edges[3] in edges;
  }

  lemma {:induction false} SonsOfTwo(edges: seq<Edge>)
    requires edges == [Edge(1, 0), Edge(2, 1), Edge(3, 2), Edge(4, 2)]
    ensures Sons(edges, 2) == [3, 4]
  {
    assert edges[1..] == [Edge(2, 1), Edge(3, 2), Edge(4, 2)];
    assert edges[1..][1..] == [Edge(3, 2), Edge(4, 2)];
    assert edges[1..][1..][1..] == [Edge(4, 2)];
    assert edges[1..][1..][1..][1..] == [];
    assert Sons([], 2) == [];
    assert Sons([Edge(4, 2)], 2) == [4] by {
      assert [Edge(4, 2)][1..] == [];
    }
    assert Sons([Edge(3, 2), Edge(4, 2)], 2) == [3, 4] by {
      assert [Edge(3, 2), Edge(4, 2)][1..] == [Edge(4, 2)];
    }
    assert Sons([Edge(2, 1), Edge(3, 2), Edge(4, 2)], 2) == [3, 4] by {
      assert [Edge(2, 1), Edge(3, 2), Edge(4, 2)][1..] == [Edge(3, 2), Edge(4, 2)];
    }
  }
}
