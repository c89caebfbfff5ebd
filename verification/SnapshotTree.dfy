/**
 The tree of versions, as the meta file lists it: edges from a snapshot to its
 ancestor. A repository is sound when every edge's delta leads from the
 ancestor's contents to the snapshot's own.
 */
module SnapshotTree {
  import opened SnapshotDelta

  type Id = nat

  /** The empty version everything descends from. */
  const INIT: Id := 0

  datatype Edge = Edge(cur: Id, anc: Id)

  /** One step from a version to a neighbour: which delta to apply, and which way. */
  datatype WayEntry = WayEntry(snap: Id, diff: Id, isReverse: bool)

  function Nodes(edges: seq<Edge>): set<Id> {
    {INIT} + (set e | e in edges :: e.cur)
  }

  /** `get_anc`. */
  function HasAnc(edges: seq<Edge>, id: Id): bool {
    exists i :: 0 <= i < |edges| && edges[i].cur == id
  }

  function Anc(edges: seq<Edge>, id: Id): (anc: Id)
    requires HasAnc(edges, id)
    ensures Edge(id, anc) in edges
  {
    if edges[0].cur == id then edges[0].anc
    else
      assert HasAnc(edges[1..], id) by {
        var i :| 0 <= i < |edges| && edges[i].cur == id;
        assert edges[1..][i - 1].cur == id;
      }
      Anc(edges[1..], id)
  }

  /** `son_list`, in the order of the file. */
  function Sons(edges: seq<Edge>, id: Id): (sons: seq<Id>)
    ensures forall s :: s in sons <==> Edge(s, id) in edges
  {
    if edges == [] then [] else (if edges[0].anc == id then [edges[0].cur] else []) + Sons(edges[1..], id)
  }

  /** A tree rooted in `INIT`: every other version has one ancestor, and `rank` falls towards the root. */
  ghost predicate IsTree(edges: seq<Edge>, rank: map<Id, nat>) {
    && (forall i, j :: 0 <= i < j < |edges| ==> edges[i].cur != edges[j].cur)
    && (forall e :: e in edges ==> e.cur != INIT && e.anc in Nodes(edges))
    && (forall e :: e in edges ==> e.cur in rank && e.anc in rank && rank[e.anc] < rank[e.cur])
  }

  lemma {:induction false} AncUnique(edges: seq<Edge>, rank: map<Id, nat>, e: Edge)
    requires IsTree(edges, rank) && e in edges
    ensures HasAnc(edges, e.cur) && Anc(edges, e.cur) == e.anc
  {
    var i :| 0 <= i < |edges| && edges[i] == e;
    var f := Edge(e.cur, Anc(edges, e.cur));
    var j :| 0 <= j < |edges| && edges[j] == f;
    assert i == j;
  }

  ghost predicate Neighbours(edges: seq<Edge>, a: Id, b: Id) {
    Edge(a, b) in edges || Edge(b, a) in edges
  }

  /** A set of versions that contains one and all neighbours of its members contains them all. */
  lemma {:induction false} ClosedIsAll(edges: seq<Edge>, rank: map<Id, nat>, closed: set<Id>, start: Id, id: Id)
    requires IsTree(edges, rank) && start in closed && start in Nodes(edges) && id in Nodes(edges)
    requires forall a, b :: a in closed && Neighbours(edges, a, b) ==> b in closed
    ensures id in closed
  {
    UpToRoot(edges, rank, closed, start);
    DownFromRoot(edges, rank, closed, id);
  }

  lemma {:induction false} UpToRoot(edges: seq<Edge>, rank: map<Id, nat>, closed: set<Id>, id: Id)
    requires IsTree(edges, rank) && id in closed && id in Nodes(edges)
    requires forall a, b :: a in closed && Neighbours(edges, a, b) ==> b in closed
    ensures INIT in closed
    decreases if id in rank then rank[id] else 0
  {
    if id != INIT {
      var e :| e in edges && e.cur == id;
      assert Neighbours(edges, id, e.anc);
      UpToRoot(edges, rank, closed, e.anc);
    }
  }

  lemma {:induction false} DownFromRoot(edges: seq<Edge>, rank: map<Id, nat>, closed: set<Id>, id: Id)
    requires IsTree(edges, rank) && INIT in closed && id in Nodes(edges)
    requires forall a, b :: a in closed && Neighbours(edges, a, b) ==> b in closed
    ensures id in closed
    decreases if id in rank then rank[id] else 0
  {
    if id != INIT {
      var e :| e in edges && e.cur == id;
      DownFromRoot(edges, rank, closed, e.anc);
      assert Neighbours(edges, e.anc, id);
    }
  }

  /** One step from `from` along an edge, marked with the edge's direction. */
  ghost predicate StepOk(edges: seq<Edge>, from: Id, w: WayEntry) {
    if w.isReverse then w.diff == from && Edge(from, w.snap) in edges
    else w.diff == w.snap && Edge(w.snap, from) in edges
  }

  /** A way through the tree; `to` is met at its end only. */
  ghost predicate WayOk(edges: seq<Edge>, from: Id, way: seq<WayEntry>, to: Id)
    decreases |way|
  {
    if way == [] then from == to
    else from != to && StepOk(edges, from, way[0]) && WayOk(edges, way[0].snap, way[1..], to)
  }

  type Contents = map<Id, seq<Byte>>

  /** The delta of one edge leads from the ancestor's contents to the snapshot's. */
  ghost predicate EdgeOk(e: Edge, contents: Contents, deltas: map<Id, Delta>) {
    && e.cur in contents && e.anc in contents && e.cur in deltas
    && deltas[e.cur] == DeltaOf(contents[e.anc], contents[e.cur])
  }

  ghost predicate RepositoryOk(edges: seq<Edge>, contents: Contents, deltas: map<Id, Delta>) {
    && (forall e :: e in edges ==> EdgeOk(e, contents, deltas))
    && (forall id :: id in contents ==> |contents[id]| < MAX_SIZE)
    && INIT in contents
  }

  /** The edge a step goes along. */
  function EdgeOf(from: Id, w: WayEntry): Edge {
    if w.isReverse then Edge(from, w.snap) else Edge(w.snap, from)
  }

  /** Applying the delta of a step to the contents of one end gives the contents of the other. */
  lemma {:induction false} StepPatches(edges: seq<Edge>, contents: Contents, deltas: map<Id, Delta>, from: Id, w: WayEntry)
    requires StepOk(edges, from, w) && EdgeOk(EdgeOf(from, w), contents, deltas)
    requires forall id :: id in contents ==> |contents[id]| < MAX_SIZE
    ensures from in contents && w.snap in contents && w.diff in deltas
    ensures Fits(deltas[w.diff], contents[from], w.isReverse)
    ensures Patch(deltas[w.diff], contents[from], w.isReverse) == contents[w.snap]
  {
    var e := EdgeOf(from, w);
    RoundTrip(contents[e.anc], contents[e.cur]);
  }

  /** Where the way to `to` comes from at its end; there is no such step if it starts there. */
  function LastDiff(way: seq<WayEntry>): Id {
    if way == [] then INIT else way[|way| - 1].diff
  }

  /** Only the last step of a way to `to` touches an edge of `to`. */
  lemma {:induction false} OnlyLastStep(edges: seq<Edge>, rank: map<Id, nat>, from: Id, way: seq<WayEntry>, to: Id, i: nat)
    requires WayOk(edges, from, way, to) && IsTree(edges, rank) && i < |way|
    requires Edge(way[i].diff, to) in edges
    ensures i == |way| - 1 && way[i].isReverse && way[i].snap == to
    decreases |way|
  {
    if i == 0 {
      var w := way[0];
      AncUnique(edges, rank, Edge(w.diff, to));
      if w.isReverse {
        AncUnique(edges, rank, Edge(from, w.snap));
        assert w.snap == to;
      } else {
        AncUnique(edges, rank, Edge(w.snap, from));
      }
    } else {
      OnlyLastStep(edges, rank, way[0].snap, way[1..], to, i - 1);
    }
  }

  /** A way whose deltas lead from the contents of one version to the next. */
  ghost predicate WayPatches(contents: Contents, deltas: map<Id, Delta>, from: Id, way: seq<WayEntry>, to: Id)
    decreases |way|
  {
    if way == [] then from == to
    else
      var w := way[0];
      && from in contents && w.snap in contents && w.diff in deltas && Fits(deltas[w.diff], contents[from], w.isReverse)
      && Patch(deltas[w.diff], contents[from], w.isReverse) == contents[w.snap]
      && WayPatches(contents, deltas, w.snap, way[1..], to)
  }

  lemma {:induction false} WayIsPatches(edges: seq<Edge>, contents: Contents, deltas: map<Id, Delta>, from: Id,
                                        way: seq<WayEntry>, to: Id)
    requires WayOk(edges, from, way, to)
    requires forall id :: id in contents ==> |contents[id]| < MAX_SIZE
    requires forall e, i :: e in edges && 0 <= i < |way| && way[i].diff == e.cur ==> EdgeOk(e, contents, deltas)
    ensures WayPatches(contents, deltas, from, way, to)
    decreases |way|
  {
    if way != [] {
      var w := way[0];
      assert EdgeOf(from, w) in edges && EdgeOf(from, w).cur == way[0].diff;
      StepPatches(edges, contents, deltas, from, w);
      forall f, i | f in edges && 0 <= i < |way[1..]| && way[1..][i].diff == f.cur ensures EdgeOk(f, contents, deltas) {
        assert way[i + 1].diff == f.cur;
      }
      WayIsPatches(edges, contents, deltas, w.snap, way[1..], to);
    }
  }

  /** `x` is `t` or descends from it. */
  ghost predicate Below(edges: seq<Edge>, rank: map<Id, nat>, x: Id, t: Id)
    requires IsTree(edges, rank)
    decreases if x in rank then rank[x] else 0
  {
    x == t || exists e :: e in edges && e.cur == x && Below(edges, rank, e.anc, t)
  }

  /** A way that enters its end from a son of it starts below that son. */
  lemma {:induction false} EntersThrough(edges: seq<Edge>, rank: map<Id, nat>, from: Id, way: seq<WayEntry>, to: Id)
    requires IsTree(edges, rank) && WayOk(edges, from, way, to) && way != [] && way[|way| - 1].isReverse
    ensures Below(edges, rank, from, LastDiff(way))
    decreases |way|
  {
    var w, t := way[0], LastDiff(way);
    if |way| > 1 {
      assert LastDiff(way[1..]) == t;
      EntersThrough(edges, rank, w.snap, way[1..], to);
      LastStepIsReverse(edges, from, way, to);
      if w.isReverse {
        assert Edge(from, w.snap) in edges;
      } else {
        var e := Edge(w.snap, from);
        if w.snap == t {
          AncUnique(edges, rank, e);
          AncUnique(edges, rank, Edge(t, to));
        } else {
          var f :| f in edges && f.cur == w.snap && Below(edges, rank, f.anc, t);
          AncUnique(edges, rank, e);
          AncUnique(edges, rank, f);
        }
      }
    }
  }

  /** The last step of a way that is reversed goes along an edge to the end. */
  lemma {:induction false} LastStepIsReverse(edges: seq<Edge>, from: Id, way: seq<WayEntry>, to: Id)
    requires WayOk(edges, from, way, to) && way != [] && way[|way| - 1].isReverse
    ensures Edge(LastDiff(way), to) in edges
    decreases |way|
  {
    if |way| > 1 {
      LastStepIsReverse(edges, way[0].snap, way[1..], to);
    }
  }

  /** The edges that do not touch a version. */
  function Untouched(edges: seq<Edge>, id: Id): (r: seq<Edge>)
    ensures forall e :: e in r <==> e in edges && e.cur != id && e.anc != id
  {
    if edges == [] then []
    else (if edges[0].cur == id || edges[0].anc == id then [] else [edges[0]]) + Untouched(edges[1..], id)
  }

  /** The edges but a version's own. */
  function WithoutCur(edges: seq<Edge>, id: Id): (r: seq<Edge>)
    ensures forall e :: e in r <==> e in edges && e.cur != id
  {
    if edges == [] then [] else (if edges[0].cur == id then [] else [edges[0]]) + WithoutCur(edges[1..], id)
  }

  function Rebased(sons: seq<Id>, anc: Id): (r: seq<Edge>)
    ensures |r| == |sons| && forall i {:trigger r[i]} :: 0 <= i < |r| ==> r[i] == Edge(sons[i], anc)
  {
    if sons == [] then [] else [Edge(sons[0], anc)] + Rebased(sons[1..], anc)
  }

  ghost predicate DistinctCurs(edges: seq<Edge>) {
    forall i, j :: 0 <= i < j < |edges| ==> edges[i].cur != edges[j].cur
  }

  lemma {:induction false} DistinctTail(edges: seq<Edge>)
    requires edges != [] && DistinctCurs(edges)
    ensures DistinctCurs(edges[1..]) && forall e :: e in edges[1..] ==> e.cur != edges[0].cur
  {
    forall e | e in edges[1..] ensures e.cur != edges[0].cur {
      var i :| 0 <= i < |edges[1..]| && edges[1..][i] == e;
      assert edges[i + 1] == e;
    }
  }

  lemma {:induction false} DistinctJoin(a: seq<Edge>, b: seq<Edge>)
    requires DistinctCurs(a) && DistinctCurs(b) && forall e, f :: e in a && f in b ==> e.cur != f.cur
    ensures DistinctCurs(a + b)
  {
    var s := a + b;
    forall i, j | 0 <= i < j < |s| ensures s[i].cur != s[j].cur {
      if i < |a| && j >= |a| {
        assert s[i] in a && s[j] in b;
      }
    }
  }

  lemma {:induction false} DistinctFiltered(edges: seq<Edge>, id: Id)
    requires DistinctCurs(edges)
    ensures DistinctCurs(Untouched(edges, id)) && DistinctCurs(WithoutCur(edges, id))
  {
    if edges != [] {
      DistinctTail(edges);
      DistinctFiltered(edges[1..], id);
      DistinctJoin([edges[0]], Untouched(edges[1..], id));
      DistinctJoin([edges[0]], WithoutCur(edges[1..], id));
      assert [] + Untouched(edges[1..], id) == Untouched(edges[1..], id);
      assert [] + WithoutCur(edges[1..], id) == WithoutCur(edges[1..], id);
    }
  }

  lemma {:induction false} DistinctSons(edges: seq<Edge>, id: Id)
    requires DistinctCurs(edges)
    ensures forall i, j :: 0 <= i < j < |Sons(edges, id)| ==> Sons(edges, id)[i] != Sons(edges, id)[j]
  {
    if edges != [] {
      DistinctTail(edges);
      DistinctSons(edges[1..], id);
      var rest := Sons(edges[1..], id);
      if edges[0].anc == id {
        assert Sons(edges, id) == [edges[0].cur] + rest;
        assert edges[0].cur !in rest;
      } else {
        assert Sons(edges, id) == rest;
      }
    }
  }

  /** The tree without one version: its sons hang from its ancestor. */
  lemma {:induction false} TreeRebased(edges: seq<Edge>, rank: map<Id, nat>, id: Id, anc: Id)
    requires IsTree(edges, rank) && Edge(id, anc) in edges
    ensures
      var now := Untouched(edges, id) + Rebased(Sons(edges, id), anc);
      && IsTree(now, rank) && Nodes(now) == Nodes(edges) - {id}
      && forall e :: e in now <==> (e in edges && e.cur != id && e.anc != id) || (e.anc == anc && Edge(e.cur, id) in edges)
  {
    var kept, sons := Untouched(edges, id), Sons(edges, id);
    var moved := Rebased(sons, anc);
    var now := kept + moved;
    AncUnique(edges, rank, Edge(id, anc));
    assert forall e :: e in moved <==> e.anc == anc && e.cur in sons by {
      forall e ensures e in moved <==> e.anc == anc && e.cur in sons {
        if e.anc == anc && e.cur in sons {
          var i :| 0 <= i < |sons| && sons[i] == e.cur;
          assert moved[i] == e;
        }
      }
    }
    DistinctFiltered(edges, id);
    DistinctSons(edges, id);
    forall e, f | e in kept && f in moved ensures e.cur != f.cur {
      AncUnique(edges, rank, e);
      AncUnique(edges, rank, Edge(f.cur, id));
    }
    DistinctJoin(kept, moved);
    NodesRebased(edges, rank, id, anc, now);
  }

  lemma {:induction false} NodesRebased(edges: seq<Edge>, rank: map<Id, nat>, id: Id, anc: Id, now: seq<Edge>)
    requires IsTree(edges, rank) && Edge(id, anc) in edges && DistinctCurs(now)
    requires forall e :: e in now <==> (e in edges && e.cur != id && e.anc != id) || (e.anc == anc && Edge(e.cur, id) in edges)
    ensures IsTree(now, rank) && Nodes(now) == Nodes(edges) - {id}
  {
    forall e | e in edges && e.cur == id ensures e.anc == anc {
      AncUnique(edges, rank, e);
      AncUnique(edges, rank, Edge(id, anc));
    }
    forall v | v in Nodes(edges) - {id} ensures v in Nodes(now) {
      if v != INIT {
        var e :| e in edges && e.cur == v;
        assert if e.anc == id then Edge(v, anc) in now else e in now;
      }
    }
    forall e | e in edges ensures e.cur != e.anc {
      assert rank[e.anc] < rank[e.cur];
    }
    forall v | v in Nodes(now) ensures v in Nodes(edges) - {id} {
      if v != INIT {
        var e :| e in now && e.cur == v;
        assert e in edges || Edge(v, id) in edges;
      }
    }
    forall e | e in now ensures e.cur in rank && e.anc in rank && rank[e.anc] < rank[e.cur] {
      if e !in edges {
        assert rank[id] < rank[e.cur] && rank[anc] < rank[id];
      }
    }
    assert Edge(id, anc).anc in Nodes(edges) && anc != id;
  }

  /** The tree without a version that has no sons. */
  lemma {:induction false} TreePruned(edges: seq<Edge>, rank: map<Id, nat>, id: Id)
    requires IsTree(edges, rank) && Sons(edges, id) == [] && id != INIT
    ensures IsTree(WithoutCur(edges, id), rank) && Nodes(WithoutCur(edges, id)) == Nodes(edges) - {id}
  {
    var now := WithoutCur(edges, id);
    DistinctFiltered(edges, id);
    forall e | e in edges ensures e.anc != id {
      assert e == Edge(e.cur, e.anc) && e.cur in Sons(edges, e.anc);
    }
    forall v | v in Nodes(edges) - {id} ensures v in Nodes(now) {
      if v != INIT {
        var e :| e in edges && e.cur == v;
        assert e in now;
      }
    }
  }

  lemma {:induction false} SonsJoin(a: seq<Edge>, b: seq<Edge>, id: Id)
    ensures Sons(a + b, id) == Sons(a, id) + Sons(b, id)
  {
    if a == [] {
      assert a + b == b;
    } else {
      assert (a + b)[1..] == a[1..] + b;
      SonsJoin(a[1..], b, id);
    }
  }

  /** A new last line of the file: the version's ancestor, and the last of the ancestor's sons; all else stays. */
  lemma {:induction false} EdgeAppended(edges: seq<Edge>, e: Edge)
    requires !HasAnc(edges, e.cur)
    ensures HasAnc(edges + [e], e.cur) && Anc(edges + [e], e.cur) == e.anc
    ensures Sons(edges + [e], e.anc) == Sons(edges, e.anc) + [e.cur]
    ensures forall v :: v != e.anc ==> Sons(edges + [e], v) == Sons(edges, v)
    ensures forall v :: v != e.cur ==> (HasAnc(edges + [e], v) <==> HasAnc(edges, v))
    ensures forall v :: HasAnc(edges, v) ==> HasAnc(edges + [e], v) && Anc(edges + [e], v) == Anc(edges, v)
  {
    var now := edges + [e];
    forall v ensures Sons(now, v) == Sons(edges, v) + (if v == e.anc then [e.cur] else []) {
      SonsJoin(edges, [e], v);
    }
    assert now[|edges|] == e;
    forall v | v != e.cur ensures HasAnc(now, v) <==> HasAnc(edges, v) {
      HasAncMore(edges, e, v);
    }
    forall v | HasAnc(now, v) ensures Anc(now, v) == if v == e.cur then e.anc else Anc(edges, v) {
      HasAncMore(edges, e, v);
      AncMore(edges, e, v);
    }
  }

  lemma {:induction false} HasAncMore(edges: seq<Edge>, e: Edge, v: Id)
    ensures HasAnc(edges + [e], v) <==> HasAnc(edges, v) || v == e.cur
  {
    var now := edges + [e];
    assert now[|edges|] == e;
    if HasAnc(edges, v) {
      var i :| 0 <= i < |edges| && edges[i].cur == v;
      assert now[i].cur == v;
    }
  }

  lemma {:induction false} AncMore(edges: seq<Edge>, e: Edge, v: Id)
    requires HasAnc(edges + [e], v) && (HasAnc(edges, v) || v == e.cur)
    ensures Anc(edges + [e], v) == if HasAnc(edges, v) then Anc(edges, v) else e.anc
  {
    if edges == [] {
    } else if edges[0].cur == v {
      assert HasAnc(edges, v);
    } else {
      assert (edges + [e])[1..] == edges[1..] + [e];
      HasAncMore(edges[1..], e, v);
      HasAncRest(edges, v);
      HasAncRest(edges + [e], v);
      AncMore(edges[1..], e, v);
    }
  }

  lemma {:induction false} HasAncRest(edges: seq<Edge>, v: Id)
    requires edges != [] && edges[0].cur != v
    ensures HasAnc(edges, v) <==> HasAnc(edges[1..], v)
  {
    if HasAnc(edges, v) {
      var i :| 0 <= i < |edges| && edges[i].cur == v;
      assert edges[1..][i - 1].cur == v;
    }
    if HasAnc(edges[1..], v) {
      var i :| 0 <= i < |edges[1..]| && edges[1..][i].cur == v;
      assert edges[i + 1].cur == v;
    }
  }

  function Minus(ids: seq<Id>, id: Id): seq<Id> {
    if ids == [] then [] else (if ids[0] == id then [] else [ids[0]]) + Minus(ids[1..], id)
  }

  lemma {:induction false} MinusJoin(s: seq<Id>, t: seq<Id>, id: Id)
    ensures Minus(s + t, id) == Minus(s, id) + Minus(t, id)
  {
    if s == [] {
      assert s + t == t;
    } else {
      assert (s + t)[1..] == s[1..] + t;
      MinusJoin(s[1..], t, id);
    }
  }

  lemma SonsOfOne(e: Edge, v: Id)
    ensures Sons([e], v) == if e.anc == v then [e.cur] else []
  {
  }

  lemma {:induction false} SonsUntouched(edges: seq<Edge>, id: Id, v: Id)
    ensures Sons(Untouched(edges, id), v) == if v == id then [] else Minus(Sons(edges, v), id)
    ensures Sons(WithoutCur(edges, id), v) == Minus(Sons(edges, v), id)
  {
    if edges != [] {
      var e, rest := edges[0], edges[1..];
      SonsUntouched(rest, id, v);
      SonsOfOne(e, v);
      SonsJoin(if e.cur == id || e.anc == id then [] else [e], Untouched(rest, id), v);
      SonsJoin(if e.cur == id then [] else [e], WithoutCur(rest, id), v);
      MinusJoin(if e.anc == v then [e.cur] else [], Sons(rest, v), id);
      assert Minus([e.cur], id) == if e.cur == id then [] else [e.cur];
    }
  }

  lemma {:induction false} SonsOfRebased(sons: seq<Id>, anc: Id, v: Id)
    ensures Sons(Rebased(sons, anc), v) == if v == anc then sons else []
  {
    if sons != [] {
      SonsOfRebased(sons[1..], anc, v);
      assert Rebased(sons, anc) == [Edge(sons[0], anc)] + Rebased(sons[1..], anc);
      assert Rebased(sons, anc)[1..] == Rebased(sons[1..], anc);
    }
  }

  /** The order of sons after a removal: those of the removed version come last, behind its ancestor's others. */
  lemma {:induction false} SonsMoved(edges: seq<Edge>, id: Id, anc: Id, v: Id)
    requires anc != id
    ensures
      Sons(Untouched(edges, id) + Rebased(Sons(edges, id), anc), v)
      == (if v == id then [] else Minus(Sons(edges, v), id)) + (if v == anc then Sons(edges, id) else [])
  {
    SonsJoin(Untouched(edges, id), Rebased(Sons(edges, id), anc), v);
    SonsUntouched(edges, id, v);
    SonsOfRebased(Sons(edges, id), anc, v);
  }
}
