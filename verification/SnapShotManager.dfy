/**
 The snapshot manager over one data file: versions are created, switched to and
 removed; each is kept as a delta from its ancestor.
 */
module SnapShotManager {
  import opened SnapshotDelta
  import opened SnapshotPatch
  import opened SnapshotRemoval
  import opened SnapshotTree

  /** A removal is refused, or breaks off, or is done. */
  datatype Removal = Refused | Failed | Removed

  /** The breadth-first search: `record[v]` leads from `v` one step towards the destination, which was met earlier. */
  ghost predicate RecordOk(edges: seq<Edge>, dest: Id, record: map<Id, WayEntry>, when: map<Id, nat>, clock: nat) {
    && (forall v :: v in when ==> when[v] < clock)
    && (forall v :: v in record ==> v in Nodes(edges))
    && (forall v :: v in record && v != dest ==>
         && StepOk(edges, v, record[v]) && v in when
         && (record[v].snap == dest
             || (record[v].snap in record && record[v].snap in when && when[record[v].snap] < when[v])))
  }

  /** Versions that are recorded wait in the queue or are done with, and those done with have their neighbours recorded. */
  ghost predicate Explored(edges: seq<Edge>, dest: Id, record: map<Id, WayEntry>, queue: seq<Id>, done: set<Id>) {
    && (forall v :: v in record || v == dest ==> v in queue || v in done)
    && (forall a, b :: a in done && Neighbours(edges, a, b) ==> b in record)
    && (forall v :: v in queue || v in done ==> v in record || v == dest)
  }

  /** What is recorded anew is queued, and nothing else. */
  ghost predicate QueueGrows(record: map<Id, WayEntry>, queue: seq<Id>, record': map<Id, WayEntry>, queue': seq<Id>) {
    && record.Keys <= record'.Keys && (record'.Keys == record.Keys ==> queue' == queue)
    && (forall v :: v in queue ==> v in queue')
    && (forall v :: v in queue' ==> v in queue || v in record')
    && (forall v :: v in record' && v !in record ==> v in queue')
  }

  lemma QueueGrowsMore(record: map<Id, WayEntry>, queue: seq<Id>, record1: map<Id, WayEntry>, queue1: seq<Id>,
                       record2: map<Id, WayEntry>, queue2: seq<Id>, v: Id)
    requires QueueGrows(record, queue, record1, queue1) && record2.Keys == record1.Keys + {v}
    requires queue2 == if v in record1 then queue1 else queue1 + [v]
    ensures QueueGrows(record, queue, record2, queue2)
  {
    assert v in record1 ==> record2.Keys == record1.Keys;
  }

  lemma QueueGrowsTwice(record: map<Id, WayEntry>, queue: seq<Id>, record1: map<Id, WayEntry>, queue1: seq<Id>,
                        record2: map<Id, WayEntry>, queue2: seq<Id>)
    requires QueueGrows(record, queue, record1, queue1) && QueueGrows(record1, queue1, record2, queue2)
    ensures QueueGrows(record, queue, record2, queue2)
  {
  }

  lemma QueueStays(record: map<Id, WayEntry>, queue: seq<Id>)
    ensures QueueGrows(record, queue, record, queue)
  {
  }

  /** A way as far as `at`, not having met `dest` before. */
  ghost predicate WayUpTo(edges: seq<Edge>, from: Id, way: seq<WayEntry>, at: Id, dest: Id)
    decreases |way|
  {
    if way == [] then from == at
    else
      var init, w := way[..|way| - 1], way[|way| - 1];
      var mid := if init == [] then from else init[|init| - 1].snap;
      mid != dest && StepOk(edges, mid, w) && w.snap == at && WayUpTo(edges, from, init, mid, dest)
  }

  lemma {:induction false} WayJoin(edges: seq<Edge>, from: Id, way: seq<WayEntry>, at: Id, rest: seq<WayEntry>, dest: Id)
    requires WayUpTo(edges, from, way, at, dest) && WayOk(edges, at, rest, dest)
    ensures WayOk(edges, from, way + rest, dest)
    decreases |way|
  {
    if way == [] {
      assert way + rest == rest;
    } else {
      var init, w := way[..|way| - 1], way[|way| - 1];
      var mid := if init == [] then from else init[|init| - 1].snap;
      assert ([w] + rest)[1..] == rest;
      WayJoin(edges, from, init, mid, [w] + rest, dest);
      assert init + ([w] + rest) == way + rest;
    }
  }

  /** When nothing waits any more, everything has been found. */
  lemma {:induction false} AllFound(edges: seq<Edge>, rank: map<Id, nat>, dest: Id, record: map<Id, WayEntry>, done: set<Id>,
                                    id: Id)
    requires IsTree(edges, rank) && Explored(edges, dest, record, [], done)
    requires dest in Nodes(edges) && id in Nodes(edges) && id != dest
    ensures id in record
  {
    var closed := record.Keys + {dest};
    forall a, b | a in closed && Neighbours(edges, a, b) ensures b in closed {
      assert a in done;
    }
    ClosedIsAll(edges, rank, closed, dest, id);
  }

  /** A delta file of a version. */
  ghost predicate FileOk(diffs: map<Id, seq<Byte>>, deltas: map<Id, Delta>, v: Id) {
    v in diffs && v in deltas && diffs[v] == Encode(deltas[v]) && RunsOk(deltas[v].runs, MAX_SIZE - 1)
  }

  /** The stored deltas are those of the edges. */
  ghost predicate FilesOk(edges: seq<Edge>, diffs: map<Id, seq<Byte>>, deltas: map<Id, Delta>) {
    forall e :: e in edges ==> FileOk(diffs, deltas, e.cur)
  }

  lemma {:induction false} TreeGrows(es: seq<Edge>, rk: map<Id, nat>, e: Edge, rank: map<Id, nat>)
    requires IsTree(es, rk) && e.anc in Nodes(es) && e.cur !in Nodes(es) && e.cur != INIT
    requires
      var r := if e.anc in rk then rk[e.anc] else 0;
      rank == rk[e.anc := r][e.cur := r + 1]
    ensures IsTree(es + [e], rank) && Nodes(es + [e]) == Nodes(es) + {e.cur}
  {
    var edges := es + [e];
    assert forall f :: f in edges <==> f in es || f == e;
    forall f | f in es ensures f.cur != e.cur && f.anc != e.cur {
      assert f.cur in Nodes(es);
    }
    assert Nodes(edges) == Nodes(es) + {e.cur};
    forall i, j | 0 <= i < j < |edges| ensures edges[i].cur != edges[j].cur {
      assert edges[i] in es;
      assert j < |es| ==> es[i].cur != es[j].cur;
    }
  }

  lemma {:induction false} StoreGrows(es: seq<Edge>, cs: Contents, ds: map<Id, Delta>, fs: map<Id, seq<Byte>>, e: Edge,
                                      data: seq<Byte>)
    requires RepositoryOk(es, cs, ds) && FilesOk(es, fs, ds) && cs.Keys == Nodes(es) && |data| < MAX_SIZE
    requires e.anc in cs && e.cur !in Nodes(es) && forall f :: f in es ==> f.anc in Nodes(es)
    ensures
      var d := DeltaOf(cs[e.anc], data);
      && RepositoryOk(es + [e], cs[e.cur := data], ds[e.cur := d]) && FilesOk(es + [e], fs[e.cur := Encode(d)], ds[e.cur := d])
  {
    var d := DeltaOf(cs[e.anc], data);
    RoundTrip(cs[e.anc], data);
    hide RunsOk, Encode, DeltaOf, Fits;
    assert forall f :: f in es + [e] <==> f in es || f == e;
    forall f | f in es ensures f.cur != e.cur && f.anc != e.cur {
      assert f.cur in Nodes(es);
    }
    FilesGrow(es, ds, fs, e, d);
    hide FileOk, FilesOk;
    forall f | f in es + [e] ensures EdgeOk(f, cs[e.cur := data], ds[e.cur := d]) {
      assert f in es ==> EdgeOk(f, cs, ds);
    }
  }

  lemma {:induction false} FilesGrow(es: seq<Edge>, ds: map<Id, Delta>, fs: map<Id, seq<Byte>>, e: Edge, d: Delta)
    requires FilesOk(es, fs, ds) && RunsOk(d.runs, MAX_SIZE - 1) && forall f :: f in es ==> f.cur != e.cur
    ensures FilesOk(es + [e], fs[e.cur := Encode(d)], ds[e.cur := d])
  {
    hide RunsOk, Encode;
    forall f | f in es + [e] ensures FileOk(fs[e.cur := Encode(d)], ds[e.cur := d], f.cur) {
      assert f in es ==> FileOk(fs, ds, f.cur);
    }
  }

  class SnapShotManager {
    var head: Id
    var edges: seq<Edge>
    var diffs: map<Id, seq<Byte>>
    var frontier: seq<Byte>
    var data: seq<Byte>
    ghost var contents: Contents
    ghost var deltas: map<Id, Delta>
    ghost var rank: map<Id, nat>

    ghost predicate Valid()
      reads this
    {
      && IsTree(edges, rank) && RepositoryOk(edges, contents, deltas)
      && contents.Keys == Nodes(edges) && contents[INIT] == [] && head in contents && frontier == contents[head]
      && FilesOk(edges, diffs, deltas) && |data| < MAX_SIZE
    }

    /** `InitializeRepository`: the meta file says `INIT`, the frontier file is empty. */
    constructor (data: seq<Byte>)
      requires |data| < MAX_SIZE
      ensures Valid() && contents == map[INIT := []] && head == INIT && edges == [] && this.data == data
    {
      head, edges, diffs, frontier := INIT, [], map[], [];
      this.data := data;
      contents, deltas, rank := map[INIT := []], map[], map[];
    }

    /** The meta file mentions a version. */
    function Mentioned(id: Id): bool
      reads this
    {
      Sons(edges, id) != [] || HasAnc(edges, id)
    }

    function AncOr(id: Id): Id
      reads this
    {
      if HasAnc(edges, id) then Anc(edges, id) else INIT
    }

    /** The invariant, taken apart and put together. */
    lemma {:induction false} Parts()
      ensures Valid() <==>
        && IsTree(edges, rank) && RepositoryOk(edges, contents, deltas)
        && contents.Keys == Nodes(edges) && contents[INIT] == [] && head in contents && frontier == contents[head]
        && FilesOk(edges, diffs, deltas) && |data| < MAX_SIZE
    {
    }

    static lemma {:induction false} MentionedNodes(edges: seq<Edge>, rank: map<Id, nat>, id: Id)
      requires IsTree(edges, rank)
      ensures Sons(edges, id) != [] || HasAnc(edges, id) ==> id in Nodes(edges)
      ensures id in Nodes(edges) && id != INIT ==> HasAnc(edges, id)
      ensures forall e :: e in edges ==> e.anc in Nodes(edges) && e.cur in Nodes(edges) && e.cur != INIT
    {
      if id in Nodes(edges) && id != INIT {
        var e :| e in edges && e.cur == id;
        var i :| 0 <= i < |edges| && edges[i] == e;
        assert HasAnc(edges, id);
      }
      if Sons(edges, id) != [] {
        assert Sons(edges, id)[0] in Sons(edges, id);
      }
      if HasAnc(edges, id) {
        assert Edge(id, Anc(edges, id)) in edges;
      }
    }

    /** The data file put on record as a new version below the current one, which it becomes. */
    method CreateSnapShot(id: Id) returns (ok: bool)
      requires Valid()
      modifies this
      ensures ok == !old(Mentioned(id)) && data == old(data)
      ensures !ok ==> Valid() && contents == old(contents) && head == old(head) && frontier == old(frontier)
      ensures ok && id != INIT ==> Valid() && id !in old(contents)
      ensures ok ==> contents == old(contents)[id := data] && head == id && frontier == data
      ensures ok && id == INIT ==> !Valid()
      ensures ok ==> edges == old(edges) + [Edge(id, old(head))]
      ensures ok && id != INIT ==> HasAnc(edges, id) && Anc(edges, id) == old(head)
      ensures ok ==> Sons(edges, old(head)) == old(Sons(edges, head)) + [id]
      ensures ok ==> diffs == old(diffs)[id := Encode(DeltaOf(old(frontier), data))]
      ensures ok ==> deltas == old(deltas)[id := DeltaOf(old(frontier), data)]
      ensures !ok ==> edges == old(edges) && diffs == old(diffs) && deltas == old(deltas)
    {
      hide *;
      Parts();
      MentionedNodes(edges, rank, id);
      ok := !Mentioned(id);
      MentionedIs(id);
      if !ok {
        return;
      }
      ghost var e := Edge(id, head);
      FrontierSize();
      var diff := GenerateDiff(frontier, data);
      if id != INIT {
        StoreGrows(edges, contents, deltas, diffs, e, data);
      }
      ghost var r := if head in rank then rank[head] else 0;
      rank := rank[head := r][id := r + 1];
      if id != INIT {
        TreeGrows(edges, old(rank), e, rank);
      }
      EdgeAppended(edges, e);
      edges := edges + [Edge(id, head)];
      head := id;
      diffs := diffs[id := diff];
      deltas := deltas[id := DeltaOf(frontier, data)];
      frontier := data;
      contents := contents[id := data];
      Parts();
      if id == INIT {
        NoInitEdge(edges, rank, e);
      }
    }

    lemma MentionedIs(id: Id)
      ensures Mentioned(id) <==> Sons(edges, id) != [] || HasAnc(edges, id)
    {
    }

    lemma FrontierSize()
      requires Valid()
      ensures |frontier| < MAX_SIZE
    {
    }

    static lemma NoInitEdge(edges: seq<Edge>, rank: map<Id, nat>, e: Edge)
      requires e in edges && e.cur == INIT
      ensures !IsTree(edges, rank)
    {
    }

    /** A neighbour is recorded and queued, unless it has been before. */
    method Visit(dest: Id, v: Id, w: WayEntry, record: map<Id, WayEntry>, queue: seq<Id>, ghost when: map<Id, nat>,
                 ghost clock: nat) returns (record': map<Id, WayEntry>, queue': seq<Id>, found: bool, ghost when': map<Id, nat>)
      requires RecordOk(edges, dest, record, when, clock) && StepOk(edges, v, w) && v in Nodes(edges)
      requires w.snap == dest || w.snap in record
      ensures RecordOk(edges, dest, record', when', clock + 1)
      ensures record'.Keys == record.Keys + {v} && found == (v == head && v !in record)
      ensures queue' == if v in record || found then queue else queue + [v]
    {
      record', queue', found, when' := record, queue, false, when;
      if v !in record {
        record' := record[v := w];
        when' := when[v := clock];
        if v == head {
          found := true;
          return;
        }
        queue' := queue + [v];
      }
    }

    /** All neighbours of one version visited: first its ancestor, then its sons. */
    method Expand(dest: Id, cur: Id, record: map<Id, WayEntry>, queue: seq<Id>, ghost when: map<Id, nat>, ghost clock: nat)
      returns (record': map<Id, WayEntry>, queue': seq<Id>, found: bool, ghost when': map<Id, nat>, ghost clock': nat)
      requires IsTree(edges, rank) && RecordOk(edges, dest, record, when, clock) && head !in record
      requires cur == dest || cur in record
      ensures RecordOk(edges, dest, record', when', clock') && found == (head in record')
      ensures !found ==> (forall b :: Neighbours(edges, cur, b) ==> b in record') && QueueGrows(record, queue, record', queue')
    {
      hide RecordOk, IsTree, QueueGrows, Nodes, StepOk;
      record', queue', found, when', clock' := record, queue, false, when, clock;
      QueueStays(record, queue);
      EdgeNodes(edges, rank);
      if HasAnc(edges, cur) {
        StepsFrom(edges, rank, cur);
        var v := Anc(edges, cur);
        record', queue', found, when' := Visit(dest, v, WayEntry(cur, cur, false), record', queue', when', clock');
        clock' := clock' + 1;
        if found {
          return;
        }
        QueueGrowsMore(record, queue, record, queue, record', queue', v);
      }
      ghost var record1, queue1 := record', queue';
      record', queue', found, when', clock' := VisitSons(dest, cur, record', queue', when', clock');
      if !found {
        AllNeighbours(edges, rank, cur, record');
        QueueGrowsTwice(record, queue, record1, queue1, record', queue');
      }
    }

    method VisitSons(dest: Id, cur: Id, record: map<Id, WayEntry>, queue: seq<Id>, ghost when: map<Id, nat>, ghost clock: nat)
      returns (record': map<Id, WayEntry>, queue': seq<Id>, found: bool, ghost when': map<Id, nat>, ghost clock': nat)
      requires IsTree(edges, rank) && RecordOk(edges, dest, record, when, clock) && head !in record
      requires cur == dest || cur in record
      ensures RecordOk(edges, dest, record', when', clock') && found == (head in record') && record.Keys <= record'.Keys
      ensures !found ==> QueueGrows(record, queue, record', queue')
      ensures !found ==> forall i :: 0 <= i < |Sons(edges, cur)| ==> Sons(edges, cur)[i] in record'
    {
      hide RecordOk, IsTree, QueueGrows, Nodes, StepOk, Sons;
      record', queue', found, when', clock' := record, queue, false, when, clock;
      QueueStays(record, queue);
      var sons := Sons(edges, cur);
      var j := 0;
      while j < |sons|
        invariant 0 <= j <= |sons| && RecordOk(edges, dest, record', when', clock') && head !in record' && !found
        invariant QueueGrows(record, queue, record', queue') && (cur == dest || cur in record') && record.Keys <= record'.Keys
        invariant forall i :: 0 <= i < j ==> sons[i] in record'
      {
        SonStep(edges, rank, cur, sons[j]);
        ghost var record1, queue1 := record', queue';
        record', queue', found, when' := Visit(dest, sons[j], WayEntry(cur, sons[j], true), record', queue', when', clock');
        clock' := clock' + 1;
        if found {
          return;
        }
        QueueGrowsMore(record, queue, record1, queue1, record', queue', sons[j]);
        j := j + 1;
      }
    }

    static lemma {:induction false} StepsFrom(edges: seq<Edge>, rank: map<Id, nat>, cur: Id)
      requires IsTree(edges, rank) && HasAnc(edges, cur)
      ensures StepOk(edges, Anc(edges, cur), WayEntry(cur, cur, false)) && Anc(edges, cur) in Nodes(edges)
    {
    }

    static lemma {:induction false} SonStep(edges: seq<Edge>, rank: map<Id, nat>, cur: Id, son: Id)
      requires IsTree(edges, rank) && son in Sons(edges, cur)
      ensures StepOk(edges, son, WayEntry(cur, son, true)) && son in Nodes(edges)
    {
    }

    static lemma {:induction false} AllNeighbours(edges: seq<Edge>, rank: map<Id, nat>, cur: Id, record: map<Id, WayEntry>)
      requires IsTree(edges, rank) && (HasAnc(edges, cur) ==> Anc(edges, cur) in record)
      requires forall i :: 0 <= i < |Sons(edges, cur)| ==> Sons(edges, cur)[i] in record
      ensures forall b :: Neighbours(edges, cur, b) ==> b in record
    {
      forall b | Neighbours(edges, cur, b) ensures b in record {
        if Edge(cur, b) in edges {
          AncUnique(edges, rank, Edge(cur, b));
        } else {
          assert b in Sons(edges, cur);
        }
      }
    }

    static lemma {:induction false} EdgeNodes(edges: seq<Edge>, rank: map<Id, nat>)
      requires IsTree(edges, rank)
      ensures forall e :: e in edges ==> e.cur in Nodes(edges) && e.anc in Nodes(edges)
    {
    }

    static lemma {:induction false} NoRecord(edges: seq<Edge>, dest: Id)
      ensures RecordOk(edges, dest, map[], map[], 0) && Explored(edges, dest, map[], [dest], {})
    {
    }

    static lemma {:induction false} ExploredMore(edges: seq<Edge>, dest: Id, record: map<Id, WayEntry>, queue: seq<Id>,
                                                 done: set<Id>, record': map<Id, WayEntry>, queue': seq<Id>)
      requires queue != [] && Explored(edges, dest, record, queue, done)
      requires forall b :: Neighbours(edges, queue[0], b) ==> b in record'
      requires QueueGrows(record, queue[1..], record', queue')
      ensures Explored(edges, dest, record', queue', done + {queue[0]})
    {
      assert queue == [queue[0]] + queue[1..];
    }

    static lemma {:induction false} RecordSize(edges: seq<Edge>, dest: Id, record: map<Id, WayEntry>, when: map<Id, nat>,
                                               clock: nat)
      requires RecordOk(edges, dest, record, when, clock)
      ensures record.Keys <= Nodes(edges)
    {
    }

    /** Breadth-first search from the destination back to `head`. */
    method Search(dest: Id) returns (record: map<Id, WayEntry>, ghost when: map<Id, nat>, ghost clock: nat)
      requires IsTree(edges, rank) && dest in Nodes(edges) && head in Nodes(edges) && head != dest
      ensures RecordOk(edges, dest, record, when, clock) && head in record
    {
      hide RecordOk, IsTree, Explored, Nodes, Neighbours;
      var queue := [dest];
      record, when, clock := map[], map[], 0;
      var found := false;
      ghost var done: set<Id> := {};
      NoRecord(edges, dest);
      while queue != [] && !found
        invariant RecordOk(edges, dest, record, when, clock) && found == (head in record)
        invariant !found ==> Explored(edges, dest, record, queue, done)
        decreases !found, Nodes(edges) - record.Keys, |queue|
      {
        FromQueue(edges, dest, record, queue, done);
        RecordSize(edges, dest, record, when, clock);
        ghost var before, waiting := record, queue;
        var cur := queue[0];
        queue := queue[1..];
        record, queue, found, when, clock := Expand(dest, cur, record, queue, when, clock);
        RecordSize(edges, dest, record, when, clock);
        if !found {
          ExploredMore(edges, dest, before, waiting, done, record, queue);
        }
        done := done + {cur};
      }
      if !found {
        AllFound(edges, rank, dest, record, done, head);
      }
    }

    static lemma {:induction false} FromQueue(edges: seq<Edge>, dest: Id, record: map<Id, WayEntry>, queue: seq<Id>, done: set<Id>)
      requires queue != [] && Explored(edges, dest, record, queue, done)
      ensures queue[0] == dest || queue[0] in record
    {
      assert queue[0] in queue;
    }

    /** The way from `head` to a version: found for every version the meta file mentions. */
    method FindWay(dest: Id) returns (ok: bool, way: seq<WayEntry>)
      requires Valid()
      ensures ok == Mentioned(dest)
      ensures ok ==> dest in Nodes(edges) && WayOk(edges, head, way, dest)
    {
      hide *;
      Parts();
      MentionedNodes(edges, rank, dest);
      MentionedIs(dest);
      way := [];
      ok := Mentioned(dest);
      if !ok {
        return;
      }
      if head == dest {
        WayDone(edges, dest);
        return;
      }
      var record;
      ghost var when, clock;
      record, when, clock := Search(dest);
      var tmp := head;
      WayBegins(edges, head, dest);
      while tmp != dest
        invariant tmp == dest || tmp in record
        invariant WayUpTo(edges, head, way, tmp, dest)
        decreases if tmp == dest then 0 else if tmp in when then when[tmp] + 1 else 0
      {
        WayGoes(edges, head, way, tmp, dest, record, when, clock);
        way := way + [record[tmp]];
        tmp := record[tmp].snap;
      }
      WayDone(edges, dest);
      WayJoin(edges, head, way, dest, [], dest);
      assert way + [] == way;
    }

    static lemma {:induction false} WayDone(edges: seq<Edge>, dest: Id)
      ensures WayOk(edges, dest, [], dest)
    {
    }

    static lemma {:induction false} WayBegins(edges: seq<Edge>, from: Id, dest: Id)
      ensures WayUpTo(edges, from, [], from, dest)
    {
    }

    static lemma {:induction false} WayGoes(edges: seq<Edge>, from: Id, way: seq<WayEntry>, at: Id, dest: Id,
                                            record: map<Id, WayEntry>, when: map<Id, nat>, clock: nat)
      requires RecordOk(edges, dest, record, when, clock) && at in record && at != dest && WayUpTo(edges, from, way, at, dest)
      ensures WayUpTo(edges, from, way + [record[at]], record[at].snap, dest) && at in when
      ensures record[at].snap == dest || (record[at].snap in record && record[at].snap in when && when[record[at].snap] < when[at])
    {
      var next := way + [record[at]];
      assert next[..|next| - 1] == way;
    }

    /** The stored deltas of a way. */
    ghost predicate WayStored(way: seq<WayEntry>)
      reads this`diffs, this`deltas
    {
      forall i :: 0 <= i < |way| ==> FileOk(diffs, deltas, way[i].diff)
    }

    /** The deltas along a way applied one after the other. */
    method ApplyLongChange(old_: seq<Byte>, way: seq<WayEntry>) returns (file: File)
      requires WayStored(way)
      ensures file == Walk(deltas, old_, way)
    {
      hide RunsOk, Encode, Patch;
      var out := old_;
      var i := 0;
      assert way[0..] == way;
      while i < |way|
        invariant 0 <= i <= |way| && Walk(deltas, old_, way) == Walk(deltas, out, way[i..])
      {
        assert way[i..][0] == way[i] && way[i..][1..] == way[i + 1..] && FileOk(diffs, deltas, way[i].diff);
        if |out| >= MAX_SIZE {
          return Lost;
        }
        var ok, next := ApplyPatch(out, diffs[way[i].diff], way[i].isReverse, deltas[way[i].diff]);
        if !ok {
          return Lost;
        }
        out := next;
        i := i + 1;
      }
      return Got(out);
    }

    /** The frontier file becomes the wanted version, and so does the current one. */
    method SwitchToSnapShot(id: Id) returns (ok: bool)
      requires Valid()
      modifies this`frontier, this`head
      ensures Valid() && ok == old(Mentioned(id))
      ensures if ok then id in contents && head == id && frontier == contents[id]
              else head == old(head) && frontier == old(frontier)
    {
      hide *;
      Parts();
      var way;
      ok, way := FindWay(id);
      if ok {
        WayReady(way, id);
        WalkPatches(contents, deltas, head, way, id);
        var file := ApplyLongChange(frontier, way);
        frontier := file.bytes;
        head := id;
      }
      Parts();
    }

    /** In a sound repository every way leads to the contents of its end. */
    lemma {:induction false} WayReady(way: seq<WayEntry>, to: Id)
      requires Valid() && WayOk(edges, head, way, to)
      ensures WayPatches(contents, deltas, head, way, to) && WayStored(way)
    {
      WayIsPatches(edges, contents, deltas, head, way, to);
      WayFiles(way, to);
    }

    lemma {:induction false} WayFiles(way: seq<WayEntry>, to: Id)
      requires WayOk(edges, head, way, to) && FilesOk(edges, diffs, deltas)
      ensures WayStored(way)
    {
      WayDiffs(edges, head, way, to);
    }

    static lemma {:induction false} WayDiffs(edges: seq<Edge>, from: Id, way: seq<WayEntry>, to: Id)
      requires WayOk(edges, from, way, to)
      ensures forall i :: 0 <= i < |way| ==> exists e :: e in edges && e.cur == way[i].diff
      decreases |way|
    {
      if way != [] {
        WayDiffs(edges, way[0].snap, way[1..], to);
        var w := way[0];
        var e := if w.isReverse then Edge(from, w.snap) else Edge(w.snap, from);
        assert e in edges && e.cur == w.diff;
        forall i | 0 <= i < |way| ensures exists e :: e in edges && e.cur == way[i].diff {
          if i > 0 {
            assert way[1..][i - 1] == way[i];
          }
        }
      }
    }

    /** The data file becomes the current version; for `INIT` it is removed. */
    method CheckOutFrontier()
      requires Valid()
      modifies this`data
      ensures Valid() && data == contents[head]
    {
      if head == INIT {
        data := [];
      } else {
        data := frontier;
      }
    }

    /** One son's delta is replaced by one from the ancestor, if the patches for it end. */
    method RebaseSon(id: Id, son: Id, way: seq<WayEntry>) returns (ok: bool)
      requires WayStored(way) && FileOk(diffs, deltas, son) && FileOk(diffs, deltas, id) && FilesOk(edges, diffs, deltas)
      modifies this`diffs, this`deltas
      ensures match SnapshotRemoval.RebaseSon(old(deltas), frontier, way, id, son)
              case Broken => !ok
              case Rebuilt(ds) => ok && deltas == ds && FilesOk(edges, diffs, deltas)
    {
      hide RunsOk, Encode, Patch, DeltaOf, FilesOk, Walk;
      var own := ApplyLongChange(frontier, way);
      if own.Lost? || |own.bytes| >= MAX_SIZE {
        return false;
      }
      var made, sonFile := ApplyPatch(own.bytes, diffs[son], false, deltas[son]);
      var undone, ancFile := ApplyPatch(own.bytes, diffs[id], true, deltas[id]);
      if !made || !undone || |sonFile| >= MAX_SIZE || |ancFile| >= MAX_SIZE {
        return false;
      }
      diffs := diffs - {son};
      var diff := GenerateDiff(ancFile, sonFile);
      diffs := diffs[son := diff];
      deltas := deltas[son := DeltaOf(ancFile, sonFile)];
      RoundTrip(ancFile, sonFile);
      FilesUpdate(edges, old(diffs), old(deltas), diffs, deltas, son);
      return true;
    }

    static lemma {:induction false} FilesUpdate(edges: seq<Edge>, diffs: map<Id, seq<Byte>>, deltas: map<Id, Delta>,
                                                diffs': map<Id, seq<Byte>>, deltas': map<Id, Delta>, son: Id)
      requires FilesOk(edges, diffs, deltas) && FileOk(diffs', deltas', son)
      requires diffs' == (diffs - {son})[son := diffs'[son]] && deltas' == deltas[son := deltas'[son]]
      ensures FilesOk(edges, diffs', deltas')
    {
      hide RunsOk, Encode;
    }

    /** The files of the edges that remain are in order; whether their deltas are right is another matter. */
    lemma {:induction false} FilesRebased(id: Id, anc: Id)
      requires IsTree(edges, rank) && Edge(id, anc) in edges && FilesOk(edges, diffs, deltas)
      ensures FilesOk(Untouched(edges, id) + Rebased(Sons(edges, id), anc), diffs, deltas)
    {
      hide FileOk;
      TreeRebased(edges, rank, id, anc);
      forall e | e in Untouched(edges, id) + Rebased(Sons(edges, id), anc) ensures FileOk(diffs, deltas, e.cur) {
        assert e in edges || Edge(e.cur, id) in edges;
      }
    }

    static lemma {:induction false} PrunedOk(edges: seq<Edge>, rank: map<Id, nat>, contents: Contents, deltas: map<Id, Delta>,
                                             diffs: map<Id, seq<Byte>>, id: Id)
      requires IsTree(edges, rank) && RepositoryOk(edges, contents, deltas) && FilesOk(edges, diffs, deltas)
      requires Sons(edges, id) == [] && id != INIT
      ensures RepositoryOk(WithoutCur(edges, id), contents - {id}, deltas) && FilesOk(WithoutCur(edges, id), diffs - {id}, deltas)
    {
      forall e | e in WithoutCur(edges, id) ensures EdgeOk(e, contents - {id}, deltas) {
        assert EdgeOk(e, contents, deltas) && e == Edge(e.cur, e.anc) && e.cur in Sons(edges, e.anc);
      }
    }

    /** A version's sons and its own delta are stored. */
    lemma {:induction false} SonFiles(id: Id, anc: Id, n: nat)
      requires IsTree(edges, rank) && Edge(id, anc) in edges && n < |Sons(edges, id)| && FilesOk(edges, diffs, deltas)
      ensures FileOk(diffs, deltas, id) && FileOk(diffs, deltas, Sons(edges, id)[n])
    {
      assert Sons(edges, id)[n] in Sons(edges, id);
      assert Edge(Sons(edges, id)[n], id) in edges;
    }

    /** The repository afterwards is sound exactly if all edges that remain have the right delta. */
    lemma {:induction false} RemovedSound(before: seq<Edge>, was: Contents, id: Id, anc: Id)
      requires IsTree(before, rank) && Edge(id, anc) in before && was.Keys == Nodes(before) && was[INIT] == [] && head in was
      requires (forall v :: v in was ==> |was[v]| < MAX_SIZE) && frontier == was[head] && head != id && |data| < MAX_SIZE
      requires edges == Untouched(before, id) + Rebased(Sons(before, id), anc) && contents == was - {id}
      requires FilesOk(edges, diffs, deltas)
      ensures Valid() <==> Right(before, was, Rebuilt(deltas), id, anc)
    {
      hide EdgeOk, FilesOk;
      TreeRebased(before, rank, id, anc);
      assert id != INIT;
    }

    /**
     A version without sons is dropped; otherwise its sons are rebased to its
     ancestor, one after the other. For which repositories that is right is the
     subject of `SnapshotRemoval`.
     */
    method RemoveSnapShot(id: Id) returns (r: Removal, ghost way: seq<WayEntry>)
      requires Valid()
      modifies this`edges, this`diffs, this`contents, this`deltas
      ensures r.Refused? <==> id == INIT || id == head || !old(Mentioned(id))
      ensures r.Refused? ==> Valid() && edges == old(edges) && contents == old(contents) && deltas == old(deltas)
      ensures r.Removed? ==> contents == old(contents) - {id}
      ensures r.Removed? ==> edges == if old(Sons(edges, id)) == [] then WithoutCur(old(edges), id)
                                      else Untouched(old(edges), id) + Rebased(old(Sons(edges, id)), old(AncOr(id)))
      ensures r.Removed? && old(Sons(edges, id)) == [] ==> diffs == old(diffs) - {id} && deltas == old(deltas)
      ensures r.Failed? ==> edges == old(edges) && contents == old(contents)
      ensures !r.Refused? && old(Sons(edges, id)) == [] ==> r.Removed? && Valid()
      ensures !r.Refused? && old(Sons(edges, id)) != [] ==>
                && old(HasAnc(edges, id)) && head in old(contents) && Removable(old(edges), rank, head, way, id, old(Anc(edges, id)))
                && (r.Removed? && Valid() <==>
                      RemovedRight(old(edges), old(contents), old(deltas), head, way, id, old(Anc(edges, id))))
      ensures !r.Refused? && Safe(old(edges), rank, head, id) ==> r.Removed? && Valid()
    {
      hide *;
      Parts();
      MentionedNodes(edges, rank, id);
      MentionedIs(id);
      way := [];
      if id == INIT || id == head || !Mentioned(id) {
        return Refused, way;
      }
      if Sons(edges, id) == [] {
        diffs := diffs - {id};
        TreePruned(edges, rank, id);
        PrunedOk(edges, rank, contents, deltas, old(diffs), id);
        edges := WithoutCur(edges, id);
        contents := contents - {id};
        Parts();
        return Removed, way;
      }
      var found, steps := FindWay(id);
      way := steps;
      var anc := Anc(edges, id);
      var sons := Sons(edges, id);
      RemovalStarts(steps, id, anc);
      ghost var before, was, start := edges, contents, deltas;
      var i := 0;
      while i < |sons|
        invariant 0 <= i <= |sons| && edges == before && contents == was && FilesOk(edges, diffs, deltas)
        invariant RebaseSons(start, frontier, way, id, sons[..i]) == Rebuilt(deltas)
      {
        OneSonMore(start, frontier, way, id, sons, i);
        WayFiles(steps, id);
        SonFiles(id, anc, i);
        var ok := RebaseSon(id, sons[i], steps);
        if !ok {
          RemovalBroke(before, was, start, way, id, anc, i + 1);
          return Failed, way;
        }
        i := i + 1;
      }
      FilesRebased(id, anc);
      assert sons[..i] == sons;
      edges := Untouched(edges, id) + Rebased(sons, anc);
      contents := contents - {id};
      RemovalEnds(before, was, start, way, id, anc);
      return Removed, way;
    }

    lemma {:induction false} RemovalStarts(way: seq<WayEntry>, id: Id, anc: Id)
      requires Valid() && id != head && WayOk(edges, head, way, id) && HasAnc(edges, id) && anc == Anc(edges, id)
      ensures Removable(edges, rank, head, way, id, anc) && Edge(id, anc) in edges && Stored(edges, contents, deltas)
      ensures AncOr(id) == anc
      ensures Sons(edges, id)[..0] == [] && RebaseSons(deltas, frontier, way, id, []) == Rebuilt(deltas)
      ensures frontier == contents[head] && FilesOk(edges, diffs, deltas)
    {
    }

    /** What a removal that broke off means for the repository it started from. */
    lemma {:induction false} RemovalBroke(before: seq<Edge>, was: Contents, start: map<Id, Delta>, way: seq<WayEntry>, id: Id, anc: Id,
                                          n: nat)
      requires Removable(before, rank, head, way, id, anc) && Stored(before, was, start) && head in was && frontier == was[head]
      requires n <= |Sons(before, id)| && RebaseSons(start, frontier, way, id, Sons(before, id)[..n]) == Broken
      ensures !RemovedRight(before, was, start, head, way, id, anc) && !Safe(before, rank, head, id)
      decreases |Sons(before, id)| - n
    {
      hide RebaseSons, SnapshotRemoval.RebaseSon;
      var sons := Sons(before, id);
      if n == |sons| {
        assert sons[..n] == sons;
        if Safe(before, rank, head, id) {
          SafeIsRight(before, rank, was, start, head, way, id, anc);
        }
      } else {
        OneSonMore(start, frontier, way, id, sons, n);
        RemovalBroke(before, was, start, way, id, anc, n + 1);
      }
    }

    lemma {:induction false} RemovalEnds(before: seq<Edge>, was: Contents, start: map<Id, Delta>, way: seq<WayEntry>, id: Id, anc: Id)
      requires Removable(before, rank, head, way, id, anc) && Stored(before, was, start) && head in was && frontier == was[head]
      requires RebaseSons(start, frontier, way, id, Sons(before, id)) == Rebuilt(deltas) && |data| < MAX_SIZE
      requires edges == Untouched(before, id) + Rebased(Sons(before, id), anc) && contents == was - {id}
      requires FilesOk(edges, diffs, deltas)
      ensures Valid() <==> RemovedRight(before, was, start, head, way, id, anc)
      ensures Safe(before, rank, head, id) ==> Valid()
    {
      hide RebaseSons, FilesOk;
      RemovedSound(before, was, id, anc);
      if Safe(before, rank, head, id) {
        SafeIsRight(before, rank, was, start, head, way, id, anc);
      }
    }
  }
}
