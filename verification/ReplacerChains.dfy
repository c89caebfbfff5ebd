/**
 The two chains of the replacer. `LruChain` holds one node for each frame in it;
 `MainChain` holds a node for each remembered access, in the order of time, and
 links the nodes of one frame to each other.
 */
module ReplacerChains {
  import opened ReplacerChain
  import opened FreshIds

  type Frame = nat

  const HEAD: Ref := 1
  const TAIL: Ref := 2

  datatype MainNode = MainNode(frame: Frame, stamp: nat, nextSelf: Ref)

  ghost predicate Guarded(links: Links, s: seq<Ref>) {
    Linked(links, s) && s[0] == HEAD && s[|s| - 1] == TAIL
  }

  /** A node between the guards has a place. */
  lemma {:induction false} PlaceOf(links: Links, s: seq<Ref>, node: Ref) returns (i: nat)
    requires Guarded(links, s) && node in links && node != HEAD && node != TAIL
    ensures 0 < i < |s| - 1 && s[i] == node
  {
    i :| 0 <= i < |s| && s[i] == node;
  }

  lemma {:induction false} EmptyChain(links: Links)
    requires links == map[HEAD := Link(0, TAIL), TAIL := Link(HEAD, 0)]
    ensures Guarded(links, [HEAD, TAIL])
  {
    assert Tied(links, [HEAD, TAIL], 0);
  }

  lemma {:induction false} LastLink(links: Links, s: seq<Ref>)
    requires Guarded(links, s)
    ensures Linked(links, s) && 2 <= |s| && s[|s| - 1] == TAIL && TAIL in links && links[TAIL].prev == s[|s| - 2] && 0 !in links
    ensures HEAD in links && s[0] == HEAD
  {
    assert Tied(links, s, |s| - 2);
    assert s[0] in links;
  }

  lemma {:induction false} GuardsKept(links: Links, now: Links, s: seq<Ref>, node: Ref)
    requires Guarded(links, s) && Linked(now, s[..|s| - 1] + [node, TAIL])
    ensures Guarded(now, s[..|s| - 1] + [node, TAIL]) && now.Keys == links.Keys + {node}
  {
    var t := s[..|s| - 1] + [node, TAIL];
    assert forall j {:trigger t[j]} :: 0 <= j < |t| ==> t[j] == if j < |s| - 1 then s[j] else if j == |s| - 1 then node else TAIL;
    forall r ensures r in t <==> r in s || r == node {
      if r in s {
        var j :| 0 <= j < |s| && s[j] == r;
        assert t[if j < |s| - 1 then j else j + 1] == r;
      }
      assert t[|s| - 1] == node;
    }
  }

  lemma {:induction false} GuardsLeft(links: Links, now: Links, s: seq<Ref>, p: nat)
    requires Guarded(links, s) && 0 < p < |s| - 1 && Linked(now, Without(s, p))
    ensures Distinct(s) && Guarded(now, Without(s, p)) && now.Keys == links.Keys - {s[p]}
  {
    WithoutMembers(s, p);
  }

  lemma {:induction false} Inside(links: Links, s: seq<Ref>)
    requires Guarded(links, s)
    ensures forall i :: 0 < i < |s| - 1 ==> s[i] in links.Keys - {HEAD, TAIL}
  {
    forall i | 0 < i < |s| - 1 ensures s[i] in links.Keys - {HEAD, TAIL} {
      assert s[i] in links;
    }
  }

  lemma {:induction false} ZeroNotIn(links: Links, s: seq<Ref>)
    requires Linked(links, s)
    ensures 0 !in links
  {
  }

  lemma {:induction false} NotInside(links: Links, s: seq<Ref>, node: Ref)
    requires Guarded(links, s) && node !in links
    ensures node !in s
  {
  }

  class LruChain {
    var links: Links
    var frameOf: map<Ref, Frame>
    ghost var order: seq<Ref>

    ghost predicate Valid()
      reads this
    {
      && Guarded(links, order) && frameOf.Keys == links.Keys - {HEAD, TAIL}
      && (forall r, q :: r in frameOf && q in frameOf && frameOf[r] == frameOf[q] ==> r == q)
    }

    static ghost function FramesOf(frameOf: map<Ref, Frame>, s: seq<Ref>): (fs: seq<Frame>)
      requires 2 <= |s|
      ensures |fs| == |s| - 2
      ensures forall i {:trigger fs[i]} :: 0 <= i < |fs| ==> fs[i] == if s[i + 1] in frameOf then frameOf[s[i + 1]] else 0
    {
      seq(|s| - 2, i requires 0 <= i < |s| - 2 => if s[i + 1] in frameOf then frameOf[s[i + 1]] else 0)
    }

    /** The frames in the chain, oldest first. */
    ghost function Frames(): (fs: seq<Frame>)
      requires Valid()
      reads this
    {
      FramesOf(frameOf, order)
    }

    constructor ()
      ensures Valid() && Frames() == [] && frameOf == map[]
    {
      links, frameOf, order := map[HEAD := Link(0, TAIL), TAIL := Link(HEAD, 0)], map[], [HEAD, TAIL];
      new;
      EmptyChain(links);
    }

    /** A frame put at the end of the chain. */
    method Push(frame: Frame) returns (node: Ref)
      requires Valid() && forall r :: r in frameOf ==> frameOf[r] != frame
      modifies this
      ensures Valid() && node != 0 && node !in old(frameOf) && frameOf == old(frameOf)[node := frame]
      ensures Frames() == old(Frames()) + [frame]
    {
      hide Guarded, Linked, Tied, Distinct;
      FreshIdExists(links.Keys);
      node :| node != 0 && node !in links;
      ghost var s := order;
      LastLink(links, s);
      links := InsertAt(links, node, links[TAIL].prev, TAIL, s);
      frameOf := frameOf[node := frame];
      order := s[..|s| - 1] + [node, TAIL];
      GuardsKept(old(links), links, s, node);
      NotInside(old(links), s, node);
      FramesPushed(old(frameOf), s, node, frame);
    }

    static lemma {:induction false} FramesPushed(before: map<Ref, Frame>, s: seq<Ref>, node: Ref, frame: Frame)
      requires 2 <= |s| && node !in before && node !in s
      ensures FramesOf(before[node := frame], s[..|s| - 1] + [node, s[|s| - 1]]) == FramesOf(before, s) + [frame]
    {
      var t := s[..|s| - 1] + [node, s[|s| - 1]];
      var n := |s| - 1;
      assert forall i {:trigger t[i]} :: 0 <= i < |t| ==> t[i] == if i < n then s[i] else if i == n then node else s[n];
      var a, b := FramesOf(before[node := frame], t), FramesOf(before, s) + [frame];
      forall i | 0 <= i < |a| ensures a[i] == b[i] {
        assert a[i] == if t[i + 1] == node then frame else if t[i + 1] in before then before[t[i + 1]] else 0;
        if i < |s| - 2 {
          assert t[i + 1] == s[i + 1];
        } else {
          assert t[i + 1] == node;
        }
      }
    }

    /** A node unlinked and deleted. */
    method Drop(node: Ref) returns (ghost i: nat)
      requires Valid() && node in frameOf
      modifies this
      ensures Valid() && frameOf == old(frameOf) - {node}
      ensures i < |old(Frames())| && old(Frames())[i] == old(frameOf)[node] && Frames() == Without(old(Frames()), i)
    {
      hide Guarded, Linked, Tied, Distinct;
      ghost var s := order;
      ghost var p := PlaceOf(links, s, node);
      LastLink(links, s);
      i := p - 1;
      links := RemoveFromList(links, node, s, p);
      frameOf := frameOf - {node};
      order := Without(s, p);
      GuardsLeft(old(links), links, s, p);
      FramesDropped(old(frameOf), s, p);
    }

    static lemma {:induction false} FramesDropped(before: map<Ref, Frame>, s: seq<Ref>, p: nat)
      requires 0 < p < |s| - 1 && Distinct(s)
      ensures FramesOf(before - {s[p]}, Without(s, p)) == Without(FramesOf(before, s), p - 1)
    {
      var a, b, t := FramesOf(before - {s[p]}, Without(s, p)), Without(FramesOf(before, s), p - 1), Without(s, p);
      forall i | 0 <= i < |a| ensures a[i] == b[i] {
        assert t[i + 1] == s[if i + 1 < p then i + 1 else i + 2] != s[p];
      }
    }
  }

  class MainChain {
    var links: Links
    var info: map<Ref, MainNode>
    ghost var order: seq<Ref>
    ghost var own: map<Frame, seq<Ref>>

    static ghost predicate OwnedAt(info: map<Ref, MainNode>, o: seq<Ref>, f: Frame, i: nat)
      requires i < |o|
    {
      o[i] in info && info[o[i]].frame == f && info[o[i]].nextSelf == (if i + 1 < |o| then o[i + 1] else 0)
    }

    static ghost predicate Earlier(info: map<Ref, MainNode>, a: Ref, b: Ref) {
      a in info && b in info && info[a].stamp < info[b].stamp
    }

    /** The nodes of one frame: each links to the next, and they are in the order of time. */
    static ghost predicate Owned(info: map<Ref, MainNode>, o: seq<Ref>, f: Frame) {
      && (forall i: nat :: i < |o| ==> OwnedAt(info, o, f, i))
      && (forall i, j :: 0 <= i < j < |o| ==> Earlier(info, o[i], o[j]))
    }

    static ghost predicate Ascending(info: map<Ref, MainNode>, s: seq<Ref>) {
      forall i, j :: 0 < i < j < |s| - 1 ==> Earlier(info, s[i], s[j])
    }

    /** Every node belongs to its frame's list of nodes, and every frame's list is sound. */
    static ghost predicate AllOwned(info: map<Ref, MainNode>, own: map<Frame, seq<Ref>>) {
      && (forall f :: f in own ==> Owned(info, own[f], f))
      && (forall r :: r in info ==> info[r].frame in own && r in own[info[r].frame])
    }

    ghost predicate Valid()
      reads this
    {
      && Guarded(links, order) && info.Keys == links.Keys - {HEAD, TAIL}
      && Ascending(info, order) && AllOwned(info, own)
    }

    /** The nodes of a frame, oldest first. */
    static ghost function OwnOf(own: map<Frame, seq<Ref>>, f: Frame): seq<Ref> {
      if f in own then own[f] else []
    }

    static ghost function StampsOf(info: map<Ref, MainNode>, o: seq<Ref>): (r: seq<nat>)
      ensures |r| == |o|
      ensures forall i {:trigger r[i]} :: 0 <= i < |r| ==> r[i] == if o[i] in info then info[o[i]].stamp else 0
    {
      seq(|o|, i requires 0 <= i < |o| => if o[i] in info then info[o[i]].stamp else 0)
    }

    /** The nodes of the other frames stay, with their times. */
    static ghost predicate Kept(own: map<Frame, seq<Ref>>, info: map<Ref, MainNode>, own': map<Frame, seq<Ref>>,
                                info': map<Ref, MainNode>, f: Frame) {
      forall g :: g != f ==>
        OwnOf(own', g) == OwnOf(own, g) && StampsOf(info', OwnOf(own, g)) == StampsOf(info, OwnOf(own, g))
    }

    static lemma {:induction false} KeptTwice(own: map<Frame, seq<Ref>>, info: map<Ref, MainNode>, own1: map<Frame, seq<Ref>>,
                                              info1: map<Ref, MainNode>, own2: map<Frame, seq<Ref>>,
                                              info2: map<Ref, MainNode>, f: Frame)
      requires Kept(own, info, own1, info1, f) && Kept(own1, info1, own2, info2, f)
      ensures Kept(own, info, own2, info2, f)
    {
    }

    constructor ()
      ensures Valid() && own == map[] && info == map[]
    {
      links, info, order, own := map[HEAD := Link(0, TAIL), TAIL := Link(HEAD, 0)], map[], [HEAD, TAIL], map[];
      new;
      EmptyChain(links);
    }

    /** Nodes whose records are kept stay owned. */
    static lemma {:induction false} OwnedSame(before: map<Ref, MainNode>, info: map<Ref, MainNode>, o: seq<Ref>, f: Frame)
      requires Owned(before, o, f)
      requires forall r :: r in before && before[r].frame == f ==> r in info && info[r] == before[r]
      ensures Owned(info, o, f) && StampsOf(info, o) == StampsOf(before, o)
    {
      forall i: nat | i < |o| ensures OwnedAt(info, o, f, i) {
        assert OwnedAt(before, o, f, i);
      }
      forall i, j | 0 <= i < j < |o| ensures Earlier(info, o[i], o[j]) {
        assert OwnedAt(info, o, f, i) && OwnedAt(info, o, f, j) && OwnedAt(before, o, f, i) && OwnedAt(before, o, f, j);
        assert Earlier(before, o[i], o[j]);
      }
      assert Owned(info, o, f);
      forall i | 0 <= i < |o| ensures StampsOf(info, o)[i] == StampsOf(before, o)[i] {
        assert OwnedAt(before, o, f, i);
      }
    }

    /** The last node of a frame gets a successor. */
    static lemma {:induction false} OwnedMore(before: map<Ref, MainNode>, info: map<Ref, MainNode>, o: seq<Ref>, f: Frame,
                                              node: Ref, stamp: nat)
      requires Owned(before, o, f) && node !in before && node != 0
      requires forall r :: r in before ==> before[r].stamp < stamp
      requires
        var linked := if o == [] then before else before[o[|o| - 1] := MainNode(f, StampsOf(before, o)[|o| - 1], node)];
        info == linked[node := MainNode(f, stamp, 0)]
      ensures Owned(info, o + [node], f)
      ensures StampsOf(info, o + [node]) == StampsOf(before, o) + [stamp]
    {
      var p := o + [node];
      var n := |o|;
      forall i: nat | i < n ensures o[i] in before && o[i] in info && info[o[i]].stamp == before[o[i]].stamp {
        assert OwnedAt(before, o, f, i);
      }
      forall i: nat | i < |p| ensures OwnedAt(info, p, f, i) {
        if i < n {
          assert OwnedAt(before, o, f, i);
          if i + 1 < n {
            assert Earlier(before, o[i], o[n - 1]);
          }
        }
      }
      forall i, j | 0 <= i < j < |p| ensures Earlier(info, p[i], p[j]) {
        if j < n {
          assert Earlier(before, o[i], o[j]);
        }
      }
    }

    static lemma {:induction false} LastOwned(info: map<Ref, MainNode>, own: map<Frame, seq<Ref>>, f: Frame)
      requires AllOwned(info, own) && OwnOf(own, f) != []
      ensures
        var o := own[f];
        && o[|o| - 1] in info && info[o[|o| - 1]] == MainNode(f, StampsOf(info, o)[|o| - 1], 0)
        && o[0] in info && info[o[0]].frame == f && info[o[0]].nextSelf == (if 1 < |o| then o[1] else 0)
    {
      var o := own[f];
      assert Owned(info, o, f);
      assert OwnedAt(info, o, f, |o| - 1) && OwnedAt(info, o, f, 0);
    }

    /** `AddRecordToMainChain`. */
    method AddRecord(frame: Frame, stamp: nat, last: Ref) returns (node: Ref)
      requires Valid() && (forall r :: r in info ==> info[r].stamp < stamp)
      requires last == if OwnOf(own, frame) == [] then 0 else OwnOf(own, frame)[|OwnOf(own, frame)| - 1]
      modifies this
      ensures Valid() && OwnOf(own, frame) == old(OwnOf(own, frame)) + [node]
      ensures StampsOf(info, OwnOf(own, frame)) == old(StampsOf(info, OwnOf(own, frame))) + [stamp]
      ensures Kept(old(own), old(info), own, info, frame)
      ensures forall r :: r in info ==> info[r].stamp <= stamp
    {
      hide Guarded, Linked, Owned, OwnedAt, Ascending, AllOwned, Earlier, StampsOf, Kept, Distinct, Tied;
      FreshIdExists(links.Keys);
      node :| node != 0 && node !in links;
      ghost var o, s := OwnOf(own, frame), order;
      Inside(links, s);
      LastLink(links, s);
      if o != [] {
        LastOwned(info, own, frame);
      }
      if last != 0 {
        info := info[last := info[last].(nextSelf := node)];
      }
      info := info[node := MainNode(frame, stamp, 0)];
      links := InsertAt(links, node, links[TAIL].prev, TAIL, s);
      order := s[..|s| - 1] + [node, TAIL];
      own := own[frame := o + [node]];
      GuardsKept(old(links), links, s, node);
      AddedOwned(old(info), info, old(own), frame, node, stamp);
      AddedAscending(old(info), info, s, node, stamp);
      StampsKept(old(info), info, old(own), own, frame);
    }

    static lemma {:induction false} AddedOwned(before: map<Ref, MainNode>, info: map<Ref, MainNode>, own: map<Frame, seq<Ref>>,
                                               frame: Frame, node: Ref, stamp: nat)
      requires AllOwned(before, own) && node !in before && node != 0
      requires forall r :: r in before ==> before[r].stamp < stamp
      requires
        var o := OwnOf(own, frame);
        var linked := if o == [] then before else before[o[|o| - 1] := MainNode(frame, StampsOf(before, o)[|o| - 1], node)];
        info == linked[node := MainNode(frame, stamp, 0)] && (o != [] ==> o[|o| - 1] in before && before[o[|o| - 1]].frame == frame)
      ensures AllOwned(info, own[frame := OwnOf(own, frame) + [node]])
      ensures StampsOf(info, OwnOf(own, frame) + [node]) == StampsOf(before, OwnOf(own, frame)) + [stamp]
    {
      var o, own' := OwnOf(own, frame), own[frame := OwnOf(own, frame) + [node]];
      hide OwnedAt;
      assert Owned(before, o, frame);
      OwnedMore(before, info, o, frame, node, stamp);
      OthersSame(before, info, own, frame);
      forall r | r in info ensures info[r].frame in own' && r in own'[info[r].frame] {
        if r == node {
          assert (o + [node])[|o|] == node;
        } else {
          assert info[r].frame == before[r].frame && r in own[before[r].frame];
        }
      }
    }

    /** Frames other than the one that is touched keep their times. */
    static lemma {:induction false} StampsKept(before: map<Ref, MainNode>, info: map<Ref, MainNode>, own: map<Frame, seq<Ref>>,
                                               own': map<Frame, seq<Ref>>, frame: Frame)
      requires AllOwned(before, own) && frame in own' && own' == own[frame := own'[frame]]
      requires forall r :: r in before && before[r].frame != frame ==> r in info && info[r] == before[r]
      ensures Kept(own, before, own', info, frame)
    {
      OthersSame(before, info, own, frame);
    }

    /** The frames whose nodes are untouched stay as they are. */
    static lemma {:induction false} OthersSame(before: map<Ref, MainNode>, info: map<Ref, MainNode>, own: map<Frame, seq<Ref>>,
                                               frame: Frame)
      requires forall f :: f in own ==> Owned(before, own[f], f)
      requires forall r :: r in before && before[r].frame != frame ==> r in info && info[r] == before[r]
      ensures forall f :: f in own && f != frame ==> Owned(info, own[f], f) && StampsOf(info, own[f]) == StampsOf(before, own[f])
    {
      forall f | f in own && f != frame
        ensures Owned(info, own[f], f) && StampsOf(info, own[f]) == StampsOf(before, own[f])
      {
        OwnedSame(before, info, own[f], f);
      }
    }

    static lemma {:induction false} AddedAscending(before: map<Ref, MainNode>, info: map<Ref, MainNode>, s: seq<Ref>, node: Ref,
                                                   stamp: nat)
      requires Ascending(before, s) && 2 <= |s| && node in info && info[node].stamp == stamp
      requires forall r :: r in before ==> r in info && info[r].stamp == before[r].stamp < stamp
      requires forall i :: 0 < i < |s| - 1 ==> s[i] in before
      ensures Ascending(info, s[..|s| - 1] + [node, s[|s| - 1]])
    {
      var t := s[..|s| - 1] + [node, s[|s| - 1]];
      forall i, j | 0 < i < j < |t| - 1 ensures Earlier(info, t[i], t[j]) {
        if j < |s| - 1 {
          assert Earlier(before, s[i], s[j]);
        }
      }
    }

    /** The oldest node of a frame unlinked and deleted; the one after it is returned. */
    method DropOldest(frame: Frame, node: Ref) returns (next: Ref)
      requires Valid() && OwnOf(own, frame) != [] && node == OwnOf(own, frame)[0]
      modifies this
      ensures Valid() && OwnOf(own, frame) == old(OwnOf(own, frame))[1..]
      ensures StampsOf(info, OwnOf(own, frame)) == old(StampsOf(info, OwnOf(own, frame)))[1..]
      ensures next == if OwnOf(own, frame) == [] then 0 else OwnOf(own, frame)[0]
      ensures Kept(old(own), old(info), own, info, frame)
      ensures info == old(info) - {node}
    {
      hide Guarded, Linked, Owned, OwnedAt, Ascending, AllOwned, Distinct, Earlier, StampsOf;
      ghost var s := order;
      LastOwned(info, own, frame);
      LastLink(links, s);
      ghost var p := PlaceOf(links, s, node);
      links := RemoveFromList(links, node, s, p);
      next := info[node].nextSelf;
      info := info - {node};
      GuardsLeft(old(links), links, s, p);
      order := Without(s, p);
      own := own[frame := own[frame][1..]];
      DroppedAscending(old(info), info, s, p);
      DroppedOwned(old(info), info, old(own), frame);
      StampsKept(old(info), info, old(own), own, frame);
    }

    static lemma {:induction false} DroppedOwned(before: map<Ref, MainNode>, info: map<Ref, MainNode>, own: map<Frame, seq<Ref>>,
                                                 frame: Frame)
      requires AllOwned(before, own) && OwnOf(own, frame) != [] && info == before - {own[frame][0]}
      requires own[frame][0] in before && before[own[frame][0]].frame == frame
      ensures AllOwned(info, own[frame := own[frame][1..]])
      ensures StampsOf(info, own[frame][1..]) == StampsOf(before, own[frame])[1..]
    {
      hide OwnedAt;
      OwnedLess(before, info, own[frame], frame);
      OthersSame(before, info, own, frame);
    }

    static lemma {:induction false} OwnedLess(before: map<Ref, MainNode>, info: map<Ref, MainNode>, o: seq<Ref>, f: Frame)
      requires Owned(before, o, f) && o != [] && info == before - {o[0]}
      ensures Owned(info, o[1..], f) && StampsOf(info, o[1..]) == StampsOf(before, o)[1..]
      ensures forall r :: r in o && r != o[0] ==> r in o[1..]
    {
      var q := o[1..];
      forall i: nat | i < |q| ensures OwnedAt(info, q, f, i) {
        assert OwnedAt(before, o, f, i + 1) && OwnedAt(before, o, f, 0);
        assert Earlier(before, o[0], o[i + 1]);
      }
      forall i, j | 0 <= i < j < |q| ensures Earlier(info, q[i], q[j]) {
        assert OwnedAt(info, q, f, i) && OwnedAt(info, q, f, j);
        assert Earlier(before, o[i + 1], o[j + 1]);
      }
      forall i | 0 <= i < |q| ensures StampsOf(info, q)[i] == StampsOf(before, o)[1..][i] {
        assert OwnedAt(info, q, f, i);
      }
    }

    static lemma {:induction false} DroppedAscending(before: map<Ref, MainNode>, info: map<Ref, MainNode>, s: seq<Ref>, p: nat)
      requires Ascending(before, s) && 0 < p < |s| - 1 && Distinct(s) && info == before - {s[p]}
      ensures Ascending(info, Without(s, p))
    {
      var t := Without(s, p);
      forall i, j | 0 < i < j < |t| - 1 ensures Earlier(info, t[i], t[j]) {
        var a, b := if i < p then i else i + 1, if j < p then j else j + 1;
        assert Earlier(before, s[a], s[b]);
      }
    }

    /** `RemoveWholeFrameFromLRUKChain`. */
    method DropAll(frame: Frame, first: Ref)
      requires Valid() && first == if OwnOf(own, frame) == [] then 0 else OwnOf(own, frame)[0]
      modifies this
      ensures Valid() && OwnOf(own, frame) == []
      ensures Kept(old(own), old(info), own, info, frame)
      ensures forall r :: r in info ==> r in old(info) && info[r] == old(info)[r]
    {
      var node := first;
      NotNull(frame);
      while node != 0
        invariant Valid() && (node == 0 <==> OwnOf(own, frame) == []) && (node != 0 ==> node == OwnOf(own, frame)[0])
        invariant Kept(old(own), old(info), own, info, frame)
        invariant forall r :: r in info ==> r in old(info) && info[r] == old(info)[r]
        decreases |OwnOf(own, frame)|
      {
        node := DropOldest(frame, node);
        NotNull(frame);
      }
    }

    lemma {:induction false} NotNull(frame: Frame)
      requires Valid()
      ensures OwnOf(own, frame) != [] ==> OwnOf(own, frame)[0] != 0 && OwnOf(own, frame)[0] in info
    {
      if OwnOf(own, frame) != [] {
        LastOwned(info, own, frame);
        ZeroNotIn(links, order);
      }
    }
  }
}
