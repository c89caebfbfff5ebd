/**
 The LRU-K replacer. What it stands for is the history of accesses of every
 frame since the frame became active, and the set of evictable frames; the two
 chains and the records are an encoding of the last `k` accesses of each frame.
 */
module LruKReplacer {
  import opened ReplacerChain
  import opened ReplacerChains

  datatype Record = Record(evitable: bool, visitCount: nat, active: bool, head: Ref, tail: Ref, lruNode: Ref)

  function LastK(v: seq<nat>, k: nat): seq<nat> {
    if |v| <= k then v else v[|v| - k..]
  }

  function LastVisit(v: seq<nat>): nat {
    if v == [] then 0 else v[|v| - 1]
  }

  /** The frames in the LRU chain: fewer than `k` visits, or only one. */
  predicate Young(n: nat, k: nat) {
    n < k || n == 1
  }

  /** The access that decides: the last one of a young frame, otherwise the `k`th from the end. */
  function Decisive(v: seq<nat>, k: nat): nat
    requires 0 < k
  {
    if Young(|v|, k) then LastVisit(v) else LastK(v, k)[0]
  }

  /**
   The frame the two chains lead to: among the evictable frames young ones come
   first, and within either kind the one whose decisive access is the oldest.
   */
  ghost predicate IsVictim(visits: seq<seq<nat>>, evictable: set<Frame>, k: nat, f: Frame)
    requires 0 < k && forall g :: g in evictable ==> g < |visits|
  {
    && f in evictable
    && (forall g :: g in evictable && Young(|visits[g]|, k) ==> Young(|visits[f]|, k))
    && (forall g :: g in evictable && Young(|visits[g]|, k) == Young(|visits[f]|, k)
          ==> Decisive(visits[f], k) <= Decisive(visits[g], k))
  }

  /** The rule of LRU-K: frames with fewer than `k` visits first, the oldest last one first; then the oldest `k`th from the end. */
  ghost predicate IsLruKVictim(visits: seq<seq<nat>>, evictable: set<Frame>, k: nat, f: Frame)
    requires 0 < k && forall g :: g in evictable ==> g < |visits| && visits[g] != []
  {
    && f in evictable
    && if |visits[f]| < k then
         forall g :: g in evictable && |visits[g]| < k ==> visits[f][|visits[f]| - 1] <= visits[g][|visits[g]| - 1]
       else
         && (forall g :: g in evictable ==> |visits[g]| >= k)
         && (forall g :: g in evictable ==> visits[f][|visits[f]| - k] <= visits[g][|visits[g]| - k])
  }

  /** For `k >= 2` the chains lead to the victims of LRU-K, whatever the history. */
  lemma VictimIsLruK(visits: seq<seq<nat>>, evictable: set<Frame>, k: nat, f: Frame)
    requires 2 <= k && forall g :: g in evictable ==> g < |visits| && visits[g] != []
    ensures IsVictim(visits, evictable, k, f) <==> IsLruKVictim(visits, evictable, k, f)
  {
    forall g | g in evictable
      ensures Young(|visits[g]|, k) <==> |visits[g]| < k
      ensures Decisive(visits[g], k) == visits[g][if |visits[g]| < k then |visits[g]| - 1 else |visits[g]| - k]
    {
    }
  }

  /** No evictable frame was visited once, or one of them was so before the last visits of all that were visited more often. */
  ghost predicate OnceIsOldest(visits: seq<seq<nat>>, evictable: set<Frame>)
    requires forall g :: g in evictable ==> g < |visits| && visits[g] != []
  {
    || (forall g :: g in evictable ==> |visits[g]| != 1)
    || (exists a :: a in evictable && |visits[a]| == 1
                    && forall g :: g in evictable && |visits[g]| > 1 ==> visits[a][0] <= visits[g][|visits[g]| - 1])
  }

  /** For `k == 1` they do so in exactly these states: frames visited once stay on the LRU chain and go first. */
  lemma VictimWithKOne(visits: seq<seq<nat>>, evictable: set<Frame>, f: Frame)
    requires forall g :: g in evictable ==> g < |visits| && visits[g] != []
    requires IsVictim(visits, evictable, 1, f)
    ensures IsLruKVictim(visits, evictable, 1, f) <==> OnceIsOldest(visits, evictable)
  {
    forall g | g in evictable ensures Decisive(visits[g], 1) == visits[g][|visits[g]| - 1] {
    }
    if |visits[f]| == 1 && OnceIsOldest(visits, evictable) {
      var a :| a in evictable && |visits[a]| == 1
               && forall g :: g in evictable && |visits[g]| > 1 ==> visits[a][0] <= visits[g][|visits[g]| - 1];
      assert Decisive(visits[f], 1) <= Decisive(visits[a], 1);
    }
    if |visits[f]| == 1 && IsLruKVictim(visits, evictable, 1, f) {
      assert visits[f][0] == visits[f][|visits[f]| - 1];
    }
  }

  /** A state in which they do not: the frame visited twice was last visited before the other. */
  lemma YoungWithKOne(visits: seq<seq<nat>>)
    requires visits == [[1, 2], [3]]
    ensures IsVictim(visits, {0, 1}, 1, 1) && IsLruKVictim(visits, {0, 1}, 1, 0) && !IsLruKVictim(visits, {0, 1}, 1, 1)
  {
    assert visits[0] == [1, 2] && visits[1] == [3];
  }

  ghost predicate History(v: seq<nat>, now: nat) {
    && (forall i, j :: 0 <= i < j < |v| ==> v[i] < v[j])
    && (forall i :: 0 <= i < |v| ==> v[i] <= now)
  }

  /** The record of one frame, against its history and its nodes. */
  ghost predicate RecordOk(r: Record, v: seq<nat>, own: seq<Ref>, stamps: seq<nat>, frameOf: map<Ref, Frame>, f: Frame, k: nat) {
    if r.active then
      && 0 < |v| == r.visitCount && stamps == LastK(v, k)
      && own != [] && r.head == own[0] && r.tail == own[|own| - 1]
      && (if Young(r.visitCount, k) then r.lruNode in frameOf && frameOf[r.lruNode] == f else r.lruNode == 0)
    else
      v == [] && own == []
  }

  /** Each node of the LRU chain is known to the record of its frame. */
  ghost predicate LruOk(records: seq<Record>, frameOf: map<Ref, Frame>) {
    forall r :: r in frameOf ==> frameOf[r] < |records| && records[frameOf[r]].active && records[frameOf[r]].lruNode == r
  }

  /** The frames of the LRU chain in the order of their last visits. */
  ghost predicate InTime(fs: seq<Frame>, visits: seq<seq<nat>>) {
    && (forall i :: 0 <= i < |fs| ==> fs[i] < |visits|)
    && (forall i, j :: 0 <= i < j < |fs| ==> LastVisit(visits[fs[i]]) < LastVisit(visits[fs[j]]))
  }

  ghost function EvictableIn(records: seq<Record>): set<Frame> {
    set f | 0 <= f < |records| && records[f].active && records[f].evitable
  }

  /** One frame's record changes. */
  lemma {:induction false} EvictableUpdate(records: seq<Record>, f: Frame, r: Record)
    requires f < |records|
    ensures EvictableIn(records[f := r])
         == if r.active && r.evitable then EvictableIn(records) + {f} else EvictableIn(records) - {f}
  {
  }

  ghost predicate AllRecordsOk(records: seq<Record>, visits: seq<seq<nat>>, own: map<Frame, seq<Ref>>, info: map<Ref, MainNode>,
                               frameOf: map<Ref, Frame>, k: nat) {
    && |records| == |visits|
    && forall f: nat :: f < |records| ==>
         RecordOk(records[f], visits[f], MainChain.OwnOf(own, f), MainChain.StampsOf(info, MainChain.OwnOf(own, f)), frameOf, f, k)
  }

  /** The nodes of the other frames in the LRU chain stay. */
  ghost predicate LruKept(before: map<Ref, Frame>, now: map<Ref, Frame>, f: Frame) {
    && (forall r :: r in before && before[r] != f ==> r in now && now[r] == before[r])
    && (forall r :: r in now && now[r] != f ==> r in before && now[r] == before[r])
  }

  /** A step at one frame keeps the records of the others. */
  lemma {:induction false} RecordsStep(records: seq<Record>, visits: seq<seq<nat>>, own: map<Frame, seq<Ref>>,
                                       info: map<Ref, MainNode>, frameOf: map<Ref, Frame>, k: nat, f: Frame, r: Record,
                                       v: seq<nat>, own': map<Frame, seq<Ref>>, info': map<Ref, MainNode>,
                                       frameOf': map<Ref, Frame>)
    requires AllRecordsOk(records, visits, own, info, frameOf, k) && f < |records|
    requires LruKept(frameOf, frameOf', f) && MainChain.Kept(own, info, own', info', f)
    requires RecordOk(r, v, MainChain.OwnOf(own', f), MainChain.StampsOf(info', MainChain.OwnOf(own', f)), frameOf', f, k)
    ensures AllRecordsOk(records[f := r], visits[f := v], own', info', frameOf', k)
  {
    forall g: nat | g < |records|
      ensures RecordOk(records[f := r][g], visits[f := v][g], MainChain.OwnOf(own', g),
                       MainChain.StampsOf(info', MainChain.OwnOf(own', g)), frameOf', g, k)
    {
      assert RecordOk(records[g], visits[g], MainChain.OwnOf(own, g), MainChain.StampsOf(info, MainChain.OwnOf(own, g)),
                      frameOf, g, k);
    }
  }

  /** A step at one frame keeps the LRU chain known to the records. */
  lemma {:induction false} LruStep(records: seq<Record>, frameOf: map<Ref, Frame>, f: Frame, r: Record, frameOf': map<Ref, Frame>)
    requires LruOk(records, frameOf) && f < |records| && LruKept(frameOf, frameOf', f)
    requires forall x :: x in frameOf' && frameOf'[x] == f ==> r.active && r.lruNode == x
    ensures LruOk(records[f := r], frameOf')
  {
  }

  /** A frame leaves the chain: what is left is in time, whatever becomes of its history. */
  lemma {:induction false} InTimeWithout(fs: seq<Frame>, visits: seq<seq<nat>>, i: nat, v: seq<nat>)
    requires InTime(fs, visits) && i < |fs|
    ensures InTime(Without(fs, i), visits[fs[i] := v])
    ensures fs[i] !in Without(fs, i)
  {
    var t := Without(fs, i);
    forall a | 0 <= a < |t| ensures t[a] != fs[i] {
      var b := if a < i then a else a + 1;
      assert b < i ==> LastVisit(visits[fs[b]]) < LastVisit(visits[fs[i]]);
      assert i < b ==> LastVisit(visits[fs[i]]) < LastVisit(visits[fs[b]]);
    }
    forall a, b | 0 <= a < b < |t|
      ensures LastVisit(visits[fs[i] := v][t[a]]) < LastVisit(visits[fs[i] := v][t[b]])
    {
      var x, y := if a < i then a else a + 1, if b < i then b else b + 1;
      assert LastVisit(visits[fs[x]]) < LastVisit(visits[fs[y]]);
    }
  }

  /** A frame outside the chain may be visited. */
  lemma {:induction false} InTimeOutside(fs: seq<Frame>, visits: seq<seq<nat>>, f: Frame, v: seq<nat>)
    requires InTime(fs, visits) && f !in fs && f < |visits|
    ensures InTime(fs, visits[f := v])
  {
    forall a | 0 <= a < |fs| ensures fs[a] != f {
    }
    forall a, b | 0 <= a < b < |fs| ensures LastVisit(visits[f := v][fs[a]]) < LastVisit(visits[f := v][fs[b]]) {
      assert LastVisit(visits[fs[a]]) < LastVisit(visits[fs[b]]);
    }
  }

  /** Every other frame's last visit is before `now`. */
  ghost predicate AllEarlier(visits: seq<seq<nat>>, f: Frame, now: nat) {
    forall g: nat :: g < |visits| && g != f ==> LastVisit(visits[g]) < now
  }

  /** The frame visited last goes to the end. */
  lemma {:induction false} InTimePush(fs: seq<Frame>, visits: seq<seq<nat>>, f: Frame, now: nat)
    requires InTime(fs, visits) && f < |visits| && visits[f] != [] && LastVisit(visits[f]) == now
    requires AllEarlier(visits, f, now)
    requires f !in fs
    ensures InTime(fs + [f], visits)
  {
    var t := fs + [f];
    forall a, b | 0 <= a < b < |t| ensures LastVisit(visits[t[a]]) < LastVisit(visits[t[b]]) {
      if b < |fs| {
        assert LastVisit(visits[fs[a]]) < LastVisit(visits[fs[b]]);
      } else {
        assert t[a] == fs[a];
      }
    }
  }

  /** Nothing is later than now, and every remembered access is of a frame. */
  ghost predicate Timed(visits: seq<seq<nat>>, now: nat, own: map<Frame, seq<Ref>>, info: map<Ref, MainNode>) {
    && (forall f: nat :: f < |visits| ==> History(visits[f], now))
    && (forall r :: r in info ==> info[r].stamp <= now)
    && (forall f :: f in own && own[f] != [] ==> f < |visits|)
  }

  lemma {:induction false} Ticked(visits: seq<seq<nat>>, f: Frame, now: nat, own: map<Frame, seq<Ref>>, info: map<Ref, MainNode>)
    requires f < |visits| && Timed(visits, now, own, info)
    ensures forall r :: r in info ==> info[r].stamp < now + 1
    ensures AllEarlier(visits[f := visits[f] + [now + 1]], f, now + 1)
    ensures LastVisit(visits[f] + [now + 1]) == now + 1
  {
    var w := visits[f := visits[f] + [now + 1]];
    forall g: nat | g < |visits| && g != f ensures LastVisit(w[g]) < now + 1 {
      assert History(visits[g], now);
    }
  }

  lemma {:induction false} TimedStep(visits: seq<seq<nat>>, f: Frame, now: nat, own: map<Frame, seq<Ref>>,
                                     info: map<Ref, MainNode>, own': map<Frame, seq<Ref>>, info': map<Ref, MainNode>)
    requires f < |visits| && Timed(visits, now, own, info) && MainChain.Kept(own, info, own', info', f)
    requires forall r :: r in info' ==> info'[r].stamp <= now + 1
    ensures Timed(visits[f := visits[f] + [now + 1]], now + 1, own', info')
  {
    var w := visits[f := visits[f] + [now + 1]];
    forall g: nat | g < |visits| ensures History(w[g], now + 1) {
      assert History(visits[g], now);
    }
    forall g | g in own' && own'[g] != [] ensures g < |visits| {
      assert MainChain.OwnOf(own', g) == own'[g];
    }
  }

  lemma {:induction false} LastKMore(v: seq<nat>, now: nat, k: nat)
    requires 0 < k
    ensures LastK(v + [now], k) == if |v| < k then LastK(v, k) + [now] else (LastK(v, k) + [now])[1..]
  {
  }

  class LRUKReplacer {
    const maxFrameCount: nat
    const kValue: nat
    const lru: LruChain
    const mainChain: MainChain
    var records: seq<Record>
    var currentTimestamp: nat
    var currentEvitableCount: nat
    ghost var visits: seq<seq<nat>>

    ghost predicate Valid()
      reads this, lru, mainChain
    {
      && 0 < kValue && |records| == |visits| == maxFrameCount
      && lru.Valid() && mainChain.Valid() && AllRecordsOk(records, visits, mainChain.own, mainChain.info, lru.frameOf, kValue)
      && Timed(visits, currentTimestamp, mainChain.own, mainChain.info)
      && LruOk(records, lru.frameOf) && InTime(lru.Frames(), visits)
      && currentEvitableCount == |EvictableIn(records)|
    }

    ghost function Evictable(): set<Frame>
      reads this
    {
      EvictableIn(records)
    }

    constructor (maxFrameCount: nat, kValue: nat)
      requires 0 < kValue
      ensures Valid() && this.maxFrameCount == maxFrameCount && this.kValue == kValue
      ensures fresh(lru) && fresh(mainChain) && Evictable() == {} && visits == seq(maxFrameCount, _ => [])
    {
      this.maxFrameCount, this.kValue := maxFrameCount, kValue;
      lru := new LruChain();
      mainChain := new MainChain();
      records := seq(maxFrameCount, _ => Record(false, 0, false, 0, 0, 0));
      currentTimestamp, currentEvitableCount := 0, 0;
      visits := seq(maxFrameCount, _ => []);
      new;
      assert EvictableIn(records) == {};
    }

    method GetCurrentEvitableCount() returns (n: nat)
      requires Valid()
      ensures n == |Evictable()|
    {
      n := currentEvitableCount;
    }

    method SetEvictable(f: Frame, evitable: bool)
      requires Valid() && f < maxFrameCount
      modifies this
      ensures Valid() && visits == old(visits)
      ensures currentTimestamp == old(currentTimestamp)
      ensures Evictable() == if visits[f] == [] then old(Evictable())
                             else if evitable then old(Evictable()) + {f} else old(Evictable()) - {f}
    {
      hide *;
      Parts();
      if !records[f].active {
        InactiveNot(f);
        return;
      }
      FlagStep(f, evitable);
      EvictableFlip(f);
      if records[f].evitable == evitable {
        EvictableIs();
        return;
      }
      records := records[f := records[f].(evitable := evitable)];
      if evitable {
        currentEvitableCount := currentEvitableCount + 1;
      } else {
        currentEvitableCount := currentEvitableCount - 1;
      }
      Parts();
      EvictableIs();
    }

    lemma {:induction false} InactiveNot(f: Frame)
      requires Valid() && f < maxFrameCount && !records[f].active
      ensures visits[f] == [] && f !in Evictable() && Evictable() == EvictableIn(records)
    {
      RecordAt(f);
    }

    /** A record's flag changes nothing else. */
    lemma {:induction false} FlagStep(f: Frame, evitable: bool)
      requires Valid() && f < maxFrameCount && records[f].active
      ensures
        var rs := records[f := records[f].(evitable := evitable)];
        && AllRecordsOk(rs, visits, mainChain.own, mainChain.info, lru.frameOf, kValue) && LruOk(rs, lru.frameOf)
        && EvictableIn(rs) == (if evitable then Evictable() + {f} else Evictable() - {f})
      ensures visits[f] != []
    {
      RecordAt(f);
      var r := records[f].(evitable := evitable);
      RecordsStep(records, visits, mainChain.own, mainChain.info, lru.frameOf, kValue, f, r, visits[f],
                  mainChain.own, mainChain.info, lru.frameOf);
      assert visits[f := visits[f]] == visits;
      LruStep(records, lru.frameOf, f, r, lru.frameOf);
      EvictableUpdate(records, f, r);
    }

    lemma {:induction false} EvictableFlip(f: Frame)
      requires f < |records| && records[f].active
      ensures records[f].evitable <==> f in Evictable()
      ensures |Evictable() + {f}| == |Evictable()| + (if records[f].evitable then 0 else 1)
      ensures |Evictable() - {f}| == |Evictable()| - (if records[f].evitable then 1 else 0)
      ensures records[f].evitable ==> Evictable() + {f} == Evictable()
      ensures !records[f].evitable ==> Evictable() - {f} == Evictable()
      ensures Evictable() == EvictableIn(records)
    {
      if !records[f].evitable {
        assert Evictable() - {f} == Evictable();
      } else {
        assert Evictable() + {f} == Evictable();
      }
    }

    /** The invariant, taken apart and put together. */
    lemma {:induction false} Parts()
      ensures Valid() <==>
        && 0 < kValue && |records| == |visits| == maxFrameCount
        && lru.Valid() && mainChain.Valid()
        && AllRecordsOk(records, visits, mainChain.own, mainChain.info, lru.frameOf, kValue)
        && Timed(visits, currentTimestamp, mainChain.own, mainChain.info)
        && LruOk(records, lru.frameOf) && InTime(lru.Frames(), visits)
        && currentEvitableCount == |EvictableIn(records)|
    {
    }

    lemma {:induction false} Bounds()
      requires Valid()
      ensures 0 < kValue && |visits| == maxFrameCount && forall g :: g in Evictable() ==> g < maxFrameCount
    {
    }

    /** What is known about one frame. */
    lemma {:induction false} RecordAt(f: Frame)
      requires Valid() && f < maxFrameCount
      ensures RecordOk(records[f], visits[f], MainChain.OwnOf(mainChain.own, f),
                       MainChain.StampsOf(mainChain.info, MainChain.OwnOf(mainChain.own, f)), lru.frameOf, f, kValue)
      ensures History(visits[f], currentTimestamp) && 0 !in lru.frameOf
      ensures forall r :: r in lru.frameOf && lru.frameOf[r] == f ==> records[f].active && records[f].lruNode == r
      ensures forall i {:trigger lru.Frames()[i]} :: 0 <= i < |lru.Frames()| && lru.Frames()[i] == f
                ==> records[f].active && records[f].lruNode != 0
    {
      LastLink(lru.links, lru.order);
      Inside(lru.links, lru.order);
      forall i | 0 <= i < |lru.Frames()| && lru.Frames()[i] == f ensures records[f].active && records[f].lruNode != 0 {
        assert lru.order[i + 1] in lru.frameOf;
      }
    }

    method RecordAccess(f: Frame)
      requires Valid() && f < maxFrameCount
      modifies this, lru, mainChain
      ensures Valid() && currentTimestamp == old(currentTimestamp) + 1
      ensures visits == old(visits)[f := old(visits)[f] + [currentTimestamp]]
      ensures Evictable() == old(Evictable())
    {
      RecordAt(f);
      if !records[f].active {
        FirstAccess(f);
      } else {
        NextAccess(f);
      }
    }

    method FirstAccess(f: Frame)
      requires Valid() && f < maxFrameCount && !records[f].active
      modifies this, lru, mainChain
      ensures Valid() && currentTimestamp == old(currentTimestamp) + 1
      ensures visits == old(visits)[f := old(visits)[f] + [currentTimestamp]]
      ensures Evictable() == old(Evictable())
    {
      hide *;
      Parts();
      InactiveAt(f);
      Ticked(visits, f, currentTimestamp, mainChain.own, mainChain.info);
      ghost var fs, now, v := lru.Frames(), currentTimestamp + 1, visits[f] + [currentTimestamp + 1];
      currentTimestamp := currentTimestamp + 1;
      var node := mainChain.AddRecord(f, currentTimestamp, 0);
      var lruNode := lru.Push(f);
      var r := Record(false, 1, true, node, node, lruNode);
      FirstRecord(r, v, now, MainChain.OwnOf(mainChain.own, f), mainChain.info, lru.frameOf, f, kValue);
      PushKept(old(lru.frameOf), lru.frameOf, f, lruNode);
      SameFlag(records, f, r);
      RecordsStep(records, visits, old(mainChain.own), old(mainChain.info), old(lru.frameOf), kValue, f, r, v,
                  mainChain.own, mainChain.info, lru.frameOf);
      LruStep(records, old(lru.frameOf), f, r, lru.frameOf);
      TimedStep(visits, f, old(currentTimestamp), old(mainChain.own), old(mainChain.info), mainChain.own, mainChain.info);
      InTimeOutside(fs, visits, f, v);
      InTimePush(fs, visits[f := v], f, now);
      records := records[f := r];
      visits := visits[f := v];
      Parts();
      EvictableIs();
    }

    lemma {:induction false} InactiveAt(f: Frame)
      requires Valid() && f < maxFrameCount && !records[f].active
      ensures MainChain.OwnOf(mainChain.own, f) == [] && visits[f] == [] && f !in lru.Frames()
      ensures forall r :: r in lru.frameOf ==> lru.frameOf[r] != f
      ensures Evictable() == EvictableIn(records)
    {
      RecordAt(f);
    }

    static lemma {:induction false} FirstRecord(r: Record, v: seq<nat>, now: nat, own: seq<Ref>, info: map<Ref, MainNode>,
                                                frameOf: map<Ref, Frame>, f: Frame, k: nat)
      requires r.active && r.visitCount == 1 && r.head == r.tail && own == [r.head] && v == [now] && 0 < k
      requires MainChain.StampsOf(info, own) == [now] && r.lruNode in frameOf && frameOf[r.lruNode] == f
      ensures RecordOk(r, v, own, MainChain.StampsOf(info, own), frameOf, f, k)
    {
    }

    static lemma {:induction false} PushKept(before: map<Ref, Frame>, now: map<Ref, Frame>, f: Frame, node: Ref)
      requires node !in before && (forall r :: r in before ==> before[r] != f) && now == before[node := f]
      ensures LruKept(before, now, f)
      ensures forall x :: x in now && now[x] == f ==> x == node
    {
    }

    /** An access does not change what is evictable. */
    static lemma {:induction false} SameFlag(records: seq<Record>, f: Frame, r: Record)
      requires f < |records| && (r.active && r.evitable <==> records[f].active && records[f].evitable)
      ensures EvictableIn(records[f := r]) == EvictableIn(records)
    {
      EvictableUpdate(records, f, r);
    }

    /** The node of a frame in the LRU chain goes to the end of it, or away after the `k`th visit. */
    method MoveInLru(f: Frame, r: Record, ghost v: seq<nat>, ghost now: nat) returns (q: Record)
      requires lru.Valid() && f < |visits| && InTime(lru.Frames(), visits) && 0 !in lru.frameOf
      requires forall x :: x in lru.frameOf && lru.frameOf[x] == f ==> r.lruNode == x
      requires r.lruNode != 0 ==> r.lruNode in lru.frameOf && lru.frameOf[r.lruNode] == f
      requires r.lruNode == 0 ==> r.visitCount >= kValue && f !in lru.Frames()
      requires v != [] && LastVisit(v) == now
      requires AllEarlier(visits[f := v], f, now)
      modifies lru
      ensures lru.Valid() && LruKept(old(lru.frameOf), lru.frameOf, f) && q == r.(lruNode := q.lruNode)
      ensures forall x :: x in lru.frameOf && lru.frameOf[x] == f ==> q.lruNode == x
      ensures if r.visitCount < kValue then q.lruNode in lru.frameOf && lru.frameOf[q.lruNode] == f else q.lruNode == 0
      ensures InTime(lru.Frames(), visits[f := v])
    {
      hide InTime;
      ghost var fs := lru.Frames();
      q := r;
      if q.lruNode != 0 {
        ghost var i := lru.Drop(q.lruNode);
        InTimeWithout(fs, visits, i, v);
        q := q.(lruNode := 0);
      } else {
        InTimeOutside(fs, visits, f, v);
      }
      if q.visitCount < kValue {
        ghost var gs := lru.Frames();
        var lruNode := lru.Push(f);
        q := q.(lruNode := lruNode);
        InTimePush(gs, visits[f := v], f, now);
      }
    }

    method NextAccess(f: Frame)
      requires Valid() && f < maxFrameCount && records[f].active
      modifies this, lru, mainChain
      ensures Valid() && currentTimestamp == old(currentTimestamp) + 1
      ensures visits == old(visits)[f := old(visits)[f] + [currentTimestamp]]
      ensures Evictable() == old(Evictable())
    {
      hide *;
      Parts();
      ActiveAt(f);
      Ticked(visits, f, currentTimestamp, mainChain.own, mainChain.info);
      ghost var now, v := currentTimestamp + 1, visits[f] + [currentTimestamp + 1];
      currentTimestamp := currentTimestamp + 1;
      var r := records[f].(visitCount := records[f].visitCount + 1);
      var node := mainChain.AddRecord(f, currentTimestamp, r.tail);
      r := r.(tail := node);
      r := MoveInLru(f, r, v, now);
      if r.visitCount > kValue {
        ghost var own, info := mainChain.own, mainChain.info;
        var next := mainChain.DropOldest(f, r.head);
        r := r.(head := next);
        MainChain.KeptTwice(old(mainChain.own), old(mainChain.info), own, info, mainChain.own, mainChain.info, f);
      }
      NextRecord(visits[f], now, r, old(MainChain.OwnOf(mainChain.own, f)), MainChain.OwnOf(mainChain.own, f),
                 old(mainChain.info), mainChain.info, lru.frameOf, f, kValue);
      SameFlag(records, f, r);
      RecordsStep(records, visits, old(mainChain.own), old(mainChain.info), old(lru.frameOf), kValue, f, r, v,
                  mainChain.own, mainChain.info, lru.frameOf);
      LruStep(records, old(lru.frameOf), f, r, lru.frameOf);
      TimedStep(visits, f, old(currentTimestamp), old(mainChain.own), old(mainChain.info), mainChain.own, mainChain.info);
      records := records[f := r];
      visits := visits[f := v];
      Parts();
      EvictableIs();
    }

    lemma {:induction false} ActiveAt(f: Frame)
      requires Valid() && f < maxFrameCount && records[f].active
      ensures
        var o, r := MainChain.OwnOf(mainChain.own, f), records[f];
        && o != [] && r.head == o[0] && r.tail == o[|o| - 1] && 0 < |visits[f]| == r.visitCount
        && MainChain.StampsOf(mainChain.info, o) == LastK(visits[f], kValue)
      ensures 0 !in lru.frameOf && Evictable() == EvictableIn(records)
      ensures forall x :: x in lru.frameOf && lru.frameOf[x] == f ==> records[f].lruNode == x
      ensures records[f].lruNode != 0 ==> records[f].lruNode in lru.frameOf && lru.frameOf[records[f].lruNode] == f
      ensures records[f].lruNode == 0 ==> records[f].visitCount >= kValue && f !in lru.Frames()
    {
      RecordAt(f);
    }

    static lemma {:induction false} NextRecord(v: seq<nat>, now: nat, r: Record, o: seq<Ref>, own: seq<Ref>,
                                               before: map<Ref, MainNode>, info: map<Ref, MainNode>,
                                               frameOf: map<Ref, Frame>, f: Frame, k: nat)
      requires 0 < k && 0 < |v| && r.active && r.visitCount == |v| + 1 && o != [] && own != []
      requires own == if r.visitCount > k then (o + [r.tail])[1..] else o + [r.tail]
      requires r.head == own[0] && MainChain.StampsOf(before, o) == LastK(v, k)
      requires
        var stamps := MainChain.StampsOf(before, o) + [now];
        MainChain.StampsOf(info, own) == if r.visitCount > k then stamps[1..] else stamps
      requires if r.visitCount < k then r.lruNode in frameOf && frameOf[r.lruNode] == f else r.lruNode == 0
      ensures RecordOk(r, v + [now], own, MainChain.StampsOf(info, own), frameOf, f, k)
    {
      LastKMore(v, now, k);
    }

    /** A frame that is evictable is forgotten. */
    method TryEvictExactFrame(f: Frame) returns (ok: bool)
      requires Valid() && f < maxFrameCount
      modifies this, lru, mainChain
      ensures Valid() && ok == (f in old(Evictable()))
      ensures currentTimestamp == old(currentTimestamp)
      ensures visits == if ok then old(visits)[f := []] else old(visits)
      ensures Evictable() == if ok then old(Evictable()) - {f} else old(Evictable())
    {
      hide *;
      Parts();
      if !records[f].active {
        InactiveNot(f);
        return false;
      }
      EvictableFlip(f);
      if !records[f].evitable {
        return false;
      }
      ActiveAt(f);
      var r := records[f].(lruNode := 0, active := false);
      ghost var fs := lru.Frames();
      if records[f].lruNode != 0 {
        ghost var i := lru.Drop(records[f].lruNode);
        InTimeWithout(fs, visits, i, []);
      } else {
        InTimeOutside(fs, visits, f, []);
      }
      mainChain.DropAll(f, records[f].head);
      DropKept(old(lru.frameOf), lru.frameOf, f, records[f].lruNode);
      ForgottenRecord(r, MainChain.OwnOf(mainChain.own, f), MainChain.StampsOf(mainChain.info, []), lru.frameOf, f, kValue);
      RecordsStep(records, visits, old(mainChain.own), old(mainChain.info), old(lru.frameOf), kValue, f, r, [],
                  mainChain.own, mainChain.info, lru.frameOf);
      LruStep(records, old(lru.frameOf), f, r, lru.frameOf);
      TimedForget(visits, f, currentTimestamp, old(mainChain.own), old(mainChain.info), mainChain.own, mainChain.info);
      EvictableUpdate(records, f, r);
      records := records[f := r];
      visits := visits[f := []];
      currentEvitableCount := currentEvitableCount - 1;
      Parts();
      EvictableIs();
      return true;
    }

    lemma {:induction false} EvictableIs()
      ensures Evictable() == EvictableIn(records)
    {
    }

    static lemma {:induction false} DropKept(before: map<Ref, Frame>, now: map<Ref, Frame>, f: Frame, node: Ref)
      requires now == before - {node} && (node in before ==> before[node] == f)
      requires forall x :: x in before && before[x] == f ==> x == node
      ensures LruKept(before, now, f)
      ensures forall x :: x in now ==> now[x] != f
    {
    }

    static lemma {:induction false} ForgottenRecord(r: Record, own: seq<Ref>, stamps: seq<nat>, frameOf: map<Ref, Frame>,
                                                    f: Frame, k: nat)
      requires !r.active && own == []
      ensures RecordOk(r, [], own, stamps, frameOf, f, k)
    {
    }

    static lemma {:induction false} TimedForget(visits: seq<seq<nat>>, f: Frame, now: nat, own: map<Frame, seq<Ref>>,
                                                info: map<Ref, MainNode>, own': map<Frame, seq<Ref>>,
                                                info': map<Ref, MainNode>)
      requires f < |visits| && Timed(visits, now, own, info) && MainChain.Kept(own, info, own', info', f)
      requires forall r :: r in info' ==> r in info && info'[r] == info[r]
      ensures Timed(visits[f := []], now, own', info')
    {
      var w := visits[f := []];
      forall g: nat | g < |visits| ensures History(w[g], now) {
        assert History(visits[g], now);
      }
      forall g | g in own' && own'[g] != [] ensures g < |visits| {
        assert MainChain.OwnOf(own', g) == own'[g];
      }
    }

    /** A node of the LRU chain, its frame and its place in time. */
    lemma {:induction false} LruNodeAt(i: nat)
      requires Valid() && 0 < i < |lru.order| - 1
      ensures
        var node := lru.order[i];
        && node in lru.frameOf && node in lru.links && lru.frameOf[node] < maxFrameCount && node != TAIL
        && records[lru.frameOf[node]].active && lru.Frames()[i - 1] == lru.frameOf[node]
        && Young(|visits[lru.frameOf[node]]|, kValue) && visits[lru.frameOf[node]] != []
        && lru.links[node].next == lru.order[i + 1]
    {
      Inside(lru.links, lru.order);
      assert Tied(lru.links, lru.order, i);
      RecordAt(lru.frameOf[lru.order[i]]);
    }

    lemma {:induction false} FirstLruNode()
      requires Valid()
      ensures 2 <= |lru.order| && HEAD in lru.links && lru.links[HEAD].next == lru.order[1] && lru.order[|lru.order| - 1] == TAIL
    {
      assert Tied(lru.links, lru.order, 0);
    }

    /** The places of the young frames. */
    lemma {:induction false} YoungPlace(f: Frame) returns (i: nat)
      requires Valid() && f < maxFrameCount && records[f].active && Young(|visits[f]|, kValue)
      ensures 0 < i < |lru.order| - 1 && lru.order[i] in lru.frameOf && lru.frameOf[lru.order[i]] == f
      ensures lru.Frames()[i - 1] == f
    {
      RecordAt(f);
      i := PlaceOf(lru.links, lru.order, records[f].lruNode);
    }

    /** The first evictable frame of the LRU chain; none if no young frame is evictable. */
    method FirstInLru() returns (found: bool, f: Frame)
      requires Valid()
      ensures found ==> f in Evictable() && f < maxFrameCount && Young(|visits[f]|, kValue) && visits[f] != []
      ensures found ==> forall g :: g in Evictable() && Young(|visits[g]|, kValue) ==> LastVisit(visits[f]) <= LastVisit(visits[g])
      ensures !found ==> forall g :: g in Evictable() ==> !Young(|visits[g]|, kValue)
    {
      FirstLruNode();
      var node := lru.links[HEAD].next;
      ghost var i := 1;
      found, f := false, 0;
      while node != TAIL
        invariant 0 < i < |lru.order| && node == lru.order[i] && !found
        invariant forall j {:trigger lru.order[j]} :: 0 < j < i ==>
          lru.order[j] in lru.frameOf && lru.frameOf[lru.order[j]] !in Evictable()
        decreases |lru.order| - i
      {
        NotTail(i);
        LruNodeAt(i);
        f := lru.frameOf[node];
        if records[f].evitable {
          found := true;
          OldestYoung(i);
          return;
        }
        node := lru.links[node].next;
        i := i + 1;
      }
      AtTail(i);
      forall g | g in Evictable() ensures !Young(|visits[g]|, kValue) {
        if Young(|visits[g]|, kValue) {
          var p := YoungPlace(g);
        }
      }
    }

    lemma {:induction false} NotTail(i: nat)
      requires Valid() && 0 < i < |lru.order| && lru.order[i] != TAIL
      ensures i < |lru.order| - 1
    {
    }

    lemma {:induction false} AtTail(i: nat)
      requires Valid() && 0 < i < |lru.order| && lru.order[i] == TAIL
      ensures i == |lru.order| - 1
    {
      assert lru.order[|lru.order| - 1] == TAIL;
    }

    lemma {:induction false} OldestYoung(i: nat)
      requires Valid() && 0 < i < |lru.order| - 1 && lru.order[i] in lru.frameOf
      requires lru.frameOf[lru.order[i]] in Evictable()
      requires forall j {:trigger lru.order[j]} :: 0 < j < i ==>
        lru.order[j] in lru.frameOf && lru.frameOf[lru.order[j]] !in Evictable()
      ensures forall g :: g in Evictable() && Young(|visits[g]|, kValue) ==>
        LastVisit(visits[lru.frameOf[lru.order[i]]]) <= LastVisit(visits[g])
    {
      LruNodeAt(i);
      var f := lru.frameOf[lru.order[i]];
      forall g | g in Evictable() && Young(|visits[g]|, kValue) ensures LastVisit(visits[f]) <= LastVisit(visits[g]) {
        var p := YoungPlace(g);
        var fs := lru.Frames();
        assert i <= p;
        assert i < p ==> LastVisit(visits[fs[i - 1]]) < LastVisit(visits[fs[p - 1]]);
      }
    }

    /** A node of the main chain and its frame. */
    lemma {:induction false} MainNodeAt(i: nat)
      requires Valid() && 0 < i < |mainChain.order| && mainChain.order[i] != TAIL
      ensures i < |mainChain.order| - 1
      ensures
        var node := mainChain.order[i];
        && node in mainChain.info && node in mainChain.links && mainChain.links[node].next == mainChain.order[i + 1]
        && mainChain.info[node].frame < maxFrameCount && records[mainChain.info[node].frame].active
    {
      Inside(mainChain.links, mainChain.order);
      assert Tied(mainChain.links, mainChain.order, i);
      var g := mainChain.info[mainChain.order[i]].frame;
      assert MainChain.OwnOf(mainChain.own, g) != [];
      RecordAt(g);
    }

    /** The oldest remembered access of an active frame has a node in the main chain, with the deciding time. */
    lemma {:induction false} OldestNode(f: Frame) returns (i: nat)
      requires Valid() && f < maxFrameCount && records[f].active
      ensures 0 < i < |mainChain.order| - 1 && mainChain.order[i] in mainChain.info && mainChain.info[mainChain.order[i]].frame == f
      ensures !Young(|visits[f]|, kValue) ==> mainChain.info[mainChain.order[i]].stamp == Decisive(visits[f], kValue)
      ensures forall r :: r in mainChain.info && mainChain.info[r].frame == f
                ==> mainChain.info[mainChain.order[i]].stamp <= mainChain.info[r].stamp
    {
      RecordAt(f);
      var o := MainChain.OwnOf(mainChain.own, f);
      MainChain.LastOwned(mainChain.info, mainChain.own, f);
      i := PlaceOf(mainChain.links, mainChain.order, o[0]);
      assert MainChain.StampsOf(mainChain.info, o)[0] == mainChain.info[o[0]].stamp;
      assert MainChain.Owned(mainChain.info, o, f);
      forall r | r in mainChain.info && mainChain.info[r].frame == f
        ensures mainChain.info[o[0]].stamp <= mainChain.info[r].stamp
      {
        var j :| 0 <= j < |o| && o[j] == r;
        assert 0 < j ==> MainChain.Earlier(mainChain.info, o[0], o[j]);
      }
    }

    lemma {:induction false} OldestDecisive(i: nat)
      requires Valid() && 0 < i < |mainChain.order| - 1 && mainChain.order[i] in mainChain.info
      requires mainChain.info[mainChain.order[i]].frame in Evictable()
      requires forall g :: g in Evictable() ==> !Young(|visits[g]|, kValue)
      requires forall j {:trigger mainChain.order[j]} :: 0 < j < i ==>
        mainChain.order[j] in mainChain.info && mainChain.info[mainChain.order[j]].frame !in Evictable()
      ensures forall g :: g in Evictable() ==>
        Decisive(visits[mainChain.info[mainChain.order[i]].frame], kValue) <= Decisive(visits[g], kValue)
    {
      var f := mainChain.info[mainChain.order[i]].frame;
      var p := OldestNode(f);
      forall g | g in Evictable() ensures Decisive(visits[f], kValue) <= Decisive(visits[g], kValue) {
        var q := OldestNode(g);
        assert i <= q;
        assert i < q ==> MainChain.Earlier(mainChain.info, mainChain.order[i], mainChain.order[q]);
      }
    }

    /** The first evictable frame of the main chain. */
    method FirstInMain() returns (found: bool, f: Frame)
      requires Valid() && forall g :: g in Evictable() ==> !Young(|visits[g]|, kValue)
      ensures found == (Evictable() != {})
      ensures found ==> f in Evictable() && f < maxFrameCount
      ensures found ==> forall g :: g in Evictable() ==> Decisive(visits[f], kValue) <= Decisive(visits[g], kValue)
    {
      assert Tied(mainChain.links, mainChain.order, 0);
      var node := mainChain.links[HEAD].next;
      ghost var i := 1;
      found, f := false, 0;
      while node != TAIL
        invariant 0 < i < |mainChain.order| && node == mainChain.order[i] && !found
        invariant forall j {:trigger mainChain.order[j]} :: 0 < j < i ==>
          mainChain.order[j] in mainChain.info && mainChain.info[mainChain.order[j]].frame !in Evictable()
        decreases |mainChain.order| - i
      {
        MainNodeAt(i);
        f := mainChain.info[node].frame;
        if records[f].evitable {
          found := true;
          OldestDecisive(i);
          return;
        }
        node := mainChain.links[node].next;
        i := i + 1;
      }
      AllSeen(i);
    }

    lemma {:induction false} AllSeen(i: nat)
      requires Valid() && 0 < i < |mainChain.order| && mainChain.order[i] == TAIL
      requires forall j {:trigger mainChain.order[j]} :: 0 < j < i ==>
        mainChain.order[j] in mainChain.info && mainChain.info[mainChain.order[j]].frame !in Evictable()
      ensures Evictable() == {}
    {
      assert mainChain.order[|mainChain.order| - 1] == TAIL;
      assert i == |mainChain.order| - 1;
      if g :| g in Evictable() {
        var q := OldestNode(g);
      }
    }

    /** All accesses so far are in the past, and of any two one is earlier. */
    lemma {:induction false} Past()
      requires Valid()
      ensures forall f: nat, t :: f < |visits| && t in visits[f] ==> t <= currentTimestamp
      ensures forall f: nat, i, j :: f < |visits| && 0 <= i < j < |visits[f]| ==> visits[f][i] < visits[f][j]
    {
      forall f: nat, t | f < |visits| && t in visits[f] ensures t <= currentTimestamp {
        assert History(visits[f], currentTimestamp);
      }
      forall f: nat, i, j | f < |visits| && 0 <= i < j < |visits[f]| ensures visits[f][i] < visits[f][j] {
        assert History(visits[f], currentTimestamp);
      }
    }

    /** An evictable frame has been visited. */
    lemma {:induction false} ActiveVisits()
      requires Valid()
      ensures forall g :: g in Evictable() ==> g < |visits| && visits[g] != []
    {
      forall g | g in Evictable() ensures g < |visits| && visits[g] != [] {
        RecordAt(g);
      }
    }

    /**
     The victim is found and forgotten; it fails only if no frame is evictable.
     For `k >= 2` it is the victim of LRU-K, for `k == 1` in the states described.
     */
    method TryEvictLeastImportant() returns (ok: bool, f: Frame)
      requires Valid()
      modifies this, lru, mainChain
      ensures Valid() && ok == (old(Evictable()) != {})
      ensures currentTimestamp == old(currentTimestamp)
      ensures ok ==> f < maxFrameCount && IsVictim(old(visits), old(Evictable()), kValue, f)
      ensures forall g :: g in old(Evictable()) ==> old(visits)[g] != []
      ensures ok && 2 <= kValue ==> IsLruKVictim(old(visits), old(Evictable()), kValue, f)
      ensures ok && kValue == 1 ==>
                (IsLruKVictim(old(visits), old(Evictable()), 1, f) <==> OnceIsOldest(old(visits), old(Evictable())))
      ensures visits == if ok then old(visits)[f := []] else old(visits)
      ensures Evictable() == if ok then old(Evictable()) - {f} else old(Evictable())
    {
      Parts();
      EvictableIs();
      hide AllRecordsOk, Timed, LruOk, InTime, MainChain.Valid, LruChain.Valid;
      ok, f := false, 0;
      if currentEvitableCount == 0 {
        return;
      }
      var found;
      found, f := FirstInLru();
      if !found {
        found, f := FirstInMain();
      }
      ActiveVisits();
      if found {
        if 2 <= kValue {
          VictimIsLruK(visits, Evictable(), kValue, f);
        } else {
          VictimWithKOne(visits, Evictable(), f);
        }
        hide IsLruKVictim, OnceIsOldest;
        ok := TryEvictExactFrame(f);
      }
    }
  }
}
