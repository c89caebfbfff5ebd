/**
 Trains as they are planned: stations, travel and stopover times, prices and the
 days of sale, and the offsets from the train's start that follow from them.
 */
module Timetable {
  type Station = nat
  type TrainId = nat

  const MINUTES_PER_DAY := 1440

  /** The first day the register can store, 1 June, and the widths of its fields. */
  const FIRST_DAY := 152
  const DAY_RANGE := 256
  const OFFSET_RANGE := 16384
  const START_RANGE := 4096
  const STOP_RANGE := 256

  /** A train's record has room for so many stations. */
  const STATION_LIMIT := 100

  datatype Plan = Plan(name: string, stations: seq<Station>, startTime: nat, saleBeg: nat, saleEnd: nat,
                       travel: seq<nat>, stopover: seq<nat>, price: seq<nat>)

  ghost predicate Distinct(s: seq<Station>) {
    forall i, j :: 0 <= i < j < |s| ==> s[i] != s[j]
  }

  predicate Sized(p: Plan) {
    2 <= |p.stations| && |p.travel| == |p.price| == |p.stations| - 1 && |p.stopover| == |p.stations|
  }

  /** A train that goes somewhere on every leg, visits no station twice, and fits the register's fields. */
  ghost predicate PlanOk(p: Plan) {
    && Sized(p) && Distinct(p.stations) && (forall i :: 0 <= i < |p.travel| ==> 0 < p.travel[i])
    && FIRST_DAY <= p.saleBeg <= p.saleEnd < FIRST_DAY + DAY_RANGE
    && ArriveOffset(p, |p.stations| - 1) < OFFSET_RANGE && p.startTime < START_RANGE && |p.stations| <= STATION_LIMIT
  }

  function ArriveOffset(p: Plan, i: nat): nat
    requires Sized(p) && i < |p.stations|
    decreases i, 0
  {
    if i == 0 then 0 else LeaveOffset(p, i - 1) + p.travel[i - 1]
  }

  function LeaveOffset(p: Plan, i: nat): nat
    requires Sized(p) && i < |p.stations|
    decreases i, 1
  {
    if i == 0 then 0 else ArriveOffset(p, i) + p.stopover[i]
  }

  /** A train leaves one station before it arrives at another exactly if it visits them in that order. */
  lemma {:induction false} LeavesBeforeArriving(p: Plan, a: nat, b: nat)
    requires PlanOk(p) && a < |p.stations| && b < |p.stations|
    ensures LeaveOffset(p, a) < ArriveOffset(p, b) <==> a < b
    ensures LeaveOffset(p, a) == ArriveOffset(p, b) ==> a == b
  {
    if a < b {
      OffsetsRise(p, a, b);
    } else if b < a {
      OffsetsRise(p, b, a);
    }
  }

  lemma {:induction false} OffsetsRise(p: Plan, a: nat, b: nat)
    requires Sized(p) && (forall i :: 0 <= i < |p.travel| ==> 0 < p.travel[i]) && a < b < |p.stations|
    ensures ArriveOffset(p, a) <= LeaveOffset(p, a) < ArriveOffset(p, b) <= LeaveOffset(p, b)
  {
    if a + 1 < b {
      OffsetsRise(p, a, b - 1);
    }
    assert 0 < p.travel[b - 1];
  }

  /** No stop of a train is further from its start than the register can store. */
  lemma {:induction false} OffsetsFit(p: Plan, i: nat)
    requires PlanOk(p) && i < |p.stations|
    ensures ArriveOffset(p, i) < OFFSET_RANGE
    ensures i < |p.stations| - 1 ==> LeaveOffset(p, i) < OFFSET_RANGE
  {
    if i < |p.stations| - 1 {
      OffsetsRise(p, i, |p.stations| - 1);
    }
  }

  /** The day a train starts on to leave its stop on the given date. */
  function StartDay(date: nat, startTime: nat, offset: nat): int {
    date - (startTime + offset) / MINUTES_PER_DAY
  }

  /** The price of the legs from one stop to another. */
  function Total(price: seq<nat>, from: nat, to: nat): nat
    requires from <= to <= |price|
  {
    if from == to then 0 else Total(price, from, to - 1) + price[to - 1]
  }

  function Fare(p: Plan, from: nat, to: nat): nat
    requires from <= to <= |p.price|
  {
    Total(p.price, from, to)
  }

  lemma {:induction false} TotalAdds(price: seq<nat>, from: nat, via: nat, to: nat)
    requires from <= via <= to <= |price|
    ensures Total(price, from, to) == Total(price, from, via) + Total(price, via, to)
  {
    if via < to {
      TotalAdds(price, from, via, to - 1);
    }
  }

  lemma {:induction false} FareSum(p: Plan, from: nat, to: nat)
    requires from <= to <= |p.price|
    ensures Fare(p, from, to) == Fare(p, 0, to) - Fare(p, 0, from)
  {
    TotalAdds(p.price, 0, from, to);
  }

  /** All numbers of a list. */
  function Sum(s: seq<nat>): nat {
    if s == [] then 0 else s[0] + Sum(s[1..])
  }

  lemma {:induction false} SumJoin(s: seq<nat>, t: seq<nat>)
    ensures Sum(s + t) == Sum(s) + Sum(t)
  {
    if s == [] {
      assert s + t == t;
    } else {
      assert (s + t)[1..] == s[1..] + t;
      SumJoin(s[1..], t);
    }
  }

  /** A train arrives after all earlier legs and all stops between them, and leaves when it has stopped there, too; the first stop is none. */
  lemma {:induction false} OffsetsAre(p: Plan, i: nat)
    requires Sized(p) && 0 < i < |p.stations|
    ensures ArriveOffset(p, i) == Sum(p.travel[..i]) + Sum(p.stopover[1..i])
    ensures LeaveOffset(p, i) == Sum(p.travel[..i]) + Sum(p.stopover[1..i + 1])
    ensures ArriveOffset(p, 0) == LeaveOffset(p, 0) == 0
  {
    SumJoin(p.travel[..i - 1], [p.travel[i - 1]]);
    assert p.travel[..i] == p.travel[..i - 1] + [p.travel[i - 1]];
    SumJoin(p.stopover[1..i], [p.stopover[i]]);
    assert p.stopover[1..i + 1] == p.stopover[1..i] + [p.stopover[i]];
    if i > 1 {
      OffsetsAre(p, i - 1);
    } else {
      assert p.travel[..0] == [] && p.stopover[1..1] == [];
    }
  }

  /** From leaving one stop to arriving at a later one: the legs between, and the stops between them. */
  lemma {:induction false} TimeBetween(p: Plan, a: nat, b: nat)
    requires Sized(p) && a < b < |p.stations|
    ensures ArriveOffset(p, b) - LeaveOffset(p, a) == Sum(p.travel[a..b]) + Sum(p.stopover[a + 1..b])
  {
    OffsetsAre(p, b);
    SumJoin(p.travel[..a], p.travel[a..b]);
    assert p.travel[..b] == p.travel[..a] + p.travel[a..b];
    SumJoin(p.stopover[1..a + 1], p.stopover[a + 1..b]);
    assert p.stopover[1..b] == p.stopover[1..a + 1] + p.stopover[a + 1..b];
    if a > 0 {
      OffsetsAre(p, a);
    } else {
      assert p.travel[..0] == [] && p.stopover[1..1] == [];
    }
  }

  /** The price of a way is the sum of its legs' prices. */
  lemma {:induction false} TotalIs(price: seq<nat>, from: nat, to: nat)
    requires from <= to <= |price|
    ensures Total(price, from, to) == Sum(price[from..to])
  {
    if from < to {
      TotalIs(price, from, to - 1);
      SumJoin(price[from..to - 1], [price[to - 1]]);
      assert price[from..to] == price[from..to - 1] + [price[to - 1]];
    } else {
      assert price[from..to] == [];
    }
  }
}
