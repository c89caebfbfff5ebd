/**
 Trains added, released and withdrawn, with their stops in the register; what
 the direct query and the booking lookup find, in terms of the plans.
 */
module TrainSystem {
  import opened Timetable
  import opened StopRegister
  import B = Booking

  /** The register's entry for one stop of a train: its arrival (0) or departure (1). */
  function Entry(t: TrainId, p: Plan, i: nat, kind: nat): Stop
    requires Sized(p) && i < |p.stations|
  {
    Stop(StopKey(p.stations[i], t, kind, p.startTime, i),
         StopValue(p.saleBeg, p.saleEnd, if kind == 0 then ArriveOffset(p, i) else LeaveOffset(p, i)))
  }

  /** The train arrives at all stops but the first and departs from all but the last. */
  predicate HasEntry(p: Plan, i: nat, kind: nat) {
    i < |p.stations| && ((kind == 0 && 0 < i) || (kind == 1 && i < |p.stations| - 1))
  }

  predicate Describes(e: Stop, p: Plan)
    requires Sized(p)
  {
    HasEntry(p, e.key.stopId, e.key.kind) && e == Entry(e.key.train, p, e.key.stopId, e.key.kind)
  }

  ghost predicate PlansOk(plans: map<TrainId, Plan>) {
    forall t :: t in plans ==> PlanOk(plans[t])
  }

  /** The register holds exactly the stops of the released trains. */
  ghost predicate Registered(stops: seq<Stop>, plans: map<TrainId, Plan>, released: set<TrainId>)
    requires PlansOk(plans)
  {
    && (forall e :: e in stops ==> e.key.train in released && e.key.train in plans && Describes(e, plans[e.key.train]))
    && (forall t, i, kind {:trigger HasEntry(plans[t], i, kind)} ::
          t in released && t in plans && HasEntry(plans[t], i, kind) ==> Entry(t, plans[t], i, kind) in stops)
  }

  /** No train stops twice at a station, so the register has one entry for each stop. */
  lemma RegisteredOnce(stops: seq<Stop>, plans: map<TrainId, Plan>, released: set<TrainId>)
    requires PlansOk(plans) && Registered(stops, plans, released) && Sorted(stops)
    ensures OnceEach(stops)
  {
    forall i, j | 0 <= i < j < |stops| ensures !SameStop(stops[i].key, stops[j].key) {
      assert stops[i] in stops && stops[j] in stops && Less(stops[i].key, stops[j].key);
    }
  }

  /** The first `n` stops of a train have been added to the register. */
  ghost predicate Added(before: seq<Stop>, stops: seq<Stop>, t: TrainId, p: Plan, n: nat)
    requires Sized(p)
  {
    forall e :: e in stops <==> e in before || (e.key.train == t && e.key.stopId < n && Describes(e, p))
  }

  /** No earlier entry is of this train at this stop. */
  lemma {:induction false} NewStop(before: seq<Stop>, stops: seq<Stop>, t: TrainId, p: Plan, n: nat, kind: nat)
    requires PlanOk(p) && n < |p.stations| && Added(before, stops, t, p, n) && forall e :: e in before ==> e.key.train != t
    ensures forall e :: e in stops ==> !Alike(e.key, Entry(t, p, n, kind).key)
  {
    hide LeaveOffset, ArriveOffset;
    forall e | e in stops ensures !Alike(e.key, Entry(t, p, n, kind).key) {
      if e !in before {
        assert p.stations[e.key.stopId] != p.stations[n];
      }
    }
  }

  /** The arrival and the departure of the next stop, where there is one, are the only new entries. */
  lemma {:induction false} StopAdded(before: seq<Stop>, stops: seq<Stop>, t: TrainId, p: Plan, n: nat, stops': seq<Stop>)
    requires PlanOk(p) && n < |p.stations| && Added(before, stops, t, p, n) && forall e :: e in before ==> e.key.train != t
    requires
      var a, d := Entry(t, p, n, 0), Entry(t, p, n, 1);
      && (n != 0 ==> HasPut(stops, stops', a)) && (n != |p.stations| - 1 ==> HasPut(stops, stops', d))
      && forall x: Stop :: !(n != 0 && Alike(x.key, a.key)) && !(n != |p.stations| - 1 && Alike(x.key, d.key)) ==>
           (x in stops' <==> x in stops)
    ensures Added(before, stops', t, p, n + 1)
  {
    hide LeaveOffset, ArriveOffset;
    NewStop(before, stops, t, p, n, 0);
    NewStop(before, stops, t, p, n, 1);
    forall e ensures e in stops' <==> e in before || (e.key.train == t && e.key.stopId < n + 1 && Describes(e, p)) {
      StopAt(stops, t, p, n, stops', e);
    }
  }

  lemma {:induction false} StopAt(stops: seq<Stop>, t: TrainId, p: Plan, n: nat, stops': seq<Stop>, e: Stop)
    requires PlanOk(p) && n < |p.stations|
    requires forall kind, x :: 0 <= kind < 2 && x in stops ==> !Alike(x.key, Entry(t, p, n, kind).key)
    requires
      var a, d := Entry(t, p, n, 0), Entry(t, p, n, 1);
      && (n != 0 ==> HasPut(stops, stops', a)) && (n != |p.stations| - 1 ==> HasPut(stops, stops', d))
      && forall x: Stop :: !(n != 0 && Alike(x.key, a.key)) && !(n != |p.stations| - 1 && Alike(x.key, d.key)) ==>
           (x in stops' <==> x in stops)
    ensures e in stops' <==> e in stops || (e.key.train == t && e.key.stopId == n && Describes(e, p))
  {
    hide LeaveOffset, ArriveOffset;
    var a, d := Entry(t, p, n, 0), Entry(t, p, n, 1);
    assert HasEntry(p, n, 0) <==> n != 0;
    assert HasEntry(p, n, 1) <==> n != |p.stations| - 1;
    if n != 0 {
      PutOnce(stops, stops', a);
    }
    if n != |p.stations| - 1 {
      PutOnce(stops, stops', d);
    }
  }

  /** A new entry is put as it is. */
  lemma {:induction false} PutOnce(stops: seq<Stop>, stops': seq<Stop>, e: Stop)
    requires HasPut(stops, stops', e) && forall x :: x in stops ==> !Alike(x.key, e.key)
    ensures forall x: Stop :: Alike(x.key, e.key) ==> (x in stops' <==> x == e)
  {
  }

  lemma {:induction false} AllAdded(before: seq<Stop>, stops: seq<Stop>, plans: map<TrainId, Plan>, released: set<TrainId>,
                                    t: TrainId)
    requires PlansOk(plans) && t in plans && t !in released && released <= plans.Keys && Registered(before, plans, released)
    requires Added(before, stops, t, plans[t], |plans[t].stations|)
    ensures Registered(stops, plans, released + {t})
  {
    hide LeaveOffset, ArriveOffset;
  }

  /** A train runs from one station to another, leaving the first on the date on a day of sale. */
  ghost predicate Runs(p: Plan, date: nat, from: Station, to: Station, a: nat, b: nat)
    requires Sized(p)
  {
    && a < b < |p.stations| && p.stations[a] == from && p.stations[b] == to
    && p.saleBeg <= StartDay(date, p.startTime, LeaveOffset(p, a)) <= p.saleEnd
  }

  /** The journey of a train between two of its stops. */
  function Journey(t: TrainId, p: Plan, date: nat, a: nat, b: nat): DirectTrain
    requires Sized(p) && a < |p.stations| && b < |p.stations|
  {
    var day := StartDay(date, p.startTime, LeaveOffset(p, a));
    DirectTrain(t, day, day * MINUTES_PER_DAY + p.startTime + LeaveOffset(p, a),
                day * MINUTES_PER_DAY + p.startTime + ArriveOffset(p, b), a, b, p.saleBeg)
  }

  /** A journey leaves on the requested date, on a day of the seat ledger, and gets there later than it leaves. */
  lemma {:induction false} JourneyDates(t: TrainId, p: Plan, date: nat, from: Station, to: Station, a: nat, b: nat)
    requires PlanOk(p) && Runs(p, date, from, to, a, b)
    ensures
      var d := Journey(t, p, date, a, b);
      && d.leave / MINUTES_PER_DAY == date && 0 <= d.startDay - d.saleBeg <= p.saleEnd - p.saleBeg
      && d.leave < d.arrive && d.fromStop < d.toStop < |p.stations|
      && p.stations[d.fromStop] == from && p.stations[d.toStop] == to
      && d.arrive - d.leave == Sum(p.travel[d.fromStop..d.toStop]) + Sum(p.stopover[d.fromStop + 1..d.toStop])
  {
    TimeBetween(p, a, b);
    LeavesBeforeArriving(p, a, b);
  }

  /** Which pairs of entries the query joins, in terms of the plan. */
  lemma {:induction false} JoinsRuns(plans: map<TrainId, Plan>, released: set<TrainId>, stops: seq<Stop>, e: Stop, f: Stop,
                                     date: nat, from: Station, to: Station)
    requires PlansOk(plans) && Registered(stops, plans, released) && e in stops && f in stops && e.key.train == f.key.train
    requires AtStation(e, from, 1) && AtStation(f, to, 0)
    ensures e.key.train in plans
    ensures Joins(e, f, date, from, to) <==> Runs(plans[e.key.train], date, from, to, e.key.stopId, f.key.stopId)
    ensures Joins(e, f, date, from, to) ==>
              Info(e, f, date) == Journey(e.key.train, plans[e.key.train], date, e.key.stopId, f.key.stopId)
    ensures e.value.offset == f.value.offset <==> e.key.stopId == f.key.stopId && plans[e.key.train].stopover[e.key.stopId] == 0
  {
    var p := plans[e.key.train];
    assert Describes(e, p) && Describes(f, p);
    LeavesBeforeArriving(p, e.key.stopId, f.key.stopId);
  }

  /** The query lists the released trains that run, each with its journey. */
  ghost predicate ListsRunning(plans: map<TrainId, Plan>, released: set<TrainId>, date: nat, from: Station, to: Station,
                               res: seq<DirectTrain>)
    requires PlansOk(plans) && released <= plans.Keys
  {
    && (forall t, a, b {:trigger Journey(t, plans[t], date, a, b)} ::
          t in released && Runs(plans[t], date, from, to, a, b) ==> Journey(t, plans[t], date, a, b) in res)
    && (forall k :: 0 <= k < |res| ==> IsJourney(plans, released, date, from, to, res[k]))
    && (forall i, j :: 0 <= i < j < |res| ==> res[i].train < res[j].train)
  }

  ghost predicate IsJourney(plans: map<TrainId, Plan>, released: set<TrainId>, date: nat, from: Station, to: Station, d: DirectTrain)
    requires PlansOk(plans) && released <= plans.Keys
  {
    && d.train in released && Runs(plans[d.train], date, from, to, d.fromStop, d.toStop)
    && d == Journey(d.train, plans[d.train], date, d.fromStop, d.toStop)
  }

  lemma {:induction false} JoinLists(plans: map<TrainId, Plan>, released: set<TrainId>, stops: seq<Stop>, date: nat, from: Station,
                                     to: Station, res: seq<DirectTrain>)
    requires PlansOk(plans) && released <= plans.Keys && Registered(stops, plans, released) && IsJoin(stops, date, from, to, res)
    ensures ListsRunning(plans, released, date, from, to, res)
  {
    hide LeaveOffset, ArriveOffset;
    forall t, a, b | t in released && Runs(plans[t], date, from, to, a, b) ensures Journey(t, plans[t], date, a, b) in res {
      var e, f := Entry(t, plans[t], a, 1), Entry(t, plans[t], b, 0);
      assert HasEntry(plans[t], a, 1) && HasEntry(plans[t], b, 0);
      JoinsRuns(plans, released, stops, e, f, date, from, to);
    }
    forall k | 0 <= k < |res| ensures IsJourney(plans, released, date, from, to, res[k]) {
      assert FromJoin(stops, date, from, to, res[k]);
      var e, f :| e in stops && f in stops && Joins(e, f, date, from, to) && res[k] == Info(e, f, date);
      JoinsRuns(plans, released, stops, e, f, date, from, to);
    }
  }

  /** What the booking accepts: the train runs, or it passes through the one station asked for without a stop over. */
  ghost predicate Bookable(p: Plan, date: nat, from: Station, to: Station, a: nat, b: nat)
    requires Sized(p)
  {
    || Runs(p, date, from, to, a, b)
    || (a == b && 0 < a < |p.stations| - 1 && p.stations[a] == from == to && p.stopover[a] == 0
        && p.saleBeg <= StartDay(date, p.startTime, LeaveOffset(p, a)) <= p.saleEnd)
  }

  ghost predicate BookingFinds(plans: map<TrainId, Plan>, released: set<TrainId>, t: TrainId, date: nat, from: Station,
                               to: Station, success: bool, entry: DirectTrain)
    requires PlansOk(plans) && released <= plans.Keys
  {
    && (success <==> t in released && exists a, b :: Bookable(plans[t], date, from, to, a, b))
    && (success ==> exists a, b :: Bookable(plans[t], date, from, to, a, b) && entry == Journey(t, plans[t], date, a, b))
  }

  lemma {:induction false} BooksBookable(plans: map<TrainId, Plan>, released: set<TrainId>, stops: seq<Stop>, e: Stop, f: Stop,
                                         t: TrainId, date: nat, from: Station, to: Station)
    requires PlansOk(plans) && released <= plans.Keys && Registered(stops, plans, released) && e in stops && f in stops
    requires AtStation(e, from, 1) && AtStation(f, to, 0) && e.key.train == f.key.train == t
    ensures t in released
    ensures Books(e, f, t, date, from, to) <==> Bookable(plans[t], date, from, to, e.key.stopId, f.key.stopId)
    ensures Books(e, f, t, date, from, to) ==> Info(e, f, date) == Journey(t, plans[t], date, e.key.stopId, f.key.stopId)
  {
    var p := plans[t];
    assert Describes(e, p) && Describes(f, p);
    LeavesBeforeArriving(p, e.key.stopId, f.key.stopId);
  }

  lemma {:induction false} BookingMeans(plans: map<TrainId, Plan>, released: set<TrainId>, stops: seq<Stop>, t: TrainId,
                                        date: nat, from: Station, to: Station, success: bool, entry: DirectTrain)
    requires PlansOk(plans) && released <= plans.Keys && Registered(stops, plans, released)
    requires success <==> exists e, f :: e in stops && f in stops && Books(e, f, t, date, from, to)
    requires success ==> exists e, f :: e in stops && f in stops && Books(e, f, t, date, from, to) && entry == Info(e, f, date)
    ensures BookingFinds(plans, released, t, date, from, to, success, entry)
  {
    if t in released && exists a, b :: Bookable(plans[t], date, from, to, a, b) {
      var a, b :| Bookable(plans[t], date, from, to, a, b);
      var e, f := Entry(t, plans[t], a, 1), Entry(t, plans[t], b, 0);
      assert HasEntry(plans[t], a, 1) && HasEntry(plans[t], b, 0);
      BooksBookable(plans, released, stops, e, f, t, date, from, to);
      assert Books(e, f, t, date, from, to);
    }
    hide Bookable, Books, Info, Journey;
    if success {
      var e, f :| e in stops && f in stops && Books(e, f, t, date, from, to) && entry == Info(e, f, date);
      BooksStops(e, f, t, date, from, to);
      BooksBookable(plans, released, stops, e, f, t, date, from, to);
    }
  }

  lemma BooksStops(e: Stop, f: Stop, t: TrainId, date: nat, from: Station, to: Station)
    requires Books(e, f, t, date, from, to)
    ensures AtStation(e, from, 1) && AtStation(f, to, 0) && e.key.train == f.key.train == t
  {
  }

  /** Between two stations the booking finds a train exactly if the query lists it, with the same journey. */
  lemma {:induction false} BookingAgrees(plans: map<TrainId, Plan>, released: set<TrainId>, t: TrainId, date: nat, from: Station,
                                         to: Station, res: seq<DirectTrain>, success: bool, entry: DirectTrain)
    requires PlansOk(plans) && released <= plans.Keys && from != to
    requires ListsRunning(plans, released, date, from, to, res)
    requires BookingFinds(plans, released, t, date, from, to, success, entry)
    ensures success <==> exists k :: 0 <= k < |res| && res[k].train == t
    ensures success ==> entry in res
  {
    if success {
      var a, b :| Bookable(plans[t], date, from, to, a, b) && entry == Journey(t, plans[t], date, a, b);
      assert Journey(t, plans[t], date, a, b) in res;
    }
    if exists k :: 0 <= k < |res| && res[k].train == t {
      var k :| 0 <= k < |res| && res[k].train == t;
      assert IsJourney(plans, released, date, from, to, res[k]);
      assert Bookable(plans[t], date, from, to, res[k].fromStop, res[k].toStop);
    }
  }

  /** Listed journeys go from one station to another. */
  lemma {:induction false} ListedApart(plans: map<TrainId, Plan>, released: set<TrainId>, date: nat, from: Station, to: Station,
                                       res: seq<DirectTrain>)
    requires PlansOk(plans) && released <= plans.Keys && ListsRunning(plans, released, date, from, to, res) && res != []
    ensures from != to
  {
    assert IsJourney(plans, released, date, from, to, res[0]);
  }

  /**
     From a station to itself the query lists nothing, while the booking finds
     the trains that call there on the date without a stop over.
   */
  lemma {:induction false} BookingOfOneStation(plans: map<TrainId, Plan>, released: set<TrainId>, t: TrainId, date: nat,
                                               station: Station, res: seq<DirectTrain>, success: bool, entry: DirectTrain)
    requires PlansOk(plans) && released <= plans.Keys
    requires ListsRunning(plans, released, date, station, station, res)
    requires BookingFinds(plans, released, t, date, station, station, success, entry)
    ensures res == []
    ensures success <==> t in released && exists a ::
              && 0 < a < |plans[t].stations| - 1 && plans[t].stations[a] == station && plans[t].stopover[a] == 0
              && plans[t].saleBeg <= StartDay(date, plans[t].startTime, LeaveOffset(plans[t], a)) <= plans[t].saleEnd
  {
    hide ListsRunning, Journey;
    if res != [] {
      ListedApart(plans, released, date, station, station, res);
    }
    if t in released {
      forall a | 0 < a < |plans[t].stations| - 1 && plans[t].stations[a] == station && plans[t].stopover[a] == 0
                 && plans[t].saleBeg <= StartDay(date, plans[t].startTime, LeaveOffset(plans[t], a)) <= plans[t].saleEnd
        ensures Bookable(plans[t], date, station, station, a, a)
      {
      }
    }
  }

  predicate HasDay(p: Plan, day: nat) {
    p.saleBeg + day <= p.saleEnd
  }

  /** The ledger has a row for each day of sale of each train, with a number for each leg, and no others. */
  ghost predicate SeatsKept(plans: map<TrainId, Plan>, seats: B.Ledger) {
    && (forall key :: key in seats <==> key.train in plans && HasDay(plans[key.train], key.day))
    && (forall key :: key in seats ==> |seats[key]| == |plans[key.train].travel|)
  }

  /** The ledger with the rows of a train's first `days` days. */
  ghost predicate RowsAdded(before: B.Ledger, seats: B.Ledger, t: TrainId, days: nat, row: seq<int>) {
    && (forall key :: key in seats <==> key in before || (key.train == t && key.day < days))
    && (forall key :: key in seats ==> seats[key] == if key.train == t then row else before[key])
  }

  /** The ledger without the rows of a train's first `days` days. */
  ghost predicate RowsGone(before: B.Ledger, seats: B.Ledger, t: TrainId, days: nat) {
    && (forall key :: key in seats <==> key in before && !(key.train == t && key.day < days))
    && (forall key :: key in seats ==> seats[key] == before[key])
  }

  class TrainSystem {
    var plans: map<TrainId, Plan>
    var released: set<TrainId>
    var seats: B.Ledger
    const register: StopRegister

    ghost predicate Valid()
      reads this, register
    {
      && PlansOk(plans) && released <= plans.Keys && SeatsKept(plans, seats)
      && Sorted(register.stops) && Registered(register.stops, plans, released)
    }

    constructor ()
      ensures Valid() && plans == map[] && released == {} && fresh(register)
    {
      plans, released, seats := map[], {}, map[];
      register := new StopRegister();
    }

    /** A new train, with all its seats free on each day of sale; one of that name is not replaced. */
    method AddTrain(t: TrainId, p: Plan, seatNum: nat) returns (ok: bool)
      requires Valid() && PlanOk(p)
      modifies this`plans, this`seats
      ensures Valid() && ok == (t !in old(plans)) && plans == if ok then old(plans)[t := p] else old(plans)
      ensures !ok ==> seats == old(seats)
      ensures ok ==> RowsAdded(old(seats), seats, t, p.saleEnd - p.saleBeg + 1, seq(|p.travel|, _ => seatNum))
    {
      hide PlanOk, Registered;
      if t in plans {
        return false;
      }
      DaysOf(p);
      var row, i := [], 0;
      while i < |p.stations| - 1
        invariant 0 <= i <= |p.travel| && row == seq(i, _ => seatNum)
      {
        row := row + [seatNum];
        i := i + 1;
      }
      ghost var before := plans;
      plans := plans[t := p];
      var dayCount := p.saleEnd - p.saleBeg + 1;
      i := 0;
      while i < dayCount
        invariant plans == before[t := p] && 0 <= i <= dayCount && RowsAdded(old(seats), seats, t, i, row)
      {
        seats := seats[B.TrainDay(t, i) := row];
        i := i + 1;
      }
      StillRegistered(register.stops, before, plans, released);
      return true;
    }

    static lemma DaysOf(p: Plan)
      requires PlanOk(p)
      ensures Sized(p) && p.saleBeg <= p.saleEnd && |p.travel| == |p.stations| - 1
    {
    }

    /** Plans of trains that are not released do not matter to the register. */
    static lemma StillRegistered(stops: seq<Stop>, before: map<TrainId, Plan>, plans: map<TrainId, Plan>, released: set<TrainId>)
      requires PlansOk(before) && PlansOk(plans) && Registered(stops, before, released)
      requires forall t :: t in released ==> t in before && t in plans && plans[t] == before[t]
      ensures Registered(stops, plans, released)
    {
      hide PlanOk, LeaveOffset, ArriveOffset;
    }

    /** A train is withdrawn with its rows of seats, unless it has been released. */
    method DeleteTrain(t: TrainId) returns (ok: bool)
      requires Valid()
      modifies this`plans, this`seats
      ensures Valid() && ok == (t in old(plans) && t !in released) && plans == if ok then old(plans) - {t} else old(plans)
      ensures forall key :: key in seats <==> key in old(seats) && !(ok && key.train == t)
      ensures forall key :: key in seats ==> seats[key] == old(seats)[key]
    {
      hide PlanOk, Registered;
      if t !in plans || t in released {
        return false;
      }
      var p := plans[t];
      DaysOf(p);
      ghost var before := plans;
      plans := plans - {t};
      var dayCount, i := p.saleEnd - p.saleBeg + 1, 0;
      while i < dayCount
        invariant plans == before - {t} && 0 <= i <= dayCount && RowsGone(old(seats), seats, t, i)
      {
        seats := seats - {B.TrainDay(t, i)};
        i := i + 1;
      }
      StillRegistered(register.stops, before, plans, released);
      return true;
    }

    /** A train is released once: its stops go to the register, with their offsets added up on the way. */
    method ReleaseTrain(t: TrainId) returns (ok: bool)
      requires Valid()
      modifies this`released, register
      ensures Valid() && ok == (t in plans && t !in old(released))
      ensures released == if ok then old(released) + {t} else old(released)
      ensures !ok ==> register.stops == old(register.stops)
    {
      if t !in plans || t in released {
        return false;
      }
      hide *;
      Parts();
      ghost var before, sold := register.stops, released;
      var p := plans[t];
      PlanParts(p);
      released := released + {t};
      var visOffset, i := 0, 0;
      NoneAdded(before, plans, sold, t);
      while i < |p.stations|
        invariant i <= |p.stations| && visOffset == OffsetBefore(p, i) && released == sold + {t}
        invariant Sorted(register.stops) && Added(before, register.stops, t, p, i)
      {
        visOffset := AddStop(before, t, p, i, visOffset);
        i := i + 1;
      }
      AllAdded(before, register.stops, plans, sold, t);
      Parts();
      return true;
    }

    /** The offset at which the train leaves the stop before. */
    static function OffsetBefore(p: Plan, i: nat): nat
      requires Sized(p) && i <= |p.stations|
    {
      if i == 0 then 0
      else if i < |p.stations| then LeaveOffset(p, i - 1)
      else ArriveOffset(p, i - 1)
    }

    lemma Parts()
      ensures Valid() <==> PlansOk(plans) && released <= plans.Keys && SeatsKept(plans, seats)
                           && Sorted(register.stops) && Registered(register.stops, plans, released)
      ensures Valid() ==> forall t :: t in plans ==> PlanOk(plans[t])
    {
    }

    static lemma PlanParts(p: Plan)
      requires PlanOk(p)
      ensures Sized(p) && 2 <= |p.stations| && |p.travel| == |p.stations| - 1 && |p.stopover| == |p.stations|
      ensures FIRST_DAY <= p.saleBeg < FIRST_DAY + DAY_RANGE && FIRST_DAY <= p.saleEnd < FIRST_DAY + DAY_RANGE
      ensures OffsetBefore(p, 0) == 0 && FIRST_DAY == 152 && DAY_RANGE == 256 && OFFSET_RANGE == 16384 && NO_OFFSET == 65535
    {
    }

    static lemma OffsetStep(p: Plan, i: nat)
      requires PlanOk(p) && i < |p.stations|
      ensures ArriveOffset(p, i) < OFFSET_RANGE && (i < |p.stations| - 1 ==> LeaveOffset(p, i) < OFFSET_RANGE)
      ensures i == 0 ==> LeaveOffset(p, i) == 0
      ensures i != 0 ==> ArriveOffset(p, i) == OffsetBefore(p, i) + p.travel[i - 1]
      ensures i != 0 ==> LeaveOffset(p, i) == ArriveOffset(p, i) + p.stopover[i]
      ensures i < |p.stations| - 1 ==> OffsetBefore(p, i + 1) == LeaveOffset(p, i)
      ensures i == |p.stations| - 1 ==> OffsetBefore(p, i + 1) == ArriveOffset(p, i)
    {
      OffsetsFit(p, i);
    }

    /** One stop of a train being released: when it arrives and leaves, into the register. */
    method AddStop(ghost before: seq<Stop>, t: TrainId, p: Plan, i: nat, offset: nat) returns (visOffset: nat)
      requires PlanOk(p) && i < |p.stations| && offset == OffsetBefore(p, i)
      requires Sorted(register.stops) && Added(before, register.stops, t, p, i) && forall e :: e in before ==> e.key.train != t
      modifies register
      ensures visOffset == OffsetBefore(p, i + 1)
      ensures Sorted(register.stops) && Added(before, register.stops, t, p, i + 1)
    {
      hide *;
      PlanParts(p);
      OffsetStep(p, i);
      visOffset := offset;
      var arrive, leave := NO_OFFSET, NO_OFFSET;
      if i != 0 {
        visOffset := visOffset + p.travel[i - 1];
        arrive := visOffset;
      }
      if i != |p.stations| - 1 {
        if i != 0 {
          visOffset := visOffset + p.stopover[i];
        }
        leave := visOffset;
      }
      ghost var stops := register.stops;
      register.AddStopInfo(p.stations[i], t, p.saleBeg, p.saleEnd, p.startTime, arrive, leave, i);
      EntryFits(t, p, i);
      StopAdded(before, stops, t, p, i, register.stops);
    }

    /** The register's fields are wide enough for a plan's stops. */
    static lemma EntryFits(t: TrainId, p: Plan, i: nat)
      requires PlanOk(p) && i < |p.stations|
      ensures Record(p.stations[i], t, 0, p.saleBeg, p.saleEnd, p.startTime, ArriveOffset(p, i), i) == Entry(t, p, i, 0)
      ensures i < |p.stations| - 1 ==>
                Record(p.stations[i], t, 1, p.saleBeg, p.saleEnd, p.startTime, LeaveOffset(p, i), i) == Entry(t, p, i, 1)
    {
      OffsetsFit(p, i);
    }

    static lemma NoneAdded(before: seq<Stop>, plans: map<TrainId, Plan>, released: set<TrainId>, t: TrainId)
      requires PlansOk(plans) && t in plans && t !in released && Registered(before, plans, released)
      ensures Added(before, before, t, plans[t], 0) && forall e :: e in before ==> e.key.train != t
    {
    }

    /** The direct trains between two stations on a date. */
    method QueryDirectTrains(date: nat, from: Station, to: Station) returns (res: seq<DirectTrain>)
      requires Valid()
      ensures ListsRunning(plans, released, date, from, to, res)
    {
      RegisteredOnce(register.stops, plans, released);
      hide *;
      res := register.QueryDirectTrains(date, from, to);
      JoinLists(plans, released, register.stops, date, from, to, res);
    }

    /** The journey of one train, for a booking. */
    method RequestSingleTrain(t: TrainId, date: nat, from: Station, to: Station) returns (success: bool, entry: DirectTrain)
      requires Valid()
      ensures BookingFinds(plans, released, t, date, from, to, success, entry)
    {
      RegisteredOnce(register.stops, plans, released);
      hide *;
      success, entry := register.RequestSingleTrain(t, date, from, to);
      BookingMeans(plans, released, register.stops, t, date, from, to, success, entry);
    }
  }
}
