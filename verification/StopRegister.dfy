/**
 The register of stops, an index ordered by station, train and kind of stop, and
 the queries that walk it: the merge join for direct trains and the lookup for a
 booking.
 */
module StopRegister {
  import opened Timetable

  /** Kind 0 is an arrival, kind 1 a departure. The stop's number is not part of the order. */
  datatype StopKey = StopKey(station: Station, train: TrainId, kind: nat, startTime: nat, stopId: nat)

  datatype StopValue = StopValue(saleBeg: nat, saleEnd: nat, offset: nat)

  datatype Stop = Stop(key: StopKey, value: StopValue)

  datatype DirectTrain = DirectTrain(train: TrainId, startDay: int, leave: int, arrive: int, fromStop: nat, toStop: nat,
                                     saleBeg: nat)

  /** What a stop without arrival or departure passes for it. */
  const NO_OFFSET := 65535

  predicate Less(a: StopKey, b: StopKey) {
    if a.station != b.station then a.station < b.station
    else if a.train != b.train then a.train < b.train
    else if a.kind != b.kind then a.kind < b.kind
    else a.startTime < b.startTime
  }

  ghost predicate Sorted(stops: seq<Stop>) {
    forall i, j :: 0 <= i < j < |stops| ==> Less(stops[i].key, stops[j].key)
  }

  /** A train stops at a station at most once. */
  ghost predicate OnceEach(stops: seq<Stop>) {
    forall i, j :: 0 <= i < j < |stops| ==> !SameStop(stops[i].key, stops[j].key)
  }

  predicate SameStop(a: StopKey, b: StopKey) {
    a.station == b.station && a.train == b.train && a.kind == b.kind
  }

  /** The index's lower bound. */
  function LowerBound(stops: seq<Stop>, key: StopKey): (pos: nat)
    ensures pos <= |stops|
    ensures Sorted(stops) ==> forall i :: 0 <= i < |stops| ==> (Less(stops[i].key, key) <==> i < pos)
  {
    if stops == [] || Less(stops[|stops| - 1].key, key) then |stops|
    else LowerBound(stops[..|stops| - 1], key)
  }

  /** The index with a value put at a key; a key that is there already keeps its stop number. */
  function Put(stops: seq<Stop>, key: StopKey, value: StopValue): seq<Stop> {
    var pos := LowerBound(stops, key);
    if pos < |stops| && !Less(key, stops[pos].key) then stops[pos := Stop(stops[pos].key, value)]
    else stops[..pos] + [Stop(key, value)] + stops[pos..]
  }

  /** Keys that the order does not tell apart. */
  predicate Alike(a: StopKey, b: StopKey) {
    !Less(a, b) && !Less(b, a)
  }

  /** The entry at a key after a put: the value, under the key that was there or the new one. */
  ghost predicate HasPut(before: seq<Stop>, after: seq<Stop>, e: Stop) {
    && (exists x :: x in after && Alike(x.key, e.key))
    && (forall x :: x in after && Alike(x.key, e.key) ==> x.value == e.value && (x == e || HasKey(before, x.key)))
  }

  ghost predicate HasKey(stops: seq<Stop>, key: StopKey) {
    exists y :: y in stops && y.key == key
  }

  /** A put keeps the register sorted and changes no entry at another key. */
  lemma {:induction false} PutKeeps(stops: seq<Stop>, key: StopKey, value: StopValue)
    requires Sorted(stops)
    ensures Sorted(Put(stops, key, value)) && HasPut(stops, Put(stops, key, value), Stop(key, value))
    ensures forall x: Stop :: !Alike(x.key, key) ==> (x in Put(stops, key, value) <==> x in stops)
  {
    var pos, r := LowerBound(stops, key), Put(stops, key, value);
    if pos < |stops| && !Less(key, stops[pos].key) {
      PutOver(stops, key, value, pos);
    } else {
      PutBetween(stops, key, value, pos);
    }
  }

  lemma {:induction false} PutOver(stops: seq<Stop>, key: StopKey, value: StopValue, pos: nat)
    requires Sorted(stops) && pos < |stops| && Alike(stops[pos].key, key)
    ensures
      var r := stops[pos := Stop(stops[pos].key, value)];
      && Sorted(r) && HasPut(stops, r, Stop(key, value))
      && forall x: Stop :: !Alike(x.key, key) ==> (x in r <==> x in stops)
  {
    var e := Stop(stops[pos].key, value);
    var r := stops[pos := e];
    assert r[pos] == e && stops[pos] in stops;
    forall x | x in r && Alike(x.key, key) ensures x == e {
      var i :| 0 <= i < |r| && r[i] == x;
      assert i < pos ==> Less(x.key, stops[pos].key);
      assert pos < i ==> Less(stops[pos].key, x.key);
    }
    forall x: Stop | !Alike(x.key, key) && x in stops ensures x in r {
      var i :| 0 <= i < |stops| && stops[i] == x;
      assert r[i] == x;
    }
  }

  lemma {:induction false} PutBetween(stops: seq<Stop>, key: StopKey, value: StopValue, pos: nat)
    requires Sorted(stops) && pos <= |stops|
    requires forall i :: 0 <= i < pos ==> Less(stops[i].key, key)
    requires forall i :: pos <= i < |stops| ==> Less(key, stops[i].key)
    ensures
      var r := stops[..pos] + [Stop(key, value)] + stops[pos..];
      && Sorted(r) && HasPut(stops, r, Stop(key, value))
      && forall x: Stop :: !Alike(x.key, key) ==> (x in r <==> x in stops)
  {
    var e := Stop(key, value);
    var r := stops[..pos] + [e] + stops[pos..];
    assert stops == stops[..pos] + stops[pos..];
    assert r[pos] == e;
    forall x ensures x in r <==> x in stops || x == e {
    }
    forall x | x in stops ensures !Alike(x.key, key) {
      var i :| 0 <= i < |stops| && stops[i] == x;
    }
  }

  predicate AtStation(e: Stop, station: Station, kind: nat) {
    e.key.station == station && e.key.kind == kind
  }

  /** A departure on the date that the train's days of sale allow. */
  predicate OnSale(e: Stop, date: nat) {
    e.value.saleBeg <= StartDay(date, e.key.startTime, e.value.offset) <= e.value.saleEnd
  }

  function Info(e: Stop, f: Stop, date: nat): DirectTrain {
    var day := StartDay(date, e.key.startTime, e.value.offset);
    DirectTrain(e.key.train, day, day * MINUTES_PER_DAY + e.key.startTime + e.value.offset,
                day * MINUTES_PER_DAY + e.key.startTime + f.value.offset, e.key.stopId, f.key.stopId, e.value.saleBeg)
  }

  /** A departure and an arrival of one train that make a direct journey. */
  predicate Joins(e: Stop, f: Stop, date: nat, from: Station, to: Station) {
    && AtStation(e, from, 1) && AtStation(f, to, 0) && e.key.train == f.key.train && OnSale(e, date)
    && Info(e, f, date).leave < Info(e, f, date).arrive
  }

  /** As the booking sees it: the offsets may be equal. */
  predicate Books(e: Stop, f: Stop, train: TrainId, date: nat, from: Station, to: Station) {
    && AtStation(e, from, 1) && AtStation(f, to, 0) && e.key.train == f.key.train == train && OnSale(e, date)
    && e.value.offset <= f.value.offset
  }

  /** The journeys of a nested-loop join are listed, and nothing else, in the order of trains. */
  ghost predicate IsJoin(stops: seq<Stop>, date: nat, from: Station, to: Station, res: seq<DirectTrain>) {
    && (forall k :: 0 <= k < |res| ==> FromJoin(stops, date, from, to, res[k]))
    && (forall e, f :: e in stops && f in stops && Joins(e, f, date, from, to) ==> Info(e, f, date) in res)
    && (forall a, b :: 0 <= a < b < |res| ==> res[a].train < res[b].train)
  }

  ghost predicate FromJoin(stops: seq<Stop>, date: nat, from: Station, to: Station, d: DirectTrain) {
    exists e, f :: e in stops && f in stops && Joins(e, f, date, from, to) && d == Info(e, f, date)
  }

  /** Only equal offsets make the booking find a train that the query does not list. */
  lemma JoinsOrEqual(e: Stop, f: Stop, date: nat, from: Station, to: Station)
    ensures Joins(e, f, date, from, to) <==> Books(e, f, e.key.train, date, from, to) && e.value.offset != f.value.offset
  {
  }

  /** All entries of a station lie together, and those of a kind are in the order of trains. */
  lemma InOrder(stops: seq<Stop>, a: nat, b: nat)
    requires Sorted(stops) && OnceEach(stops) && a < b < |stops|
    ensures stops[a].key.station <= stops[b].key.station
    ensures stops[a].key.station == stops[b].key.station && stops[a].key.kind == stops[b].key.kind ==>
              stops[a].key.train < stops[b].key.train
  {
    assert Less(stops[a].key, stops[b].key) && !SameStop(stops[a].key, stops[b].key);
  }

  /** The entries of a station start at its lower bound. */
  lemma Bounded(stops: seq<Stop>, station: Station)
    requires Sorted(stops)
    ensures
      var low := LowerBound(stops, StopKey(station, 0, 0, 0, 0));
      forall b :: 0 <= b < |stops| ==> (stops[b].key.station < station <==> b < low)
  {
    var low := LowerBound(stops, StopKey(station, 0, 0, 0, 0));
    forall b | 0 <= b < |stops| ensures stops[b].key.station < station <==> b < low {
      assert Less(stops[b].key, StopKey(station, 0, 0, 0, 0)) <==> b < low;
    }
  }

  /** Past the last entry of a station there is none. */
  lemma PastStation(stops: seq<Stop>, station: Station, n: nat)
    requires Sorted(stops) && LowerBound(stops, StopKey(station, 0, 0, 0, 0)) <= n <= |stops|
    requires n < |stops| ==> stops[n].key.station != station
    ensures forall b :: n <= b < |stops| ==> stops[b].key.station != station
  {
    Bounded(stops, station);
    forall b | n <= b < |stops| ensures stops[b].key.station != station {
      assert b > n ==> Less(stops[n].key, stops[b].key);
    }
  }

  /** The arrivals up to `n` are of trains before that of `e`. */
  ghost predicate PassedBy(stops: seq<Stop>, to: Station, low: nat, n: nat, e: Stop)
    requires n <= |stops|
  {
    forall b :: low <= b < n ==> stops[b].key.station == to && (stops[b].key.kind == 0 ==> stops[b].key.train < e.key.train)
  }

  ghost predicate PassedUpTo(stops: seq<Stop>, to: Station, low: nat, n: nat, e: Stop)
    requires n <= |stops|
  {
    forall b :: low <= b < n ==> stops[b].key.station == to && (stops[b].key.kind == 0 ==> stops[b].key.train <= e.key.train)
  }

  /** The arrivals up to `n` are of trains before those of the departures from `m` on. */
  ghost predicate Passed(stops: seq<Stop>, from: Station, to: Station, low: nat, n: nat, m: nat)
    requires n <= |stops|
  {
    forall a :: m <= a < |stops| && AtStation(stops[a], from, 1) ==> PassedBy(stops, to, low, n, stops[a])
  }

  /** The journeys that start with one of the first `n` entries are listed. */
  ghost predicate JoinedTo(stops: seq<Stop>, date: nat, from: Station, to: Station, n: nat, res: seq<DirectTrain>)
    requires n <= |stops|
  {
    && (forall k :: 0 <= k < |res| ==> FromJoin(stops, date, from, to, res[k]))
    && (forall a, f :: 0 <= a < n && f in stops && Joins(stops[a], f, date, from, to) ==> Info(stops[a], f, date) in res)
    && (forall a, b :: 0 <= a < b < |res| ==> res[a].train < res[b].train)
    && (forall k, a :: 0 <= k < |res| && n <= a < |stops| && AtStation(stops[a], from, 1) ==> res[k].train < stops[a].key.train)
  }

  lemma NoArrival(stops: seq<Stop>, to: Station, low: nat, n: nat, e: Stop)
    requires Sorted(stops) && OnceEach(stops) && low == LowerBound(stops, StopKey(to, 0, 0, 0, 0))
    requires low <= n <= |stops| && PassedBy(stops, to, low, n, e)
    requires n < |stops| && stops[n].key.station == to ==> stops[n].key.kind == 0 && stops[n].key.train > e.key.train
    ensures PassedUpTo(stops, to, low, n, e)
    ensures forall b :: 0 <= b < |stops| ==> !(AtStation(stops[b], to, 0) && stops[b].key.train == e.key.train)
  {
    Bounded(stops, to);
    hide Sorted, OnceEach;
    forall b | n <= b < |stops| ensures !(AtStation(stops[b], to, 0) && stops[b].key.train == e.key.train) {
      if n < b {
        InOrder(stops, n, b);
      }
    }
  }

  lemma NoneJoined(stops: seq<Stop>, date: nat, from: Station, to: Station, itFrom: nat, itTo: nat)
    requires Sorted(stops) && itTo <= |stops| && itFrom == LowerBound(stops, StopKey(from, 0, 0, 0, 0))
    ensures JoinedTo(stops, date, from, to, itFrom, []) && Passed(stops, from, to, itTo, itTo, itFrom)
  {
    Bounded(stops, from);
  }

  lemma SkipDeparture(stops: seq<Stop>, date: nat, from: Station, to: Station, n: nat, low: nat, itTo: nat, res: seq<DirectTrain>)
    requires n < |stops| && itTo <= |stops| && (!AtStation(stops[n], from, 1) || !OnSale(stops[n], date))
    requires JoinedTo(stops, date, from, to, n, res) && Passed(stops, from, to, low, itTo, n)
    ensures JoinedTo(stops, date, from, to, n + 1, res) && Passed(stops, from, to, low, itTo, n + 1)
  {
    hide OnSale, PassedBy;
  }

  lemma PassedThis(stops: seq<Stop>, from: Station, to: Station, low: nat, itTo: nat, n: nat)
    requires n < |stops| && itTo <= |stops| && AtStation(stops[n], from, 1) && Passed(stops, from, to, low, itTo, n)
    ensures PassedBy(stops, to, low, itTo, stops[n])
  {
  }

  lemma PassOn(stops: seq<Stop>, from: Station, to: Station, low: nat, next: nat, n: nat)
    requires Sorted(stops) && OnceEach(stops) && n < |stops| && next <= |stops| && AtStation(stops[n], from, 1)
    requires PassedUpTo(stops, to, low, next, stops[n])
    ensures Passed(stops, from, to, low, next, n + 1)
  {
    hide Sorted, OnceEach;
    forall a | n + 1 <= a < |stops| && AtStation(stops[a], from, 1) ensures PassedBy(stops, to, low, next, stops[a]) {
      InOrder(stops, n, a);
    }
  }

  lemma JoinOne(stops: seq<Stop>, date: nat, from: Station, to: Station, n: nat, b: nat, was: seq<DirectTrain>, res: seq<DirectTrain>)
    requires Sorted(stops) && OnceEach(stops) && n < |stops| && b < |stops| && JoinedTo(stops, date, from, to, n, was)
    requires AtStation(stops[n], from, 1) && AtStation(stops[b], to, 0) && stops[b].key.train == stops[n].key.train
    requires OnSale(stops[n], date)
    requires
      var d := Info(stops[n], stops[b], date);
      res == if d.leave < d.arrive then was + [d] else was
    ensures JoinedTo(stops, date, from, to, n + 1, res)
  {
    hide OnSale, Info, JoinedTo, FromJoin;
    var e, f, d := stops[n], stops[b], Info(stops[n], stops[b], date);
    InfoTrain(e, f, date);
    OnlyArrival(stops, b);
    OnlyLater(stops, n);
    hide Sorted, OnceEach;
    assert e in stops && f in stops;
    if d.leave < d.arrive {
      JoinFound(stops, date, from, to, n, b);
      JoinedMore(stops, date, from, to, n, was, d);
    } else {
      JoinedSame(stops, date, from, to, n, was);
    }
  }

  lemma JoinFound(stops: seq<Stop>, date: nat, from: Station, to: Station, n: nat, b: nat)
    requires n < |stops| && b < |stops| && Joins(stops[n], stops[b], date, from, to)
    ensures FromJoin(stops, date, from, to, Info(stops[n], stops[b], date))
  {
    hide Joins, Info;
    assert stops[n] in stops && stops[b] in stops;
  }

  lemma JoinedSame(stops: seq<Stop>, date: nat, from: Station, to: Station, n: nat, was: seq<DirectTrain>)
    requires n < |stops| && JoinedTo(stops, date, from, to, n, was)
    requires forall g :: g in stops ==> !Joins(stops[n], g, date, from, to)
    ensures JoinedTo(stops, date, from, to, n + 1, was)
  {
    hide FromJoin, Joins, Info;
  }

  lemma JoinedMore(stops: seq<Stop>, date: nat, from: Station, to: Station, n: nat, was: seq<DirectTrain>, d: DirectTrain)
    requires n < |stops| && JoinedTo(stops, date, from, to, n, was) && FromJoin(stops, date, from, to, d)
    requires AtStation(stops[n], from, 1) && d.train == stops[n].key.train
    requires forall g :: g in stops && Joins(stops[n], g, date, from, to) ==> Info(stops[n], g, date) == d
    requires forall a :: n < a < |stops| && AtStation(stops[a], from, 1) ==> d.train < stops[a].key.train
    ensures JoinedTo(stops, date, from, to, n + 1, was + [d])
  {
    hide FromJoin, Joins, Info;
    assert forall x :: x in was + [d] <==> x in was || x == d;
  }

  /** A train arrives at a station only once. */
  lemma OnlyArrival(stops: seq<Stop>, b: nat)
    requires OnceEach(stops) && b < |stops|
    ensures forall g :: g in stops && SameStop(g.key, stops[b].key) ==> g == stops[b]
  {
    forall g | g in stops && SameStop(g.key, stops[b].key) ensures g == stops[b] {
      var c :| 0 <= c < |stops| && stops[c] == g;
      OneStop(stops, c, b);
    }
  }

  lemma OnlyLater(stops: seq<Stop>, n: nat)
    requires Sorted(stops) && OnceEach(stops) && n < |stops|
    ensures forall a :: n < a < |stops| && AtStation(stops[a], stops[n].key.station, stops[n].key.kind) ==>
              stops[n].key.train < stops[a].key.train
  {
    hide Sorted, OnceEach;
    forall a | n < a < |stops| && AtStation(stops[a], stops[n].key.station, stops[n].key.kind)
      ensures stops[n].key.train < stops[a].key.train
    {
      InOrder(stops, n, a);
    }
  }

  lemma InfoTrain(e: Stop, f: Stop, date: nat)
    ensures Info(e, f, date).train == e.key.train
  {
  }

  lemma JoinNone(stops: seq<Stop>, date: nat, from: Station, to: Station, n: nat, res: seq<DirectTrain>)
    requires n < |stops| && JoinedTo(stops, date, from, to, n, res)
    requires forall b :: 0 <= b < |stops| ==> !(AtStation(stops[b], to, 0) && stops[b].key.train == stops[n].key.train)
    ensures JoinedTo(stops, date, from, to, n + 1, res)
  {
    hide OnSale, Info;
  }

  lemma AllJoined(stops: seq<Stop>, date: nat, from: Station, to: Station, n: nat, res: seq<DirectTrain>)
    requires Sorted(stops) && LowerBound(stops, StopKey(from, 0, 0, 0, 0)) <= n <= |stops|
    requires n < |stops| ==> stops[n].key.station != from
    requires JoinedTo(stops, date, from, to, n, res)
    ensures IsJoin(stops, date, from, to, res)
  {
    PastStation(stops, from, n);
    hide Sorted, OnSale, Info;
    forall e, f | e in stops && f in stops && Joins(e, f, date, from, to) ensures Info(e, f, date) in res {
      var a :| 0 <= a < |stops| && stops[a] == e;
      assert a < n;
    }
  }

  /** A stop of the given station, train and kind, if there is one, is at the lower bound of its key. */
  lemma AtBound(stops: seq<Stop>, key: StopKey)
    requires Sorted(stops) && OnceEach(stops) && key.startTime == 0
    ensures
      var pos := LowerBound(stops, key);
      forall e :: e in stops && SameStop(e.key, key) ==> pos < |stops| && stops[pos] == e
  {
    var pos := LowerBound(stops, key);
    forall e | e in stops && SameStop(e.key, key) ensures pos < |stops| && stops[pos] == e {
      var a :| 0 <= a < |stops| && stops[a] == e;
      assert !Less(e.key, key);
      assert pos <= a && !Less(stops[pos].key, key);
      assert Less(stops[pos].key, stops[a].key) ==> SameStop(stops[pos].key, stops[a].key);
      assert SameStop(stops[pos].key, stops[a].key);
      OneStop(stops, pos, a);
    }
  }

  lemma NotBooked(stops: seq<Stop>, train: TrainId, date: nat, from: Station, to: Station)
    requires (forall e :: e in stops ==> !SameStop(e.key, StopKey(from, train, 1, 0, 0)))
             || (forall f :: f in stops ==> !SameStop(f.key, StopKey(to, train, 0, 0, 0)))
    ensures forall e, f :: e in stops && f in stops ==> !Books(e, f, train, date, from, to)
  {
    hide OnSale;
  }

  lemma OnlyBooking(stops: seq<Stop>, a: nat, b: nat, train: TrainId, date: nat, from: Station, to: Station)
    requires a < |stops| && b < |stops| && AtStation(stops[a], from, 1) && AtStation(stops[b], to, 0)
    requires stops[a].key.train == stops[b].key.train == train
    requires forall e :: e in stops && SameStop(e.key, StopKey(from, train, 1, 0, 0)) ==> stops[a] == e
    requires forall f :: f in stops && SameStop(f.key, StopKey(to, train, 0, 0, 0)) ==> stops[b] == f
    ensures stops[a] in stops && stops[b] in stops
    ensures Books(stops[a], stops[b], train, date, from, to) <==> OnSale(stops[a], date) && stops[a].value.offset <= stops[b].value.offset
    ensures forall e, f :: e in stops && f in stops && Books(e, f, train, date, from, to) ==> e == stops[a] && f == stops[b]
  {
    hide OnSale;
  }

  lemma OneStop(stops: seq<Stop>, a: nat, b: nat)
    requires OnceEach(stops) && a < |stops| && b < |stops| && SameStop(stops[a].key, stops[b].key)
    ensures a == b
  {
  }

  /** An entry as the register's fields can hold it. */
  function Record(station: Station, train: TrainId, kind: nat, saleBeg: nat, saleEnd: nat, startTime: nat, offset: nat,
                  stopId: nat): Stop
    requires FIRST_DAY <= saleBeg && FIRST_DAY <= saleEnd
  {
    Stop(StopKey(station, train, kind, startTime % START_RANGE, stopId % STOP_RANGE),
         StopValue(FIRST_DAY + (saleBeg - FIRST_DAY) % DAY_RANGE, FIRST_DAY + (saleEnd - FIRST_DAY) % DAY_RANGE,
                   offset % OFFSET_RANGE))
  }

  class StopRegister {
    var stops: seq<Stop>

    constructor ()
      ensures stops == []
    {
      stops := [];
    }

    /**
     Registers the arrival and the departure of a train at a stop, whichever there
     is, cut to the widths of the register's fields. The register stays sorted, and
     no entry of another stop changes.
     */
    method AddStopInfo(station: Station, train: TrainId, saleBeg: nat, saleEnd: nat, startTime: nat, arrive: nat, leave: nat,
                       stopId: nat)
      requires Sorted(stops) && FIRST_DAY <= saleBeg && FIRST_DAY <= saleEnd
      modifies this`stops
      ensures Sorted(stops)
      ensures
        var a := Record(station, train, 0, saleBeg, saleEnd, startTime, arrive, stopId);
        var d := Record(station, train, 1, saleBeg, saleEnd, startTime, leave, stopId);
        && (arrive != NO_OFFSET ==> HasPut(old(stops), stops, a)) && (leave != NO_OFFSET ==> HasPut(old(stops), stops, d))
        && forall x: Stop :: !(arrive != NO_OFFSET && Alike(x.key, a.key)) && !(leave != NO_OFFSET && Alike(x.key, d.key)) ==>
             (x in stops <==> x in old(stops))
    {
      hide Sorted, Put;
      var arrival, departure := Record(station, train, 0, saleBeg, saleEnd, startTime, arrive, stopId),
        Record(station, train, 1, saleBeg, saleEnd, startTime, leave, stopId);
      if arrive != NO_OFFSET {
        PutKeeps(stops, arrival.key, arrival.value);
        stops := Put(stops, arrival.key, arrival.value);
      }
      if leave != NO_OFFSET {
        PutKeeps(stops, departure.key, departure.value);
        stops := Put(stops, departure.key, departure.value);
      }
    }

    /**
     Moves on through the arrivals at `to` until the departing train's own, or
     past where it would be.
     */
    method FindArrival(e: Stop, to: Station, ghost low: nat, start: nat) returns (found: bool, next: nat)
      requires Sorted(stops) && OnceEach(stops) && low == LowerBound(stops, StopKey(to, 0, 0, 0, 0))
      requires low <= start <= |stops| && PassedBy(stops, to, low, start, e)
      ensures low <= start <= next <= |stops| && PassedUpTo(stops, to, low, next, e)
      ensures found ==> low < next && AtStation(stops[next - 1], to, 0) && stops[next - 1].key.train == e.key.train
      ensures !found ==> forall b :: 0 <= b < |stops| ==> !(AtStation(stops[b], to, 0) && stops[b].key.train == e.key.train)
    {
      hide Sorted, OnceEach;
      found, next := false, start;
      while next < |stops| && stops[next].key.station == to && (stops[next].key.kind != 0 || stops[next].key.train <= e.key.train)
        invariant low <= start <= next <= |stops| && PassedBy(stops, to, low, next, e)
      {
        var f := stops[next];
        next := next + 1;
        if f.key.kind == 0 && f.key.train == e.key.train {
          found := true;
          return;
        }
      }
      NoArrival(stops, to, low, next, e);
    }

    /** The direct trains between two stations, by one pass over the entries of both. */
    method QueryDirectTrains(date: nat, from: Station, to: Station) returns (res: seq<DirectTrain>)
      requires Sorted(stops) && OnceEach(stops)
      ensures IsJoin(stops, date, from, to, res)
    {
      hide Sorted, OnceEach, OnSale, PassedBy, PassedUpTo, Passed, JoinedTo, IsJoin;
      var itFrom, itTo := LowerBound(stops, StopKey(from, 0, 0, 0, 0)), LowerBound(stops, StopKey(to, 0, 0, 0, 0));
      ghost var low := itTo;
      res := [];
      NoneJoined(stops, date, from, to, itFrom, itTo);
      while itFrom < |stops| && stops[itFrom].key.station == from
        invariant itFrom <= |stops| && low <= itTo <= |stops|
        invariant JoinedTo(stops, date, from, to, itFrom, res) && Passed(stops, from, to, low, itTo, itFrom)
      {
        var e := stops[itFrom];
        if e.key.kind != 1 || !OnSale(e, date) {
          SkipDeparture(stops, date, from, to, itFrom, low, itTo, res);
          itFrom := itFrom + 1;
          continue;
        }
        PassedThis(stops, from, to, low, itTo, itFrom);
        var found, next := FindArrival(e, to, low, itTo);
        ghost var was := res;
        if found {
          var d := Info(e, stops[next - 1], date);
          if d.leave < d.arrive {
            res := res + [d];
          }
          JoinOne(stops, date, from, to, itFrom, next - 1, was, res);
        } else {
          JoinNone(stops, date, from, to, itFrom, res);
        }
        PassOn(stops, from, to, low, next, itFrom);
        itTo := next;
        itFrom := itFrom + 1;
      }
      AllJoined(stops, date, from, to, itFrom, res);
    }

    /** The journey of one train, for a booking. */
    method RequestSingleTrain(train: TrainId, date: nat, from: Station, to: Station) returns (success: bool, entry: DirectTrain)
      requires Sorted(stops) && OnceEach(stops)
      ensures success <==> exists e, f :: e in stops && f in stops && Books(e, f, train, date, from, to)
      ensures success ==> exists e, f :: e in stops && f in stops && Books(e, f, train, date, from, to) && entry == Info(e, f, date)
    {
      hide Sorted, OnceEach, Books, OnSale;
      var itFrom, itTo := LowerBound(stops, StopKey(from, train, 1, 0, 0)), LowerBound(stops, StopKey(to, train, 0, 0, 0));
      entry := DirectTrain(0, 0, 0, 0, 0, 0, 0);
      AtBound(stops, StopKey(from, train, 1, 0, 0));
      AtBound(stops, StopKey(to, train, 0, 0, 0));
      if itFrom == |stops| || itTo == |stops| {
        NotBooked(stops, train, date, from, to);
        return false, entry;
      }
      var e, f := stops[itFrom], stops[itTo];
      if e.key.train != train || f.key.train != train || e.key.station != from || f.key.station != to || e.key.kind != 1
         || f.key.kind != 0
      {
        NotBooked(stops, train, date, from, to);
        return false, entry;
      }
      OnlyBooking(stops, itFrom, itTo, train, date, from, to);
      if e.value.offset > f.value.offset || !OnSale(e, date) {
        return false, entry;
      }
      return true, Info(e, f, date);
    }

    /** The trains that leave a station on a date, in order. */
    method FetchTrainLeavingFrom(date: nat, from: Station) returns (res: seq<TrainId>)
      requires Sorted(stops) && OnceEach(stops)
      ensures forall t :: t in res <==> exists e :: e in stops && AtStation(e, from, 1) && e.key.train == t && OnSale(e, date)
    {
      var itFrom := LowerBound(stops, StopKey(from, 0, 0, 0, 0));
      ghost var low := itFrom;
      Bounded(stops, from);
      hide Sorted, OnceEach, OnSale, LowerBound;
      res := [];
      while itFrom < |stops| && stops[itFrom].key.station == from
        invariant low <= itFrom <= |stops|
        invariant forall t :: t in res <==>
                    exists a :: 0 <= a < itFrom && AtStation(stops[a], from, 1) && stops[a].key.train == t && OnSale(stops[a], date)
      {
        if stops[itFrom].key.kind == 1 && OnSale(stops[itFrom], date) {
          res := res + [stops[itFrom].key.train];
        }
        itFrom := itFrom + 1;
      }
      PastStation(stops, from, itFrom);
      forall t | exists e :: e in stops && AtStation(e, from, 1) && e.key.train == t && OnSale(e, date) ensures t in res {
        var e :| e in stops && AtStation(e, from, 1) && e.key.train == t && OnSale(e, date);
        var a :| 0 <= a < |stops| && stops[a] == e;
        assert a < itFrom;
      }
    }

    /** The trains that arrive at a station on any day, in order. */
    method FetchTrainArrivingAt(to: Station) returns (res: seq<TrainId>)
      requires Sorted(stops) && OnceEach(stops)
      ensures forall t :: t in res <==> exists e :: e in stops && AtStation(e, to, 0) && e.key.train == t
    {
      var itTo := LowerBound(stops, StopKey(to, 0, 0, 0, 0));
      ghost var low := itTo;
      Bounded(stops, to);
      hide Sorted, OnceEach;
      res := [];
      while itTo < |stops| && stops[itTo].key.station == to
        invariant low <= itTo <= |stops|
        invariant forall t :: t in res <==> exists a :: 0 <= a < itTo && AtStation(stops[a], to, 0) && stops[a].key.train == t
      {
        if stops[itTo].key.kind == 0 {
          res := res + [stops[itTo].key.train];
        }
        itTo := itTo + 1;
      }
      PastStation(stops, to, itTo);
      forall t | exists e :: e in stops && AtStation(e, to, 0) && e.key.train == t ensures t in res {
        var e :| e in stops && AtStation(e, to, 0) && e.key.train == t;
        var a :| 0 <= a < |stops| && stops[a] == e;
        assert a < itTo;
      }
    }
  }
}
