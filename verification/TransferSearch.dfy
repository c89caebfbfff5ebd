/**
 Journeys with one change of trains: what a choice of trains, stations and days
 is worth, and the search for the best one.
 */
module TransferSearch {
  import opened Timetable
  import opened StopRegister
  import opened TrainSystem
  import B = Booking
  import BookingEngine

  /** Two trains, where the passenger gets on, changes and gets off, and the day the second train starts. */
  datatype Choice = Choice(train1: TrainId, from1: nat, change1: nat, train2: TrainId, change2: nat, to2: nat, day2: nat)

  datatype Query = Query(plans: map<TrainId, Plan>, released: set<TrainId>, seats: B.Ledger, date: nat, from: Station,
                         to: Station, byTime: bool)

  datatype Best = NoSolution
                | Solution(c: Choice, id1: string, id2: string, leave1: int, arrive1: int, leave2: int, arrive2: int,
                           price1: nat, price2: nat, station: Station, seats1: int, seats2: int)

  datatype Rank = Rank(first: int, second: int, id1: string, id2: string)

  ghost predicate QueryOk(q: Query) {
    PlansOk(q.plans) && q.released <= q.plans.Keys && SeatsKept(q.plans, q.seats)
  }

  ghost predicate Stations(q: Query, c: Choice)
    requires QueryOk(q)
  {
    && c.train1 != c.train2 && c.train1 in q.released && c.train2 in q.released
    && c.from1 < c.change1 < |q.plans[c.train1].stations| && c.change2 < c.to2 < |q.plans[c.train2].stations|
    && q.plans[c.train1].stations[c.from1] == q.from && q.plans[c.train2].stations[c.to2] == q.to
    && q.plans[c.train1].stations[c.change1] == q.plans[c.train2].stations[c.change2]
  }

  function Day1(q: Query, c: Choice): int
    requires QueryOk(q) && Stations(q, c)
  {
    StartDay(q.date, q.plans[c.train1].startTime, LeaveOffset(q.plans[c.train1], c.from1))
  }

  function Leave1(q: Query, c: Choice): int
    requires QueryOk(q) && Stations(q, c)
  {
    Day1(q, c) * MINUTES_PER_DAY + q.plans[c.train1].startTime + LeaveOffset(q.plans[c.train1], c.from1)
  }

  function Arrive1(q: Query, c: Choice): int
    requires QueryOk(q) && Stations(q, c)
  {
    Day1(q, c) * MINUTES_PER_DAY + q.plans[c.train1].startTime + ArriveOffset(q.plans[c.train1], c.change1)
  }

  function Leave2(q: Query, c: Choice): int
    requires QueryOk(q) && Stations(q, c)
  {
    c.day2 * MINUTES_PER_DAY + q.plans[c.train2].startTime + LeaveOffset(q.plans[c.train2], c.change2)
  }

  function Arrive2(q: Query, c: Choice): int
    requires QueryOk(q) && Stations(q, c)
  {
    c.day2 * MINUTES_PER_DAY + q.plans[c.train2].startTime + ArriveOffset(q.plans[c.train2], c.to2)
  }

  /** Both trains are on sale on their days, and the second leaves no earlier than the first arrives. */
  ghost predicate Feasible(q: Query, c: Choice)
    requires QueryOk(q)
  {
    && Stations(q, c)
    && q.plans[c.train1].saleBeg <= Day1(q, c) <= q.plans[c.train1].saleEnd
    && q.plans[c.train2].saleBeg <= c.day2 <= q.plans[c.train2].saleEnd
    && Arrive1(q, c) <= Leave2(q, c)
  }

  function Price1(q: Query, c: Choice): nat
    requires QueryOk(q) && Stations(q, c)
  {
    Fare(q.plans[c.train1], c.from1, c.change1)
  }

  function Price2(q: Query, c: Choice): nat
    requires QueryOk(q) && Stations(q, c)
  {
    Fare(q.plans[c.train2], c.change2, c.to2)
  }

  function RankOf(q: Query, c: Choice): Rank
    requires QueryOk(q) && Stations(q, c)
  {
    Ranked(q.byTime, Arrive2(q, c) - Leave1(q, c), Price1(q, c) + Price2(q, c), q.plans[c.train1].name, q.plans[c.train2].name)
  }

  function Ranked(byTime: bool, time: int, price: int, id1: string, id2: string): Rank {
    if byTime then Rank(time, price, id1, id2) else Rank(price, time, id1, id2)
  }

  /** The order of train names, character by character; a proper beginning comes first. */
  function Compare(a: string, b: string): (r: int)
    ensures -1 <= r <= 1 && (r == 0 <==> a == b)
  {
    if a == [] then if b == [] then 0 else -1
    else if b == [] then 1
    else if a[0] < b[0] then -1
    else if b[0] < a[0] then 1
    else assert a == [a[0]] + a[1..] && b == [b[0]] + b[1..]; Compare(a[1..], b[1..])
  }

  /** `a` comes before `b`: at the first place where they differ it has the smaller character, or has ended. */
  ghost predicate LexBefore(a: string, b: string) {
    exists k: nat :: IsSplit(a, b, k)
  }

  ghost predicate IsSplit(a: string, b: string, k: nat) {
    k <= |a| && k < |b| && a[..k] == b[..k] && (k == |a| || a[k] < b[k])
  }

  /** Comparing character by character decides that order. */
  lemma {:induction false} CompareIs(a: string, b: string)
    ensures Compare(a, b) < 0 <==> LexBefore(a, b)
    ensures Compare(a, b) > 0 <==> LexBefore(b, a)
  {
    CompareOpposite(a, b);
    CompareLess(a, b);
    CompareLess(b, a);
  }

  lemma {:induction false} CompareLess(a: string, b: string)
    ensures Compare(a, b) < 0 <==> LexBefore(a, b)
  {
    if b != [] && (a == [] || a[0] < b[0]) {
      assert IsSplit(a, b, 0);
    } else if a != [] && b != [] && a[0] == b[0] {
      CompareLess(a[1..], b[1..]);
      forall k: nat | IsSplit(a[1..], b[1..], k) ensures IsSplit(a, b, k + 1) {
        assert a[..k + 1] == [a[0]] + a[1..][..k] && b[..k + 1] == [b[0]] + b[1..][..k];
      }
      forall k: nat | IsSplit(a, b, k) ensures 0 < k && IsSplit(a[1..], b[1..], k - 1) {
        assert a[1..][..k - 1] == a[..k][1..] && b[1..][..k - 1] == b[..k][1..];
      }
    } else {
      forall k: nat ensures !IsSplit(a, b, k) {
        if 0 < k && IsSplit(a, b, k) {
          SplitHead(a, b, k);
        }
      }
    }
  }

  lemma SplitHead(a: string, b: string, k: nat)
    requires IsSplit(a, b, k) && 0 < k
    ensures a[0] == b[0]
  {
    assert a[..k][0] == b[..k][0];
  }

  lemma {:induction false} CompareOpposite(a: string, b: string)
    ensures Compare(a, b) == 0 - Compare(b, a)
  {
    if a != [] && b != [] && a[0] == b[0] {
      CompareOpposite(a[1..], b[1..]);
    }
  }

  lemma {:induction false} CompareTransitive(a: string, b: string, c: string)
    requires Compare(a, b) <= 0 && Compare(b, c) <= 0
    ensures Compare(a, c) <= 0 && (Compare(a, c) == 0 ==> Compare(a, b) == 0 && Compare(b, c) == 0)
  {
    if a != [] && b != [] && c != [] && a[0] == b[0] == c[0] {
      CompareTransitive(a[1..], b[1..], c[1..]);
      assert a == [a[0]] + a[1..] && b == [b[0]] + b[1..] && c == [c[0]] + c[1..];
    }
  }

  /** One rank is at least as good as another. */
  ghost predicate NoWorse(a: Rank, b: Rank) {
    if a.first != b.first then a.first < b.first
    else if a.second != b.second then a.second < b.second
    else if a.id1 != b.id1 then LexBefore(a.id1, b.id1)
    else a.id2 == b.id2 || LexBefore(a.id2, b.id2)
  }

  lemma NoWorseTransitive(a: Rank, b: Rank, c: Rank)
    requires NoWorse(a, b) && NoWorse(b, c)
    ensures NoWorse(a, c)
  {
    hide LexBefore;
    LexTransitive(a.id1, b.id1, c.id1);
    LexTransitive(a.id2, b.id2, c.id2);
  }

  /** The order of names is a strict total order. */
  lemma LexTransitive(a: string, b: string, c: string)
    ensures LexBefore(a, b) && LexBefore(b, c) ==> LexBefore(a, c)
    ensures LexBefore(a, b) || LexBefore(b, a) || a == b
    ensures !(LexBefore(a, b) && LexBefore(b, a)) && !LexBefore(a, a)
  {
    CompareIs(a, b);
    CompareIs(b, c);
    CompareIs(a, c);
    CompareIs(a, a);
    CompareOpposite(a, b);
    if Compare(a, b) <= 0 && Compare(b, c) <= 0 {
      CompareTransitive(a, b, c);
    }
  }

  lemma NoWorseTotal(a: Rank, b: Rank)
    ensures NoWorse(a, b) || NoWorse(b, a)
  {
    hide LexBefore;
    LexTransitive(a.id1, b.id1, b.id1);
    LexTransitive(a.id2, b.id2, b.id2);
  }

  /** What "no worse" means: by time or by price first, then the other, then the names of the two trains. */
  lemma RankMeans(q: Query, c: Choice, d: Choice)
    requires QueryOk(q) && Stations(q, c) && Stations(q, d)
    ensures
      var time, other := Arrive2(q, c) - Leave1(q, c), Arrive2(q, d) - Leave1(q, d);
      var price, cost := Price1(q, c) + Price2(q, c), Price1(q, d) + Price2(q, d);
      var a, b := q.plans[c.train1].name, q.plans[d.train1].name;
      var x, y := q.plans[c.train2].name, q.plans[d.train2].name;
      var named := LexBefore(a, b) || (a == b && (LexBefore(x, y) || x == y));
      NoWorse(RankOf(q, c), RankOf(q, d)) <==>
        || (q.byTime && (time < other || (time == other && (price < cost || (price == cost && named)))))
        || (!q.byTime && (price < cost || (price == cost && (time < other || (time == other && named)))))
  {
    hide LexBefore;
    LexTransitive(q.plans[c.train1].name, q.plans[d.train1].name, q.plans[d.train1].name);
    LexTransitive(q.plans[c.train2].name, q.plans[d.train2].name, q.plans[d.train2].name);
  }

  /** A feasible choice is two direct journeys, the second leaving the station of change no earlier than the first arrives. */
  lemma {:induction false} TwoJourneys(q: Query, c: Choice)
    requires QueryOk(q) && Stations(q, c)
    ensures
      var p1, p2 := q.plans[c.train1], q.plans[c.train2];
      var station, date2 := p1.stations[c.change1], Leave2(q, c) / MINUTES_PER_DAY;
      && 0 <= Leave2(q, c) && 0 <= date2
      && (Feasible(q, c) <==>
            && Runs(p1, q.date, q.from, station, c.from1, c.change1) && Runs(p2, date2, station, q.to, c.change2, c.to2)
            && Journey(c.train2, p2, date2, c.change2, c.to2).startDay == c.day2
            && Journey(c.train1, p1, q.date, c.from1, c.change1).arrive <= Journey(c.train2, p2, date2, c.change2, c.to2).leave)
      && (Leave1(q, c) == Journey(c.train1, p1, q.date, c.from1, c.change1).leave)
      && (Feasible(q, c) ==> Arrive2(q, c) == Journey(c.train2, p2, date2, c.change2, c.to2).arrive)
  {
    hide LeaveOffset, ArriveOffset;
    var p2 := q.plans[c.train2];
    var offset := p2.startTime + LeaveOffset(p2, c.change2);
    assert Leave2(q, c) == c.day2 * MINUTES_PER_DAY + offset;
    DaysAway(c.day2, offset);
  }

  lemma DaysAway(day: nat, offset: nat)
    ensures (day * MINUTES_PER_DAY + offset) / MINUTES_PER_DAY == day + offset / MINUTES_PER_DAY
  {
  }

  /** The least number of free seats of a train on one of its days, between two of its stops. */
  ghost predicate Free(q: Query, t: TrainId, day: int, from: nat, to: nat, least: int)
    requires QueryOk(q) && t in q.released && q.plans[t].saleBeg <= day <= q.plans[t].saleEnd
    requires from < to < |q.plans[t].stations|
  {
    B.IsLeast(q.seats[B.TrainDay(t, day - q.plans[t].saleBeg)], from, to, least)
  }

  /** A solution's fields are those of its choice. */
  ghost predicate Recorded(q: Query, best: Best)
    requires QueryOk(q) && best.Solution? && Feasible(q, best.c)
  {
    && best.station == q.plans[best.c.train1].stations[best.c.change1]
    && Free(q, best.c.train1, Day1(q, best.c), best.c.from1, best.c.change1, best.seats1)
    && Free(q, best.c.train2, best.c.day2, best.c.change2, best.c.to2, best.seats2)
    && best.id1 == q.plans[best.c.train1].name && best.id2 == q.plans[best.c.train2].name
    && best.leave1 == Leave1(q, best.c) && best.arrive1 == Arrive1(q, best.c)
    && best.leave2 == Leave2(q, best.c) && best.arrive2 == Arrive2(q, best.c)
    && best.price1 == Price1(q, best.c) && best.price2 == Price2(q, best.c)
  }

  /** Feasible, and no worse than any feasible choice among those seen; or none of them is feasible. */
  ghost predicate BestOf(q: Query, best: Best, seen: iset<Choice>)
    requires QueryOk(q)
  {
    if best.NoSolution? then forall c :: c in seen ==> !Feasible(q, c)
    else
      && Feasible(q, best.c) && Recorded(q, best)
      && forall c :: c in seen && Feasible(q, c) ==> NoWorse(RankOf(q, best.c), RankOf(q, c))
  }

  lemma BestOfFewer(q: Query, best: Best, seen: iset<Choice>, fewer: iset<Choice>)
    requires QueryOk(q) && BestOf(q, best, seen) && forall c :: c in fewer && Feasible(q, c) ==> c in seen
    ensures BestOf(q, best, fewer)
  {
    hide Feasible, NoWorse, RankOf, Recorded;
  }

  /** Choices of two given trains, changing at the `i`th stop of the second or later. */
  ghost function From(t1: TrainId, t2: TrainId, i: int): iset<Choice> {
    iset c: Choice | c.train1 == t1 && c.train2 == t2 && i <= c.change2
  }

  ghost function Pairs(t1s: seq<TrainId>, t2s: seq<TrainId>): iset<Choice> {
    iset c: Choice | c.train1 in t1s && c.train2 in t2s
  }

  /** No feasible change at this stop. */
  lemma NothingHere(q: Query, best: Best, seen: iset<Choice>, t1: TrainId, t2: TrainId, i: nat)
    requires QueryOk(q) && BestOf(q, best, seen + From(t1, t2, i + 1))
    requires forall c: Choice :: c.train1 == t1 && c.train2 == t2 && c.change2 == i ==> !Feasible(q, c)
    ensures BestOf(q, best, seen + From(t1, t2, i))
  {
    hide Feasible, NoWorse, RankOf, Recorded;
  }

  /** A candidate at least as good as all others that change here is taken unless the best so far is better. */
  lemma Candidate(q: Query, best: Best, seen: iset<Choice>, t1: TrainId, t2: TrainId, i: nat, cand: Best, best': Best)
    requires QueryOk(q) && BestOf(q, best, seen + From(t1, t2, i + 1))
    requires cand.Solution? && Feasible(q, cand.c) && Recorded(q, cand)
    requires forall c: Choice :: c.train1 == t1 && c.train2 == t2 && c.change2 == i && Feasible(q, c) ==>
               NoWorse(RankOf(q, cand.c), RankOf(q, c))
    requires best' == best || best' == cand
    requires best' == best ==> best.Solution? && NoWorse(RankOf(q, best.c), RankOf(q, cand.c))
    requires best' == cand ==> best.NoSolution? || NoWorse(RankOf(q, cand.c), RankOf(q, best.c))
    ensures BestOf(q, best', seen + From(t1, t2, i))
  {
    hide Stations, Day1, Leave2, Arrive1, NoWorse, RankOf, Recorded;
    forall c | c in seen + From(t1, t2, i) && Feasible(q, c) ensures NoWorse(RankOf(q, best'.c), RankOf(q, c)) {
      if c in From(t1, t2, i) && c.change2 == i {
        if best' == best {
          NoWorseTransitive(RankOf(q, best.c), RankOf(q, cand.c), RankOf(q, c));
        }
      } else {
        assert c in seen + From(t1, t2, i + 1);
        if best' == cand {
          NoWorseTransitive(RankOf(q, cand.c), RankOf(q, best.c), RankOf(q, c));
        }
      }
    }
  }

  /** Changes between two trains at one stop differ only in the day: stations are visited once. */
  lemma SameStations(q: Query, c: Choice, d: Choice)
    requires QueryOk(q) && Stations(q, c) && Stations(q, d)
    requires c.train1 == d.train1 && c.train2 == d.train2 && c.change2 == d.change2
    ensures c.from1 == d.from1 && c.change1 == d.change1 && c.to2 == d.to2
  {
  }

  /** Another day of the second train changes the arrival only. */
  lemma LaterIsNoBetter(q: Query, c: Choice, d: Choice)
    requires QueryOk(q) && Stations(q, c) && d == c.(day2 := d.day2) && c.day2 <= d.day2 && Stations(q, d)
    ensures NoWorse(RankOf(q, c), RankOf(q, d))
  {
    NoWorseTotal(RankOf(q, c), RankOf(q, c));
  }

  /** How many days after its first day of sale the second train is taken: none, or just enough, rounded up. */
  function DaysToWait(arrive: int, earliest: int): (days: nat)
    ensures arrive <= earliest + days * MINUTES_PER_DAY
    ensures days > 0 ==> earliest + (days - 1) * MINUTES_PER_DAY < arrive
  {
    if earliest < arrive then (arrive - earliest + MINUTES_PER_DAY - 1) / MINUTES_PER_DAY else 0
  }

  /** The days the rounding skips are too early, later ones are no better; past the last day of sale nothing is feasible. */
  lemma {:induction false} EarliestDay(q: Query, c: Choice, latest: int)
    requires QueryOk(q) && Stations(q, c)
    requires q.plans[c.train1].saleBeg <= Day1(q, c) <= q.plans[c.train1].saleEnd
    requires
      var p := q.plans[c.train2];
      var offset := p.startTime + LeaveOffset(p, c.change2);
      && latest == p.saleEnd * MINUTES_PER_DAY + offset
      && c.day2 == p.saleBeg + DaysToWait(Arrive1(q, c), p.saleBeg * MINUTES_PER_DAY + offset)
    ensures Arrive1(q, c) > latest ==> forall d: Choice ::
              d.train1 == c.train1 && d.train2 == c.train2 && d.change2 == c.change2 ==> !Feasible(q, d)
    ensures Arrive1(q, c) <= latest ==> Feasible(q, c)
    ensures forall d: Choice :: d.train1 == c.train1 && d.train2 == c.train2 && d.change2 == c.change2 && Feasible(q, d) ==>
              NoWorse(RankOf(q, c), RankOf(q, d))
  {
    forall d: Choice | d.train1 == c.train1 && d.train2 == c.train2 && d.change2 == c.change2 && Feasible(q, d)
      ensures Arrive1(q, c) <= latest && NoWorse(RankOf(q, c), RankOf(q, d))
    {
      SameStations(q, c, d);
      LaterIsNoBetter(q, c, d);
    }
  }

  lemma SumsFirst(p: Plan)
    requires Sized(p)
    ensures Fare(p, 0, 0) == 0 && ArriveOffset(p, 0) == 0 && LeaveOffset(p, 0) == 0
  {
  }

  lemma SumsNext(p: Plan, i: nat)
    requires Sized(p) && 0 < i < |p.stations|
    ensures Fare(p, 0, i) == Fare(p, 0, i - 1) + p.price[i - 1]
    ensures ArriveOffset(p, i) == LeaveOffset(p, i - 1) + p.travel[i - 1] && LeaveOffset(p, i) == ArriveOffset(p, i) + p.stopover[i]
  {
  }

  /** Prices and offsets summed up along a train's stations. */
  method Sums(p: Plan) returns (price: seq<nat>, arrive: seq<nat>, leave: seq<nat>)
    requires Sized(p)
    ensures |price| == |arrive| == |leave| == |p.stations|
    ensures forall i :: 0 <= i < |p.stations| ==>
              price[i] == Fare(p, 0, i) && arrive[i] == ArriveOffset(p, i) && leave[i] == LeaveOffset(p, i)
  {
    hide Fare, Total, ArriveOffset, LeaveOffset;
    SumsFirst(p);
    price, arrive, leave := [0], [0], [0];
    var i := 1;
    while i < |p.stations|
      invariant 1 <= i <= |p.stations| && |price| == |arrive| == |leave| == i
      invariant forall k :: 0 <= k < i ==>
                  price[k] == Fare(p, 0, k) && arrive[k] == ArriveOffset(p, k) && leave[k] == LeaveOffset(p, k)
    {
      SumsNext(p, i);
      price := price + [price[i - 1] + p.price[i - 1]];
      arrive := arrive + [leave[i - 1] + p.travel[i - 1]];
      leave := leave + [arrive[i] + p.stopover[i]];
      i := i + 1;
    }
  }

  /** `reached` has the stations after `from`, each with its stop number; `start` is that of `from`. */
  ghost predicate ReachedFrom(p: Plan, from: Station, start: nat, reached: map<Station, nat>) {
    && (forall s :: s in reached ==> start < reached[s] < |p.stations| && p.stations[start] == from && p.stations[reached[s]] == s)
    && (forall a, b :: 0 <= a < b < |p.stations| && p.stations[a] == from ==>
          p.stations[b] in reached && reached[p.stations[b]] == b && start == a)
  }

  /** The train is at the station at its `i`th stop or later. */
  ghost predicate Comes(p: Plan, station: Station, i: nat) {
    exists b :: i <= b < |p.stations| && p.stations[b] == station
  }

  /** The stations the first train reaches after `from`, each with its stop number. */
  method Reachable(p: Plan, from: Station) returns (start: nat, reached: map<Station, nat>)
    requires PlanOk(p)
    ensures ReachedFrom(p, from, start, reached)
  {
    var hasMet := false;
    start, reached := 0, map[];
    var i := 0;
    while i < |p.stations|
      invariant 0 <= i <= |p.stations| && (hasMet ==> start < i && p.stations[start] == from)
      invariant hasMet <==> exists a :: 0 <= a < i && p.stations[a] == from
      invariant forall s :: s in reached ==> hasMet && start < reached[s] < i && p.stations[reached[s]] == s
      invariant hasMet ==> forall b :: start < b < i ==> p.stations[b] in reached && reached[p.stations[b]] == b
    {
      if p.stations[i] == from {
        hasMet := true;
        start := i;
      } else if hasMet {
        reached := reached[p.stations[i] := i];
      }
      i := i + 1;
    }
  }

  /** The better of the best so far and a candidate, compared field by field; the candidate wins a tie. */
  method Better(byTime: bool, best: Best, cand: Best) returns (better: Best)
    requires cand.Solution?
    ensures better == best || better == cand
    ensures best.NoSolution? ==> better == cand
    ensures
      best.Solution? ==>
        var r := Ranked(byTime, best.arrive2 - best.leave1, best.price1 + best.price2, best.id1, best.id2);
        var s := Ranked(byTime, cand.arrive2 - cand.leave1, cand.price1 + cand.price2, cand.id1, cand.id2);
        (better == best ==> NoWorse(r, s)) && (better == cand ==> NoWorse(s, r))
  {
    if best.NoSolution? {
      return cand;
    }
    CompareIs(best.id1, cand.id1);
    CompareIs(best.id2, cand.id2);
    var bestTime, candTime := best.arrive2 - best.leave1, cand.arrive2 - cand.leave1;
    var bestPrice, candPrice := best.price1 + best.price2, cand.price1 + cand.price2;
    if byTime {
      if bestTime < candTime { return best; }
      if bestTime > candTime { return cand; }
      if bestPrice < candPrice { return best; }
      if bestPrice > candPrice { return cand; }
    } else {
      if bestPrice < candPrice { return best; }
      if bestPrice > candPrice { return cand; }
      if bestTime < candTime { return best; }
      if bestTime > candTime { return cand; }
    }
    var status := Compare(best.id1, cand.id1);
    if status < 0 { return best; }
    if status > 0 { return cand; }
    status := Compare(best.id2, cand.id2);
    if status < 0 { return best; }
    return cand;
  }

  /** The first train leaves `from` on the date, on a day of sale. */
  ghost predicate Departs(q: Query, t: TrainId)
    requires QueryOk(q)
  {
    && t in q.released
    && exists a :: 0 <= a < |q.plans[t].stations| && q.plans[t].stations[a] == q.from
                   && q.plans[t].saleBeg <= StartDay(q.date, q.plans[t].startTime, LeaveOffset(q.plans[t], a)) <= q.plans[t].saleEnd
  }

  /** One change of trains at the `i`th stop of the second, on the earliest day it can be made. */
  method TryChange(q: Query, c: Choice, price1: nat, price2: nat, leaveOffset1: nat, arriveOffset1: nat, leaveOffset2: nat,
                   arriveOffset2: nat, best: Best, ghost seen: iset<Choice>)
    returns (better: Best)
    requires QueryOk(q) && Stations(q, c) && c.day2 == 0 && Departs(q, c.train1)
    requires price1 == Price1(q, c) && price2 == Price2(q, c)
    requires leaveOffset1 == LeaveOffset(q.plans[c.train1], c.from1) && arriveOffset1 == ArriveOffset(q.plans[c.train1], c.change1)
    requires leaveOffset2 == LeaveOffset(q.plans[c.train2], c.change2) && arriveOffset2 == ArriveOffset(q.plans[c.train2], c.to2)
    requires BestOf(q, best, seen + From(c.train1, c.train2, c.change2 + 1))
    ensures BestOf(q, better, seen + From(c.train1, c.train2, c.change2))
  {
    hide NoWorse, From, Ranked, PlanOk, Fare, LeaveOffset, ArriveOffset;
    var p1, p2 := q.plans[c.train1], q.plans[c.train2];
    var actualTime := p1.startTime + leaveOffset1;
    var startDay := q.date - actualTime / MINUTES_PER_DAY;
    OnSaleThen(q, c);
    // The source throws here if the day is not on sale.
    assert p1.saleBeg <= startDay <= p1.saleEnd;
    var leave1 := startDay * MINUTES_PER_DAY + actualTime;
    var arrive1 := startDay * MINUTES_PER_DAY + p1.startTime + arriveOffset1;
    var earliest := p2.saleBeg * MINUTES_PER_DAY + p2.startTime + leaveOffset2;
    var latest := p2.saleEnd * MINUTES_PER_DAY + p2.startTime + leaveOffset2;
    var days := DaysToWait(arrive1, earliest);
    var cand := c.(day2 := p2.saleBeg + days);
    EarliestDay(q, cand, latest);
    hide Feasible, Stations, Departs, QueryOk, DaysToWait;
    if arrive1 > latest {
      NothingHere(q, best, seen, c.train1, c.train2, c.change2);
      return best;
    }
    var leave2 := earliest + days * MINUTES_PER_DAY;
    var arrive2 := leave2 + arriveOffset2 - leaveOffset2;
    RowsKept(q, cand);
    var seats1 := BookingEngine.AvailableSeats(q.seats[B.TrainDay(c.train1, startDay - p1.saleBeg)], c.from1, c.change1);
    var seats2 := BookingEngine.AvailableSeats(q.seats[B.TrainDay(c.train2, days)], c.change2, c.to2);
    var solution := Solution(cand, p1.name, p2.name, leave1, arrive1, leave2, arrive2, price1, price2,
                             p1.stations[c.change1], seats1, seats2);
    assert Recorded(q, solution);
    better := Better(q.byTime, best, solution);
    Candidate(q, best, seen, c.train1, c.train2, c.change2, solution, better);
  }

  /** The ledger has the rows of a feasible choice. */
  lemma RowsKept(q: Query, c: Choice)
    requires QueryOk(q) && Feasible(q, c)
    ensures Stations(q, c)
    ensures
      var key1 := B.TrainDay(c.train1, Day1(q, c) - q.plans[c.train1].saleBeg);
      var key2 := B.TrainDay(c.train2, c.day2 - q.plans[c.train2].saleBeg);
      && key1 in q.seats && c.from1 < c.change1 <= |q.seats[key1]|
      && key2 in q.seats && c.change2 < c.to2 <= |q.seats[key2]|
  {
  }

  /** A listed first train is on sale, wherever the passenger goes with it. */
  lemma OnSaleThen(q: Query, c: Choice)
    requires QueryOk(q) && Stations(q, c) && Departs(q, c.train1)
    ensures q.plans[c.train1].saleBeg <= Day1(q, c) <= q.plans[c.train1].saleEnd
  {
  }

  /** All changes from one train to another are weighed against the best so far. */
  method CheckTransfer(q: Query, t1: TrainId, t2: TrainId, best: Best, ghost seen: iset<Choice>) returns (better: Best)
    requires QueryOk(q) && t1 in q.released && t2 in q.released && Departs(q, t1) && BestOf(q, best, seen)
    ensures BestOf(q, better, seen + Pairs([t1], [t2]))
  {
    hide *;
    better := best;
    PlansOf(q, t1);
    PlansOf(q, t2);
    if t1 == t2 {
      NoOthers(q, t1);
      BestOfFewer(q, better, seen, seen + Pairs([t1], [t2]));
      return;
    }
    var p1, p2 := q.plans[t1], q.plans[t2];
    var price1, arriveOffset1, leaveOffset1 := Sums(p1);
    var price2, arriveOffset2, leaveOffset2 := Sums(p2);
    var start, reached := Reachable(p1, q.from);
    var hasMet, dest, i := false, 0, |p2.stations|;
    PastLast(q, t1, t2, i);
    BestOfFewer(q, better, seen, seen + From(t1, t2, i));
    ComesLast(p2, q.to);
    while i > 0
      invariant 0 <= i <= |p2.stations| && BestOf(q, better, seen + From(t1, t2, i))
      invariant hasMet ==> i <= dest < |p2.stations| && p2.stations[dest] == q.to
      invariant hasMet <==> Comes(p2, q.to, i)
    {
      i := i - 1;
      ComesNext(p2, q.to, i);
      if p2.stations[i] == q.to {
        hasMet := true;
        dest := i;
        NoChangeAt(q, t1, t2, i);
        NothingHere(q, better, seen, t1, t2, i);
      } else if hasMet && p2.stations[i] in reached {
        var change1 := reached[p2.stations[i]];
        var c := Choice(t1, start, change1, t2, i, dest, 0);
        ChangeAt(q, c, reached);
        better := TryChange(q, c, price1[change1] - price1[start], price2[dest] - price2[i], leaveOffset1[start],
                            arriveOffset1[change1], leaveOffset2[i], arriveOffset2[dest], better, seen);
      } else {
        NoWayOn(q, t1, t2, i, start, reached);
        NothingHere(q, better, seen, t1, t2, i);
      }
    }
    AllSeen(q, better, seen, t1, t2);
  }

  lemma PlansOf(q: Query, t: TrainId)
    requires QueryOk(q) && t in q.released
    ensures t in q.plans && PlanOk(q.plans[t]) && Sized(q.plans[t]) && |q.plans[t].price| == |q.plans[t].stations| - 1
  {
  }

  lemma NoOthers(q: Query, t: TrainId)
    requires QueryOk(q)
    ensures forall c :: c in Pairs([t], [t]) ==> !Feasible(q, c)
  {
  }

  lemma PastLast(q: Query, t1: TrainId, t2: TrainId, i: nat)
    requires QueryOk(q) && t2 in q.released && |q.plans[t2].stations| <= i
    ensures forall c :: c in From(t1, t2, i) ==> !Feasible(q, c)
  {
  }

  lemma ComesLast(p: Plan, station: Station)
    ensures !Comes(p, station, |p.stations|)
  {
  }

  lemma AllSeen(q: Query, best: Best, seen: iset<Choice>, t1: TrainId, t2: TrainId)
    requires QueryOk(q) && BestOf(q, best, seen + From(t1, t2, 0))
    ensures BestOf(q, best, seen + Pairs([t1], [t2]))
  {
    BestOfFewer(q, best, seen + From(t1, t2, 0), seen + Pairs([t1], [t2]));
  }

  /** Nobody changes where the second train is past the destination, or the first does not come. */
  lemma NoWayOn(q: Query, t1: TrainId, t2: TrainId, i: nat, start: nat, reached: map<Station, nat>)
    requires QueryOk(q) && t1 in q.released && t2 in q.released && i < |q.plans[t2].stations|
    requires ReachedFrom(q.plans[t1], q.from, start, reached)
    requires !Comes(q.plans[t2], q.to, i + 1) || q.plans[t2].stations[i] !in reached
    ensures forall c: Choice :: c.train1 == t1 && c.train2 == t2 && c.change2 == i ==> !Feasible(q, c)
  {
  }

  /** A station that both trains visit, on the way, is a place to change. */
  lemma ChangeAt(q: Query, c: Choice, reached: map<Station, nat>)
    requires QueryOk(q) && c.train1 in q.released && c.train2 in q.released && c.train1 != c.train2
    requires ReachedFrom(q.plans[c.train1], q.from, c.from1, reached)
    requires c.change2 < c.to2 < |q.plans[c.train2].stations| && q.plans[c.train2].stations[c.to2] == q.to
    requires q.plans[c.train2].stations[c.change2] in reached && c.change1 == reached[q.plans[c.train2].stations[c.change2]]
    ensures Stations(q, c) && c.from1 < c.change1 < |q.plans[c.train1].stations|
    ensures Price1(q, c) == Fare(q.plans[c.train1], 0, c.change1) - Fare(q.plans[c.train1], 0, c.from1)
    ensures Price2(q, c) == Fare(q.plans[c.train2], 0, c.to2) - Fare(q.plans[c.train2], 0, c.change2)
  {
    FareSum(q.plans[c.train1], c.from1, c.change1);
    FareSum(q.plans[c.train2], c.change2, c.to2);
  }

  lemma ComesNext(p: Plan, station: Station, i: nat)
    requires i < |p.stations|
    ensures Comes(p, station, i) <==> p.stations[i] == station || Comes(p, station, i + 1)
  {
  }

  /** Nobody changes where the second train is at its destination. */
  lemma NoChangeAt(q: Query, t1: TrainId, t2: TrainId, i: nat)
    requires QueryOk(q) && t1 in q.released && t2 in q.released && i < |q.plans[t2].stations| && q.plans[t2].stations[i] == q.to
    ensures forall c: Choice :: c.train1 == t1 && c.train2 == t2 && c.change2 == i ==> !Feasible(q, c)
  {
  }

  /**
     The best journey with one change: found exactly if there is a feasible one,
     and no feasible choice of trains, stations and days is better.
   */
  method QueryTransfer(system: TrainSystem, date: nat, from: Station, to: Station, byTime: bool) returns (best: Best)
    requires system.Valid()
    ensures QueryOk(Query(system.plans, system.released, system.seats, date, from, to, byTime))
    ensures
      var q := Query(system.plans, system.released, system.seats, date, from, to, byTime);
      && (best.Solution? <==> exists c :: Feasible(q, c))
      && (best.Solution? ==> Feasible(q, best.c) && Recorded(q, best))
      && (best.Solution? ==> forall c :: Feasible(q, c) ==> NoWorse(RankOf(q, best.c), RankOf(q, c)))
      && (best.Solution? && byTime ==>
            forall c :: Feasible(q, c) ==> best.arrive2 - best.leave1 <= Arrive2(q, c) - Leave1(q, c))
      && (best.Solution? && !byTime ==>
            forall c :: Feasible(q, c) ==> best.price1 + best.price2 <= Price1(q, c) + Price2(q, c))
  {
    RegisteredOnce(system.register.stops, system.plans, system.released);
    var q := Query(system.plans, system.released, system.seats, date, from, to, byTime);
    ghost var stops := system.register.stops;
    var leaving := system.register.FetchTrainLeavingFrom(date, from);
    var arriving := system.register.FetchTrainArrivingAt(to);
    FirstTrains(q, stops, leaving);
    SecondTrains(q, stops, arriving);
    best := NoSolution;
    var i := 0;
    hide *;
    NoneSeen(q, arriving);
    while i < |leaving|
      invariant i <= |leaving| && BestOf(q, best, Pairs(leaving[..i], arriving))
    {
      var j := 0;
      ghost var seen := Pairs(leaving[..i], arriving);
      NoneOf(q, best, seen, leaving[i], arriving);
      while j < |arriving|
        invariant j <= |arriving| && BestOf(q, best, seen + Pairs([leaving[i]], arriving[..j]))
      {
        best := CheckTransfer(q, leaving[i], arriving[j], best, seen + Pairs([leaving[i]], arriving[..j]));
        OneMore(q, best, seen, leaving[i], arriving, j);
        j := j + 1;
      }
      RowSeen(q, best, leaving, i, arriving);
      i := i + 1;
    }
    Conclude(q, best, leaving, arriving);
    BestFirst(q, best);
  }

  lemma BestFirst(q: Query, best: Best)
    requires QueryOk(q) && best.Solution? ==> Feasible(q, best.c) && Recorded(q, best)
    requires QueryOk(q) && best.Solution? ==> forall c :: Feasible(q, c) ==> NoWorse(RankOf(q, best.c), RankOf(q, c))
    ensures QueryOk(q) && best.Solution? ==> forall c :: Feasible(q, c) ==>
              if q.byTime then best.arrive2 - best.leave1 <= Arrive2(q, c) - Leave1(q, c)
              else best.price1 + best.price2 <= Price1(q, c) + Price2(q, c)
  {
    hide LexBefore;
    if QueryOk(q) && best.Solution? {
      forall c | Feasible(q, c)
        ensures if q.byTime then best.arrive2 - best.leave1 <= Arrive2(q, c) - Leave1(q, c)
                else best.price1 + best.price2 <= Price1(q, c) + Price2(q, c)
      {
        RankMeans(q, best.c, c);
      }
    }
  }

  lemma FirstTrains(q: Query, stops: seq<Stop>, leaving: seq<TrainId>)
    requires QueryOk(q) && Registered(stops, q.plans, q.released)
    requires forall t :: t in leaving <==> exists e :: e in stops && AtStation(e, q.from, 1) && e.key.train == t && OnSale(e, q.date)
    ensures forall i :: 0 <= i < |leaving| ==> leaving[i] in q.released && Departs(q, leaving[i])
    ensures forall c :: Feasible(q, c) ==> c.train1 in leaving
  {
    forall i | 0 <= i < |leaving| ensures leaving[i] in q.released && Departs(q, leaving[i]) {
      assert leaving[i] in leaving;
      var e :| e in stops && AtStation(e, q.from, 1) && e.key.train == leaving[i] && OnSale(e, q.date);
      assert q.plans[leaving[i]].stations[e.key.stopId] == q.from;
    }
    forall c | Feasible(q, c) ensures c.train1 in leaving {
      assert HasEntry(q.plans[c.train1], c.from1, 1);
      var e := Entry(c.train1, q.plans[c.train1], c.from1, 1);
      assert e in stops && AtStation(e, q.from, 1) && OnSale(e, q.date);
    }
  }

  lemma SecondTrains(q: Query, stops: seq<Stop>, arriving: seq<TrainId>)
    requires QueryOk(q) && Registered(stops, q.plans, q.released)
    requires forall t :: t in arriving <==> exists e :: e in stops && AtStation(e, q.to, 0) && e.key.train == t
    ensures forall i :: 0 <= i < |arriving| ==> arriving[i] in q.released
    ensures forall c :: Feasible(q, c) ==> c.train2 in arriving
  {
    forall i | 0 <= i < |arriving| ensures arriving[i] in q.released {
      assert arriving[i] in arriving;
    }
    forall c | Feasible(q, c) ensures c.train2 in arriving {
      assert HasEntry(q.plans[c.train2], c.to2, 0);
      var e := Entry(c.train2, q.plans[c.train2], c.to2, 0);
      assert e in stops && AtStation(e, q.to, 0);
    }
  }

  lemma NoneSeen(q: Query, arriving: seq<TrainId>)
    requires QueryOk(q)
    ensures BestOf(q, NoSolution, Pairs([], arriving))
  {
  }

  lemma NoneOf(q: Query, best: Best, seen: iset<Choice>, t: TrainId, arriving: seq<TrainId>)
    requires QueryOk(q) && BestOf(q, best, seen)
    ensures BestOf(q, best, seen + Pairs([t], arriving[..0]))
  {
    BestOfFewer(q, best, seen, seen + Pairs([t], arriving[..0]));
  }

  lemma OneMore(q: Query, best: Best, seen: iset<Choice>, t: TrainId, arriving: seq<TrainId>, j: nat)
    requires QueryOk(q) && j < |arriving| && BestOf(q, best, seen + Pairs([t], arriving[..j]) + Pairs([t], [arriving[j]]))
    ensures BestOf(q, best, seen + Pairs([t], arriving[..j + 1]))
  {
    BestOfFewer(q, best, seen + Pairs([t], arriving[..j]) + Pairs([t], [arriving[j]]), seen + Pairs([t], arriving[..j + 1]));
  }

  lemma RowSeen(q: Query, best: Best, leaving: seq<TrainId>, i: nat, arriving: seq<TrainId>)
    requires QueryOk(q) && i < |leaving|
    requires BestOf(q, best, Pairs(leaving[..i], arriving) + Pairs([leaving[i]], arriving[..|arriving|]))
    ensures BestOf(q, best, Pairs(leaving[..i + 1], arriving))
  {
    assert arriving[..|arriving|] == arriving;
    BestOfFewer(q, best, Pairs(leaving[..i], arriving) + Pairs([leaving[i]], arriving), Pairs(leaving[..i + 1], arriving));
  }

  lemma Conclude(q: Query, best: Best, leaving: seq<TrainId>, arriving: seq<TrainId>)
    requires QueryOk(q) && BestOf(q, best, Pairs(leaving[..|leaving|], arriving))
    requires forall c :: Feasible(q, c) ==> c.train1 in leaving && c.train2 in arriving
    ensures best.Solution? <==> exists c :: Feasible(q, c)
    ensures best.Solution? ==> Feasible(q, best.c) && Recorded(q, best)
    ensures best.Solution? ==> forall c :: Feasible(q, c) ==> NoWorse(RankOf(q, best.c), RankOf(q, c))
  {
    hide Feasible, NoWorse, RankOf, Recorded;
    assert leaving[..|leaving|] == leaving;
    forall c | Feasible(q, c) ensures c in Pairs(leaving, arriving) {
    }
  }
}
