/**
 Seats, orders and the waiting queue of one train on one day, as values: what is
 taken, what fits, and what a first-come greedy scan of the queue grants.
 */
module Booking {
  type Train = nat
  type User = nat

  /** A train and the day it leaves, counted from the first day of sale. */
  datatype TrainDay = TrainDay(train: Train, day: nat)

  /** Free seats of each train and day, one number a segment. */
  type Ledger = map<TrainDay, seq<int>>

  datatype Status = Pending | Success | Refunded

  datatype Order = Order(key: TrainDay, from: nat, to: nat, num: nat, price: nat, status: Status)

  /** A queue record: its number in the queue, and the order. */
  datatype Ticket = Ticket(id: nat, order: nat)

  predicate Covers(o: Order, s: nat) {
    o.from <= s < o.to
  }

  /** The source looks at the segment after the first stop in any case, also for an order that travels none. */
  predicate Tested(from: nat, to: nat, s: nat) {
    s == from || from <= s < to
  }

  /** The least number of free seats on the way from one stop to another. */
  ghost predicate IsLeast(seats: seq<int>, from: nat, to: nat, least: int)
    requires from <= to <= |seats| && from < |seats|
  {
    && (forall s: nat :: Tested(from, to, s) ==> least <= seats[s])
    && exists s: nat :: Tested(from, to, s) && seats[s] == least
  }

  /** It is among the seats of the way and no more than any of them; if there is no way, it is the next segment's. */
  lemma LeastIs(seats: seq<int>, from: nat, to: nat, least: int)
    requires from <= to <= |seats| && from < |seats|
    ensures from < to ==> (IsLeast(seats, from, to, least) <==>
              least in seats[from..to] && forall n :: n in seats[from..to] ==> least <= n)
    ensures from == to ==> (IsLeast(seats, from, to, least) <==> least == seats[from])
  {
    if from < to {
      var way := seats[from..to];
      forall s: nat | Tested(from, to, s) ensures seats[s] in way {
        assert way[s - from] == seats[s];
      }
      forall n | n in way ensures exists s: nat :: Tested(from, to, s) && seats[s] == n {
        var i :| 0 <= i < |way| && way[i] == n;
        assert Tested(from, to, from + i) && seats[from + i] == n;
      }
    } else {
      assert forall s: nat :: Tested(from, to, s) <==> s == from;
    }
  }

  /** The order's stops are stops of a train with `n` segments. */
  predicate Within(o: Order, n: nat) {
    o.from <= o.to <= n && o.from < n
  }

  /** How many seats of segment `s` the successful orders among the first `n` take. */
  function Taken(orders: seq<Order>, key: TrainDay, s: nat, n: nat): nat
    requires n <= |orders|
  {
    if n == 0 then 0
    else
      var o := orders[n - 1];
      Taken(orders, key, s, n - 1) + if o.key == key && o.status == Success && Covers(o, s) then o.num else 0
  }

  /** Free seats and the tickets of all successful orders make up the train, on every segment. */
  ghost predicate Conserved(seats: seq<int>, total: nat, orders: seq<Order>, key: TrainDay) {
    forall s: nat :: s < |seats| ==> seats[s] + Taken(orders, key, s, |orders|) == total && 0 <= seats[s]
  }

  /** All segments that are tested for the order have room for it. */
  ghost predicate Fits(seats: seq<int>, o: Order)
    requires Within(o, |seats|)
  {
    forall s: nat :: Tested(o.from, o.to, s) ==> o.num <= seats[s]
  }

  /**
   What fitting means: no segment would be overdrawn if the order took its seats.
   An order from a stop to itself takes none, and is held against the segment
   after that stop.
   */
  lemma FitsIff(seats: seq<int>, o: Order)
    requires Within(o, |seats|) && forall s :: 0 <= s < |seats| ==> 0 <= seats[s]
    ensures o.from < o.to ==>
              var left := Changed(seats, o.from, o.to, 0 - o.num);
              (Fits(seats, o) <==> forall s :: 0 <= s < |left| ==> 0 <= left[s])
    ensures o.from == o.to ==> (Fits(seats, o) <==> o.num <= seats[o.from])
    ensures o.status == Pending ==> (Granted(seats, o) <==> Fits(seats, o))
  {
    if o.from < o.to {
      var left := Changed(seats, o.from, o.to, 0 - o.num);
      forall s: nat | s < |seats| ensures 0 <= left[s] <==> (Tested(o.from, o.to, s) ==> o.num <= seats[s]) {
      }
    }
  }

  function Changed(seats: seq<int>, from: nat, to: nat, delta: int): (r: seq<int>)
    requires from <= to <= |seats|
    ensures |r| == |seats|
    ensures forall s {:trigger r[s]} :: 0 <= s < |r| ==> r[s] == seats[s] + if from <= s < to then delta else 0
  {
    seq(|seats|, s requires 0 <= s < |seats| => seats[s] + if from <= s < to then delta else 0)
  }

  lemma {:induction false} TakenUpTo(orders: seq<Order>, orders': seq<Order>, key: TrainDay, s: nat, n: nat)
    requires n <= |orders| && n <= |orders'| && forall i :: 0 <= i < n ==> orders[i] == orders'[i]
    ensures Taken(orders, key, s, n) == Taken(orders', key, s, n)
  {
    if n > 0 {
      TakenUpTo(orders, orders', key, s, n - 1);
    }
  }

  function Weight(o: Order, key: TrainDay, s: nat): nat {
    if o.key == key && o.status == Success && Covers(o, s) then o.num else 0
  }

  /** One order changes. */
  lemma {:induction false} TakenUpdate(orders: seq<Order>, i: nat, o: Order, key: TrainDay, s: nat, n: nat)
    requires i < n <= |orders|
    ensures Taken(orders[i := o], key, s, n) == Taken(orders, key, s, n) - Weight(orders[i], key, s) + Weight(o, key, s)
  {
    if i == n - 1 {
      TakenUpTo(orders, orders[i := o], key, s, i);
    } else {
      TakenUpdate(orders, i, o, key, s, n - 1);
    }
  }

  lemma {:induction false} TakenAppend(orders: seq<Order>, o: Order, key: TrainDay, s: nat)
    ensures Taken(orders + [o], key, s, |orders| + 1) == Taken(orders, key, s, |orders|) + Weight(o, key, s)
  {
    TakenUpTo(orders, orders + [o], key, s, |orders|);
  }

  /** The seats of one train-day after a first-come greedy scan of some orders; each is granted whole or not at all. */
  function GreedySeats(seats: seq<int>, orders: seq<Order>, queue: seq<Ticket>): (r: seq<int>)
    requires forall t :: t in queue ==> t.order < |orders| && Within(orders[t.order], |seats|)
    ensures |r| == |seats|
  {
    if queue == [] then seats
    else
      var init, t := queue[..|queue| - 1], queue[|queue| - 1];
      var before := GreedySeats(seats, orders, init);
      if Granted(before, orders[t.order]) then Changed(before, orders[t.order].from, orders[t.order].to, 0 - orders[t.order].num)
      else before
  }

  /** The scan reaches the order while it is pending, with room for it. */
  predicate Granted(seats: seq<int>, o: Order)
    requires Within(o, |seats|)
  {
    o.status == Pending && forall s: nat :: s < |seats| && Tested(o.from, o.to, s) ==> o.num <= seats[s]
  }

  /** What the scan makes of one order. */
  function GreedyStatus(seats: seq<int>, orders: seq<Order>, queue: seq<Ticket>, i: nat): Status
    requires forall t :: t in queue ==> t.order < |orders| && Within(orders[t.order], |seats|)
    requires i < |queue|
  {
    var o := orders[queue[i].order];
    if Granted(GreedySeats(seats, orders, queue[..i]), o) then Success else o.status
  }

  /** The scan only takes seats. */
  lemma {:induction false} GreedyTakes(seats: seq<int>, orders: seq<Order>, queue: seq<Ticket>, i: nat, j: nat, s: nat)
    requires forall t :: t in queue ==> t.order < |orders| && Within(orders[t.order], |seats|)
    requires i <= j <= |queue| && s < |seats|
    ensures GreedySeats(seats, orders, queue[..j])[s] <= GreedySeats(seats, orders, queue[..i])[s]
    decreases j - i
  {
    if i < j {
      assert queue[..j][..j - 1] == queue[..j - 1];
      GreedyTakes(seats, orders, queue, i, j - 1, s);
    }
  }

  /** One more order of the queue scanned. */
  lemma {:induction false} GreedyNext(seats: seq<int>, orders: seq<Order>, queue: seq<Ticket>, i: nat)
    requires forall t :: t in queue ==> t.order < |orders| && Within(orders[t.order], |seats|)
    requires i < |queue|
    ensures
      var before, o := GreedySeats(seats, orders, queue[..i]), orders[queue[i].order];
      GreedySeats(seats, orders, queue[..i + 1]) == if Granted(before, o) then Changed(before, o.from, o.to, 0 - o.num) else before
  {
    assert queue[..i + 1][..i] == queue[..i];
  }

  /** What the first order of a queue leaves to the others. */
  function AfterFirst(seats: seq<int>, o: Order): (left: seq<int>)
    requires Within(o, |seats|)
    ensures |left| == |seats|
  {
    if Granted(seats, o) then Changed(seats, o.from, o.to, 0 - o.num) else seats
  }

  lemma {:induction false} GreedySeatsFirst(seats: seq<int>, orders: seq<Order>, t: Ticket, rest: seq<Ticket>)
    requires t.order < |orders| && Within(orders[t.order], |seats|)
    requires forall u :: u in rest ==> u.order < |orders| && Within(orders[u.order], |seats|)
    ensures GreedySeats(seats, orders, [t] + rest) == GreedySeats(AfterFirst(seats, orders[t.order]), orders, rest)
    decreases |rest|
  {
    var queue := [t] + rest;
    if rest == [] {
      assert queue[..|queue| - 1] == [] && queue == [t];
    } else {
      var init := rest[..|rest| - 1];
      assert queue[..|queue| - 1] == [t] + init && queue[|queue| - 1] == rest[|rest| - 1];
      GreedySeatsFirst(seats, orders, t, init);
    }
  }

  /**
   First come, first served: the scan of a queue grants its first order exactly if
   that is pending and fits, and then does with what is left as if the rest were
   the whole queue.
   */
  lemma {:induction false} GreedyFirst(seats: seq<int>, orders: seq<Order>, t: Ticket, rest: seq<Ticket>)
    requires t.order < |orders| && Within(orders[t.order], |seats|)
    requires forall u :: u in rest ==> u.order < |orders| && Within(orders[u.order], |seats|)
    ensures
      var o := orders[t.order];
      var granted := o.status == Pending && Fits(seats, o);
      var left := if granted then Changed(seats, o.from, o.to, 0 - o.num) else seats;
      && GreedySeats(seats, orders, [t] + rest) == GreedySeats(left, orders, rest)
      && GreedyStatus(seats, orders, [t] + rest, 0) == (if granted then Success else o.status)
      && forall i {:trigger GreedyStatus(left, orders, rest, i)} :: 0 <= i < |rest| ==>
           GreedyStatus(seats, orders, [t] + rest, i + 1) == GreedyStatus(left, orders, rest, i)
  {
    hide GreedySeats;
    var queue, left := [t] + rest, AfterFirst(seats, orders[t.order]);
    GreedySeatsFirst(seats, orders, t, rest);
    NoneScanned(seats, orders);
    assert queue[..0] == [];
    forall i | 0 <= i < |rest| ensures GreedyStatus(seats, orders, queue, i + 1) == GreedyStatus(left, orders, rest, i) {
      assert queue[..i + 1] == [t] + rest[..i] && queue[i + 1] == rest[i];
      GreedySeatsFirst(seats, orders, t, rest[..i]);
    }
  }

  lemma NoneScanned(seats: seq<int>, orders: seq<Order>)
    ensures GreedySeats(seats, orders, []) == seats
  {
  }

  /** A pending order of the queue that the scan leaves pending does not fit afterwards. */
  lemma {:induction false} LeftUnfit(seats: seq<int>, orders: seq<Order>, queue: seq<Ticket>, i: nat)
    requires forall t :: t in queue ==> t.order < |orders| && Within(orders[t.order], |seats|)
    requires i < |queue| && GreedyStatus(seats, orders, queue, i) == Pending
    ensures !Fits(GreedySeats(seats, orders, queue), orders[queue[i].order])
  {
    var o := orders[queue[i].order];
    var s: nat :| s < |seats| && Tested(o.from, o.to, s) && o.num > GreedySeats(seats, orders, queue[..i])[s];
    GreedyTakes(seats, orders, queue, i, |queue|, s);
    assert queue[..|queue|] == queue;
    assert !(o.num <= GreedySeats(seats, orders, queue)[s]);
  }

  /** A pending order that fits is granted: seats stay conserved. */
  lemma {:induction false} GrantConserves(seats: seq<int>, total: nat, orders: seq<Order>, key: TrainDay, i: nat)
    requires Conserved(seats, total, orders, key) && i < |orders| && orders[i].key == key && orders[i].status == Pending
    requires Within(orders[i], |seats|) && Fits(seats, orders[i])
    ensures Conserved(Changed(seats, orders[i].from, orders[i].to, 0 - orders[i].num), total,
                      orders[i := orders[i].(status := Success)], key)
  {
    var o, os := orders[i], orders[i := orders[i].(status := Success)];
    var r := Changed(seats, o.from, o.to, 0 - o.num);
    forall s: nat | s < |r| ensures r[s] + Taken(os, key, s, |os|) == total && 0 <= r[s] {
      TakenUpdate(orders, i, os[i], key, s, |orders|);
      assert Covers(o, s) ==> Tested(o.from, o.to, s);
    }
  }

  /** A successful order is refunded: seats stay conserved. */
  lemma {:induction false} RefundConserves(seats: seq<int>, total: nat, orders: seq<Order>, key: TrainDay, i: nat)
    requires Conserved(seats, total, orders, key) && i < |orders| && orders[i].key == key && orders[i].status == Success
    requires orders[i].from <= orders[i].to <= |seats|
    ensures Conserved(Changed(seats, orders[i].from, orders[i].to, orders[i].num), total,
                      orders[i := orders[i].(status := Refunded)], key)
  {
    var o, os := orders[i], orders[i := orders[i].(status := Refunded)];
    var r := Changed(seats, o.from, o.to, o.num);
    forall s: nat | s < |r| ensures r[s] + Taken(os, key, s, |os|) == total && 0 <= r[s] {
      TakenUpdate(orders, i, os[i], key, s, |orders|);
    }
  }

  /** A change to an order that is not among the successful ones, before and after, or of another train-day, does not matter. */
  lemma {:induction false} OtherConserves(seats: seq<int>, total: nat, orders: seq<Order>, key: TrainDay, i: nat, o: Order)
    requires Conserved(seats, total, orders, key) && i < |orders| && o.key == orders[i].key
    requires o.key != key || (o.status != Success && orders[i].status != Success)
    ensures Conserved(seats, total, orders[i := o], key)
  {
    forall s: nat | s < |seats| ensures seats[s] + Taken(orders[i := o], key, s, |orders|) == total && 0 <= seats[s] {
      TakenUpdate(orders, i, o, key, s, |orders|);
    }
  }

  /** A new order. */
  lemma {:induction false} NewConserves(seats: seq<int>, total: nat, orders: seq<Order>, key: TrainDay, o: Order)
    requires Conserved(seats, total, orders, key)
    ensures o.key != key || o.status != Success ==> Conserved(seats, total, orders + [o], key)
    ensures o.key == key && o.status == Success && Within(o, |seats|) && Fits(seats, o) ==>
              Conserved(Changed(seats, o.from, o.to, 0 - o.num), total, orders + [o], key)
  {
    forall s: nat | s < |seats| ensures Taken(orders + [o], key, s, |orders| + 1) == Taken(orders, key, s, |orders|) + Weight(o, key, s) {
      TakenAppend(orders, o, key, s);
      assert Covers(o, s) ==> Tested(o.from, o.to, s);
    }
  }

  /** Orders only move from pending to success or refunded, and from success to refunded. */
  predicate StatusStep(a: Status, b: Status) {
    a == b || a == Pending || (a == Success && b == Refunded)
  }

  ghost predicate Advanced(before: seq<Order>, after: seq<Order>) {
    && |before| <= |after|
    && forall i :: 0 <= i < |before| ==> after[i] == before[i].(status := after[i].status) && StatusStep(before[i].status, after[i].status)
  }

  /** Queue records are in the order of their numbers, each of an order of its own. */
  ghost predicate QueueOk(queue: seq<Ticket>, counter: nat, orders: seq<Order>, key: TrainDay) {
    && (forall i :: 0 <= i < |queue| ==> queue[i].id <= counter && queue[i].order < |orders| && orders[queue[i].order].key == key)
    && (forall i, j :: 0 <= i < j < |queue| ==> queue[i].id < queue[j].id && queue[i].order != queue[j].order)
  }

  ghost predicate InQueue(queue: seq<Ticket>, order: nat) {
    exists j :: 0 <= j < |queue| && queue[j].order == order
  }

  /** The records whose orders are still pending, in order. */
  function StillPending(queue: seq<Ticket>, orders: seq<Order>): (r: seq<Ticket>)
    ensures forall t :: t in r <==> t in queue && t.order < |orders| && orders[t.order].status == Pending
  {
    if queue == [] then []
    else
      var t := queue[|queue| - 1];
      StillPending(queue[..|queue| - 1], orders)
      + if t.order < |orders| && orders[t.order].status == Pending then [t] else []
  }

  function WithoutId(queue: seq<Ticket>, id: nat): seq<Ticket> {
    if queue == [] then []
    else WithoutId(queue[..|queue| - 1], id) + if queue[|queue| - 1].id == id then [] else [queue[|queue| - 1]]
  }

  lemma {:induction false} WithoutNone(queue: seq<Ticket>, id: nat)
    requires forall i :: 0 <= i < |queue| ==> queue[i].id != id
    ensures WithoutId(queue, id) == queue
  {
    if queue != [] {
      WithoutNone(queue[..|queue| - 1], id);
      assert queue == queue[..|queue| - 1] + [queue[|queue| - 1]];
    }
  }

  /** Taking out a record by its number. */
  lemma {:induction false} WithoutAt(queue: seq<Ticket>, j: nat)
    requires j < |queue| && forall a, b :: 0 <= a < b < |queue| ==> queue[a].id < queue[b].id
    ensures WithoutId(queue, queue[j].id) == queue[..j] + queue[j + 1..]
  {
    var n := |queue| - 1;
    if j == n {
      WithoutNone(queue[..n], queue[j].id);
      assert queue[..j] + queue[j + 1..] == queue[..n];
    } else {
      WithoutAt(queue[..n], j);
      assert queue[..n][..j] + queue[..n][j + 1..] + [queue[n]] == queue[..j] + queue[j + 1..];
    }
  }

  lemma {:induction false} StillPendingNext(queue: seq<Ticket>, orders: seq<Order>, i: nat)
    requires i < |queue| && queue[i].order < |orders|
    ensures StillPending(queue[..i + 1], orders)
         == StillPending(queue[..i], orders) + if orders[queue[i].order].status == Pending then [queue[i]] else []
  {
    assert queue[..i + 1][..i] == queue[..i];
  }

  lemma {:induction false} StillPendingSame(queue: seq<Ticket>, orders: seq<Order>, orders': seq<Order>)
    requires forall t :: t in queue ==> t.order < |orders| && t.order < |orders'| && orders[t.order] == orders'[t.order]
    ensures StillPending(queue, orders) == StillPending(queue, orders')
  {
    if queue != [] {
      StillPendingSame(queue[..|queue| - 1], orders, orders');
    }
  }
}
