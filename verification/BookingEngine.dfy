/**
 Buying and refunding tickets: the seat ledger, the order records, the waiting
 queue of each train and day, and each user's order history.
 */
module BookingEngine {
  import opened Booking
  import opened BookingSweep
  import H = OrderHistory
  import T = Timetable

  datatype Reply = Rejected | Queued | Bought(price: nat)

  ghost predicate OrderOk(o: Order, seats: Ledger) {
    o.key in seats && Within(o, |seats[o.key]|)
  }

  ghost predicate OrdersOk(orders: seq<Order>, seats: Ledger) {
    forall i :: 0 <= i < |orders| ==> OrderOk(orders[i], seats)
  }

  ghost predicate AllConserved(seats: Ledger, total: map<TrainDay, nat>, orders: seq<Order>) {
    forall key :: key in seats ==> key in total && Conserved(seats[key], total[key], orders, key)
  }

  ghost predicate QueuesOk(seats: Ledger, queues: map<TrainDay, seq<Ticket>>, counters: map<TrainDay, nat>, orders: seq<Order>) {
    forall key :: key in seats ==> key in queues && key in counters && QueueOk(queues[key], counters[key], orders, key)
  }

  /** Every pending order waits in the queue of its train and day. */
  ghost predicate Waiting(queues: map<TrainDay, seq<Ticket>>, orders: seq<Order>) {
    forall i: nat :: i < |orders| && orders[i].status == Pending ==> orders[i].key in queues && InQueue(queues[orders[i].key], i)
  }

  /** No pending order fits the free seats. */
  ghost predicate NoneFits(seats: Ledger, orders: seq<Order>)
    requires OrdersOk(orders, seats)
  {
    forall i: nat :: i < |orders| && orders[i].status == Pending ==> OrderOk(orders[i], seats) && !Fits(seats[orders[i].key], orders[i])
  }

  ghost predicate HistoryOk(history: map<User, seq<nat>>, orders: seq<Order>) {
    forall u :: u in history ==> forall j :: 0 <= j < |history[u]| ==> history[u][j] < |orders|
  }

  /** What holds between commands. */
  ghost predicate Sound(seats: Ledger, total: map<TrainDay, nat>, queues: map<TrainDay, seq<Ticket>>,
                        counters: map<TrainDay, nat>, orders: seq<Order>, history: map<User, seq<nat>>) {
    && OrdersOk(orders, seats) && AllConserved(seats, total, orders)
    && QueuesOk(seats, queues, counters, orders) && Waiting(queues, orders) && NoneFits(seats, orders)
    && HistoryOk(history, orders)
  }

  lemma {:induction false} QueueMore(queue: seq<Ticket>, counter: nat, orders: seq<Order>, o: Order)
    requires QueueOk(queue, counter, orders, o.key)
    ensures QueueOk(queue + [Ticket(counter + 1, |orders|)], counter + 1, orders + [o], o.key)
  {
  }

  lemma {:induction false} QueueSame(queue: seq<Ticket>, counter: nat, orders: seq<Order>, orders': seq<Order>, key: TrainDay)
    requires QueueOk(queue, counter, orders, key) && |orders| <= |orders'|
    requires forall i :: 0 <= i < |orders| ==> orders'[i].key == orders[i].key
    ensures QueueOk(queue, counter, orders', key)
  {
  }

  lemma {:induction false} HistoryMore(history: map<User, seq<nat>>, orders: seq<Order>, o: Order, user: User)
    requires HistoryOk(history, orders) && user in history
    ensures HistoryOk(history[user := history[user] + [|orders|]], orders + [o])
  {
  }

  /** Pending orders keep waiting while orders and records are added. */
  lemma {:induction false} WaitingMore(queues: map<TrainDay, seq<Ticket>>, orders: seq<Order>, queues': map<TrainDay, seq<Ticket>>,
                                       orders': seq<Order>)
    requires Waiting(queues, orders) && |orders| <= |orders'|
    requires forall i :: 0 <= i < |orders| && orders'[i].status == Pending ==> orders[i] == orders'[i]
    requires forall key :: key in queues ==> key in queues' && queues[key] <= queues'[key]
    requires forall i: nat :: |orders| <= i < |orders'| && orders'[i].status == Pending ==>
               orders'[i].key in queues' && InQueue(queues'[orders'[i].key], i)
    ensures Waiting(queues', orders')
  {
    forall i: nat | i < |orders'| && orders'[i].status == Pending
      ensures orders'[i].key in queues' && InQueue(queues'[orders'[i].key], i)
    {
      if i < |orders| {
        assert InQueue(queues[orders[i].key], i);
        var j :| 0 <= j < |queues[orders[i].key]| && queues[orders[i].key][j].order == i;
        assert queues'[orders[i].key][j].order == i;
      }
    }
  }

  lemma {:induction false} WaitingOne(queues: map<TrainDay, seq<Ticket>>, orders: seq<Order>, o: Order, c: nat)
    requires Waiting(queues, orders) && o.key in queues
    ensures Waiting(queues[o.key := queues[o.key] + [Ticket(c, |orders|)]], orders + [o])
  {
    var qs: map<TrainDay, seq<Ticket>> := queues[o.key := queues[o.key] + [Ticket(c, |orders|)]];
    assert qs[o.key][|queues[o.key]|].order == |orders|;
    WaitingMore(queues, orders, qs, orders + [o]);
  }

  /** A pending order that does not fit joins the queue. */
  lemma {:induction false} OrderQueued(seats: Ledger, total: map<TrainDay, nat>, queues: map<TrainDay, seq<Ticket>>,
                                       counters: map<TrainDay, nat>, orders: seq<Order>, history: map<User, seq<nat>>,
                                       o: Order, user: User)
    requires Sound(seats, total, queues, counters, orders, history) && user in history && OrderOk(o, seats)
    requires o.status == Pending && !Fits(seats[o.key], o)
    ensures o.key in counters && o.key in queues
    ensures
      var c := counters[o.key] + 1;
      Sound(seats, total, queues[o.key := queues[o.key] + [Ticket(c, |orders|)]], counters[o.key := c], orders + [o],
            history[user := history[user] + [|orders|]])
  {
    hide AllConserved, QueuesOk, Waiting, HistoryOk, OrdersOk, NoneFits, Fits;
    QueueKnown(seats, queues, counters, orders, o.key);
    NoneFitsMore(seats, orders, o);
    WaitingOne(queues, orders, o, counters[o.key] + 1);
    HistoryMore(history, orders, o, user);
    ConservedMore(seats, total, orders, o);
    QueuesMore(seats, queues, counters, orders, o);
  }

  lemma QueueKnown(seats: Ledger, queues: map<TrainDay, seq<Ticket>>, counters: map<TrainDay, nat>, orders: seq<Order>, key: TrainDay)
    requires QueuesOk(seats, queues, counters, orders) && key in seats
    ensures key in queues && key in counters
  {
  }

  lemma {:induction false} ConservedMore(seats: Ledger, total: map<TrainDay, nat>, orders: seq<Order>, o: Order)
    requires AllConserved(seats, total, orders) && o.status != Success
    ensures AllConserved(seats, total, orders + [o])
  {
    hide Conserved;
    forall key | key in seats ensures Conserved(seats[key], total[key], orders + [o], key) {
      NewConserves(seats[key], total[key], orders, key, o);
    }
  }

  lemma {:induction false} QueuesMore(seats: Ledger, queues: map<TrainDay, seq<Ticket>>, counters: map<TrainDay, nat>,
                                      orders: seq<Order>, o: Order)
    requires QueuesOk(seats, queues, counters, orders) && o.key in seats && o.key in queues && o.key in counters
    ensures
      var c := counters[o.key] + 1;
      QueuesOk(seats, queues[o.key := queues[o.key] + [Ticket(c, |orders|)]], counters[o.key := c], orders + [o])
  {
    hide QueueOk;
    QueueMore(queues[o.key], counters[o.key], orders, o);
    forall key | key in seats && key != o.key ensures QueueOk(queues[key], counters[key], orders + [o], key) {
      QueueSame(queues[key], counters[key], orders, orders + [o], key);
    }
  }

  lemma {:induction false} NoneFitsMore(seats: Ledger, orders: seq<Order>, o: Order)
    requires OrdersOk(orders, seats) && NoneFits(seats, orders) && OrderOk(o, seats)
    requires o.status == Pending ==> !Fits(seats[o.key], o)
    ensures OrdersOk(orders + [o], seats) && NoneFits(seats, orders + [o])
  {
    hide Fits;
    forall i: nat | i < |orders + [o]| ensures OrderOk((orders + [o])[i], seats) {
      assert i < |orders| ==> OrderOk(orders[i], seats);
    }
  }

  /** The ledger after an order has taken its seats. */
  function Booked(seats: Ledger, o: Order): Ledger
    requires OrderOk(o, seats)
  {
    seats[o.key := Changed(seats[o.key], o.from, o.to, 0 - o.num)]
  }

  /** A successful order takes its seats. */
  lemma {:induction false} OrderBought(seats: Ledger, total: map<TrainDay, nat>, queues: map<TrainDay, seq<Ticket>>,
                                       counters: map<TrainDay, nat>, orders: seq<Order>, history: map<User, seq<nat>>,
                                       o: Order, user: User)
    requires Sound(seats, total, queues, counters, orders, history) && user in history && OrderOk(o, seats)
    requires o.status == Success && Fits(seats[o.key], o)
    ensures Sound(Booked(seats, o), total, queues, counters, orders + [o], history[user := history[user] + [|orders|]])
  {
    hide Conserved, AllConserved, QueuesOk, Fits, Waiting, HistoryOk, OrdersOk, NoneFits, Booked;
    BoughtConserves(seats, total, orders, o);
    SettledMore(seats, queues, counters, orders, o, Booked(seats, o));
    BoughtUnfit(seats, orders, o);
    HistoryMore(history, orders, o, user);
  }

  lemma {:induction false} BoughtConserves(seats: Ledger, total: map<TrainDay, nat>, orders: seq<Order>, o: Order)
    requires AllConserved(seats, total, orders) && OrderOk(o, seats) && o.status == Success && Fits(seats[o.key], o)
    ensures AllConserved(Booked(seats, o), total, orders + [o])
    ensures Booked(seats, o).Keys == seats.Keys
  {
    hide Conserved, Fits;
    var ss := Booked(seats, o);
    forall key | key in ss ensures Conserved(ss[key], total[key], orders + [o], key) {
      NewConserves(seats[key], total[key], orders, key, o);
    }
  }

  lemma {:induction false} BoughtUnfit(seats: Ledger, orders: seq<Order>, o: Order)
    requires OrdersOk(orders, seats) && NoneFits(seats, orders) && OrderOk(o, seats) && o.status == Success
    ensures OrdersOk(orders + [o], Booked(seats, o)) && NoneFits(Booked(seats, o), orders + [o])
  {
    hide Fits;
    var os, ss := orders + [o], Booked(seats, o);
    forall i | 0 <= i < |os| ensures OrderOk(os[i], ss) {
      assert i < |orders| ==> OrderOk(orders[i], seats);
    }
    forall i: nat | i < |os| && os[i].status == Pending ensures !Fits(ss[os[i].key], os[i]) {
      StillUnfit(seats[orders[i].key], ss[orders[i].key], orders[i]);
    }
  }

  /** An order that does not wait. */
  lemma {:induction false} SettledMore(seats: Ledger, queues: map<TrainDay, seq<Ticket>>, counters: map<TrainDay, nat>,
                                       orders: seq<Order>, o: Order, seats': Ledger)
    requires QueuesOk(seats, queues, counters, orders) && Waiting(queues, orders) && o.status != Pending
    requires seats'.Keys == seats.Keys
    ensures QueuesOk(seats', queues, counters, orders + [o]) && Waiting(queues, orders + [o])
  {
    hide QueueOk;
    WaitingMore(queues, orders, queues, orders + [o]);
    forall key | key in seats ensures QueueOk(queues[key], counters[key], orders + [o], key) {
      QueueSame(queues[key], counters[key], orders, orders + [o], key);
    }
  }

  lemma StillUnfit(before: seq<int>, after: seq<int>, o: Order)
    requires Within(o, |before|) && |before| == |after| && !Fits(before, o) && forall s :: 0 <= s < |before| ==> after[s] <= before[s]
    ensures !Fits(after, o)
  {
    var s: nat :| Tested(o.from, o.to, s) && o.num > before[s];
    assert after[s] <= before[s];
  }

  /** What holds while the queue of `key` is being swept: its pending orders may fit. */
  ghost predicate SoundBut(seats: Ledger, total: map<TrainDay, nat>, queues: map<TrainDay, seq<Ticket>>,
                           counters: map<TrainDay, nat>, orders: seq<Order>, history: map<User, seq<nat>>, key: TrainDay) {
    && OrdersOk(orders, seats) && AllConserved(seats, total, orders)
    && QueuesOk(seats, queues, counters, orders) && Waiting(queues, orders) && HistoryOk(history, orders) && key in seats
    && forall i: nat :: i < |orders| && orders[i].status == Pending && orders[i].key != key ==>
         OrderOk(orders[i], seats) && !Fits(seats[orders[i].key], orders[i])
  }

  /**
   Which order a refund names, counting back from the user's newest, and whether
   it is refunded: once, and only if the user is logged in and has so many.
   */
  ghost predicate Refunds(ok: bool, idx: nat, isOnline: bool, history: seq<nat>, orders: seq<Order>, n: int) {
    && (ok ==> idx < |orders| && orders[idx].status != Refunded && n <= |history| && history != []
               && idx == history[|history| - if n < 1 then 1 else n])
    && (!ok && isOnline && n <= |history| && history != [] ==>
          && history[|history| - if n < 1 then 1 else n] < |orders|
          && orders[history[|history| - if n < 1 then 1 else n]].status == Refunded)
    && (ok ==> isOnline)
  }

  /** What a refund leaves. */
  ghost predicate RefundedAt(seats: Ledger, orders: seq<Order>, queues: map<TrainDay, seq<Ticket>>, idx: nat,
                             seats': Ledger, orders': seq<Order>, queues': map<TrainDay, seq<Ticket>>)
    requires idx < |orders|
  {
    var o, os := orders[idx], orders[idx := orders[idx].(status := Refunded)];
    if o.status != Success then orders' == os && seats' == seats && queues' == queues
    else
      && o.key in seats && o.key in queues && Within(o, |seats[o.key]|)
      && var free := Changed(seats[o.key], o.from, o.to, o.num);
         && Scannable(free, os, queues[o.key]) && o.key in seats' && o.key in queues'
         && Swept(free, os, queues[o.key], |queues[o.key]|, seats'[o.key], orders', queues'[o.key])
         && seats' == seats[o.key := seats'[o.key]] && queues' == queues[o.key := queues'[o.key]]
  }

  lemma {:induction false} WithoutOk(queue: seq<Ticket>, counter: nat, orders: seq<Order>, key: TrainDay, j: nat)
    requires QueueOk(queue, counter, orders, key) && j < |queue|
    ensures QueueOk(WithoutId(queue, queue[j].id), counter, orders, key)
    ensures forall k :: InQueue(queue, k) && k != queue[j].order ==> InQueue(WithoutId(queue, queue[j].id), k)
  {
    WithoutAt(queue, j);
    var left := WithoutId(queue, queue[j].id);
    assert forall i {:trigger left[i]} :: 0 <= i < |left| ==> left[i] == queue[if i < j then i else i + 1];
    forall k | InQueue(queue, k) && k != queue[j].order ensures InQueue(left, k) {
      var i :| 0 <= i < |queue| && queue[i].order == k;
      assert left[if i < j then i else i - 1].order == k;
    }
  }

  /** A record whose order is not pending may be dropped. */
  lemma {:induction false} DropSound(seats: Ledger, total: map<TrainDay, nat>, queues: map<TrainDay, seq<Ticket>>,
                                     counters: map<TrainDay, nat>, orders: seq<Order>, history: map<User, seq<nat>>,
                                     key: TrainDay, j: nat)
    requires SoundBut(seats, total, queues, counters, orders, history, key) && key in queues && j < |queues[key]|
    requires queues[key][j].order < |orders| && orders[queues[key][j].order].status != Pending
    ensures SoundBut(seats, total, queues[key := WithoutId(queues[key], queues[key][j].id)], counters, orders, history, key)
  {
    var qs := queues[key := WithoutId(queues[key], queues[key][j].id)];
    hide AllConserved, Fits, HistoryOk, OrdersOk;
    WithoutOk(queues[key], counters[key], orders, key, j);
    hide QueueOk, InQueue;
    forall k | k in seats ensures QueueOk(qs[k], counters[k], orders, k) {
      assert QueueOk(queues[k], counters[k], orders, k);
    }
    forall i: nat | i < |orders| && orders[i].status == Pending ensures orders[i].key in qs && InQueue(qs[orders[i].key], i) {
      assert InQueue(queues[orders[i].key], i);
    }
  }

  /** A pending order that fits may be granted. */
  lemma {:induction false} GrantSound(seats: Ledger, total: map<TrainDay, nat>, queues: map<TrainDay, seq<Ticket>>,
                                      counters: map<TrainDay, nat>, orders: seq<Order>, history: map<User, seq<nat>>,
                                      key: TrainDay, k: nat)
    requires SoundBut(seats, total, queues, counters, orders, history, key) && k < |orders| && orders[k].key == key
    requires Within(orders[k], |seats[key]|) && orders[k].status == Pending && Fits(seats[key], orders[k])
    ensures SoundBut(seats[key := Changed(seats[key], orders[k].from, orders[k].to, 0 - orders[k].num)], total, queues,
                     counters, orders[k := orders[k].(status := Success)], history, key)
  {
    var o := orders[k];
    var os, ss := orders[k := o.(status := Success)], seats[key := Changed(seats[key], o.from, o.to, 0 - o.num)];
    StatusSound(seats, ss, total, queues, counters, orders, history, key, k, Success);
    hide Conserved, Fits, QueuesOk, Waiting, HistoryOk, OrdersOk;
    forall g | g in ss ensures Conserved(ss[g], total[g], os, g) {
      if g == key {
        GrantConserves(seats[key], total[key], orders, key, k);
      } else {
        OtherConserves(seats[g], total[g], orders, g, k, os[k]);
      }
    }
  }

  /** A change of status keeps all but the seats. */
  lemma {:induction false} StatusSound(seats: Ledger, ss: Ledger, total: map<TrainDay, nat>, queues: map<TrainDay, seq<Ticket>>,
                                       counters: map<TrainDay, nat>, orders: seq<Order>, history: map<User, seq<nat>>,
                                       key: TrainDay, k: nat, status: Status)
    requires SoundBut(seats, total, queues, counters, orders, history, key) && k < |orders| && orders[k].key == key
    requires status != Pending && ss.Keys == seats.Keys && |ss[key]| == |seats[key]|
    requires forall g :: g in seats && g != key ==> ss[g] == seats[g]
    ensures
      var os := orders[k := orders[k].(status := status)];
      && OrdersOk(os, ss) && QueuesOk(ss, queues, counters, os) && Waiting(queues, os) && HistoryOk(history, os) && key in ss
      && forall i: nat :: i < |os| && os[i].status == Pending && os[i].key != key ==>
           OrderOk(os[i], ss) && !Fits(ss[os[i].key], os[i])
  {
    var os := orders[k := orders[k].(status := status)];
    hide Conserved, Fits, InQueue;
    forall i | 0 <= i < |os| ensures OrderOk(os[i], ss) {
      assert OrderOk(orders[i], seats);
    }
    forall g | g in ss ensures QueueOk(queues[g], counters[g], os, g) {
      QueueSame(queues[g], counters[g], orders, os, g);
    }
    forall i: nat | i < |os| && os[i].status == Pending ensures os[i].key in queues && InQueue(queues[os[i].key], i) {
      assert orders[i] == os[i];
    }
    forall i: nat | i < |os| && os[i].status == Pending && os[i].key != key
      ensures OrderOk(os[i], ss) && !Fits(ss[os[i].key], os[i])
    {
      assert orders[i] == os[i] && OrderOk(orders[i], seats);
    }
  }

  lemma SoundIsSoundBut(seats: Ledger, total: map<TrainDay, nat>, queues: map<TrainDay, seq<Ticket>>,
                        counters: map<TrainDay, nat>, orders: seq<Order>, history: map<User, seq<nat>>, key: TrainDay)
    requires Sound(seats, total, queues, counters, orders, history) && key in seats
    ensures SoundBut(seats, total, queues, counters, orders, history, key)
  {
  }

  /** A pending order is refunded; its queue record stays behind. */
  lemma {:induction false} PendingRefunded(seats: Ledger, total: map<TrainDay, nat>, queues: map<TrainDay, seq<Ticket>>,
                                           counters: map<TrainDay, nat>, orders: seq<Order>, history: map<User, seq<nat>>,
                                           k: nat)
    requires Sound(seats, total, queues, counters, orders, history) && k < |orders| && orders[k].status == Pending
    ensures Sound(seats, total, queues, counters, orders[k := orders[k].(status := Refunded)], history)
  {
    var key, os := orders[k].key, orders[k := orders[k].(status := Refunded)];
    assert OrderOk(orders[k], seats);
    SoundIsSoundBut(seats, total, queues, counters, orders, history, key);
    StatusSound(seats, seats, total, queues, counters, orders, history, key, k, Refunded);
    hide Fits, QueueOk, InQueue;
    forall g | g in seats ensures Conserved(seats[g], total[g], os, g) {
      OtherConserves(seats[g], total[g], orders, g, k, os[k]);
    }
    forall i: nat | i < |os| && os[i].status == Pending ensures !Fits(seats[os[i].key], os[i]) {
      assert orders[i] == os[i];
    }
  }

  /** A successful order is refunded; until the sweep pending orders of its train and day may fit. */
  lemma {:induction false} SuccessRefunded(seats: Ledger, total: map<TrainDay, nat>, queues: map<TrainDay, seq<Ticket>>,
                                           counters: map<TrainDay, nat>, orders: seq<Order>, history: map<User, seq<nat>>,
                                           k: nat)
    requires Sound(seats, total, queues, counters, orders, history) && k < |orders| && orders[k].status == Success
    ensures OrderOk(orders[k], seats) && orders[k].key in seats && orders[k].from <= orders[k].to <= |seats[orders[k].key]|
    ensures
      var o := orders[k];
      SoundBut(seats[o.key := Changed(seats[o.key], o.from, o.to, o.num)], total, queues, counters,
               orders[k := o.(status := Refunded)], history, o.key)
  {
    var o := orders[k];
    var key, os := o.key, orders[k := o.(status := Refunded)];
    assert OrderOk(o, seats);
    var ss := seats[key := Changed(seats[key], o.from, o.to, o.num)];
    SoundIsSoundBut(seats, total, queues, counters, orders, history, key);
    StatusSound(seats, ss, total, queues, counters, orders, history, key, k, Refunded);
    forall g | g in ss ensures Conserved(ss[g], total[g], os, g) {
      if g == key {
        RefundConserves(seats[key], total[key], orders, key, k);
      } else {
        OtherConserves(seats[g], total[g], orders, g, k, os[k]);
      }
    }
  }

  /** The queue of a train-day on sale can be scanned. */
  lemma {:induction false} CanScan(seats: Ledger, total: map<TrainDay, nat>, queues: map<TrainDay, seq<Ticket>>,
                                   counters: map<TrainDay, nat>, orders: seq<Order>, history: map<User, seq<nat>>,
                                   key: TrainDay)
    requires SoundBut(seats, total, queues, counters, orders, history, key)
    ensures key in seats && key in queues && Scannable(seats[key], orders, queues[key])
  {
    hide Conserved, Waiting, HistoryOk, InQueue;
    assert QueueOk(queues[key], counters[key], orders, key);
    forall i | 0 <= i < |queues[key]|
      ensures queues[key][i].order < |orders|
      ensures Within(orders[queues[key][i].order], |seats[key]|)
    {
      assert OrderOk(orders[queues[key][i].order], seats);
    }
  }

  lemma {:induction false} PendingRefundedAt(seats: Ledger, orders: seq<Order>, queues: map<TrainDay, seq<Ticket>>, idx: nat)
    requires idx < |orders| && orders[idx].status == Pending
    ensures
      var os := orders[idx := orders[idx].(status := Refunded)];
      RefundedAt(seats, orders, queues, idx, seats, os, queues) && Advanced(orders, os)
  {
  }

  lemma {:induction false} SuccessRefundedAt(seats: Ledger, orders: seq<Order>, queues: map<TrainDay, seq<Ticket>>, idx: nat,
                                             seats': Ledger, orders': seq<Order>, queues': map<TrainDay, seq<Ticket>>)
    requires idx < |orders| && orders[idx].status == Success
    requires
      var o, os := orders[idx], orders[idx := orders[idx].(status := Refunded)];
      && o.key in seats && o.key in queues && Within(o, |seats[o.key]|)
      && var free := Changed(seats[o.key], o.from, o.to, o.num);
         && Scannable(free, os, queues[o.key]) && o.key in seats' && o.key in queues'
         && Swept(free, os, queues[o.key], |queues[o.key]|, seats'[o.key], orders', queues'[o.key])
         && seats' == seats[o.key := seats'[o.key]] && queues' == queues[o.key := queues'[o.key]]
    ensures RefundedAt(seats, orders, queues, idx, seats', orders', queues') && Advanced(orders, orders')
    ensures idx < |orders'| && orders'[idx] == orders[idx].(status := Refunded)
  {
    hide GreedySeats, Marked, Scannable, StillPending;
    var o, os := orders[idx], orders[idx := orders[idx].(status := Refunded)];
    SweepAdvances(Changed(seats[o.key], o.from, o.to, o.num), os, queues[o.key], orders');
    forall k | 0 <= k < |orders| ensures orders'[k] == orders[k].(status := orders'[k].status)
      ensures StatusStep(orders[k].status, orders'[k].status)
    {
      assert k != idx ==> os[k] == orders[k];
    }
  }

  /** Seats that come free go to the first order of the queue, if it is pending and fits them; exactly the pending ones stay. */
  lemma {:induction false} RefundServesFirst(seats: Ledger, orders: seq<Order>, queues: map<TrainDay, seq<Ticket>>, idx: nat,
                                             seats': Ledger, orders': seq<Order>, queues': map<TrainDay, seq<Ticket>>)
    requires idx < |orders| && orders[idx].status == Success
    requires RefundedAt(seats, orders, queues, idx, seats', orders', queues') && queues[orders[idx].key] != []
    ensures
      var o, k := orders[idx], queues[orders[idx].key][0].order;
      var free := Changed(seats[o.key], o.from, o.to, o.num);
      && k < |orders| == |orders'| && Within(orders[k], |free|)
      && (k != idx && orders[k].status == Pending ==> (orders'[k].status == Success <==> Fits(free, orders[k])))
      && o.key in queues' && (forall t :: t in queues'[o.key] <==>
           t in queues[o.key] && t.order < |orders'| && orders'[t.order].status == Pending)
  {
    hide GreedySeats, StillPending;
    var o, os, queue := orders[idx], orders[idx := orders[idx].(status := Refunded)], queues[orders[idx].key];
    var free, k := Changed(seats[o.key], o.from, o.to, o.num), queue[0].order;
    assert queue == [queue[0]] + queue[1..] && queue[0] in queue;
    assert queue[..|queue|] == queue && queue[|queue|..] == [];
    assert StillPending(queue, orders') + [] == StillPending(queue, orders');
    GreedyFirst(free, os, queue[0], queue[1..]);
    assert orders'[queue[0].order] == os[k].(status := GreedyStatus(free, os, queue, 0));
  }

  /** After the sweep no pending order fits. */
  lemma {:induction false} SweepDone(seats: Ledger, total: map<TrainDay, nat>, queues: map<TrainDay, seq<Ticket>>,
                                     counters: map<TrainDay, nat>, orders: seq<Order>, history: map<User, seq<nat>>,
                                     key: TrainDay, free: seq<int>, os: seq<Order>, queue: seq<Ticket>)
    requires SoundBut(seats, total, queues, counters, orders, history, key) && key in queues
    requires Scannable(free, os, queue) && Swept(free, os, queue, |queue|, seats[key], orders, queues[key])
    requires |free| == |seats[key]|
    ensures Sound(seats, total, queues, counters, orders, history)
  {
    assert queue[..|queue|] == queue && queue[|queue|..] == [];
    forall i: nat | i < |orders| && orders[i].status == Pending && orders[i].key == key
      ensures OrderOk(orders[i], seats) && !Fits(seats[key], orders[i])
    {
      assert OrderOk(orders[i], seats) && InQueue(queues[key], i);
      var j :| 0 <= j < |queues[key]| && queues[key][j].order == i;
      assert queues[key][j] in StillPending(queue, orders);
      var n :| 0 <= n < |queue| && queue[n] == queues[key][j];
      assert orders[queue[n].order] == os[queue[n].order].(status := GreedyStatus(free, os, queue, n));
      LeftUnfit(free, os, queue, n);
    }
  }

  /** The next record of the sweep: its order is as it was, and the record is still in the queue. */
  lemma {:induction false} OrderAt(seats: Ledger, total: map<TrainDay, nat>, queues: map<TrainDay, seq<Ticket>>,
                                   counters: map<TrainDay, nat>, orders: seq<Order>, history: map<User, seq<nat>>,
                                   key: TrainDay, free: seq<int>, os: seq<Order>, queue: seq<Ticket>, i: nat, now: seq<int>)
    returns (place: nat)
    requires SoundBut(seats, total, queues, counters, orders, history, key) && key in queues
    requires Scannable(free, os, queue) && i < |queue| && Swept(free, os, queue, i, now, orders, queues[key])
    requires |free| == |seats[key]|
    ensures place < |queues[key]| && queues[key][place] == queue[i]
    ensures queue[i].order < |orders| == |os| && orders[queue[i].order] == os[queue[i].order]
    ensures orders[queue[i].order].key == key && Within(orders[queue[i].order], |free|)
    ensures orders[queue[i].order].from <= orders[queue[i].order].to <= |free| && orders[queue[i].order].from < |free|
  {
    hide Conserved, Fits, GreedySeats, GreedyStatus;
    assert queue[i] in queue;
    place := |StillPending(queue[..i], orders)|;
    assert queues[key][place] == queue[i];
    assert QueueOk(queues[key], counters[key], orders, key);
    forall j | 0 <= j < i ensures queue[..i][j].order != queue[i].order {
      assert queue[j].order != queue[i].order;
    }
  }

  /**
   What a buyer is told: bought if every segment of the way has the seats, or if
   there is no way and the next segment has them; otherwise queued, if the buyer
   accepts that and the train could ever hold the order.
   */
  ghost predicate Answers(reply: Reply, row: seq<int>, from: nat, to: nat, num: nat, isOnline: bool, acceptQueue: bool, total: nat)
    requires from <= to <= |row| && from < |row|
  {
    && (from < to ==> (reply.Bought? <==> isOnline && forall n :: n in row[from..to] ==> num <= n))
    && (from == to ==> (reply.Bought? <==> isOnline && num <= row[from]))
    && (reply.Queued? <==> isOnline && !reply.Bought? && acceptQueue && num <= total)
  }

  /** The loop starts with the first segment, whether it is on the way or not. */
  method AvailableSeats(seats: seq<int>, from: nat, to: nat) returns (least: int)
    requires from <= to <= |seats| && from < |seats|
    ensures IsLeast(seats, from, to, least)
    ensures if from < to then least in seats[from..to] && forall n :: n in seats[from..to] ==> least <= n else least == seats[from]
  {
    least := seats[from];
    assert Tested(from, to, from);
    var j := from + 1;
    while j < to
      invariant from < j && (j <= to || j == from + 1)
      invariant forall s: nat :: s < j && Tested(from, to, s) ==> least <= seats[s]
      invariant exists s: nat :: Tested(from, to, s) && seats[s] == least
    {
      assert Tested(from, to, j);
      least := if seats[j] < least then seats[j] else least;
      j := j + 1;
    }
    LeastIs(seats, from, to, least);
  }

  method TotalPrice(prices: seq<nat>, from: nat, to: nat) returns (total: nat)
    requires from <= to <= |prices|
    ensures total == T.Sum(prices[from..to])
  {
    total := 0;
    var j := from;
    while j < to
      invariant from <= j <= to && total == T.Total(prices, from, j)
    {
      total := total + prices[j];
      j := j + 1;
    }
    T.TotalIs(prices, from, to);
  }

  method ChangeSeats(seats: seq<int>, from: nat, to: nat, delta: int) returns (r: seq<int>)
    requires from <= to <= |seats|
    ensures r == Changed(seats, from, to, delta)
    ensures |r| == |seats| && forall s :: 0 <= s < |r| ==> r[s] == seats[s] + if from <= s < to then delta else 0
  {
    r := seats;
    var j := from;
    while j < to
      invariant from <= j <= to && |r| == |seats|
      invariant forall s :: 0 <= s < |r| ==> r[s] == seats[s] + if from <= s < j then delta else 0
    {
      r := r[j := r[j] + delta];
      j := j + 1;
    }
  }

  class BookingEngine {
    var seats: Ledger
    var total: map<TrainDay, nat>
    var orders: seq<Order>
    var queues: map<TrainDay, seq<Ticket>>
    var counters: map<TrainDay, nat>
    var records: seq<H.Record>
    ghost var history: map<User, seq<nat>>
    var online: set<User>

    ghost predicate Valid()
      reads this
    {
      && Sound(seats, total, queues, counters, orders, history) && H.Indexes(records, history)
      && forall u :: u in online ==> u in history
    }

    constructor ()
      ensures Valid() && orders == [] && seats == map[] && history == map[]
    {
      seats, total, orders, queues, counters, records, history, online := map[], map[], [], map[], map[], [], map[], {};
    }

    /** A registered user, with an empty history. */
    method AddUser(u: User)
      requires Valid() && u !in history
      modifies this`records, this`history
      ensures Valid() && history == old(history)[u := []]
    {
      records := H.PrepareUserInfo(records, u, history);
      history := history[u := []];
    }

    method Login(u: User)
      requires Valid() && u in history
      modifies this`online
      ensures Valid() && online == old(online) + {u}
    {
      online := online + {u};
    }

    /** A train on one day: all its segments are free, and nobody waits. */
    method PutOnSale(key: TrainDay, segments: nat, seatNum: nat)
      requires Valid() && key !in seats
      modifies this`seats, this`total, this`queues, this`counters
      ensures Valid() && key in seats && seats == old(seats)[key := seats[key]] && |seats[key]| == segments
      ensures forall s :: 0 <= s < segments ==> seats[key][s] == seatNum
      ensures total == old(total)[key := seatNum]
    {
      hide Sound;
      ghost var before, tot, qs, cs := seats, total, queues, counters;
      var free := [];
      var i := 0;
      while i < segments
        invariant 0 <= i <= segments && |free| == i && forall s :: 0 <= s < i ==> free[s] == seatNum
      {
        free := free + [seatNum];
        i := i + 1;
      }
      seats := seats[key := free];
      total := total[key := seatNum];
      queues := queues[key := []];
      counters := counters[key := 0];
      OnSale(before, tot, qs, cs, orders, history, key, free, seatNum);
    }

    static lemma {:induction false} OnSale(before: Ledger, tot: map<TrainDay, nat>, qs: map<TrainDay, seq<Ticket>>,
                                           cs: map<TrainDay, nat>, orders: seq<Order>, history: map<User, seq<nat>>,
                                           key: TrainDay, free: seq<int>, n: nat)
      requires Sound(before, tot, qs, cs, orders, history) && key !in before
      requires forall s :: 0 <= s < |free| ==> free[s] == n
      ensures Sound(before[key := free], tot[key := n], qs[key := []], cs[key := 0], orders, history)
    {
      forall i | 0 <= i < |orders| ensures orders[i].key != key && OrderOk(orders[i], before[key := free]) {
        assert OrderOk(orders[i], before);
      }
      forall s: nat | s < |free| ensures Taken(orders, key, s, |orders|) == 0 {
        NothingTaken(orders, key, s, |orders|);
      }
      forall i: nat | i < |orders| && orders[i].status == Pending
        ensures !Fits(before[key := free][orders[i].key], orders[i])
      {
        assert !Fits(before[orders[i].key], orders[i]);
      }
    }

    static lemma {:induction false} NothingTaken(orders: seq<Order>, key: TrainDay, s: nat, n: nat)
      requires n <= |orders| && forall i :: 0 <= i < |orders| ==> orders[i].key != key
      ensures Taken(orders, key, s, n) == 0
    {
      if n > 0 {
        NothingTaken(orders, key, s, n - 1);
      }
    }

    /**
     A new order on record: the newest of its user's history and, if it is
     pending, the last of its queue. Queues, waiting orders and histories stay in order.
     */
    method AddOrder(o: Order, user: User)
      requires QueuesOk(seats, queues, counters, orders) && Waiting(queues, orders) && HistoryOk(history, orders)
      requires H.Indexes(records, history) && o.key in seats && user in history && |history[user]| + 1 < H.SPECIAL_ID
      modifies this`orders, this`queues, this`counters, this`records, this`history
      ensures QueuesOk(seats, queues, counters, orders) && Waiting(queues, orders) && HistoryOk(history, orders)
      ensures H.Indexes(records, history) && orders == old(orders) + [o]
      ensures history == old(history)[user := old(history)[user] + [|old(orders)|]]
      ensures o.status != Pending ==> queues == old(queues) && counters == old(counters)
      ensures o.status == Pending ==> o.key in old(queues) && o.key in old(counters)
      ensures o.status == Pending ==> counters == old(counters)[o.key := old(counters)[o.key] + 1]
      ensures o.status == Pending ==>
                queues == old(queues)[o.key := old(queues)[o.key] + [Ticket(counters[o.key], |old(orders)|)]]
    {
      hide QueuesOk, Waiting, HistoryOk, H.Indexes;
      QueueKnown(seats, queues, counters, orders, o.key);
      HistoryMore(history, orders, o, user);
      var id := |orders|;
      records := H.AddToHistory(records, user, id, history);
      history := history[user := history[user] + [id]];
      if o.status == Pending {
        WaitingOne(queues, orders, o, counters[o.key] + 1);
        QueuesMore(seats, queues, counters, orders, o);
        var newId := counters[o.key] + 1;
        counters := counters[o.key := newId];
        queues := queues[o.key := queues[o.key] + [Ticket(newId, id)]];
      } else {
        SettledMore(seats, queues, counters, orders, o, seats);
      }
      orders := orders + [o];
    }

    /**
     Buys at once if there is room on every segment; otherwise queues the order,
     if the buyer accepts that and the train could ever hold it.
     */
    method BuyTicket(user: User, key: TrainDay, from: nat, to: nat, num: nat, prices: seq<nat>, acceptQueue: bool)
      returns (reply: Reply)
      requires Valid() && key in seats && from <= to <= |seats[key]| && from < |seats[key]| == |prices|
      requires user in online ==> |history[user]| + 1 < H.SPECIAL_ID
      modifies this`seats, this`orders, this`queues, this`counters, this`records, this`history
      ensures Valid() && key in total && Advanced(old(orders), orders)
      ensures Answers(reply, old(seats)[key], from, to, num, user in online, acceptQueue, total[key])
      ensures reply.Bought? ==> reply.price == T.Sum(prices[from..to]) * num && queues == old(queues)
      ensures reply.Bought? ==> orders == old(orders) + [Order(key, from, to, num, T.Sum(prices[from..to]) * num, Success)]
      ensures reply.Bought? ==> seats == old(seats)[key := Changed(old(seats)[key], from, to, 0 - num)]
      ensures reply.Queued? ==> orders == old(orders) + [Order(key, from, to, num, T.Sum(prices[from..to]) * num, Pending)]
      ensures reply.Queued? ==> seats == old(seats) && key in queues && key in counters
      ensures reply.Queued? ==>
                queues == old(queues)[key := old(queues)[key] + [Ticket(counters[key], |old(orders)|)]]
      ensures reply.Rejected? ==> orders == old(orders) && seats == old(seats) && queues == old(queues) && history == old(history)
      ensures !reply.Rejected? ==> user in old(history) && history == old(history)[user := old(history)[user] + [|old(orders)|]]
    {
      hide Sound, QueuesOk, Waiting, HistoryOk, H.Indexes;
      KeyKnown(seats, total, queues, counters, orders, history, key);
      if user !in online {
        return Rejected;
      }
      var price := TotalPrice(prices, from, to);
      price := price * num;
      var o := Order(key, from, to, num, price, Pending);
      var available := AvailableSeats(seats[key], from, to);
      GrantedIff(seats[key], o, available);
      if num > available {
        if !acceptQueue || num > total[key] {
          return Rejected;
        }
        OrderQueued(seats, total, queues, counters, orders, history, o, user);
        AddOrder(o, user);
        return Queued;
      }
      o := o.(status := Success);
      OrderBought(seats, total, queues, counters, orders, history, o, user);
      AddOrder(o, user);
      var left := ChangeSeats(seats[key], from, to, 0 - num);
      seats := seats[key := left];
      return Bought(price);
    }

    static lemma KeyKnown(seats: Ledger, total: map<TrainDay, nat>, queues: map<TrainDay, seq<Ticket>>,
                          counters: map<TrainDay, nat>, orders: seq<Order>, history: map<User, seq<nat>>, key: TrainDay)
      requires Sound(seats, total, queues, counters, orders, history) && key in seats
      ensures key in total && key in queues && key in counters
      ensures QueuesOk(seats, queues, counters, orders) && Waiting(queues, orders) && HistoryOk(history, orders)
    {
    }

    /**
     Refunds the `n`th most recent order of a user: once, and whether it had got
     its seats or not. Seats that come free are offered to the queue.
     */
    method RefundTicket(user: User, n: int) returns (ok: bool, ghost idx: nat)
      requires Valid() && (user in online ==> |history[user]| - n + 1 < 0x8000_0000 && (history[user] != [] || 1 <= n))
      modifies this`seats, this`orders, this`queues
      ensures Valid() && Advanced(old(orders), orders) && history == old(history)
      ensures Refunds(ok, idx, user in online, if user in history then history[user] else [], old(orders), n)
      ensures !ok ==> orders == old(orders) && seats == old(seats) && queues == old(queues)
      ensures ok ==> idx < |old(orders)| && RefundedAt(old(seats), old(orders), old(queues), idx, seats, orders, queues)
      ensures ok ==> idx < |orders| && orders[idx] == old(orders)[idx].(status := Refunded)
    {
      hide *;
      Parts();
      Unmoved(orders);
      HistoryKnown(seats, total, queues, counters, orders, history);
      NoRefund(false, if user in history then history[user] else [], orders, n);
      if user !in online {
        return false, 0;
      }
      var success, place := H.FetchSingleUserOrderHistory(records, user, n, history);
      if !success {
        NoRefund(true, history[user], orders, n);
        return false, 0;
      }
      idx := place;
      RefundsIs(idx, history[user], orders, n);
      var o := orders[place];
      if o.status == Refunded {
        return false, idx;
      }
      if o.status == Pending {
        PendingRefunded(seats, total, queues, counters, orders, history, idx);
        PendingRefundedAt(seats, orders, queues, idx);
        orders := orders[place := o.(status := Refunded)];
        Parts();
        return true, idx;
      }
      SuccessRefunded(seats, total, queues, counters, orders, history, idx);
      orders := orders[place := o.(status := Refunded)];
      var freed := ChangeSeats(seats[o.key], o.from, o.to, o.num);
      CanScan(seats[o.key := freed], total, queues, counters, orders, history, o.key);
      Sweep(o.key, freed);
      SuccessRefundedAt(old(seats), old(orders), old(queues), idx, seats, orders, queues);
      Parts();
      return true, idx;
    }

    static lemma RefundsIs(idx: nat, history: seq<nat>, orders: seq<Order>, n: int)
      requires history != [] && n <= |history| && idx < |orders|
      requires idx == history[|history| - if n < 1 then 1 else n]
      ensures orders[idx].status != Refunded ==> Refunds(true, idx, true, history, orders, n)
      ensures orders[idx].status == Refunded ==> Refunds(false, idx, true, history, orders, n)
    {
    }

    static lemma NoRefund(isOnline: bool, history: seq<nat>, orders: seq<Order>, n: int)
      requires !isOnline || history == [] || |history| < n
      ensures Refunds(false, 0, isOnline, history, orders, n)
    {
    }

    static lemma Unmoved(orders: seq<Order>)
      ensures Advanced(orders, orders)
    {
    }

    lemma Parts()
      ensures Valid() <==>
        && Sound(seats, total, queues, counters, orders, history) && H.Indexes(records, history)
        && forall u :: u in online ==> u in history
    {
    }

    static lemma HistoryKnown(seats: Ledger, total: map<TrainDay, nat>, queues: map<TrainDay, seq<Ticket>>,
                              counters: map<TrainDay, nat>, orders: seq<Order>, history: map<User, seq<nat>>)
      requires Sound(seats, total, queues, counters, orders, history)
      ensures forall u :: u in history ==> forall i :: i in history[u] ==> i < |orders|
    {
    }

    /** The queue offered the free seats, first come first served. */
    method Sweep(key: TrainDay, free: seq<int>)
      requires key in seats && key in queues && |free| == |seats[key]| && Scannable(free, orders, queues[key])
      requires SoundBut(seats[key := free], total, queues, counters, orders, history, key)
      modifies this`seats, this`orders, this`queues
      ensures key in seats && key in queues
      ensures Sound(seats, total, queues, counters, orders, history)
      ensures Swept(free, old(orders), old(queues)[key], |old(queues)[key]|, seats[key], orders, queues[key])
      ensures seats == old(seats)[key := seats[key]] && queues == old(queues)[key := queues[key]]
    {
      hide *;
      seats := seats[key := free];
      var seatsData, queue := free, queues[key];
      SweptNone(free, orders, queue);
      assert seats[key := free] == old(seats)[key := free];
      var i := 0;
      while i < |queue|
        invariant 0 <= i <= |queue| && key in queues && queues == old(queues)[key := queues[key]]
        invariant Swept(free, old(orders), queue, i, seatsData, orders, queues[key])
        invariant SoundBut(seats[key := seatsData], total, queues, counters, orders, history, key)
        invariant seats == old(seats)[key := free] && |seatsData| == |free|
      {
        seatsData := SweepOne(key, free, old(orders), queue, i, seatsData);
        i := i + 1;
      }
      seats := seats[key := seatsData];
      SweepDone(seats, total, queues, counters, orders, history, key, free, old(orders), queue);
      assert seats == old(seats)[key := seats[key]];
    }

    /** The record is taken out of the queue. */
    method RemoveOrderFromQueue(key: TrainDay, id: nat)
      requires key in queues
      modifies this`queues
      ensures queues == old(queues)[key := WithoutId(old(queues)[key], id)]
    {
      queues := queues[key := WithoutId(queues[key], id)];
    }

    /** One record of the queue: its order is granted if it is pending and fits; records of settled orders are removed. */
    method SweepOne(key: TrainDay, ghost free: seq<int>, ghost os: seq<Order>, queue: seq<Ticket>, i: nat, seatsData: seq<int>)
      returns (now: seq<int>)
      requires key in seats && key in queues && i < |queue| && Scannable(free, os, queue) && |seatsData| == |free| == |seats[key]|
      requires Swept(free, os, queue, i, seatsData, orders, queues[key])
      requires SoundBut(seats[key := seatsData], total, queues, counters, orders, history, key)
      modifies this`orders, this`queues
      ensures |now| == |free| && key in queues && queues == old(queues)[key := queues[key]]
      ensures Swept(free, os, queue, i + 1, now, orders, queues[key])
      ensures SoundBut(seats[key := now], total, queues, counters, orders, history, key)
    {
      hide *;
      now := seatsData;
      ghost var left, after := queues[key], orders;
      ghost var place := OrderAt(seats[key := seatsData], total, queues, counters, orders, history, key, free, os, queue, i, seatsData);
      var k := queue[i].order;
      var o := orders[k];
      if o.status != Pending {
        NotGranted(seatsData, o);
        DropSound(seats[key := now], total, queues, counters, orders, history, key, place);
        RemoveOrderFromQueue(key, queue[i].id);
        SweptNext(free, os, queue, i, seatsData, after, left, now, orders, queues[key]);
        return;
      }
      var available := AvailableSeats(seatsData, o.from, o.to);
      GrantedIff(seatsData, o, available);
      if available >= o.num {
        GrantSound(seats[key := seatsData], total, queues, counters, orders, history, key, k);
        orders := orders[k := o.(status := Success)];
        now := ChangeSeats(seatsData, o.from, o.to, 0 - o.num);
        assert seats[key := seatsData][key := now] == seats[key := now];
        DropSound(seats[key := now], total, queues, counters, orders, history, key, place);
        RemoveOrderFromQueue(key, queue[i].id);
      }
      SweptNext(free, os, queue, i, seatsData, after, left, now, orders, queues[key]);
    }
  }
}
