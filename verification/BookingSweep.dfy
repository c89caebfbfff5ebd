/**
 The sweep of a waiting queue after a refund: record by record it does what the
 first-come greedy scan of the whole queue does.
 */
module BookingSweep {
  import opened Booking

  /** Records in the order of their numbers, each of an order of its own. */
  ghost predicate Apart(queue: seq<Ticket>) {
    forall i, j :: 0 <= i < j < |queue| ==> queue[i].id < queue[j].id && queue[i].order != queue[j].order
  }

  /** The queue's orders can be scanned. */
  ghost predicate Scannable(free: seq<int>, orders: seq<Order>, queue: seq<Ticket>) {
    && (forall t :: t in queue ==> t.order < |orders| && Within(orders[t.order], |free|))
    && Apart(queue)
  }

  /** The first `n` records of the queue have been swept as the greedy scan would. */
  ghost predicate Swept(free: seq<int>, orders: seq<Order>, queue: seq<Ticket>, n: nat, now: seq<int>, after: seq<Order>,
                        left: seq<Ticket>)
    requires Scannable(free, orders, queue) && n <= |queue|
  {
    && now == GreedySeats(free, orders, queue[..n]) && |after| == |orders|
    && Marked(free, orders, queue, n, after)
    && left == StillPending(queue[..n], after) + queue[n..]
  }

  /** The first `n` records' orders have the status the greedy scan gives them; other orders are as they were. */
  ghost predicate Marked(free: seq<int>, orders: seq<Order>, queue: seq<Ticket>, n: nat, after: seq<Order>)
    requires Scannable(free, orders, queue) && n <= |queue| && |after| == |orders|
  {
    && (forall i: nat :: i < |queue| ==> queue[i] in queue && queue[i].order < |orders|)
    && (forall i: nat :: i < n ==>
          after[queue[i].order] == orders[queue[i].order].(status := GreedyStatus(free, orders, queue, i)))
    && (forall k: nat :: k < |orders| && !InQueue(queue[..n], k) ==> after[k] == orders[k])
  }

  lemma {:induction false} SweptNone(free: seq<int>, orders: seq<Order>, queue: seq<Ticket>)
    requires Scannable(free, orders, queue)
    ensures Swept(free, orders, queue, 0, free, orders, queue)
  {
    assert queue[..0] == [] && queue[0..] == queue;
  }

  /** A record is swept: its order is granted, or it stays as it is; it leaves the queue unless it is still pending. */
  lemma {:induction false} SweptNext(free: seq<int>, orders: seq<Order>, queue: seq<Ticket>, n: nat, now: seq<int>,
                                     after: seq<Order>, left: seq<Ticket>, now': seq<int>, after': seq<Order>,
                                     left': seq<Ticket>)
    requires Scannable(free, orders, queue) && n < |queue| && Swept(free, orders, queue, n, now, after, left)
    requires
      var k := queue[n].order;
      var o := orders[k];
      && k < |orders| && after[k] == o
      && now' == (if Granted(now, o) then Changed(now, o.from, o.to, 0 - o.num) else now)
      && after' == (if Granted(now, o) then after[k := o.(status := Success)] else after)
      && left' == (if after'[k].status == Pending then left else WithoutId(left, queue[n].id))
    ensures Swept(free, orders, queue, n + 1, now', after', left')
  {
    hide StillPending, WithoutId, GreedyStatus, GreedySeats, InQueue;
    var k := queue[n].order;
    assert after' == after[k := after'[k]] && queue[n] in queue;
    GreedyNext(free, orders, queue, n);
    StatusNext(free, orders, queue, n);
    MarkedNext(free, orders, queue, n, after, after');
    LeftNext(orders, queue, n, after, left, after', left');
  }

  lemma {:induction false} StatusNext(free: seq<int>, orders: seq<Order>, queue: seq<Ticket>, n: nat)
    requires Scannable(free, orders, queue) && n < |queue| && queue[n].order < |orders| && Within(orders[queue[n].order], |free|)
    ensures GreedyStatus(free, orders, queue, n)
         == if Granted(GreedySeats(free, orders, queue[..n]), orders[queue[n].order]) then Success else orders[queue[n].order].status
  {
  }

  lemma {:induction false} MarkedNext(free: seq<int>, orders: seq<Order>, queue: seq<Ticket>, n: nat, after: seq<Order>,
                                      after': seq<Order>)
    requires Scannable(free, orders, queue) && n < |queue| && |after| == |orders| && Marked(free, orders, queue, n, after)
    requires queue[n].order < |orders|
    requires
      var k := queue[n].order;
      after' == after[k := orders[k].(status := GreedyStatus(free, orders, queue, n))]
    ensures Marked(free, orders, queue, n + 1, after')
  {
    hide GreedyStatus, InQueue;
    var k := queue[n].order;
    forall i: nat | i < n + 1
      ensures after'[queue[i].order] == orders[queue[i].order].(status := GreedyStatus(free, orders, queue, i))
    {
      assert i < n ==> queue[i].order != k;
    }
    forall j: nat | j < |orders| && !InQueue(queue[..n + 1], j) ensures after'[j] == orders[j] {
      InMore(queue, n, j);
    }
  }

  lemma {:induction false} InMore(queue: seq<Ticket>, n: nat, k: nat)
    requires n < |queue|
    ensures InQueue(queue[..n + 1], k) <==> InQueue(queue[..n], k) || queue[n].order == k
  {
    assert queue[..n + 1][n] == queue[n];
    if InQueue(queue[..n], k) {
      var i :| 0 <= i < n && queue[..n][i].order == k;
      assert queue[..n + 1][i].order == k;
    }
    if InQueue(queue[..n + 1], k) {
      var i :| 0 <= i < n + 1 && queue[..n + 1][i].order == k;
      assert i < n ==> queue[..n][i].order == k;
    }
  }

  lemma {:induction false} LeftNext(orders: seq<Order>, queue: seq<Ticket>, n: nat, after: seq<Order>, left: seq<Ticket>,
                                    after': seq<Order>, left': seq<Ticket>)
    requires n < |queue| && |after| == |after'| && Apart(queue) && forall t :: t in queue ==> t.order < |after|
    requires queue[n] in queue && left == StillPending(queue[..n], after) + queue[n..]
    requires after' == after[queue[n].order := after'[queue[n].order]]
    requires left' == if after'[queue[n].order].status == Pending then left else WithoutId(left, queue[n].id)
    ensures left' == StillPending(queue[..n + 1], after') + queue[n + 1..]
  {
    hide WithoutId, Rising, Apart;
    var head, t := StillPending(queue[..n], after), queue[n];
    StillPendingNext(queue, after', n);
    OthersSame(queue, n, after, after');
    assert queue[n..] == [t] + queue[n + 1..];
    if after'[t.order].status == Pending {
      assert head + queue[n..] == head + [t] + queue[n + 1..];
    } else {
      LeftAscending(queue, n, after);
      DropHead(head, t, queue[n + 1..], left);
      assert StillPending(queue[..n + 1], after') == head;
    }
  }

  lemma {:induction false} DropHead(head: seq<Ticket>, t: Ticket, tail: seq<Ticket>, left: seq<Ticket>)
    requires left == head + ([t] + tail) && Rising(left)
    ensures WithoutId(left, t.id) == head + tail
  {
    assert left[|head|] == t;
    WithoutAt(left, |head|);
    assert left[..|head|] == head && left[|head| + 1..] == tail;
  }

  lemma {:induction false} OthersSame(queue: seq<Ticket>, n: nat, after: seq<Order>, after': seq<Order>)
    requires n < |queue| && |after| == |after'| && Apart(queue) && forall t :: t in queue ==> t.order < |after|
    requires queue[n] in queue && after' == after[queue[n].order := after'[queue[n].order]]
    ensures StillPending(queue[..n], after) == StillPending(queue[..n], after')
  {
    forall t | t in queue[..n] ensures t.order < |after| && after[t.order] == after'[t.order] {
      var k :| 0 <= k < n && queue[k] == t;
      assert queue[k].order != queue[n].order && t in queue;
    }
    StillPendingSame(queue[..n], after, after');
  }

  ghost predicate Rising(queue: seq<Ticket>) {
    forall i, j :: 0 <= i < j < |queue| ==> queue[i].id < queue[j].id
  }

  lemma {:induction false} RisingJoin(a: seq<Ticket>, b: seq<Ticket>)
    requires Rising(a) && Rising(b) && forall s, t :: s in a && t in b ==> s.id < t.id
    ensures Rising(a + b)
  {
    var c := a + b;
    forall i, j | 0 <= i < j < |c| ensures c[i].id < c[j].id {
      if i < |a| <= j {
        assert c[i] in a && c[j] in b;
      } else if |a| <= i {
        assert c[i] == b[i - |a|] && c[j] == b[j - |a|];
      } else {
        assert c[i] == a[i] && c[j] == a[j];
      }
    }
  }

  lemma {:induction false} LeftAscending(queue: seq<Ticket>, n: nat, after: seq<Order>)
    requires n <= |queue| && Apart(queue)
    ensures Rising(StillPending(queue[..n], after) + queue[n..])
  {
    var head := StillPending(queue[..n], after);
    PendingAscending(queue[..n], after);
    forall s, t | s in head && t in queue[n..] ensures s.id < t.id {
      assert s in queue[..n];
      var i :| 0 <= i < n && queue[i] == s;
      var j :| n <= j < |queue| && queue[j] == t;
      assert queue[i].id < queue[j].id;
    }
    RisingJoin(head, queue[n..]);
  }

  lemma ApartInit(queue: seq<Ticket>, n: nat)
    requires Apart(queue) && n <= |queue|
    ensures Apart(queue[..n])
  {
  }

  lemma RisingOne(t: Ticket)
    ensures Rising([t])
  {
  }

  lemma {:induction false} PendingAscending(queue: seq<Ticket>, after: seq<Order>)
    requires Apart(queue)
    ensures Rising(StillPending(queue, after))
  {
    if queue != [] {
      var n := |queue| - 1;
      var t, r := queue[n], StillPending(queue[..n], after);
      ApartInit(queue, n);
      PendingAscending(queue[..n], after);
      hide Rising;
      forall s | s in r ensures s.id < t.id {
        assert s in queue[..n];
        var i :| 0 <= i < n && queue[i] == s;
        assert queue[i].id < queue[n].id;
      }
      RisingOne(t);
      RisingJoin(r, [t]);
      assert StillPending(queue, after) == r || StillPending(queue, after) == r + [t];
    }
  }

  lemma NotGranted(seats: seq<int>, o: Order)
    requires Within(o, |seats|) && o.status != Pending
    ensures !Granted(seats, o)
  {
  }

  /** The sweep's test, the least number of free seats against the tickets ordered, decides as the greedy scan does. */
  lemma GrantedIff(seats: seq<int>, o: Order, least: int)
    requires Within(o, |seats|) && IsLeast(seats, o.from, o.to, least)
    ensures least >= o.num <==> Fits(seats, o)
    ensures o.status == Pending ==> (least >= o.num <==> Granted(seats, o))
  {
    var s: nat :| Tested(o.from, o.to, s) && seats[s] == least;
    assert Fits(seats, o) ==> o.num <= seats[s];
  }

  /** A sweep only grants. */
  lemma {:induction false} SweepAdvances(free: seq<int>, orders: seq<Order>, queue: seq<Ticket>, after: seq<Order>)
    requires Scannable(free, orders, queue) && |after| == |orders| && Marked(free, orders, queue, |queue|, after)
    ensures forall k :: 0 <= k < |orders| ==> after[k] == orders[k].(status := after[k].status)
    ensures forall k :: 0 <= k < |orders| ==>
              after[k].status == orders[k].status || (orders[k].status == Pending && after[k].status == Success)
  {
    hide GreedySeats;
    assert queue[..|queue|] == queue;
    forall k: nat | k < |orders|
      ensures after[k] == orders[k].(status := after[k].status)
      ensures after[k].status == orders[k].status || (orders[k].status == Pending && after[k].status == Success)
    {
      if InQueue(queue, k) {
        var j :| 0 <= j < |queue| && queue[j].order == k;
        assert after[queue[j].order] == orders[queue[j].order].(status := GreedyStatus(free, orders, queue, j));
      }
    }
  }
}
