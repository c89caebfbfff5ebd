/**
 The index of all users' orders: records ordered by user, and for one user by
 descending number, behind a record with the largest number that counts them.
 */
module OrderHistory {
  type User = nat

  const SPECIAL_ID: nat := 0xFFFF_FFFF

  datatype Key = Key(user: User, id: nat)

  datatype Record = Record(key: Key, value: nat)

  /** Each user's orders, oldest first. */
  type Histories = map<User, seq<nat>>

  predicate Before(a: Key, b: Key) {
    a.user < b.user || (a.user == b.user && a.id > b.id)
  }

  predicate Sorted(records: seq<Record>) {
    forall i, j :: 0 <= i < j < |records| ==> Before(records[i].key, records[j].key)
  }

  /** A user's counter, or one of the orders by its number. */
  predicate Belongs(r: Record, history: Histories) {
    && r.key.user in history
    && var orders := history[r.key.user];
       if r.key.id == SPECIAL_ID then r.value == |orders|
       else 1 <= r.key.id <= |orders| && r.value == orders[r.key.id - 1]
  }

  /** The index holds the histories, and nothing else. */
  ghost predicate Indexes(records: seq<Record>, history: Histories) {
    && Sorted(records) && (forall u :: u in history ==> |history[u]| < SPECIAL_ID)
    && forall r :: r in records <==> Belongs(r, history)
  }

  /** `i` is where the records that are not before `key` begin. */
  ghost predicate IsLowerBound(records: seq<Record>, key: Key, i: nat) {
    && i <= |records| && (forall j :: 0 <= j < i ==> Before(records[j].key, key))
    && (forall j :: i <= j < |records| ==> !Before(records[j].key, key))
  }

  method LowerBound(records: seq<Record>, key: Key) returns (i: nat)
    requires Sorted(records)
    ensures IsLowerBound(records, key, i)
  {
    i := 0;
    while i < |records| && Before(records[i].key, key)
      invariant i <= |records| && forall j :: 0 <= j < i ==> Before(records[j].key, key)
    {
      i := i + 1;
    }
  }

  /** The lower bound is no later than any record that is not before the key. */
  lemma AtOrBelow(records: seq<Record>, key: Key, i: nat, j: nat)
    requires Sorted(records) && IsLowerBound(records, key, i) && j < |records| && !Before(records[j].key, key)
    ensures i <= j && !Before(records[i].key, key) && (i == j || Before(records[i].key, records[j].key))
  {
  }

  /** A key that is in the index is found. */
  lemma {:induction false} Found(records: seq<Record>, r: Record, i: nat)
    requires Sorted(records) && r in records && IsLowerBound(records, r.key, i)
    ensures i < |records| && records[i] == r
  {
    var j :| 0 <= j < |records| && records[j] == r;
    AtOrBelow(records, r.key, i, j);
  }

  /** A look-up that ends at another user's records ends at the counter. */
  lemma {:induction false} FirstOfUser(records: seq<Record>, history: Histories, key: Key, i: nat)
    requires Indexes(records, history) && IsLowerBound(records, key, i) && i < |records| && key.user < records[i].key.user
    ensures records[i].key.id == SPECIAL_ID
  {
    var r := records[i];
    assert r in records;
    var counter := Record(Key(r.key.user, SPECIAL_ID), |history[r.key.user]|);
    assert Belongs(counter, history);
    var j :| 0 <= j < |records| && records[j] == counter;
    AtOrBelow(records, key, i, j);
  }

  /**
   What the look-up of an order's number finds. A number too large finds the
   newest order. A user without orders has none to find: what is found is the
   counter of the next user, or nothing.
   */
  lemma {:induction false} LooksUp(records: seq<Record>, history: Histories, user: User, id: nat, i: nat)
    requires Indexes(records, history) && user in history && 1 <= id < SPECIAL_ID && IsLowerBound(records, Key(user, id), i)
    ensures
      var orders := history[user];
      if orders != [] then
        var k := if id <= |orders| then id else |orders|;
        i < |records| && records[i] == Record(Key(user, k), orders[k - 1])
      else i < |records| ==> user < records[i].key.user && records[i].key.id == SPECIAL_ID
  {
    var orders := history[user];
    if orders != [] {
      var k := if id <= |orders| then id else |orders|;
      var r := Record(Key(user, k), orders[k - 1]);
      assert Belongs(r, history);
      var j :| 0 <= j < |records| && records[j] == r;
      AtOrBelow(records, Key(user, id), i, j);
      assert records[i] in records;
    } else if i < |records| {
      assert records[i] in records;
      FirstOfUser(records, history, Key(user, id), i);
    }
  }

  lemma {:induction false} CounterFound(records: seq<Record>, history: Histories, user: User, i: nat)
    requires Indexes(records, history) && user in history && IsLowerBound(records, Key(user, SPECIAL_ID), i)
    ensures i < |records| && records[i] == Record(Key(user, SPECIAL_ID), |history[user]|)
  {
    var r := Record(Key(user, SPECIAL_ID), |history[user]|);
    assert Belongs(r, history);
    Found(records, r, i);
  }

  /** Counting from the newest order, which is number 1; numbers below 1 name it too. */
  function NthNewest(orders: seq<nat>, n: int): (order: nat)
    requires orders != [] && n <= |orders|
    ensures order in orders
  {
    orders[|orders| - if n < 1 then 1 else n]
  }

  /** Counted in the list that is shown to the user, newest first: number 1 is the first of the list, and so is any below 1. */
  lemma NthOfShown(orders: seq<nat>, shown: seq<nat>, n: int)
    requires orders != [] && n <= |orders| == |shown|
    requires forall i {:trigger shown[i]} :: 0 <= i < |shown| ==> shown[i] == orders[|shown| - 1 - i]
    ensures NthNewest(orders, n) == shown[if n < 1 then 0 else n - 1]
  {
  }

  /** An order just made is number 1, and every earlier order's number grows by one. */
  lemma NewestIsFirst(orders: seq<nat>, order: nat, n: nat)
    requires 1 <= n <= |orders|
    ensures NthNewest(orders + [order], 1) == order && NthNewest(orders + [order], n + 1) == NthNewest(orders, n)
  {
  }

  /**
   The `n`th most recent order of a user. Numbers below 1 name the most recent
   one, if there is one; the difference must be an `int`.
   */
  method FetchSingleUserOrderHistory(records: seq<Record>, user: User, n: int, ghost history: Histories)
    returns (success: bool, value: nat)
    requires Indexes(records, history) && user in history && |history[user]| - n + 1 < 0x8000_0000
    requires history[user] != [] || 1 <= n
    ensures success == (n <= |history[user]|)
    ensures success && 1 <= n ==> value == history[user][|history[user]| - n]
    ensures success && n < 1 ==> value == history[user][|history[user]| - 1]
    ensures success ==> value == NthNewest(history[user], n)
  {
    var it := LowerBound(records, Key(user, SPECIAL_ID));
    CounterFound(records, history, user, it);
    var total := records[it].value;
    if n > total {
      return false, 0;
    }
    var dat := LowerBound(records, Key(user, total - n + 1));
    LooksUp(records, history, user, total - n + 1, dat);
    return true, records[dat].value;
  }

  /** Of two records, the one whose key is before the other's comes first. */
  lemma Apart(records: seq<Record>, i: nat, j: nat)
    requires Sorted(records) && i < |records| && j < |records| && Before(records[i].key, records[j].key)
    ensures i < j && Before(records[i].key, records[i + 1].key)
    ensures i + 1 == j || Before(records[i + 1].key, records[j].key)
  {
  }

  /** Behind a counter or an order comes the user's next older order. */
  lemma {:induction false} NextOrder(records: seq<Record>, history: Histories, user: User, i: nat, m: nat)
    requires Indexes(records, history) && user in history && i < |records| && 1 <= m <= |history[user]|
    requires records[i].key == Key(user, if m == |history[user]| then SPECIAL_ID else m + 1)
    ensures i + 1 < |records| && records[i + 1] == Record(Key(user, m), history[user][m - 1])
  {
    var r := Record(Key(user, m), history[user][m - 1]);
    assert Belongs(r, history);
    var j :| 0 <= j < |records| && records[j] == r;
    Apart(records, i, j);
    assert records[i + 1] in records;
  }

  /** All orders of a user, newest first. */
  method FetchFullUserOrderHistory(records: seq<Record>, user: User, ghost history: Histories) returns (res: seq<nat>)
    requires Indexes(records, history) && user in history
    ensures |res| == |history[user]| && forall i {:trigger res[i]} :: 0 <= i < |res| ==> res[i] == history[user][|res| - 1 - i]
  {
    hide Indexes;
    Ordered(records, history);
    var it := LowerBound(records, Key(user, SPECIAL_ID));
    CounterFound(records, history, user, it);
    var total := records[it].value;
    res := [];
    var i := 0;
    while i < total
      invariant 0 <= i <= total && |res| == i && it < |records|
      invariant records[it].key == Key(user, if i == 0 then SPECIAL_ID else total - i + 1)
      invariant forall k {:trigger res[k]} :: 0 <= k < i ==> res[k] == history[user][total - 1 - k]
    {
      NextOrder(records, history, user, it, total - i);
      it := it + 1;
      res := res + [records[it].value];
      i := i + 1;
    }
  }

  lemma Ordered(records: seq<Record>, history: Histories)
    requires Indexes(records, history)
    ensures Sorted(records)
  {
  }

  lemma {:induction false} Inserted(records: seq<Record>, r: Record, i: nat)
    requires Sorted(records) && IsLowerBound(records, r.key, i) && forall x :: x in records ==> x.key != r.key
    ensures
      var now := records[..i] + [r] + records[i..];
      Sorted(now) && forall x :: x in now <==> x in records || x == r
  {
    var now := records[..i] + [r] + records[i..];
    assert records == records[..i] + records[i..];
    forall j | i <= j < |records| ensures Before(r.key, records[j].key) {
      assert records[j] in records;
    }
    forall j, k | 0 <= j < k < |now| ensures Before(now[j].key, now[k].key) {
      assert now[j] == (if j < i then records[j] else if j == i then r else records[j - 1]);
      assert now[k] == (if k < i then records[k] else if k == i then r else records[k - 1]);
    }
    forall x ensures x in now <==> x in records || x == r {
      assert x in now <==> x in records[..i] || x == r || x in records[i..];
    }
  }

  /** A record with a new key goes into its place. */
  method Put(records: seq<Record>, r: Record) returns (now: seq<Record>)
    requires Sorted(records) && forall x :: x in records ==> x.key != r.key
    ensures Sorted(now) && forall x :: x in now <==> x in records || x == r
  {
    var i := LowerBound(records, r.key);
    Inserted(records, r, i);
    now := records[..i] + [r] + records[i..];
  }

  /** A record's value is overwritten. */
  lemma {:induction false} ValueSet(records: seq<Record>, i: nat, v: nat)
    requires Sorted(records) && i < |records|
    ensures
      var now := records[i := records[i].(value := v)];
      Sorted(now) && forall x :: x in now <==> x == now[i] || (x in records && x.key != records[i].key)
  {
    var now := records[i := records[i].(value := v)];
    forall x | x in now ensures x == now[i] || (x in records && x.key != records[i].key) {
      var j :| 0 <= j < |now| && now[j] == x;
      assert j != i ==> x == records[j] && (if j < i then Before(records[j].key, records[i].key) else Before(records[i].key, records[j].key));
    }
    forall x | x in records && x.key != records[i].key ensures x in now {
      var j :| 0 <= j < |records| && records[j] == x;
      assert now[j] == x;
    }
  }

  /** A user's counter, at first with no orders. */
  method PrepareUserInfo(records: seq<Record>, user: User, ghost history: Histories) returns (now: seq<Record>)
    requires Indexes(records, history) && user !in history
    ensures Indexes(now, history[user := []])
  {
    now := Put(records, Record(Key(user, SPECIAL_ID), 0));
    forall r ensures r in now <==> Belongs(r, history[user := []]) {
      assert r in records <==> Belongs(r, history);
    }
  }

  /** An order joins its user's history under the next number. */
  method AddToHistory(records: seq<Record>, user: User, order: nat, ghost history: Histories) returns (now: seq<Record>)
    requires Indexes(records, history) && user in history && |history[user]| + 1 < SPECIAL_ID
    ensures Indexes(now, history[user := history[user] + [order]])
  {
    var it := LowerBound(records, Key(user, SPECIAL_ID));
    CounterFound(records, history, user, it);
    var newId := records[it].value + 1;
    ValueSet(records, it, newId);
    now := records[it := records[it].(value := newId)];
    ghost var counted := now;
    forall x | x in now ensures x.key != Key(user, newId) {
      assert x in records <==> Belongs(x, history);
    }
    now := Put(now, Record(Key(user, newId), order));
    forall r ensures r in now <==> Belongs(r, history[user := history[user] + [order]]) {
      assert r in records <==> Belongs(r, history);
    }
  }
}
