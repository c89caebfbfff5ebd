/**
 Search order: the items in ascending order of their keys, and the map they
 stand for.
 */
module RedBlackOrder {
  import opened RedBlackTree

  ghost predicate Below(s: seq<Item>, key: Key) {
    forall i :: 0 <= i < |s| ==> s[i].key < key
  }

  ghost predicate Above(s: seq<Item>, key: Key) {
    forall i :: 0 <= i < |s| ==> key < s[i].key
  }

  ghost predicate Ascending(s: seq<Item>) {
    forall i, j :: 0 <= i < j < |s| ==> s[i].key < s[j].key
  }

  function ToMap(s: seq<Item>): map<Key, Val> {
    if s == [] then map[] else map[s[0].key := s[0].val] + ToMap(s[1..])
  }

  lemma {:induction false} ToMapAppend(a: seq<Item>, b: seq<Item>)
    ensures ToMap(a + b) == ToMap(a) + ToMap(b)
  {
    if a == [] {
      assert a + b == b;
    } else {
      assert (a + b)[1..] == a[1..] + b;
      ToMapAppend(a[1..], b);
    }
  }

  lemma {:induction false} ToMapKeys(s: seq<Item>, key: Key)
    ensures key in ToMap(s) <==> exists i :: 0 <= i < |s| && s[i].key == key
  {
    if s != [] {
      ToMapKeys(s[1..], key);
      if key in ToMap(s[1..]) {
        var i :| 0 <= i < |s[1..]| && s[1..][i].key == key;
        assert s[i + 1].key == key;
      }
      if i :| 0 <= i < |s| && s[i].key == key && i != 0 {
        assert s[1..][i - 1].key == key;
      }
    }
  }

  lemma {:induction false} ToMapAround(a: seq<Item>, it: Item, b: seq<Item>)
    ensures ToMap(a + [it] + b) == ToMap(a) + map[it.key := it.val] + ToMap(b)
  {
    ToMapAppend(a + [it], b);
    ToMapAppend(a, [it]);
    assert [it][1..] == [] && ToMap([it]) == map[it.key := it.val];
  }

  lemma AscendingParts(a: seq<Item>, it: Item, b: seq<Item>)
    ensures Ascending(a + [it] + b) <==> Ascending(a) && Ascending(b) && Below(a, it.key) && Above(b, it.key)
  {
    var s := a + [it] + b;
    if Ascending(s) {
      forall i, j | 0 <= i < j < |a| ensures a[i].key < a[j].key {
        assert s[i].key < s[j].key;
      }
      forall i, j | 0 <= i < j < |b| ensures b[i].key < b[j].key {
        assert s[|a| + 1 + i].key < s[|a| + 1 + j].key;
      }
      forall i | 0 <= i < |a| ensures a[i].key < it.key {
        assert s[i].key < s[|a|].key;
      }
      forall i | 0 <= i < |b| ensures it.key < b[i].key {
        assert s[|a|].key < s[|a| + 1 + i].key;
      }
    }
  }

  lemma AscendingJoin(a: seq<Item>, it: Item, b: seq<Item>)
    requires Ascending(a + [it] + b)
    ensures Ascending(a + b)
  {
    AscendingParts(a, it, b);
  }

  /** One item more is one entry more. */
  lemma {:induction false} MapAround(a: seq<Item>, it: Item, b: seq<Item>)
    requires Ascending(a + [it] + b)
    ensures Ascending(a + b) && it.key !in ToMap(a + b)
    ensures ToMap(a + [it] + b) == ToMap(a + b)[it.key := it.val]
    ensures ToMap(a + b) == ToMap(a + [it] + b) - {it.key}
  {
    AscendingParts(a, it, b);
    AscendingJoin(a, it, b);
    ToMapAround(a, it, b);
    ToMapAppend(a, b);
    ToMapKeys(a, it.key);
    ToMapKeys(b, it.key);
    OneEntryMore(ToMap(a), ToMap(b), it.key, it.val);
    hide *;
  }

  lemma OneEntryMore(m: map<Key, Val>, n: map<Key, Val>, key: Key, val: Val)
    requires key !in m && key !in n
    ensures m + map[key := val] + n == (m + n)[key := val]
    ensures m + n == (m + n)[key := val] - {key}
  {
  }

  /** A key that lies between the two parts is in neither. */
  lemma {:induction false} Absent(a: seq<Item>, b: seq<Item>, it: Item)
    requires Ascending(a + b) && Below(a, it.key) && Above(b, it.key)
    ensures it.key !in ToMap(a + b) && Ascending(a + [it] + b)
  {
    ToMapAppend(a, b);
    ToMapKeys(a, it.key);
    ToMapKeys(b, it.key);
    assert a == (a + b)[..|a|] && b == (a + b)[|a|..];
    assert Ascending(a) && Ascending(b);
    AscendingParts(a, it, b);
  }

  lemma {:induction false} MapSize(s: seq<Item>)
    requires Ascending(s)
    ensures |ToMap(s)| == |s|
  {
    if s != [] {
      var n := |s| - 1;
      assert s[..n] + [s[n]] + [] == s && s[..n] + [] == s[..n];
      assert Ascending(s[..n]);
      MapAround(s[..n], s[n], []);
      MapSize(s[..n]);
      assert ToMap(s) == ToMap(s[..n])[s[n].key := s[n].val];
    }
  }

  lemma {:induction false} UpdateValue(a: seq<Item>, it: Item, val: Val, b: seq<Item>)
    requires Ascending(a + [it] + b)
    ensures Ascending(a + [it.(val := val)] + b)
    ensures ToMap(a + [it.(val := val)] + b) == ToMap(a + [it] + b)[it.key := val]
  {
    AscendingParts(a, it, b);
    AscendingParts(a, it.(val := val), b);
    MapAround(a, it, b);
    MapAround(a, it.(val := val), b);
    hide ToMap, Ascending, Below, Above;
  }
}
