/** A map on disk: an index from keys to slot ids, and the slots that hold the values. */
module DiskMap {
  import opened BPlusTreePage
  import BPlusTreeIndexer
  import SlotStorage

  datatype Lookup<T> = Found(value: T) | KeyNotFound

  /** Each key owns a slot of its own, and every live slot is owned. */
  ghost predicate Owns<T>(index: map<Key, nat>, slots: map<nat, T>) {
    && (forall k :: k in index ==> index[k] in slots && index[k] != BPlusTreeIndexer.INVALID_VALUE_INDEX)
    && (forall j, k :: j in index && k in index && j != k ==> index[j] != index[k])
    && (forall s :: s in slots ==> Owned(index, s))
  }

  ghost predicate Owned(index: map<Key, nat>, s: nat) {
    exists k :: k in index && index[k] == s
  }

  ghost function Joined<T>(index: map<Key, nat>, slots: map<nat, T>): map<Key, T>
    requires Owns(index, slots)
  {
    map k | k in index :: slots[index[k]]
  }

  /** A new key with a new slot. */
  lemma OwnsMore<T>(index: map<Key, nat>, slots: map<nat, T>, key: Key, s: nat, t: T)
    requires Owns(index, slots) && key !in index && s !in slots && s != BPlusTreeIndexer.INVALID_VALUE_INDEX
    ensures Owns(index[key := s], slots[s := t]) && Joined(index[key := s], slots[s := t]) == Joined(index, slots)[key := t]
  {
    var index', slots' := index[key := s], slots[s := t];
    forall r | r in slots' ensures Owned(index', r) {
      if r == s {
        assert index'[key] == s;
      } else {
        assert Owned(index, r);
        var k :| k in index && index[k] == r;
        assert index'[k] == r;
      }
    }
    var was, now := Joined(index, slots), Joined(index', slots');
    var want := was[key := t];
    assert now.Keys == want.Keys;
    forall k | k in want ensures now[k] == want[k] {
    }
  }

  /** A new value in a key's slot shows under that key only. */
  lemma OwnsSet<T>(index: map<Key, nat>, slots: map<nat, T>, key: Key, t: T)
    requires Owns(index, slots) && key in index
    ensures Owns(index, slots[index[key] := t]) && Joined(index, slots[index[key] := t]) == Joined(index, slots)[key := t]
  {
    var was, now := Joined(index, slots), Joined(index, slots[index[key] := t]);
    var want := was[key := t];
    assert now.Keys == want.Keys;
    forall k | k in want ensures now[k] == want[k] {
    }
  }

  lemma OwnsLess<T>(index: map<Key, nat>, slots: map<nat, T>, key: Key)
    requires Owns(index, slots) && key in index
    ensures Owns(index - {key}, slots - {index[key]}) && Joined(index - {key}, slots - {index[key]}) == Joined(index, slots) - {key}
  {
    forall r | r in slots - {index[key]} ensures Owned(index - {key}, r) {
      assert Owned(index, r);
      var k :| k in index && index[k] == r;
      assert (index - {key})[k] == r;
    }
    var was, now := Joined(index, slots), Joined(index - {key}, slots - {index[key]});
    var want := was - {key};
    assert now.Keys == want.Keys;
    forall k | k in want ensures now[k] == want[k] {
    }
  }

  class DiskMap<T> {
    const indexer: BPlusTreeIndexer.BPlusTreeIndexer
    const storage: SlotStorage.SlotStorage<T>

    ghost predicate Valid()
      reads indexer, storage
    {
      && indexer.Valid() && storage.Valid() && 3 <= indexer.cap
      && Owns(indexer.Contents(), storage.contents)
    }

    /** The map it stands for. */
    ghost function Contents(): map<Key, T>
      requires Valid()
      reads indexer, storage
    {
      Joined(indexer.Contents(), storage.contents)
    }

    constructor (cap: nat, m: nat)
      requires 3 <= cap && 0 < m
      ensures Valid() && Contents() == map[]
    {
      indexer := new BPlusTreeIndexer.BPlusTreeIndexer(cap);
      storage := new SlotStorage.SlotStorage<T>(m);
    }

    method HasKey(key: Key) returns (has: bool)
      requires Valid()
      ensures has <==> key in Contents()
    {
      hide *;
      Parts();
      var dataId := indexer.Get(key);
      has := dataId != BPlusTreeIndexer.INVALID_VALUE_INDEX;
      OwnsAt(indexer.Contents(), storage.contents, key);
    }

    /** The value last put under the key; an absent key is an error. */
    method Get(key: Key) returns (r: Lookup<T>)
      requires Valid()
      ensures r == if key in Contents() then Found(Contents()[key]) else KeyNotFound
    {
      hide *;
      Parts();
      OwnsAt(indexer.Contents(), storage.contents, key);
      var dataId := indexer.Get(key);
      if dataId == BPlusTreeIndexer.INVALID_VALUE_INDEX {
        return KeyNotFound;
      }
      var value := storage.Read(dataId);
      return Found(value);
    }

    method Size() returns (size: nat)
      requires Valid()
      ensures size == |Contents()|
    {
      hide *;
      Parts();
      JoinedSize(indexer.Contents(), storage.contents);
      size := indexer.Size();
    }

    /** A value under a key, in the key's slot if it has one. A new slot's id must be a 32-bit number, and not the last. */
    method Put(key: Key, value: T) returns (isNew: bool)
      requires Valid() && (key in Contents() || storage.NextSlot() < BPlusTreeIndexer.INVALID_VALUE_INDEX)
      modifies indexer, storage
      ensures Valid() && Contents() == old(Contents())[key := value] && isNew == (key !in old(Contents()))
    {
      hide *;
      Parts();
      ghost var index, slots := indexer.Contents(), storage.contents;
      OwnsAt(index, slots, key);
      var dataId := indexer.Get(key);
      if dataId != BPlusTreeIndexer.INVALID_VALUE_INDEX {
        storage.Update(value, dataId);
        OwnsSet(index, slots, key, value);
        Parts();
        return false;
      }
      dataId := storage.Write(value);
      var added := indexer.Put(key, dataId);
      OwnsMore(index, slots, key, dataId, value);
      Parts();
      return true;
    }

    /** A key and its slot are given up. */
    method Remove(key: Key) returns (removed: bool)
      requires Valid()
      modifies indexer, storage
      ensures Valid() && Contents() == old(Contents()) - {key} && removed == (key in old(Contents()))
    {
      hide *;
      Parts();
      ghost var index, slots := indexer.Contents(), storage.contents;
      OwnsAt(index, slots, key);
      var ok, dataId := indexer.Remove(key);
      if !ok {
        assert index - {key} == index;
        assert Joined(index, slots) - {key} == Joined(index, slots);
        Parts();
        return false;
      }
      storage.Delete(dataId);
      OwnsLess(index, slots, key);
      Parts();
      return true;
    }

    lemma Parts()
      ensures Valid() ==> indexer.Valid()
      ensures Valid() <==> indexer.Valid() && storage.Valid() && 3 <= indexer.cap
                           && Owns(indexer.Contents(), storage.contents)
      ensures Valid() ==> Contents() == Joined(indexer.Contents(), storage.contents)
    {
    }

    static lemma OwnsAt<T>(index: map<Key, nat>, slots: map<nat, T>, key: Key)
      requires Owns(index, slots)
      ensures Joined(index, slots).Keys == index.Keys
      ensures key in index ==> index[key] in slots && index[key] != BPlusTreeIndexer.INVALID_VALUE_INDEX
      ensures key in index ==> Joined(index, slots)[key] == slots[index[key]]
    {
    }

    static lemma JoinedSize<T>(index: map<Key, nat>, slots: map<nat, T>)
      requires Owns(index, slots)
      ensures |Joined(index, slots)| == |index|
    {
      assert Joined(index, slots).Keys == index.Keys;
    }
  }
}
