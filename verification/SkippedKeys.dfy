/** `ratchet/skipped.rs`: the bounded store of keys for messages that were jumped over. */
module SkippedKeys {
  import opened Wrappers
  import opened ByteText
  import opened SymbolicCrypto

  const MAX_SKIPPED_KEYS: nat := 1000

  datatype Slot = Slot(dhHex: Bytes, number: nat)

  datatype Entry = Entry(slot: Slot, key: MessageKey)

  /** The store as an association list, oldest entry first. */
  type Store = seq<Entry>

  predicate Distinct(store: Store) {
    forall i, j :: 0 <= i < j < |store| ==> store[i].slot != store[j].slot
  }

  predicate Bounded(store: Store) {
    Distinct(store) && |store| <= MAX_SKIPPED_KEYS
  }

  function Find(store: Store, slot: Slot): Option<MessageKey> {
    if store == [] then None
    else if store[0].slot == slot then Some(store[0].key)
    else Find(store[1..], slot)
  }

  function Without(store: Store, slot: Slot): Store {
    if store == [] then []
    else if store[0].slot == slot then store[1..]
    else [store[0]] + Without(store[1..], slot)
  }

  function Replace(store: Store, slot: Slot, key: MessageKey): (result: Store)
    ensures |result| == |store|
    ensures forall i :: 0 <= i < |store| ==> result[i].slot == store[i].slot
  {
    if store == [] then []
    else if store[0].slot == slot then [Entry(slot, key)] + store[1..]
    else [store[0]] + Replace(store[1..], slot, key)
  }

  /** Insertion: overwrite in place, or append after making room by dropping the oldest entry. */
  function Put(store: Store, slot: Slot, key: MessageKey): Store {
    if Find(store, slot).Some? then Replace(store, slot, key)
    else (if |store| >= MAX_SKIPPED_KEYS then store[1..] else store) + [Entry(slot, key)]
  }

  // ------------------------------------------------------------ laws of the list

  lemma {:induction false} FindMember(store: Store, slot: Slot)
    ensures Find(store, slot).Some? ==>
              exists i :: 0 <= i < |store| && store[i] == Entry(slot, Find(store, slot).value)
    ensures Find(store, slot).None? ==> forall i :: 0 <= i < |store| ==> store[i].slot != slot
  {
    if store == [] {
    } else if store[0].slot == slot {
      assert store[0] == Entry(slot, Find(store, slot).value);
    } else {
      FindMember(store[1..], slot);
      if Find(store, slot).Some? {
        var i :| 0 <= i < |store[1..]| && store[1..][i] == Entry(slot, Find(store, slot).value);
        assert store[i + 1] == Entry(slot, Find(store, slot).value);
      } else {
        forall i | 0 <= i < |store| ensures store[i].slot != slot {
          assert i > 0 ==> store[i] == store[1..][i - 1];
        }
      }
    }
  }

  lemma {:induction false} FindIndex(store: Store, i: nat)
    requires Distinct(store) && i < |store|
    ensures Find(store, store[i].slot) == Some(store[i].key)
  {
    if i > 0 {
      assert store[1..][i - 1] == store[i];
      FindIndex(store[1..], i - 1);
    }
  }

  lemma {:induction false} FindAppend(store: Store, entry: Entry, slot: Slot)
    ensures Find(store + [entry], slot) ==
            if Find(store, slot).Some? then Find(store, slot)
            else if entry.slot == slot then Some(entry.key) else None
  {
    if store == [] {
      assert store + [entry] == [entry];
      assert [entry][1..] == [];
    } else {
      assert (store + [entry])[1..] == store[1..] + [entry];
      if store[0].slot != slot {
        FindAppend(store[1..], entry, slot);
      }
    }
  }

  lemma {:induction false} FindReplace(store: Store, slot: Slot, key: MessageKey, other: Slot)
    requires Find(store, slot).Some?
    ensures Find(Replace(store, slot, key), other) ==
            if other == slot then Some(key) else Find(store, other)
  {
    var result := Replace(store, slot, key);
    if store[0].slot == slot {
      assert result[1..] == store[1..];
    } else {
      assert result[1..] == Replace(store[1..], slot, key);
      FindReplace(store[1..], slot, key, other);
    }
  }

  lemma {:induction false} WithoutShrinks(store: Store, slot: Slot)
    requires Distinct(store)
    ensures Distinct(Without(store, slot))
    ensures |Without(store, slot)| == if Find(store, slot).Some? then |store| - 1 else |store|
    ensures forall e :: e in Without(store, slot) <==> e in store && e.slot != slot
  {
    if store == [] {
    } else {
      assert store == [store[0]] + store[1..];
      if store[0].slot == slot {
        forall e ensures e in store[1..] <==> e in store && e.slot != slot {}
      } else {
        WithoutShrinks(store[1..], slot);
      }
    }
  }

  lemma {:induction false} FindWithout(store: Store, slot: Slot, other: Slot)
    requires Distinct(store)
    ensures Find(Without(store, slot), other) == if other == slot then None else Find(store, other)
  {
    if store == [] {
    } else if store[0].slot == slot {
      FindMember(store[1..], slot);
    } else {
      var rest := Without(store[1..], slot);
      assert ([store[0]] + rest)[1..] == rest;
      FindWithout(store[1..], slot, other);
    }
  }

  /** Insertion keeps the store a duplicate-free list of at most 1000 entries. */
  lemma PutBounded(store: Store, slot: Slot, key: MessageKey)
    requires Bounded(store)
    ensures Bounded(Put(store, slot, key))
  {
    FindMember(store, slot);
  }

  /** What insertion does to every lookup: the new key is found; another key keeps its value unless it was
      the oldest of a full store and the inserted slot was new, and then it alone is gone. */
  lemma FindPut(store: Store, slot: Slot, key: MessageKey, other: Slot)
    requires Bounded(store)
    ensures Find(Put(store, slot, key), other) ==
            if other == slot then Some(key)
            else if Find(store, slot).None? && |store| == MAX_SKIPPED_KEYS && other == store[0].slot then None
            else Find(store, other)
  {
    if Find(store, slot).Some? {
      FindReplace(store, slot, key, other);
    } else if |store| >= MAX_SKIPPED_KEYS {
      FindMember(store, slot);
      FindMember(store[1..], slot);
      FindMember(store[1..], store[0].slot);
      FindAppend(store[1..], Entry(slot, key), other);
    } else {
      FindAppend(store, Entry(slot, key), other);
    }
  }

  // ------------------------------------------------- the map and the order vector

  predicate NoRepeats(order: seq<Slot>) {
    forall i, j :: 0 <= i < j < |order| ==> order[i] != order[j]
  }

  ghost predicate Paired(order: seq<Slot>, keys: map<Slot, MessageKey>) {
    NoRepeats(order) && forall slot :: slot in order <==> slot in keys
  }

  /** The list that an order vector and a key map stand for. */
  function Listing(order: seq<Slot>, keys: map<Slot, MessageKey>): (store: Store)
    requires forall slot :: slot in order ==> slot in keys
    ensures |store| == |order|
    ensures forall i :: 0 <= i < |order| ==> store[i] == Entry(order[i], keys[order[i]])
  {
    if order == [] then [] else [Entry(order[0], keys[order[0]])] + Listing(order[1..], keys)
  }

  function Retained(order: seq<Slot>, dropped: Slot): (kept: seq<Slot>)
    ensures forall slot :: slot in kept <==> slot in order && slot != dropped
    ensures NoRepeats(order) ==> NoRepeats(kept)
  {
    if order == [] then []
    else if order[0] == dropped then Retained(order[1..], dropped)
    else
      assert NoRepeats(order) ==> order[0] !in order[1..];
      [order[0]] + Retained(order[1..], dropped)
  }

  lemma {:induction false} RetainedAbsent(order: seq<Slot>, dropped: Slot)
    requires dropped !in order
    ensures Retained(order, dropped) == order
  {
    if order != [] {
      RetainedAbsent(order[1..], dropped);
    }
  }

  lemma ListingFind(order: seq<Slot>, keys: map<Slot, MessageKey>, slot: Slot)
    requires Paired(order, keys)
    ensures Distinct(Listing(order, keys))
    ensures Find(Listing(order, keys), slot) == if slot in keys then Some(keys[slot]) else None
  {
    var store := Listing(order, keys);
    FindMember(store, slot);
    if slot in keys {
      var i :| 0 <= i < |order| && order[i] == slot;
      FindIndex(store, i);
    }
  }

  lemma {:induction false} ListingReplace(order: seq<Slot>, keys: map<Slot, MessageKey>, slot: Slot, key: MessageKey)
    requires NoRepeats(order) && forall s :: s in order ==> s in keys
    ensures Listing(order, keys[slot := key]) == Replace(Listing(order, keys), slot, key)
  {
    if order == [] {
    } else if order[0] == slot {
      assert Listing(order[1..], keys[slot := key]) == Listing(order[1..], keys);
    } else {
      ListingReplace(order[1..], keys, slot, key);
    }
  }

  lemma {:induction false} ListingWithout(order: seq<Slot>, keys: map<Slot, MessageKey>, slot: Slot)
    requires NoRepeats(order) && forall s :: s in order ==> s in keys
    ensures forall s :: s in Retained(order, slot) ==> s in keys - {slot}
    ensures Listing(Retained(order, slot), keys - {slot}) == Without(Listing(order, keys), slot)
  {
    if order == [] {
    } else if order[0] == slot {
      RetainedAbsent(order[1..], slot);
      assert Listing(order[1..], keys - {slot}) == Listing(order[1..], keys);
    } else {
      ListingWithout(order[1..], keys, slot);
      assert Retained(order, slot)[1..] == Retained(order[1..], slot);
    }
  }

  /** The order vector and the map have the same slots, so they have the same size. */
  lemma {:induction false} SameSize(order: seq<Slot>, keys: map<Slot, MessageKey>)
    requires Paired(order, keys)
    ensures |order| == |keys|
  {
    if order == [] {
      assert keys == map[];
    } else {
      var rest := keys - {order[0]};
      assert rest.Keys == keys.Keys - {order[0]};
      forall s ensures s in order[1..] <==> s in rest {
        assert order == [order[0]] + order[1..];
      }
      SameSize(order[1..], rest);
      assert |rest.Keys| == |keys.Keys| - 1;
    }
  }

  /** Removing the first slot is removing it from both sides. */
  lemma EvictKeepsPairing(order: seq<Slot>, keys: map<Slot, MessageKey>)
    requires Paired(order, keys) && order != []
    ensures Paired(order[1..], keys - {order[0]})
    ensures Listing(order[1..], keys - {order[0]}) == Listing(order, keys)[1..]
    ensures |keys - {order[0]}| == |keys| - 1
  {
    var oldest := order[0];
    var rest := keys - {oldest};
    RetainedAbsent(order[1..], oldest);
    var kept := Retained(order, oldest);
    assert kept == order[1..];
    ListingWithout(order, keys, oldest);
    assert Paired(kept, rest);
    SameSize(order, keys);
    SameSize(kept, rest);
  }

  lemma PairedKeys(order: seq<Slot>, keys: map<Slot, MessageKey>)
    requires Paired(order, keys)
    ensures forall slot :: slot in order ==> slot in keys
  {
  }

  /** Removing any slot is removing it from both sides, and an absent one changes neither. */
  lemma RemoveKeepsPairing(order: seq<Slot>, keys: map<Slot, MessageKey>, slot: Slot)
    requires Paired(order, keys)
    ensures forall s :: s in Retained(order, slot) ==> s in keys - {slot}
    ensures Paired(Retained(order, slot), keys - {slot}) && |keys - {slot}| <= |keys|
    ensures Listing(Retained(order, slot), keys - {slot}) == Without(Listing(order, keys), slot)
    ensures slot !in keys ==> Retained(order, slot) == order && keys - {slot} == keys
  {
    hide *;
    RetainedPaired(order, keys, slot);
    FewerKeys(keys, slot);
    if slot !in order {
      RetainedAbsent(order, slot);
    }
    ListingWithout(order, keys, slot);
  }

  lemma RetainedPaired(order: seq<Slot>, keys: map<Slot, MessageKey>, slot: Slot)
    requires Paired(order, keys)
    ensures NoRepeats(order) && Paired(Retained(order, slot), keys - {slot})
    ensures (slot in order <==> slot in keys) && forall s :: s in order ==> s in keys
    ensures forall s :: s in Retained(order, slot) ==> s in keys - {slot}
  {
    hide Retained;
  }

  lemma FewerKeys(keys: map<Slot, MessageKey>, slot: Slot)
    ensures |keys - {slot}| <= |keys|
    ensures slot !in keys ==> keys - {slot} == keys
  {
    var rest := keys - {slot};
    if slot in keys {
      assert keys.Keys == rest.Keys + {slot};
      assert |keys.Keys| == |rest.Keys| + 1;
    } else {
      assert rest == keys;
    }
  }

  lemma {:induction false} ListingAppend(order: seq<Slot>, keys: map<Slot, MessageKey>, slot: Slot, key: MessageKey)
    requires slot !in order && forall s :: s in order ==> s in keys
    ensures Listing(order + [slot], keys[slot := key]) == Listing(order, keys) + [Entry(slot, key)]
  {
    if order == [] {
      assert order + [slot] == [slot];
    } else {
      assert (order + [slot])[1..] == order[1..] + [slot];
      ListingAppend(order[1..], keys, slot, key);
    }
  }

  lemma AppendKeepsPairing(order: seq<Slot>, keys: map<Slot, MessageKey>, slot: Slot, key: MessageKey)
    requires Paired(order, keys) && slot !in keys
    ensures Paired(order + [slot], keys[slot := key])
    ensures |keys[slot := key]| == |keys| + 1
  {
    var longer, more := order + [slot], keys[slot := key];
    forall s ensures s in longer <==> s in more {
      assert s in longer <==> s in order || s == slot;
    }
    assert more.Keys == keys.Keys + {slot};
    assert |more.Keys| == |keys.Keys| + 1;
  }

  class Cache {
    var keys: map<Slot, MessageKey>
    var insertionOrder: seq<Slot>

    /** The order vector lists every key of the map exactly once, and there are at most 1000. */
    ghost predicate Valid()
      reads this
    {
      && Paired(insertionOrder, keys)
      && |keys| <= MAX_SKIPPED_KEYS
    }

    ghost function Contents(): (store: Store)
      reads this
      requires Valid()
    {
      Listing(insertionOrder, keys)
    }

    constructor ()
      ensures Valid() && Contents() == []
    {
      keys := map[];
      insertionOrder := [];
    }

    method Insert(slot: Slot, key: MessageKey)
      requires Valid()
      modifies this
      ensures Valid()
      ensures Contents() == Put(old(Contents()), slot, key)
    {
      ListingFind(insertionOrder, keys, slot);
      SameSize(insertionOrder, keys);
      if slot in keys {
        ListingReplace(insertionOrder, keys, slot, key);
        keys := keys[slot := key];
        SameSize(insertionOrder, keys);
        return;
      }
      ghost var before := Contents();
      while |keys| >= MAX_SKIPPED_KEYS
        invariant Valid() && slot !in keys
        invariant |keys| == MAX_SKIPPED_KEYS ==> Contents() == before
        invariant |keys| < MAX_SKIPPED_KEYS ==>
                    Contents() == if |before| >= MAX_SKIPPED_KEYS then before[1..] else before
        decreases |keys|
      {
        SameSize(insertionOrder, keys);
        if insertionOrder != [] {
          EvictKeepsPairing(insertionOrder, keys);
          var oldest := insertionOrder[0];
          insertionOrder := insertionOrder[1..];
          keys := keys - {oldest};
        } else {
          assert false;
          break;
        }
      }
      AppendKeepsPairing(insertionOrder, keys, slot, key);
      ListingAppend(insertionOrder, keys, slot, key);
      insertionOrder := insertionOrder + [slot];
      keys := keys[slot := key];
    }

    method Take(slot: Slot) returns (key: Option<MessageKey>)
      requires Valid()
      modifies this
      ensures Valid()
      ensures key == Find(old(Contents()), slot)
      ensures Contents() == Without(old(Contents()), slot)
    {
      hide Listing, Paired, Retained, Find, Without;
      PairedKeys(insertionOrder, keys);
      ListingFind(insertionOrder, keys, slot);
      RemoveKeepsPairing(insertionOrder, keys, slot);
      if slot in keys {
        key := Some(keys[slot]);
        keys := keys - {slot};
        insertionOrder := Retained(insertionOrder, slot);
      } else {
        key := None;
      }
    }

    method Contains(slot: Slot) returns (found: bool)
      requires Valid()
      ensures found <==> Find(Contents(), slot).Some?
    {
      ListingFind(insertionOrder, keys, slot);
      found := slot in keys;
    }

    method Len() returns (n: nat)
      requires Valid()
      ensures n == |Contents()| <= MAX_SKIPPED_KEYS
    {
      SameSize(insertionOrder, keys);
      n := |keys|;
    }
  }
}
