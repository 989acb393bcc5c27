/** How long a skipped key stays available. */
module StoreRetention {
  import opened Wrappers
  import opened SymbolicCrypto
  import opened SkippedKeys

  datatype Op = Insert(slot: Slot, key: MessageKey) | Take(slot: Slot)

  function Apply(store: Store, op: Op): Store {
    match op
    case Insert(slot, key) => Put(store, slot, key)
    case Take(slot) => Without(store, slot)
  }

  function ApplyAll(store: Store, ops: seq<Op>): Store
    decreases |ops|
  {
    if ops == [] then store else ApplyAll(Apply(store, ops[0]), ops[1..])
  }

  predicate IsNew(store: Store, op: Op) {
    op.Insert? && Find(store, op.slot).None?
  }

  /** How many of the operations insert a slot that is not stored at that moment. */
  function NewInsertions(store: Store, ops: seq<Op>): nat
    decreases |ops|
  {
    if ops == [] then 0
    else (if IsNew(store, ops[0]) then 1 else 0) + NewInsertions(Apply(store, ops[0]), ops[1..])
  }

  predicate NeverTaken(slot: Slot, ops: seq<Op>) {
    forall i :: 0 <= i < |ops| ==> ops[i] != Take(slot)
  }

  function Position(store: Store, slot: Slot): nat {
    if store == [] || store[0].slot == slot then 0 else 1 + Position(store[1..], slot)
  }

  /** The free room plus the entries that would be evicted first. */
  function Slack(store: Store, slot: Slot): nat
    requires |store| <= MAX_SKIPPED_KEYS
  {
    Position(store, slot) + (MAX_SKIPPED_KEYS - |store|)
  }

  lemma {:induction false} PositionIndex(store: Store, slot: Slot)
    requires Find(store, slot).Some?
    ensures Position(store, slot) < |store| && store[Position(store, slot)].slot == slot
  {
    if store[0].slot != slot {
      PositionIndex(store[1..], slot);
    }
  }

  lemma {:induction false} PositionAppend(store: Store, entry: Entry, slot: Slot)
    ensures Find(store, slot).Some? ==> Position(store + [entry], slot) == Position(store, slot)
    ensures Find(store, slot).None? && entry.slot == slot ==> Position(store + [entry], slot) == |store|
  {
    if store == [] {
      assert store + [entry] == [entry];
    } else {
      assert (store + [entry])[1..] == store[1..] + [entry];
      PositionAppend(store[1..], entry, slot);
    }
  }

  lemma {:induction false} PositionReplace(store: Store, slot: Slot, key: MessageKey, other: Slot)
    ensures Position(Replace(store, slot, key), other) == Position(store, other)
  {
    if store != [] {
      var result := Replace(store, slot, key);
      if store[0].slot == slot {
        assert result[1..] == store[1..];
      } else {
        assert result[1..] == Replace(store[1..], slot, key);
        PositionReplace(store[1..], slot, key, other);
      }
    }
  }

  lemma {:induction false} PositionWithout(store: Store, slot: Slot, other: Slot)
    requires Distinct(store) && other != slot && Find(store, other).Some?
    ensures Position(Without(store, slot), other) >= Position(store, other) - 1
    ensures Find(store, slot).None? ==> Position(Without(store, slot), other) == Position(store, other)
  {
    if store[0].slot != slot {
      assert ([store[0]] + Without(store[1..], slot))[1..] == Without(store[1..], slot);
      if store[0].slot != other {
        PositionWithout(store[1..], slot, other);
      }
    }
  }

  /** One operation that does not take the slot costs it at most one unit of slack, and only a new insertion costs. */
  lemma SlackStep(store: Store, op: Op, slot: Slot)
    requires Bounded(store) && Find(store, slot).Some? && op != Take(slot)
    requires IsNew(store, op) ==> Slack(store, slot) > 0
    ensures Bounded(Apply(store, op)) && Find(Apply(store, op), slot).Some?
    ensures Slack(Apply(store, op), slot) + (if IsNew(store, op) then 1 else 0) >= Slack(store, slot)
    ensures op.Insert? ==> Slack(Apply(store, op), slot) + (if IsNew(store, op) then 1 else 0) == Slack(store, slot)
  {
    PositionIndex(store, slot);
    match op
    case Take(taken) =>
      WithoutShrinks(store, taken);
      FindWithout(store, taken, slot);
      PositionWithout(store, taken, slot);
    case Insert(added, key) =>
      PutBounded(store, added, key);
      FindPut(store, added, key, slot);
      if Find(store, added).Some? {
        PositionReplace(store, added, key, slot);
      } else if |store| >= MAX_SKIPPED_KEYS {
        FindMember(store, slot);
        assert store[0].slot != slot;
        assert Find(store[1..], slot).Some?;
        PositionAppend(store[1..], Entry(added, key), slot);
      } else {
        PositionAppend(store, Entry(added, key), slot);
      }
  }

  /** A key that is never taken survives as many new insertions as it has slack, under any interleaving of
      takes and re-insertions. */
  lemma {:induction false} SurvivesWithinSlack(store: Store, slot: Slot, ops: seq<Op>)
    requires Bounded(store) && Find(store, slot).Some? && NeverTaken(slot, ops)
    requires NewInsertions(store, ops) <= Slack(store, slot)
    ensures Bounded(ApplyAll(store, ops)) && Find(ApplyAll(store, ops), slot).Some?
    decreases |ops|
  {
    if ops != [] {
      SlackStep(store, ops[0], slot);
      SurvivesWithinSlack(Apply(store, ops[0]), slot, ops[1..]);
    }
  }

  /** A key inserted just now has room for exactly 999 new insertions. */
  lemma FreshSlack(store: Store, slot: Slot, key: MessageKey)
    requires Bounded(store) && Find(store, slot).None?
    ensures Bounded(Put(store, slot, key)) && Find(Put(store, slot, key), slot) == Some(key)
    ensures Slack(Put(store, slot, key), slot) == MAX_SKIPPED_KEYS - 1
  {
    PutBounded(store, slot, key);
    FindPut(store, slot, key, slot);
    if |store| >= MAX_SKIPPED_KEYS {
      FindMember(store, slot);
      FindMember(store[1..], slot);
      PositionAppend(store[1..], Entry(slot, key), slot);
    } else {
      PositionAppend(store, Entry(slot, key), slot);
    }
  }

  /** Retention: a newly skipped key, never taken, survives any 999 further insertions of new keys. */
  lemma RetainedFor999(store: Store, slot: Slot, key: MessageKey, ops: seq<Op>)
    requires Bounded(store) && Find(store, slot).None? && NeverTaken(slot, ops)
    requires NewInsertions(Put(store, slot, key), ops) <= MAX_SKIPPED_KEYS - 1
    ensures Find(ApplyAll(Put(store, slot, key), ops), slot).Some?
  {
    FreshSlack(store, slot, key);
    SurvivesWithinSlack(Put(store, slot, key), slot, ops);
  }

  predicate OnlyInserts(slot: Slot, ops: seq<Op>) {
    forall i :: 0 <= i < |ops| ==> ops[i].Insert? && ops[i].slot != slot
  }

  lemma {:induction false} GoneStaysGone(store: Store, slot: Slot, ops: seq<Op>)
    requires Bounded(store) && Find(store, slot).None? && OnlyInserts(slot, ops)
    ensures Find(ApplyAll(store, ops), slot).None?
    decreases |ops|
  {
    if ops != [] {
      PutBounded(store, ops[0].slot, ops[0].key);
      FindPut(store, ops[0].slot, ops[0].key, slot);
      GoneStaysGone(Apply(store, ops[0]), slot, ops[1..]);
    }
  }

  /** The bound is tight: when nothing is taken, the key survives if and only if the new insertions fit its slack. */
  lemma {:induction false} EvictedBeyondSlack(store: Store, slot: Slot, ops: seq<Op>)
    requires Bounded(store) && Find(store, slot).Some? && OnlyInserts(slot, ops)
    ensures Find(ApplyAll(store, ops), slot).Some? <==> NewInsertions(store, ops) <= Slack(store, slot)
    decreases |ops|
  {
    if ops != [] {
      var op := ops[0];
      PositionIndex(store, slot);
      if IsNew(store, op) && Slack(store, slot) == 0 {
        PutBounded(store, op.slot, op.key);
        FindPut(store, op.slot, op.key, slot);
        GoneStaysGone(Apply(store, op), slot, ops[1..]);
      } else {
        SlackStep(store, op, slot);
        EvictedBeyondSlack(Apply(store, op), slot, ops[1..]);
      }
    }
  }
}
