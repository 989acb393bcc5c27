/** `queue.rs`: the message queue of a device, kept in Redis under `msg:{device}:{id}`.

    A drain is a loop of SCAN, GET and DEL commands. Between any two of them other clients enqueue and acknowledge, and
    entries expire. */
module Queue {
  import opened Wrappers
  import opened ByteText

  datatype Message = Message(id: string, blob: Bytes)

  function DevicePrefix(device: string): string {
    "msg:" + device + ":"
  }

  function KeyOf(device: string, id: string): string {
    DevicePrefix(device) + id
  }

  /** What `SCAN ... MATCH msg:{device}:*` selects: a device id holds no pattern characters. */
  predicate Matches(device: string, key: string) {
    DevicePrefix(device) <= key
  }

  function StripPrefix(prefix: string, key: string): string {
    if prefix <= key then key[|prefix|..] else key
  }

  /** The id comes back from the key, also when it contains ':'; and a key that matches is the key of its id. */
  lemma IdRecovered(device: string, id: string, key: string)
    ensures Matches(device, KeyOf(device, id)) && StripPrefix(DevicePrefix(device), KeyOf(device, id)) == id
    ensures Matches(device, key) ==> KeyOf(device, StripPrefix(DevicePrefix(device), key)) == key
  {
    assert KeyOf(device, id)[|DevicePrefix(device)|..] == id;
  }

  /** The key itself: `msg:`, the device, a colon, and the id as it is; and a key matches exactly if it is one of
      these. */
  lemma KeyText(device: string, id: string, key: string)
    ensures KeyOf(device, id) == "msg:" + device + ":" + id
    ensures Matches(device, key) <==> exists i :: key == KeyOf(device, i)
  {
    if Matches(device, key) {
      IdRecovered(device, "", key);
    }
    if i :| key == KeyOf(device, i) {
      assert DevicePrefix(device) <= key;
    }
  }

  /** Device ids are UUIDs, all of one length: no device's pattern selects another device's entry, and no two entries
      share a key. */
  lemma DevicesApart(device: string, other: string, id: string, otherId: string)
    requires |device| == |other|
    ensures Matches(device, KeyOf(other, id)) <==> device == other
    ensures KeyOf(device, id) == KeyOf(other, otherId) <==> device == other && id == otherId
  {
    var n := |device|;
    assert DevicePrefix(device)[4..4 + n] == device && DevicePrefix(other)[4..4 + n] == other;
    if Matches(device, KeyOf(other, id)) {
      assert KeyOf(other, id)[4..4 + n] == other;
      assert DevicePrefix(device)[4..4 + n] == KeyOf(other, id)[..n + 5][4..4 + n];
    }
    IdRecovered(device, id, KeyOf(other, otherId));
    IdRecovered(other, otherId, KeyOf(device, id));
    if KeyOf(device, id) == KeyOf(other, otherId) {
      assert KeyOf(device, id)[4..4 + n] == device;
      assert KeyOf(other, otherId)[4..4 + n] == other;
    }
  }

  // ------------------------------------------------------------------------ the protocol

  /** What one SET put under a key. The number counts the SETs, so two entries with the same id and bytes are told
      apart. */
  datatype Entry = Entry(key: string, number: nat, blob: Bytes)

  /** A drain in progress: the cursor of the last reply, the keys of that reply not looked at yet, the entry that was
      read and is about to be deleted, and what was collected. `reported` holds every key some reply named, `stable`
      the keys of the device that were there at the first SCAN and have been there ever since. */
  datatype Drain =
    | Idle
    | Active(cursor: nat, page: seq<string>, hand: Option<Entry>, collected: seq<Entry>,
             reported: set<string>, stable: set<string>)

  /** The store, every entry ever set, the drain, what finished drains returned and how many there were, and the numbers
      of the entries others removed before they were read. */
  datatype System = System(
    db: map<string, Entry>,
    sets: seq<Entry>,
    drain: Drain,
    returned: seq<Entry>,
    completed: nat,
    removed: set<nat>)

  datatype Event =
    | Set(key: string, blob: Bytes)
    | Remove(key: string)  // an acknowledgement, or an expiry
    | Scan(next: nat, keys: seq<string>)
    | Get
    | Del
    | Return
    | Fail  // a command of the drain fails, and with it the drain

  function Start(): System {
    System(map[], [], Idle, [], 0, {})
  }

  function MessageOf(device: string, e: Entry): Message {
    Message(StripPrefix(DevicePrefix(device), e.key), e.blob)
  }

  function Messages(device: string, entries: seq<Entry>): (messages: seq<Message>)
    ensures |messages| == |entries|
  {
    seq(|entries|, i requires 0 <= i < |entries| => MessageOf(device, entries[i]))
  }

  predicate Stored(s: System, e: Entry) {
    e.key in s.db && s.db[e.key] == e
  }

  predicate InHand(s: System, e: Entry) {
    s.drain.Active? && s.drain.hand == Some(e)
  }

  predicate ScanEnabled(s: System) {
    s.drain.Idle? || (s.drain.cursor != 0 && s.drain.page == [] && s.drain.hand.None?)
  }

  predicate GetEnabled(s: System) {
    s.drain.Active? && s.drain.hand.None? && s.drain.page != []
  }

  predicate DelEnabled(s: System) {
    s.drain.Active? && s.drain.hand.Some?
  }

  predicate ReturnEnabled(s: System) {
    s.drain.Active? && s.drain.cursor == 0 && s.drain.page == [] && s.drain.hand.None?
  }

  function StableBefore(device: string, s: System): set<string> {
    if s.drain.Active? then s.drain.stable else set key | key in s.db && Matches(device, key)
  }

  function ReportedBefore(s: System): set<string> {
    if s.drain.Active? then s.drain.reported else {}
  }

  function CollectedBefore(s: System): seq<Entry> {
    if s.drain.Active? then s.drain.collected else []
  }

  function KeySet(keys: seq<string>): set<string> {
    set i | 0 <= i < |keys| :: keys[i]
  }

  /** A SET replaces whatever is stored under the key. */
  function AfterSet(s: System, key: string, blob: Bytes): System {
    var e := Entry(key, |s.sets|, blob);
    s.(db := s.db[key := e], sets := s.sets + [e])
  }

  function AfterRemove(s: System, key: string): System {
    s.(db := s.db - {key},
       removed := if key in s.db && !InHand(s, s.db[key]) then s.removed + {s.db[key].number} else s.removed,
       drain := if s.drain.Active? then s.drain.(stable := s.drain.stable - {key}) else s.drain)
  }

  function AfterScan(device: string, s: System, next: nat, keys: seq<string>): System {
    s.(drain := Active(next, keys, None, CollectedBefore(s), ReportedBefore(s) + KeySet(keys), StableBefore(device, s)))
  }

  function AfterGet(s: System): System
    requires GetEnabled(s)
  {
    var key := s.drain.page[0];
    s.(drain := s.drain.(page := s.drain.page[1..], hand := if key in s.db then Some(s.db[key]) else None))
  }

  /** DEL deletes whatever is stored under the key by now. */
  function AfterDel(s: System): System
    requires DelEnabled(s)
  {
    var hand := s.drain.hand.value;
    s.(db := s.db - {hand.key},
       drain := s.drain.(hand := None, collected := s.drain.collected + [hand], stable := s.drain.stable - {hand.key}))
  }

  /** One command. A command the drain would not issue in its state changes nothing. */
  function Step(device: string, s: System, e: Event): System {
    match e
    case Set(key, blob) => AfterSet(s, key, blob)
    case Remove(key) => AfterRemove(s, key)
    case Scan(next, keys) => if ScanEnabled(s) then AfterScan(device, s, next, keys) else s
    case Get => if GetEnabled(s) then AfterGet(s) else s
    case Del => if DelEnabled(s) then AfterDel(s) else s
    case Return =>
      if ReturnEnabled(s) then
        s.(returned := s.returned + s.drain.collected, completed := s.completed + 1, drain := Idle)
      else s
    case Fail => s.(drain := Idle)
  }

  function Run(device: string, s: System, events: seq<Event>): System
    decreases |events|
  {
    if events == [] then s else Run(device, Step(device, s, events[0]), events[1..])
  }

  // ---------------------------------------------------------------------------- invariant

  function HandList(s: System): seq<Entry> {
    if s.drain.Active? && s.drain.hand.Some? then [s.drain.hand.value] else []
  }

  /** Everything read so far by drains that did not fail. */
  function Live(s: System): seq<Entry> {
    s.returned + CollectedBefore(s) + HandList(s)
  }

  /** The entry is the one its number says. */
  predicate Known(s: System, e: Entry) {
    e.number < |s.sets| && s.sets[e.number] == e
  }

  predicate NoRepeats(entries: seq<Entry>) {
    forall i, k :: 0 <= i < k < |entries| ==> entries[i].number != entries[k].number
  }

  predicate ReadOnce(s: System, e: Entry) {
    Known(s, e) && e.number !in s.removed && (Stored(s, e) ==> InHand(s, e))
  }

  predicate StoreOk(s: System) {
    && (forall i :: 0 <= i < |s.sets| ==> s.sets[i].number == i)
    && (forall key :: key in s.db ==> s.db[key].key == key && Known(s, s.db[key]))
    && (forall n :: n in s.removed ==> n < |s.sets| && !Stored(s, s.sets[n]))
  }

  predicate LiveOk(s: System) {
    && NoRepeats(Live(s))
    && forall i :: 0 <= i < |Live(s)| ==> ReadOnce(s, Live(s)[i])
  }

  predicate Inv(s: System) {
    StoreOk(s) && LiveOk(s)
  }

  predicate Has(entries: seq<Entry>, e: Entry) {
    exists i :: 0 <= i < |entries| && entries[i] == e
  }

  // ------------------------------------------------------------------------- conservation

  function Count(b: bool): nat {
    if b then 1 else 0
  }

  /** In how many of these places an entry is: queued, with the drain in progress, returned by a finished drain, removed
      by others before it was read. */
  function Places(s: System, e: Entry): nat {
    Count(Stored(s, e) && !InHand(s, e)) + Count(InHand(s, e) || Has(CollectedBefore(s), e)) + Count(Has(s.returned, e))
    + Count(e.number in s.removed)
  }

  /** The event destroys the entry: a SET overwrites it before it was read, the DEL of another entry with the same key
      deletes it, or the drain fails while it alone has it. */
  predicate Destroys(s: System, event: Event, e: Entry) {
    match event
    case Set(key, _) => Stored(s, e) && e.key == key && !InHand(s, e)
    case Del => DelEnabled(s) && Stored(s, e) && e.key == s.drain.hand.value.key && !InHand(s, e)
    case Fail => Has(CollectedBefore(s), e) || (InHand(s, e) && !Stored(s, e))
    case _ => false
  }

  predicate DestroyedIn(device: string, s: System, events: seq<Event>, e: Entry)
    decreases |events|
  {
    events != [] && (Destroys(s, events[0], e) || DestroyedIn(device, Step(device, s, events[0]), events[1..], e))
  }

  lemma HasConcat(a: seq<Entry>, b: seq<Entry>, e: Entry)
    ensures Has(a + b, e) <==> Has(a, e) || Has(b, e)
  {
    if Has(a, e) {
      var i :| 0 <= i < |a| && a[i] == e;
      assert (a + b)[i] == e;
    }
    if Has(b, e) {
      var i :| 0 <= i < |b| && b[i] == e;
      assert (a + b)[|a| + i] == e;
    }
  }

  lemma HasOne(a: Entry, e: Entry)
    ensures Has([a], e) <==> a == e
  {
    assert [a][0] == a;
  }

  /** No two live entries are the same. */
  lemma PartsDisjoint(s: System, e: Entry)
    requires Inv(s)
    ensures Has(s.returned, e) ==> !Has(CollectedBefore(s), e) && !InHand(s, e)
    ensures Has(CollectedBefore(s), e) ==> !InHand(s, e)
    ensures Has(s.returned, e) || Has(CollectedBefore(s), e) || InHand(s, e) ==> ReadOnce(s, e)
  {
    var live, a, b := Live(s), s.returned, CollectedBefore(s);
    forall i | 0 <= i < |a| ensures live[i] == a[i] {}
    forall i | 0 <= i < |b| ensures live[|a| + i] == b[i] {}
    if InHand(s, e) {
      assert live[|live| - 1] == e;
    }
  }

  lemma AtMostOnePlace(s: System, e: Entry)
    requires Inv(s)
    ensures Places(s, e) <= 1
  {
    PartsDisjoint(s, e);
    if Stored(s, e) {
      assert Known(s, e);
    }
  }

  /** One command moves an entry from place to place, or destroys it and then it is in none. */
  lemma PlacesStep(device: string, s: System, event: Event, e: Entry)
    requires Inv(s) && Known(s, e)
    ensures Places(Step(device, s, event), e) == if Destroys(s, event, e) then 0 else Places(s, e)
  {
    PartsDisjoint(s, e);
    match event
    case Set(key, blob) =>
    case Remove(key) =>
    case Scan(next, keys) =>
    case Get =>
    case Del =>
      if DelEnabled(s) {
        HasConcat(s.drain.collected, [s.drain.hand.value], e);
        HasOne(s.drain.hand.value, e);
      }
    case Return =>
      if ReturnEnabled(s) {
        HasConcat(s.returned, s.drain.collected, e);
      }
    case Fail =>
  }

  lemma LiveOf(s: System, t: System)
    requires Inv(s) && StoreOk(t) && Live(t) == Live(s) && s.sets <= t.sets && t.removed == s.removed
    requires forall e :: Known(s, e) && Stored(t, e) ==> Stored(s, e)
    requires forall e :: InHand(s, e) && Stored(t, e) ==> InHand(t, e)
    ensures Inv(t)
  {
    hide Live;
    forall i | 0 <= i < |Live(t)| ensures ReadOnce(t, Live(t)[i]) {
      assert ReadOnce(s, Live(s)[i]);
    }
  }

  lemma SetKeepsInv(s: System, key: string, blob: Bytes)
    requires Inv(s)
    ensures Inv(AfterSet(s, key, blob))
  {
    var t := AfterSet(s, key, blob);
    forall k | k in t.db ensures t.db[k].key == k && Known(t, t.db[k]) {
      assert k != key ==> Known(s, s.db[k]);
    }
    LiveOf(s, t);
  }

  lemma RemoveKeepsInv(s: System, key: string)
    requires Inv(s)
    ensures Inv(AfterRemove(s, key))
  {
    var t := AfterRemove(s, key);
    var live := Live(s);
    assert Live(t) == live;
    forall k | k in t.db ensures t.db[k].key == k && Known(t, t.db[k]) {
      assert Known(s, s.db[k]);
    }
    forall i | 0 <= i < |live| ensures ReadOnce(t, live[i]) {
      assert ReadOnce(s, live[i]);
      assert key in s.db ==> Known(s, s.db[key]);
    }
  }

  lemma ReadKeepsInv(s: System)
    requires Inv(s) && GetEnabled(s)
    ensures Inv(AfterGet(s))
  {
    var t, key, live := AfterGet(s), s.drain.page[0], Live(s);
    if key in s.db {
      var e := s.db[key];
      assert Known(s, e) && Stored(s, e);
      assert Live(t) == live + [e];
      forall i | 0 <= i < |live| ensures ReadOnce(t, live[i]) && live[i].number != e.number {
        assert ReadOnce(s, live[i]);
      }
    } else {
      assert Live(t) == live;
      LiveOf(s, t);
    }
  }

  lemma DelKeepsInv(s: System)
    requires Inv(s) && DelEnabled(s)
    ensures Inv(AfterDel(s))
  {
    var t, live := AfterDel(s), Live(s);
    assert Live(t) == live;
    forall k | k in t.db ensures t.db[k].key == k && Known(t, t.db[k]) {
      assert Known(s, s.db[k]);
    }
    LiveOf(s, t);
  }

  lemma FailKeepsInv(s: System)
    requires Inv(s)
    ensures Inv(s.(drain := Idle))
  {
    var t, live := s.(drain := Idle), Live(s);
    assert Live(t) == s.returned;
    forall i | 0 <= i < |s.returned| ensures ReadOnce(t, s.returned[i]) && live[i] == s.returned[i] {
      assert ReadOnce(s, live[i]);
      assert Has(s.returned, s.returned[i]);
      PartsDisjoint(s, s.returned[i]);
    }
  }

  /** Whatever the commands are, each entry is read at most once, and what was read is not waiting to be read again. */
  lemma StepKeepsInv(device: string, s: System, e: Event)
    requires Inv(s)
    ensures Inv(Step(device, s, e))
  {
    match e
    case Set(key, blob) => SetKeepsInv(s, key, blob);
    case Remove(key) => RemoveKeepsInv(s, key);
    case Scan(next, keys) => if ScanEnabled(s) {
      assert Live(AfterScan(device, s, next, keys)) == Live(s);
      LiveOf(s, AfterScan(device, s, next, keys));
    }
    case Get => if GetEnabled(s) { ReadKeepsInv(s); }
    case Del => if DelEnabled(s) { DelKeepsInv(s); }
    case Return => if ReturnEnabled(s) {
      assert Live(Step(device, s, e)) == Live(s);
      LiveOf(s, Step(device, s, e));
    }
    case Fail => FailKeepsInv(s);
  }

  lemma {:induction false} RunKeepsInv(device: string, s: System, events: seq<Event>)
    requires Inv(s)
    ensures Inv(Run(device, s, events)) && s.sets <= Run(device, s, events).sets
    decreases |events|
  {
    if events != [] {
      var next := Step(device, s, events[0]);
      assert s.sets <= next.sets;
      hide Inv, Step;
      StepKeepsInv(device, s, events[0]);
      RunKeepsInv(device, next, events[1..]);
    }
  }

  lemma StartInv()
    ensures Inv(Start())
  {
  }

  /** An entry not set yet is nowhere, and a SET puts it in exactly one place. */
  lemma UnknownStep(device: string, s: System, event: Event, e: Entry)
    requires Inv(s) && !Known(s, e)
    ensures !Destroys(s, event, e)
    ensures Known(Step(device, s, event), e) ==> Places(Step(device, s, event), e) == 1
  {
    PartsDisjoint(s, e);
  }

  lemma {:induction false} ConservedFrom(device: string, s: System, events: seq<Event>, e: Entry)
    requires Inv(s) && Known(Run(device, s, events), e)
    ensures Places(Run(device, s, events), e) ==
            if DestroyedIn(device, s, events, e) || (Known(s, e) && Places(s, e) == 0) then 0 else 1
    decreases |events|
  {
    if events == [] {
      AtMostOnePlace(s, e);
    } else {
      var next := Step(device, s, events[0]);
      assert Known(s, e) ==> Known(next, e);
      hide Inv, Step, Places, Destroys, Known;
      StepKeepsInv(device, s, events[0]);
      ConservedFrom(device, next, events[1..], e);
      if Known(s, e) {
        PlacesStep(device, s, events[0], e);
      } else {
        UnknownStep(device, s, events[0], e);
      }
    }
  }

  /** Conservation, for every run, with ids sent again at will: every entry ever set is in exactly one place, unless the
      run contains an event that destroys it, and then it is in none. */
  lemma Conservation(device: string, events: seq<Event>, e: Entry)
    requires Known(Run(device, Start(), events), e)
    ensures Places(Run(device, Start(), events), e) == if DestroyedIn(device, Start(), events, e) then 0 else 1
  {
    StartInv();
    ConservedFrom(device, Start(), events, e);
  }

  // ------------------------------------------------------------------ when nothing is lost

  /** What a bystander can see of an event that destroys something: a SET on a key whose entry has not been read, a DEL
      while the entry stored under the key is not the one the GET returned, or a failing command after the drain has
      deleted an entry or after the one it has read was removed. */
  predicate Harms(s: System, event: Event) {
    match event
    case Set(key, _) => key in s.db && !InHand(s, s.db[key])
    case Del => DelEnabled(s) && s.drain.hand.value.key in s.db && s.db[s.drain.hand.value.key] != s.drain.hand.value
    case Fail => s.drain.Active? && (s.drain.collected != [] || (s.drain.hand.Some? && !Stored(s, s.drain.hand.value)))
    case _ => false
  }

  predicate HarmedIn(device: string, s: System, events: seq<Event>)
    decreases |events|
  {
    events != [] && (Harms(s, events[0]) || HarmedIn(device, Step(device, s, events[0]), events[1..]))
  }

  lemma HarmHits(s: System, event: Event) returns (e: Entry)
    requires Inv(s) && Harms(s, event)
    ensures Known(s, e) && Destroys(s, event, e)
  {
    match event
    case Set(key, _) => e := s.db[key];
    case Del => e := s.db[s.drain.hand.value.key];
    case Fail =>
      e := if s.drain.collected != [] then s.drain.collected[0] else s.drain.hand.value;
      assert s.drain.collected != [] ==> Has(s.drain.collected, e);
      PartsDisjoint(s, e);
  }

  lemma DestroysHarms(s: System, event: Event, e: Entry)
    requires Inv(s) && Destroys(s, event, e)
    ensures Harms(s, event)
  {
  }

  lemma {:induction false} HarmedHits(device: string, s: System, events: seq<Event>) returns (e: Entry)
    requires Inv(s) && HarmedIn(device, s, events)
    ensures Known(Run(device, s, events), e) && DestroyedIn(device, s, events, e)
    decreases |events|
  {
    var next := Step(device, s, events[0]);
    StepKeepsInv(device, s, events[0]);
    if Harms(s, events[0]) {
      e := HarmHits(s, events[0]);
      RunKeepsInv(device, s, events);
    } else {
      hide Step;
      e := HarmedHits(device, next, events[1..]);
    }
  }

  lemma {:induction false} DestroyedHarmed(device: string, s: System, events: seq<Event>, e: Entry)
    requires Inv(s) && DestroyedIn(device, s, events, e)
    ensures HarmedIn(device, s, events)
    decreases |events|
  {
    hide Inv, Step, Destroys, Harms;
    StepKeepsInv(device, s, events[0]);
    if Destroys(s, events[0], e) {
      DestroysHarms(s, events[0], e);
    } else {
      DestroyedHarmed(device, Step(device, s, events[0]), events[1..], e);
    }
  }

  /** Every entry is queued, with the drain, returned or removed if and only if no event of the run does harm. */
  lemma NothingLostIffHarmless(device: string, events: seq<Event>)
    ensures (forall e :: Known(Run(device, Start(), events), e) ==> Places(Run(device, Start(), events), e) == 1)
            <==> !HarmedIn(device, Start(), events)
  {
    hide Inv, Step, Run, Places, Known, DestroyedIn, HarmedIn;
    StartInv();
    var s := Run(device, Start(), events);
    if HarmedIn(device, Start(), events) {
      var e := HarmedHits(device, Start(), events);
      Conservation(device, events, e);
    } else {
      forall e | Known(s, e) ensures Places(s, e) == 1 {
        Conservation(device, events, e);
        if DestroyedIn(device, Start(), events, e) {
          DestroyedHarmed(device, Start(), events, e);
        }
      }
    }
  }

  // -------------------------------------------------------- what a drain is sure to return

  /** A SCAN names only keys that match, and a full iteration names every key that was there throughout. It may name
      keys twice, and keys that are gone. */
  predicate Legal(device: string, s: System, e: Event) {
    e.Scan? ==>
      && (forall i :: 0 <= i < |e.keys| ==> Matches(device, e.keys[i]))
      && (e.next == 0 ==> StableBefore(device, s) <= ReportedBefore(s) + KeySet(e.keys))
  }

  predicate LegalRun(device: string, s: System, events: seq<Event>)
    decreases |events|
  {
    events == [] || (Legal(device, s, events[0]) && LegalRun(device, Step(device, s, events[0]), events[1..]))
  }

  predicate AllMatch(device: string, entries: seq<Entry>) {
    forall i :: 0 <= i < |entries| ==> Matches(device, entries[i].key)
  }

  predicate HandKey(s: System, key: string) {
    s.drain.Active? && s.drain.hand.Some? && s.drain.hand.value.key == key
  }

  predicate DrainOk(device: string, s: System) {
    && AllMatch(device, Live(s))
    && (s.drain.Active? ==>
          && (forall i :: 0 <= i < |s.drain.page| ==> Matches(device, s.drain.page[i]))
          && s.drain.stable <= s.db.Keys
          && (forall key :: key in s.drain.stable && key in s.drain.reported ==> key in s.drain.page || HandKey(s, key))
          && (s.drain.cursor == 0 ==> s.drain.stable <= s.drain.reported))
  }

  lemma MatchConcat(device: string, a: seq<Entry>, b: seq<Entry>)
    ensures AllMatch(device, a + b) <==> AllMatch(device, a) && AllMatch(device, b)
  {
    if AllMatch(device, a + b) {
      forall i | 0 <= i < |a| ensures Matches(device, a[i].key) {
        assert (a + b)[i] == a[i];
      }
      forall i | 0 <= i < |b| ensures Matches(device, b[i].key) {
        assert (a + b)[|a| + i] == b[i];
      }
    }
  }

  lemma GetKeepsDrain(device: string, s: System)
    requires Inv(s) && DrainOk(device, s) && GetEnabled(s)
    ensures DrainOk(device, AfterGet(s))
  {
    hide Matches, LiveOk, AllMatch;
    var t, key, rest := AfterGet(s), s.drain.page[0], s.drain.page[1..];
    assert Matches(device, key) && s.drain.page == [key] + rest;
    forall k | k in s.drain.stable && k in s.drain.reported ensures k in rest || HandKey(t, k) {
      assert k in s.drain.page;
    }
    if key in s.db {
      assert Live(t) == Live(s) + [s.db[key]];
      MatchConcat(device, Live(s), [s.db[key]]);
      MatchOne(device, s.db[key]);
    } else {
      assert Live(t) == Live(s);
    }
  }

  lemma MatchOne(device: string, e: Entry)
    ensures AllMatch(device, [e]) <==> Matches(device, e.key)
  {
    assert [e][0] == e;
  }

  lemma StepKeepsDrain(device: string, s: System, e: Event)
    requires Inv(s) && DrainOk(device, s) && Legal(device, s, e)
    ensures DrainOk(device, Step(device, s, e))
  {
    hide Matches, LiveOk;
    var t := Step(device, s, e);
    match e
    case Get => if GetEnabled(s) { GetKeepsDrain(device, s); }
    case Fail =>
      MatchConcat(device, s.returned, CollectedBefore(s) + HandList(s));
      assert Live(s) == s.returned + (CollectedBefore(s) + HandList(s));
      assert Live(t) == s.returned;
    case _ => assert Live(t) == Live(s);
  }

  lemma {:induction false} RunKeepsDrain(device: string, s: System, events: seq<Event>)
    requires Inv(s) && DrainOk(device, s) && LegalRun(device, s, events)
    ensures Inv(Run(device, s, events)) && DrainOk(device, Run(device, s, events))
    decreases |events|
  {
    if events != [] {
      hide Inv, Step, DrainOk, Legal;
      StepKeepsInv(device, s, events[0]);
      StepKeepsDrain(device, s, events[0]);
      RunKeepsDrain(device, Step(device, s, events[0]), events[1..]);
    }
  }

  /** Over all drains of a run, no entry is returned twice, and a returned message has the id and the bytes that were
      set for the device; its entry is no longer stored. */
  lemma ReturnedOnce(device: string, events: seq<Event>)
    requires LegalRun(device, Start(), events)
    ensures var s := Run(device, Start(), events);
            && NoRepeats(s.returned)
            && forall i :: 0 <= i < |s.returned| ==>
                var e, m := s.returned[i], MessageOf(device, s.returned[i]);
                Known(s, e) && !Stored(s, e) && KeyOf(device, m.id) == e.key && m.blob == e.blob
  {
    StartInv();
    RunKeepsDrain(device, Start(), events);
    var s := Run(device, Start(), events);
    var live := Live(s);
    forall i | 0 <= i < |s.returned|
      ensures var e, m := s.returned[i], MessageOf(device, s.returned[i]);
              live[i] == e && Known(s, e) && !Stored(s, e) && KeyOf(device, m.id) == e.key && m.blob == e.blob
    {
      assert live[i] == s.returned[i] && Has(s.returned, s.returned[i]);
      PartsDisjoint(s, s.returned[i]);
      IdRecovered(device, "", s.returned[i].key);
    }
  }

  /** Where an entry is that was queued when drain `n` began, and that nobody else removes or overwrites. */
  predicate Tracked(device: string, s: System, n: nat, e: Entry) {
    if s.completed > n then Has(s.returned, e)
    else if s.drain.Idle? then Stored(s, e) && Matches(device, e.key)
    else
      || (e.key in s.drain.stable && Stored(s, e) && (HandKey(s, e.key) ==> InHand(s, e)))
      || InHand(s, e)
      || Has(s.drain.collected, e)
  }

  /** Others leave the key alone while it is stored, and the drain does not fail. */
  predicate Leaves(s: System, event: Event, key: string) {
    event != Remove(key) && !event.Fail? && (event.Set? && event.key == key ==> key !in s.db)
  }

  lemma TrackedStep(device: string, s: System, event: Event, n: nat, e: Entry)
    requires Inv(s) && DrainOk(device, s) && Legal(device, s, event) && Tracked(device, s, n, e) && s.completed >= n
    requires Leaves(s, event, e.key)
    ensures Tracked(device, Step(device, s, event), n, e) && Step(device, s, event).completed >= n
  {
    hide Matches, LiveOk;
    match event
    case Return =>
      if ReturnEnabled(s) {
        HasConcat(s.returned, s.drain.collected, e);
      }
    case Del =>
      if DelEnabled(s) {
        HasConcat(s.drain.collected, [s.drain.hand.value], e);
        HasOne(s.drain.hand.value, e);
      }
    case _ =>
  }

  predicate Undisturbed(device: string, s: System, events: seq<Event>, key: string)
    decreases |events|
  {
    events == [] || (Leaves(s, events[0], key) && Undisturbed(device, Step(device, s, events[0]), events[1..], key))
  }

  lemma {:induction false} TrackedRun(device: string, s: System, events: seq<Event>, n: nat, e: Entry)
    requires Inv(s) && DrainOk(device, s) && LegalRun(device, s, events) && Undisturbed(device, s, events, e.key)
    requires Tracked(device, s, n, e) && s.completed >= n
    ensures Tracked(device, Run(device, s, events), n, e)
    decreases |events|
  {
    if events != [] {
      hide Inv, DrainOk, Tracked, Legal, Leaves, Step;
      StepKeepsInv(device, s, events[0]);
      StepKeepsDrain(device, s, events[0]);
      TrackedStep(device, s, events[0], n, e);
      TrackedRun(device, Step(device, s, events[0]), events[1..], n, e);
    }
  }

  /** An entry that is queued when a drain begins, and whose key nobody removes or overwrites while it is stored, is
      returned exactly once by the time the drain has finished, and is then gone. Ids may be sent again at will. */
  lemma PresentIsReturned(device: string, before: seq<Event>, during: seq<Event>, e: Entry)
    requires LegalRun(device, Start(), before)
    requires var s := Run(device, Start(), before);
             && LegalRun(device, s, during) && Undisturbed(device, s, during, e.key)
             && s.drain.Idle? && Stored(s, e) && Matches(device, e.key)
             && Run(device, s, during).completed > s.completed
    ensures var s := Run(device, Start(), before);
            var t := Run(device, s, during);
            !Has(s.returned, e) && Has(t.returned, e) && NoRepeats(t.returned) && !Stored(t, e)
  {
    StartInv();
    RunKeepsDrain(device, Start(), before);
    var s := Run(device, Start(), before);
    var t := Run(device, s, during);
    RunKeepsDrain(device, s, during);
    TrackedRun(device, s, during, s.completed, e);
    PartsDisjoint(s, e);
    PartsDisjoint(t, e);
    ReturnedNoRepeats(t);
  }

  lemma ReturnedNoRepeats(s: System)
    requires Inv(s)
    ensures NoRepeats(s.returned)
  {
    var live := Live(s);
    forall i, k | 0 <= i < k < |s.returned| ensures s.returned[i].number != s.returned[k].number {
      assert live[i] == s.returned[i] && live[k] == s.returned[k];
    }
  }

  // --------------------------------------------------------------------- an id sent again

  lemma RunCons(device: string, s: System, e: Event, rest: seq<Event>)
    ensures Run(device, s, [e] + rest) == Run(device, Step(device, s, e), rest)
    ensures LegalRun(device, s, [e] + rest) <==> Legal(device, s, e) && LegalRun(device, Step(device, s, e), rest)
  {
    assert ([e] + rest)[1..] == rest;
  }

  lemma {:induction false} RunConcat(device: string, s: System, first: seq<Event>, more: seq<Event>)
    ensures Run(device, s, first + more) == Run(device, Run(device, s, first), more)
    ensures LegalRun(device, s, first + more) <==>
            LegalRun(device, s, first) && LegalRun(device, Run(device, s, first), more)
    decreases |first|
  {
    if first == [] {
      assert first + more == more;
    } else {
      hide Step, Legal;
      assert first + more == [first[0]] + (first[1..] + more);
      RunCons(device, s, first[0], first[1..] + more);
      RunConcat(device, Step(device, s, first[0]), first[1..], more);
    }
  }

  lemma ThreeSteps(device: string, s: System, a: Event, b: Event, c: Event)
    ensures Run(device, s, [a, b, c]) == Step(device, Step(device, Step(device, s, a), b), c)
    ensures LegalRun(device, s, [a, b, c]) <==>
            && Legal(device, s, a) && Legal(device, Step(device, s, a), b)
            && Legal(device, Step(device, Step(device, s, a), b), c)
  {
    hide Step, Legal;
    var sb := Step(device, s, a);
    assert [a, b, c] == [a] + [b, c] && [b, c] == [b] + [c] && [c] == [c] + [];
    RunCons(device, s, a, [b, c]);
    RunCons(device, sb, b, [c]);
    RunCons(device, Step(device, sb, b), c, []);
  }

  lemma FourSteps(device: string, s: System, a: Event, b: Event, c: Event, d: Event)
    ensures Run(device, s, [a, b, c, d]) == Step(device, Step(device, Step(device, Step(device, s, a), b), c), d)
    ensures LegalRun(device, s, [a, b, c, d]) <==>
            && Legal(device, s, a) && Legal(device, Step(device, s, a), b)
            && Legal(device, Step(device, Step(device, s, a), b), c)
            && Legal(device, Step(device, Step(device, Step(device, s, a), b), c), d)
  {
    hide Step, Legal;
    assert [a, b, c, d] == [a] + [b, c, d];
    RunCons(device, s, a, [b, c, d]);
    ThreeSteps(device, Step(device, s, a), b, c, d);
  }

  /** An input that loses a message: the entry is acknowledged between GET and DEL and its id is sent again while
      nothing is stored under it; the DEL deletes the new entry, which is then in no place at all. */
  lemma ResentIdVanishes(device: string, id: string, first: Bytes, second: Bytes) returns (events: seq<Event>)
    ensures LegalRun(device, Start(), events)
    ensures var key := KeyOf(device, id);
            var s := Run(device, Start(), events);
            && s.sets == [Entry(key, 0, first), Entry(key, 1, second)]
            && Messages(device, s.returned) == [Message(id, first)]
            && Places(s, s.sets[0]) == 1 && Places(s, s.sets[1]) == 0
  {
    var key := KeyOf(device, id);
    IdRecovered(device, id, key);
    var head, tail := [Set(key, first), Scan(0, [key]), Get, Remove(key)], [Set(key, second), Del, Return];
    events := head + tail;
    RunConcat(device, Start(), head, tail);
    var s1 := Step(device, Start(), Set(key, first));
    assert StableBefore(device, s1) <= KeySet([key]) by {
      assert [key][0] == key;
    }
    var s2 := Step(device, s1, Scan(0, [key]));
    var s3 := Step(device, s2, Get);
    var s4 := Step(device, s3, Remove(key));
    FourSteps(device, Start(), Set(key, first), Scan(0, [key]), Get, Remove(key));
    var s5 := Step(device, s4, Set(key, second));
    var s6 := Step(device, s5, Del);
    ThreeSteps(device, s4, Set(key, second), Del, Return);
    var s7 := Step(device, s6, Return);
    assert s7.returned == [Entry(key, 0, first)];
    HasOne(Entry(key, 0, first), Entry(key, 0, first));
    HasOne(Entry(key, 0, first), Entry(key, 1, second));
  }
}
