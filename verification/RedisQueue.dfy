/** `queue.rs` as it runs: the commands of one client against the shared store. What the server answers to SCAN, and
    what other clients do in between, are inputs. */
module RedisQueue {
  import opened Wrappers
  import opened ByteText
  import opened Queue

  datatype RedisError = RedisError

  datatype Reply = Reply(next: nat, keys: seq<string>)

  /** What happens before the next command: moves of others, and whether the command then fails. */
  datatype Turn = Turn(moves: seq<Event>, fails: bool)

  predicate OthersMove(e: Event) {
    e.Set? || e.Remove?
  }

  predicate OnlyOthers(moves: seq<Event>) {
    forall i :: 0 <= i < |moves| ==> OthersMove(moves[i])
  }

  /** The replies to one full iteration: the cursor comes back to 0 with the last of them. */
  predicate Iteration(replies: seq<Reply>) {
    && replies != []
    && forall i :: 0 <= i < |replies| ==> (replies[i].next == 0 <==> i == |replies| - 1)
  }

  function MovedOne(db: map<string, Bytes>, move: Event): map<string, Bytes> {
    match move
    case Set(key, blob) => db[key := blob]
    case Remove(key) => db - {key}
    case _ => db
  }

  function Moved(db: map<string, Bytes>, moves: seq<Event>): map<string, Bytes>
    decreases |moves|
  {
    if moves == [] then db else Moved(MovedOne(db, moves[0]), moves[1..])
  }

  /** What the store holds, as a client sees it. */
  function Contents(s: System): map<string, Bytes> {
    map key | key in s.db :: s.db[key].blob
  }

  /** The drain is the same but for what the ghost bookkeeping knows about stable keys. */
  predicate SamePlace(s: System, t: System) {
    && t.returned == s.returned && t.completed == s.completed
    && (t.drain.Idle? <==> s.drain.Idle?)
    && (s.drain.Active? ==>
          && t.drain.cursor == s.drain.cursor && t.drain.page == s.drain.page
          && t.drain.hand == s.drain.hand && t.drain.collected == s.drain.collected)
  }

  lemma {:induction false} OthersKeepPlace(device: string, s: System, moves: seq<Event>)
    requires OnlyOthers(moves)
    ensures SamePlace(s, Run(device, s, moves)) && Contents(Run(device, s, moves)) == Moved(Contents(s), moves)
    decreases |moves|
  {
    if moves != [] {
      var next := Step(device, s, moves[0]);
      assert OthersMove(moves[0]) && OnlyOthers(moves[1..]);
      assert SamePlace(s, next);
      assert Contents(next) == MovedOne(Contents(s), moves[0]);
      OthersKeepPlace(device, next, moves[1..]);
    }
  }

  lemma MovedByOne(db: map<string, Bytes>, move: Event)
    ensures Moved(db, [move]) == MovedOne(db, move)
  {
    assert [move][1..] == [];
  }

  function Only(want: Event -> bool, trace: seq<Event>): seq<Event>
    decreases |trace|
  {
    if trace == [] then [] else (if want(trace[0]) then [trace[0]] else []) + Only(want, trace[1..])
  }

  lemma {:induction false} OnlyConcat(want: Event -> bool, a: seq<Event>, b: seq<Event>)
    ensures Only(want, a + b) == Only(want, a) + Only(want, b)
    decreases |a|
  {
    if a == [] {
      assert a + b == b;
    } else {
      assert (a + b)[0] == a[0] && (a + b)[1..] == a[1..] + b;
      OnlyConcat(want, a[1..], b);
      var head := if want(a[0]) then [a[0]] else [];
      assert Only(want, a + b) == head + Only(want, a[1..] + b);
      assert head + (Only(want, a[1..]) + Only(want, b)) == (head + Only(want, a[1..])) + Only(want, b);
    }
  }

  /** All that others did before the first `n` commands, in order. */
  function MovesBefore(turns: nat -> Turn, n: nat): seq<Event> {
    if n == 0 then [] else MovesBefore(turns, n - 1) + turns(n - 1).moves
  }

  lemma {:induction false} OnlyTheirs(moves: seq<Event>)
    requires OnlyOthers(moves)
    ensures Only(OthersMove, moves) == moves && Only(IsScan, moves) == [] && Only(IsFail, moves) == []
    decreases |moves|
  {
    if moves != [] {
      assert OthersMove(moves[0]);
      OnlyTheirs(moves[1..]);
    }
  }

  predicate IsScan(e: Event) {
    e.Scan?
  }

  function ScansOf(replies: seq<Reply>): seq<Event> {
    seq(|replies|, i requires 0 <= i < |replies| => Scan(replies[i].next, replies[i].keys))
  }

  predicate IsFail(e: Event) {
    e.Fail?
  }

  /** The trace of a drain: up to now others moved as the turns say, the replies were the first `used` ones, and no
      command failed, or just the last one. */
  ghost predicate TraceOf(trace: seq<Event>, turns: nat -> Turn, commands: nat, replies: seq<Reply>, used: nat,
                          failed: bool) {
    && Only(IsFail, trace) == (if failed then [Fail] else [])
    && used <= |replies|
    && Only(OthersMove, trace) == MovesBefore(turns, commands)
    && Only(IsScan, trace) == ScansOf(replies[..used])
  }

  lemma AfterTurn(device: string, sys: System, trace: seq<Event>, turns: nat -> Turn, n: nat, replies: seq<Reply>,
                  used: nat)
    requires OnlyOthers(turns(n).moves) && TraceOf(trace, turns, n, replies, used, false)
    ensures var s, more := Run(device, sys, trace), trace + turns(n).moves;
            && TraceOf(more, turns, n + 1, replies, used, false)
            && SamePlace(s, Run(device, sys, more))
            && Contents(Run(device, sys, more)) == Moved(Contents(s), turns(n).moves)
  {
    hide SamePlace, Moved, Run, OthersMove, IsScan, ScansOf, Only;
    var moves := turns(n).moves;
    RunConcat(device, sys, trace, moves);
    OthersKeepPlace(device, Run(device, sys, trace), moves);
    OnlyConcat(OthersMove, trace, moves);
    OnlyConcat(IsScan, trace, moves);
    OnlyConcat(IsFail, trace, moves);
    OnlyTheirs(moves);
  }

  lemma AfterCommand(device: string, sys: System, trace: seq<Event>, e: Event, turns: nat -> Turn, n: nat,
                     replies: seq<Reply>, used: nat)
    requires TraceOf(trace, turns, n, replies, used, false) && !OthersMove(e) && !IsScan(e)
    ensures TraceOf(trace + [e], turns, n, replies, used, e.Fail?)
    ensures Run(device, sys, trace + [e]) == Step(device, Run(device, sys, trace), e)
  {
    hide Step, Run, ScansOf, Only;
    RunConcat(device, sys, trace, [e]);
    OneMore(device, Run(device, sys, trace), e);
    OnlyConcat(OthersMove, trace, [e]);
    OnlyConcat(IsScan, trace, [e]);
    OnlyConcat(IsFail, trace, [e]);
    OnlyOne(OthersMove, e);
    OnlyOne(IsScan, e);
    OnlyOne(IsFail, e);
  }

  lemma ScansGrow(replies: seq<Reply>, used: nat)
    requires used < |replies|
    ensures ScansOf(replies[..used + 1]) == ScansOf(replies[..used]) + [Scan(replies[used].next, replies[used].keys)]
  {
  }

  lemma AfterReply(device: string, sys: System, trace: seq<Event>, turns: nat -> Turn, n: nat, replies: seq<Reply>,
                   used: nat)
    requires TraceOf(trace, turns, n, replies, used, false) && used < |replies|
    ensures var e := Scan(replies[used].next, replies[used].keys);
            && TraceOf(trace + [e], turns, n, replies, used + 1, false)
            && Run(device, sys, trace + [e]) == Step(device, Run(device, sys, trace), e)
  {
    hide Step, Run, ScansOf, Only;
    var e := Scan(replies[used].next, replies[used].keys);
    RunConcat(device, sys, trace, [e]);
    OneMore(device, Run(device, sys, trace), e);
    OnlyConcat(OthersMove, trace, [e]);
    OnlyConcat(IsScan, trace, [e]);
    OnlyConcat(IsFail, trace, [e]);
    OnlyOne(OthersMove, e);
    OnlyOne(IsScan, e);
    OnlyOne(IsFail, e);
    ScansGrow(replies, used);
  }

  lemma OnlyOne(want: Event -> bool, e: Event)
    ensures Only(want, [e]) == if want(e) then [e] else []
  {
  }

  lemma OneMore(device: string, s: System, e: Event)
    ensures Run(device, s, [e]) == Step(device, s, e)
  {
    RunCons(device, s, e, []);
    assert [e] + [] == [e];
  }

  /** Between two SCANs. */
  ghost predicate Between(device: string, s: System, first: bool, messages: seq<Message>) {
    if first then s.drain.Idle? && messages == []
    else
      && s.drain.Active? && s.drain.cursor != 0 && s.drain.page == []
      && s.drain.hand.None? && Messages(device, s.drain.collected) == messages
  }

  /** Before the GET of the first of these keys. */
  ghost predicate Reading(device: string, s: System, next: nat, keys: seq<string>, messages: seq<Message>) {
    && s.drain.Active? && s.drain.cursor == next && s.drain.page == keys
    && s.drain.hand.None? && Messages(device, s.drain.collected) == messages
  }

  /** Before the DEL of an entry with this key and these bytes. */
  ghost predicate Deleting(device: string, s: System, next: nat, keys: seq<string>, messages: seq<Message>, key: string,
                           blob: Bytes)
  {
    && s.drain.Active? && s.drain.cursor == next && s.drain.page == keys
    && s.drain.hand.Some? && s.drain.hand.value.key == key && s.drain.hand.value.blob == blob
    && Messages(device, s.drain.collected) == messages
  }

  lemma FailStops(device: string, s: System)
    ensures var t := Step(device, s, Fail); t.drain.Idle? && Contents(t) == Contents(s) && Alike(s, t)
  {
  }

  lemma GetReads(device: string, s: System, next: nat, key: string, rest: seq<string>, messages: seq<Message>)
    requires Inv(s) && Reading(device, s, next, [key] + rest, messages)
    ensures var t := Step(device, s, Get);
            && Contents(t) == Contents(s) && Alike(s, t)
            && if key in Contents(s) then Deleting(device, t, next, rest, messages, key, Contents(s)[key])
               else Reading(device, t, next, rest, messages)
  {
    assert ([key] + rest)[0] == key && ([key] + rest)[1..] == rest;
    assert key in s.db ==> s.db[key].key == key;
  }

  lemma ScanReads(device: string, s: System, first: bool, messages: seq<Message>, reply: Reply)
    requires Between(device, s, first, messages)
    ensures var t := Step(device, s, Scan(reply.next, reply.keys));
            Contents(t) == Contents(s) && Alike(s, t) && Reading(device, t, reply.next, reply.keys, messages)
  {
  }

  lemma ReturnReturns(device: string, s: System, messages: seq<Message>)
    requires Reading(device, s, 0, [], messages)
    ensures var t := Step(device, s, Return);
            && t.drain.Idle? && Contents(t) == Contents(s) && t.completed == s.completed + 1
            && t.returned == s.returned + s.drain.collected && Messages(device, s.drain.collected) == messages
  {
  }

  lemma DelDeletes(device: string, s: System, next: nat, rest: seq<string>, messages: seq<Message>, key: string,
                   blob: Bytes)
    requires Deleting(device, s, next, rest, messages, key, blob)
    ensures var t := Step(device, s, Del);
            && Contents(t) == Contents(s) - {key} && Alike(s, t)
            && Reading(device, t, next, rest, messages + [Message(StripPrefix(DevicePrefix(device), key), blob)])
  {
    var hand, collected := s.drain.hand.value, s.drain.collected;
    assert Messages(device, collected + [hand]) == Messages(device, collected) + [MessageOf(device, hand)];
  }

  /** Nothing was returned in between. */
  predicate Alike(s: System, t: System) {
    t.returned == s.returned && t.completed == s.completed
  }

  class Store {
    var db: map<string, Bytes>

    constructor ()
      ensures db == map[]
    {
      db := map[];
    }

    /** `enqueue`: EXISTS, then SET, with others moving before each. An entry that is still queued is left alone; what
        is done to the store is the run of the protocol given by the trace, and no drain notices. */
    method Enqueue(device: string, id: string, blob: Bytes, first: Turn, second: Turn, ghost sys: System)
      returns (r: Result<(), RedisError>, ghost trace: seq<Event>)
      requires OnlyOthers(first.moves) && OnlyOthers(second.moves) && Contents(sys) == db
      modifies this
      ensures var present := KeyOf(device, id) in Moved(old(db), first.moves);
              && (r.Err? <==> first.fails || (!present && second.fails))
              && trace == if first.fails || present then first.moves
                          else if second.fails then first.moves + second.moves
                          else first.moves + second.moves + [Set(KeyOf(device, id), blob)]
      ensures Contents(Run(device, sys, trace)) == db && SamePlace(sys, Run(device, sys, trace))
    {
      hide Run;
      var key := KeyOf(device, id);
      trace := first.moves;
      OthersKeepPlace(device, sys, first.moves);
      Others(first.moves);
      if first.fails {
        return Err(RedisError), trace;
      }
      if key in db {
        return Ok(()), trace;
      }
      trace := trace + second.moves;
      RunConcat(device, sys, first.moves, second.moves);
      OthersKeepPlace(device, Run(device, sys, first.moves), second.moves);
      Others(second.moves);
      if second.fails {
        return Err(RedisError), trace;
      }
      RunConcat(device, sys, trace, [Set(key, blob)]);
      OthersKeepPlace(device, Run(device, sys, trace), [Set(key, blob)]);
      MovedByOne(db, Set(key, blob));
      db := db[key := blob];
      trace := trace + [Set(key, blob)];
      r := Ok(());
    }

    /** `delete_message`: true if the entry was there. It is the protocol's removal of that key, and nothing else. */
    method DeleteMessage(device: string, id: string, turn: Turn, ghost sys: System)
      returns (r: Result<bool, RedisError>, ghost trace: seq<Event>)
      requires OnlyOthers(turn.moves) && Contents(sys) == db
      modifies this
      ensures r.Err? <==> turn.fails
      ensures r.Ok? ==> r.value == (KeyOf(device, id) in Moved(old(db), turn.moves))
      ensures trace == if turn.fails then turn.moves else turn.moves + [Remove(KeyOf(device, id))]
      ensures Contents(Run(device, sys, trace)) == db && SamePlace(sys, Run(device, sys, trace))
    {
      hide Run;
      var key := KeyOf(device, id);
      trace := turn.moves;
      OthersKeepPlace(device, sys, turn.moves);
      Others(turn.moves);
      if turn.fails {
        return Err(RedisError), trace;
      }
      RunConcat(device, sys, trace, [Remove(key)]);
      OthersKeepPlace(device, Run(device, sys, trace), [Remove(key)]);
      MovedByOne(db, Remove(key));
      r := Ok(key in db);
      db := db - {key};
      trace := trace + [Remove(key)];
    }

    /** The moves of others reach the store. */
    method Others(moves: seq<Event>)
      modifies this
      ensures db == Moved(old(db), moves)
    {
      var i := 0;
      while i < |moves|
        invariant i <= |moves|
        invariant Moved(db, moves[i..]) == Moved(old(db), moves)
      {
        db := MovedOne(db, moves[i]);
        assert moves[i..][1..] == moves[i + 1..];
        i := i + 1;
      }
    }

    /** Wait for the next command: others move first. */
    method Await(device: string, turns: nat -> Turn, n: nat, ghost sys: System, ghost trace: seq<Event>,
                 ghost replies: seq<Reply>, ghost used: nat)
      returns (fails: bool, ghost more: seq<Event>)
      requires OnlyOthers(turns(n).moves) && TraceOf(trace, turns, n, replies, used, false)
      requires Contents(Run(device, sys, trace)) == db
      modifies this
      ensures fails == turns(n).fails
      ensures TraceOf(more, turns, n + 1, replies, used, false)
      ensures Contents(Run(device, sys, more)) == db && SamePlace(Run(device, sys, trace), Run(device, sys, more))
    {
      hide Run, SamePlace, TraceOf;
      AfterTurn(device, sys, trace, turns, n, replies, used);
      Others(turns(n).moves);
      fails := turns(n).fails;
      more := trace + turns(n).moves;
    }

    /** One key of a reply: GET it, and if it is there DEL it. */
    method TakeKey(device: string, key: string, turns: nat -> Turn, n: nat, ghost sys: System, ghost trace: seq<Event>,
                   ghost replies: seq<Reply>, ghost used: nat, ghost next: nat, ghost rest: seq<string>,
                   ghost messages: seq<Message>)
      returns (fails: bool, taken: Option<Message>, commands: nat, ghost more: seq<Event>)
      requires forall n: nat :: OnlyOthers(turns(n).moves)
      requires TraceOf(trace, turns, n, replies, used, false)
      requires Inv(sys) && Contents(Run(device, sys, trace)) == db
      requires Reading(device, Run(device, sys, trace), next, [key] + rest, messages)
      modifies this
      ensures TraceOf(more, turns, commands, replies, used, fails) && Contents(Run(device, sys, more)) == db
      ensures commands > 0 && fails == turns(commands - 1).fails
      ensures Alike(Run(device, sys, trace), Run(device, sys, more))
      ensures if fails then Run(device, sys, more).drain.Idle?
              else Reading(device, Run(device, sys, more), next, rest, if taken.Some? then messages + [taken.value]
                  else messages)
    {
      hide Run, TraceOf, Inv, Step, Contents;
      taken, commands := None, n + 1;
      fails, more := Await(device, turns, n, sys, trace, replies, used);
      ghost var s := Run(device, sys, more);
      if fails {
        FailStops(device, s);
        AfterCommand(device, sys, more, Fail, turns, commands, replies, used);
        more := more + [Fail];
        return;
      }
      RunKeepsInv(device, sys, more);
      GetReads(device, s, next, key, rest, messages);
      AfterCommand(device, sys, more, Get, turns, commands, replies, used);
      more := more + [Get];
      if key in db {
        var data := db[key];
        fails, more := Await(device, turns, commands, sys, more, replies, used);
        commands := commands + 1;
        s := Run(device, sys, more);
        if fails {
          FailStops(device, s);
          AfterCommand(device, sys, more, Fail, turns, commands, replies, used);
          more := more + [Fail];
          return;
        }
        db := db - {key};
        DelDeletes(device, s, next, rest, messages, key, data);
        AfterCommand(device, sys, more, Del, turns, commands, replies, used);
        more := more + [Del];
        taken := Some(Message(StripPrefix(DevicePrefix(device), key), data));
      }
    }

    /** `dequeue_all`, in step with the protocol: whatever the replies and the moves of others are, the run of the
        protocol they give ends in this store, and what that drain returned is what this call returns. A failing
        command ends the call, and what it had collected is not returned. */
    method DequeueAll(device: string, replies: seq<Reply>, turns: nat -> Turn, ghost sys: System)
      returns (r: Result<seq<Message>, RedisError>, commands: nat, ghost trace: seq<Event>, ghost used: nat,
               ghost drained: seq<Entry>)
      requires Iteration(replies) && forall n: nat :: OnlyOthers(turns(n).moves)
      requires Inv(sys) && sys.drain.Idle? && Contents(sys) == db
      modifies this
      ensures TraceOf(trace, turns, commands, replies, used, r.Err?)
      ensures commands > 0 && (r.Err? <==> turns(commands - 1).fails) && (r.Ok? ==> used == |replies|)
      ensures var t := Run(device, sys, trace);
              && Contents(t) == db && t.drain.Idle?
              && (r.Ok? ==> t.returned == sys.returned + drained && r.value == Messages(device, drained)
                            && t.completed == sys.completed + 1)
              && (r.Err? ==> t.returned == sys.returned && t.completed == sys.completed)
    {
      hide Run, TraceOf, Inv, Contents;
      var messages: seq<Message> := [];
      trace, commands, used, drained := [], 0, 0, [];
      var i := 0;
      EmptyTrace(device, sys, turns, replies);
      while true
        invariant i < |replies| && used == i
        invariant TraceOf(trace, turns, commands, replies, i, false)
        invariant var s := Run(device, sys, trace);
                  Contents(s) == db && Alike(sys, s) && Between(device, s, i == 0, messages)
        decreases |replies| - i
      {
        var fails: bool;
        fails, trace := Await(device, turns, commands, sys, trace, replies, i);
        commands := commands + 1;
        if fails {
          FailStops(device, Run(device, sys, trace));
          AfterCommand(device, sys, trace, Fail, turns, commands, replies, i);
          trace := trace + [Fail];
          return Err(RedisError), commands, trace, i, [];
        }
        var reply := replies[i];
        ScanReads(device, Run(device, sys, trace), i == 0, messages, reply);
        AfterReply(device, sys, trace, turns, commands, replies, i);
        trace, used := trace + [Scan(reply.next, reply.keys)], i + 1;
        var k := 0;
        while k < |reply.keys|
          invariant k <= |reply.keys| && commands > 0
          invariant TraceOf(trace, turns, commands, replies, i + 1, false)
          invariant !turns(commands - 1).fails
          invariant var s := Run(device, sys, trace);
                    Contents(s) == db && Alike(sys, s) && Reading(device, s, reply.next, reply.keys[k..], messages)
        {
          var taken: Option<Message>;
          assert reply.keys[k..] == [reply.keys[k]] + reply.keys[k + 1..];
          fails, taken, commands, trace := TakeKey(device, reply.keys[k], turns, commands, sys, trace, replies, i + 1,
                                                   reply.next, reply.keys[k + 1..], messages);
          if fails {
            return Err(RedisError), commands, trace, i + 1, [];
          }
          if taken.Some? {
            messages := messages + [taken.value];
          }
          k := k + 1;
        }
        if reply.next == 0 {
          drained := Run(device, sys, trace).drain.collected;
          ReturnReturns(device, Run(device, sys, trace), messages);
          AfterCommand(device, sys, trace, Return, turns, commands, replies, i + 1);
          trace := trace + [Return];
          return Ok(messages), commands, trace, i + 1, drained;
        }
        i := i + 1;
      }
    }
  }

  lemma EmptyTrace(device: string, sys: System, turns: nat -> Turn, replies: seq<Reply>)
    ensures TraceOf([], turns, 0, replies, 0, false) && Run(device, sys, []) == sys
  {
  }

  lemma {:induction false} OnlyHolds(want: Event -> bool, trace: seq<Event>, i: nat)
    requires i < |trace| && want(trace[i])
    ensures trace[i] in Only(want, trace)
    decreases |trace|
  {
    if i > 0 {
      OnlyHolds(want, trace[1..], i - 1);
    }
  }

  /** Others set the key only while nothing is stored under it, as `enqueue` does unless another client comes between
      its two commands. */
  predicate SetsGuarded(device: string, s: System, events: seq<Event>, key: string)
    decreases |events|
  {
    events == [] ||
    ((events[0].Set? && events[0].key == key ==> key !in s.db)
     && SetsGuarded(device, Step(device, s, events[0]), events[1..], key))
  }

  lemma {:induction false} GuardedLeaves(device: string, s: System, events: seq<Event>, key: string)
    requires SetsGuarded(device, s, events, key)
    requires forall i :: 0 <= i < |events| ==> events[i] != Remove(key) && !events[i].Fail?
    ensures Undisturbed(device, s, events, key)
    decreases |events|
  {
    if events != [] {
      hide Step;
      GuardedLeaves(device, Step(device, s, events[0]), events[1..], key);
    }
  }

  /** What a finished call returns: every entry of the device that was queued when it began and that nobody removed or
      overwrote while it ran, once, whatever else happened in between; and all these are gone. `drained` is what the
      call returned. */
  lemma CallReturnsWhatStayed(device: string, before: seq<Event>, trace: seq<Event>, turns: nat -> Turn, commands: nat,
                              replies: seq<Reply>, drained: seq<Entry>, e: Entry)
    requires LegalRun(device, Start(), before) && LegalRun(device, Run(device, Start(), before), trace)
    requires TraceOf(trace, turns, commands, replies, |replies|, false)
    requires var s := Run(device, Start(), before);
             var t := Run(device, s, trace);
             && s.drain.Idle? && Stored(s, e) && Matches(device, e.key)
             && t.completed == s.completed + 1 && t.returned == s.returned + drained
             && SetsGuarded(device, s, trace, e.key)
    requires Remove(e.key) !in MovesBefore(turns, commands)
    ensures Has(drained, e) && NoRepeats(drained)
    ensures !Stored(Run(device, Run(device, Start(), before), trace), e)
  {
    hide Run, LegalRun, MovesBefore, ScansOf, Undisturbed, SetsGuarded;
    var s := Run(device, Start(), before);
    forall i | 0 <= i < |trace| ensures trace[i] != Remove(e.key) && !trace[i].Fail? {
      if trace[i] == Remove(e.key) {
        OnlyHolds(OthersMove, trace, i);
      } else if trace[i].Fail? {
        OnlyHolds(IsFail, trace, i);
      }
    }
    GuardedLeaves(device, s, trace, e.key);
    PresentIsReturned(device, before, trace, e);
    HasConcat(s.returned, drained, e);
    var all := s.returned + drained;
    forall i, k | 0 <= i < k < |drained| ensures drained[i].number != drained[k].number {
      assert all[|s.returned| + i] == drained[i] && all[|s.returned| + k] == drained[k];
    }
  }

  // -------------------------------------------------------------------- the other clients

  lemma {:induction false} StaysAbsent(device: string, s: System, moves: seq<Event>, key: string)
    requires OnlyOthers(moves) && key !in s.db
    requires forall i :: 0 <= i < |moves| ==> !(moves[i].Set? && moves[i].key == key)
    ensures key !in Run(device, s, moves).db
    decreases |moves|
  {
    if moves != [] {
      assert OthersMove(moves[0]);
      StaysAbsent(device, Step(device, s, moves[0]), moves[1..], key);
    }
  }

  /** The SET of an enqueue that found nothing stored does harm only if another client set the same key in between. */
  lemma EnqueueHarmsOnlyInARace(device: string, s: System, moves: seq<Event>, key: string, blob: Bytes)
    requires OnlyOthers(moves) && key !in s.db && Harms(Run(device, s, moves), Set(key, blob))
    ensures exists i :: 0 <= i < |moves| && moves[i].Set? && moves[i].key == key
  {
    if forall i :: 0 <= i < |moves| ==> !(moves[i].Set? && moves[i].key == key) {
      StaysAbsent(device, s, moves, key);
    }
  }

  /** Such a race: two clients enqueue the same id, both find nothing stored, and the later SET overwrites the entry of
      the earlier one. */
  lemma RacingEnqueuesLoseOne(device: string, id: string, first: Bytes, second: Bytes)
    ensures var key := KeyOf(device, id);
            var s := Run(device, Start(), [Set(key, first)]);
            var t := Step(device, s, Set(key, second));
            key !in Start().db && Places(s, Entry(key, 0, first)) == 1 && Places(t, Entry(key, 0, first)) == 0
  {
    OneMore(device, Start(), Set(KeyOf(device, id), first));
  }
}
