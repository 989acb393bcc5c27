/** `middleware/rate_limit.rs`: a sliding-window limiter that keeps a pruned log of admissions for each key. Times are
    instants of one clock that never goes back. */
module RateLimiter {

  type Log = map<string, seq<int>>

  /** The times later than the cutoff, in order. */
  function Prune(times: seq<int>, cutoff: int): (kept: seq<int>)
    ensures forall t :: t in kept <==> t in times && t > cutoff
  {
    if times == [] then []
    else
      var rest, last := Prune(times[..|times| - 1], cutoff), times[|times| - 1];
      if last > cutoff then rest + [last] else rest
  }

  function TimesOf(log: Log, key: string): seq<int> {
    if key in log then log[key] else []
  }

  /** The log after a request, and whether the request is admitted. */
  function Check(log: Log, now: int, key: string, max: nat, window: nat): (Log, bool) {
    var kept := Prune(TimesOf(log, key), now - window);
    if |kept| >= max then (log[key := kept], false) else (log[key := kept + [now]], true)
  }

  function Swept(log: Log, cutoff: int): Log {
    map key | key in log && Prune(log[key], cutoff) != [] :: Prune(log[key], cutoff)
  }

  /** `Vec::retain` with a cutoff. */
  method Retain(times: seq<int>, cutoff: int) returns (kept: seq<int>)
    ensures kept == Prune(times, cutoff)
  {
    kept := [];
    for i := 0 to |times|
      invariant kept == Prune(times[..i], cutoff)
    {
      assert times[..i + 1][..i] == times[..i];
      if times[i] > cutoff {
        kept := kept + [times[i]];
      }
    }
    assert times[..|times|] == times;
  }

  /** A sweep keeps a key exactly if one of its times is later than the cutoff, and of its times exactly those. */
  lemma SweptKeeps(log: Log, cutoff: int)
    ensures forall key :: key in Swept(log, cutoff) <==> key in log && exists t :: t in log[key] && t > cutoff
    ensures forall key :: key in Swept(log, cutoff) ==>
              forall t :: t in Swept(log, cutoff)[key] <==> t in log[key] && t > cutoff
  {
    forall key | key in log ensures Prune(log[key], cutoff) != [] <==> exists t :: t in log[key] && t > cutoff {
      var kept := Prune(log[key], cutoff);
      if kept != [] {
        assert kept[0] in kept;
      }
    }
  }

  predicate SweptAt(before: Log, after: Log, cutoff: int, key: string) {
    && (key in after <==> key in before && Prune(before[key], cutoff) != [])
    && (key in after ==> after[key] == Prune(before[key], cutoff))
  }

  lemma SweptEverywhere(before: Log, after: Log, cutoff: int)
    requires forall key :: SweptAt(before, after, cutoff, key)
    ensures after == Swept(before, cutoff)
  {
    hide Prune;
    forall key ensures key in after <==> key in Swept(before, cutoff) {
      assert SweptAt(before, after, cutoff, key);
    }
    forall key | key in after ensures after[key] == Swept(before, cutoff)[key] {
      assert SweptAt(before, after, cutoff, key);
    }
  }

  class Limiter {
    var entries: map<string, seq<int>>

    constructor ()
      ensures entries == map[]
    {
      entries := map[];
    }

    method CheckRateLimit(now: int, key: string, maxRequests: nat, window: nat) returns (allowed: bool)
      modifies this
      ensures (entries, allowed) == Check(old(entries), now, key, maxRequests, window)
      ensures forall other :: other != key ==> (other in entries <==> other in old(entries))
      ensures forall other :: other != key && other in entries ==> entries[other] == old(entries)[other]
      ensures key in entries && (allowed <==> |Prune(TimesOf(old(entries), key), now - window)| < maxRequests)
      ensures forall t :: t in entries[key] <==>
                (t in TimesOf(old(entries), key) && t > now - window) || (allowed && t == now)
    {
      var cutoff := now - window;
      var entry := if key in entries then entries[key] else [];
      entry := Retain(entry, cutoff);
      if |entry| >= maxRequests {
        entries := entries[key := entry];
        return false;
      }
      entry := entry + [now];
      entries := entries[key := entry];
      return true;
    }

    method Cleanup(now: int, maxAge: nat)
      modifies this
      ensures entries == Swept(old(entries), now - maxAge)
      ensures forall key :: key in entries <==>
                key in old(entries) && exists t :: t in old(entries)[key] && t > now - maxAge
      ensures forall key, t :: key in entries && key in old(entries) ==>
                (t in entries[key] <==> t in old(entries)[key] && t > now - maxAge)
    {
      var cutoff := now - maxAge;
      var pending := entries.Keys;
      while pending != {}
        invariant pending <= old(entries).Keys
        invariant forall key :: key in pending ==> key in entries && entries[key] == old(entries)[key]
        invariant forall key :: key !in pending ==> SweptAt(old(entries), entries, cutoff, key)
      {
        var key :| key in pending;
        pending := pending - {key};
        var kept := Retain(entries[key], cutoff);
        entries := if kept == [] then entries - {key} else entries[key := kept];
      }
      hide *;
      SweptEverywhere(old(entries), entries, cutoff);
      SweptKeeps(old(entries), cutoff);
    }
  }

  // -------------------------------------------------------------------------- runs

  datatype Policy = Policy(max: nat, window: nat)

  datatype Event = Request(key: string, at: int) | Sweep(at: int)

  function Answer(policy: string -> Policy, log: Log, k: string, at: int): (Log, bool) {
    Check(log, at, k, policy(k).max, policy(k).window)
  }

  /** The limiter serves the events of a run in the order of its clock. */
  predicate Ordered(from: int, events: seq<Event>)
    decreases |events|
  {
    events == [] || (from <= events[0].at && Ordered(events[0].at, events[1..]))
  }

  /** The answers the limiter gives to the requests for one key, while it also serves other keys and sweeps. */
  function Decisions(policy: string -> Policy, maxAge: nat, key: string, log: Log, events: seq<Event>): seq<bool>
    decreases |events|
  {
    if events == [] then []
    else
      match events[0]
      case Sweep(at) => Decisions(policy, maxAge, key, Swept(log, at - maxAge), events[1..])
      case Request(k, at) =>
        var (next, admitted) := Answer(policy, log, k, at);
        (if k == key then [admitted] else []) + Decisions(policy, maxAge, key, next, events[1..])
  }

  /** How many of the times lie in the half-open interval (lo, hi]. */
  function CountIn(times: seq<int>, lo: int, hi: int): nat {
    if times == [] then 0
    else
      var last := times[|times| - 1];
      CountIn(times[..|times| - 1], lo, hi) + (if lo < last <= hi then 1 else 0)
  }

  /** The reference: a request is admitted when fewer than `max` admissions of the whole history lie in the window that
      ends with it. Nothing is ever forgotten, and there is no sweep. */
  function Reference(policy: Policy, key: string, history: seq<int>, events: seq<Event>): seq<bool>
    decreases |events|
  {
    if events == [] then []
    else if events[0] == Request(key, events[0].at) then
      var at := events[0].at;
      var admitted := CountIn(history, at - policy.window, at) < policy.max;
      [admitted] + Reference(policy, key, if admitted then history + [at] else history, events[1..])
    else Reference(policy, key, history, events[1..])
  }

  /** When the requests for the key that were answered with yes came in. */
  function AdmittedTimes(key: string, events: seq<Event>, decisions: seq<bool>): seq<int>
    decreases |events|
  {
    if events == [] || decisions == [] then []
    else if events[0] == Request(key, events[0].at) then
      (if decisions[0] then [events[0].at] else []) + AdmittedTimes(key, events[1..], decisions[1..])
    else AdmittedTimes(key, events[1..], decisions)
  }

  lemma DecisionsRequest(policy: string -> Policy, maxAge: nat, key: string, log: Log, k: string, at: int,
                         rest: seq<Event>)
    ensures Decisions(policy, maxAge, key, log, [Request(k, at)] + rest) ==
            (if k == key then [Answer(policy, log, k, at).1] else [])
            + Decisions(policy, maxAge, key, Answer(policy, log, k, at).0, rest)
  {
    assert ([Request(k, at)] + rest)[1..] == rest;
  }

  lemma DecisionsSweep(policy: string -> Policy, maxAge: nat, key: string, log: Log, at: int, rest: seq<Event>)
    ensures Decisions(policy, maxAge, key, log, [Sweep(at)] + rest) ==
            Decisions(policy, maxAge, key, Swept(log, at - maxAge), rest)
  {
    assert ([Sweep(at)] + rest)[1..] == rest;
  }

  // ------------------------------------------------------------------- pruning lemmas

  lemma {:induction false} PruneTwice(times: seq<int>, first: int, second: int)
    requires first <= second
    ensures Prune(Prune(times, first), second) == Prune(times, second)
  {
    if times != [] {
      var init, last := times[..|times| - 1], times[|times| - 1];
      PruneTwice(init, first, second);
      if last > first {
        PruneSnoc(Prune(init, first), last, second);
      }
    }
  }

  lemma PruneSnoc(times: seq<int>, last: int, cutoff: int)
    ensures Prune(times + [last], cutoff) == Prune(times, cutoff) + (if last > cutoff then [last] else [])
  {
    assert (times + [last])[..|times|] == times;
  }

  lemma {:induction false} PruneCounts(times: seq<int>, cutoff: int, now: int)
    requires forall t :: t in times ==> t <= now
    ensures |Prune(times, cutoff)| == CountIn(times, cutoff, now)
  {
    if times != [] {
      var init, last := times[..|times| - 1], times[|times| - 1];
      assert last in times && forall t :: t in init ==> t in times;
      PruneCounts(init, cutoff, now);
    }
  }

  // ------------------------------------------------------------------------ refinement

  /** What the pruned log still knows about a key: all admissions inside any window that can still matter. */
  ghost predicate Agrees(times: seq<int>, history: seq<int>, window: nat, now: int) {
    && (forall t :: t in history ==> t <= now)
    && Prune(times, now - window) == Prune(history, now - window)
  }

  lemma AgreesLater(times: seq<int>, history: seq<int>, window: nat, now: int, later: int)
    requires Agrees(times, history, window, now) && now <= later
    ensures Agrees(times, history, window, later)
  {
    PruneTwice(times, now - window, later - window);
    PruneTwice(history, now - window, later - window);
  }

  lemma SweepKeepsAgreement(log: Log, key: string, history: seq<int>, window: nat, now: int, maxAge: nat)
    requires Agrees(TimesOf(log, key), history, window, now) && window <= maxAge
    ensures Agrees(TimesOf(Swept(log, now - maxAge), key), history, window, now)
  {
    var times := TimesOf(log, key);
    assert TimesOf(Swept(log, now - maxAge), key) == Prune(times, now - maxAge);
    PruneTwice(times, now - maxAge, now - window);
  }

  lemma CheckAgrees(policy: string -> Policy, log: Log, key: string, history: seq<int>, now: int)
    requires Agrees(TimesOf(log, key), history, policy(key).window, now)
    ensures var (next, admitted) := Answer(policy, log, key, now);
            && admitted == (CountIn(history, now - policy(key).window, now) < policy(key).max)
            && Agrees(TimesOf(next, key), if admitted then history + [now] else history, policy(key).window, now)
  {
    hide Prune, CountIn;
    var times, cutoff := TimesOf(log, key), now - policy(key).window;
    PruneCounts(history, cutoff, now);
    PruneTwice(times, cutoff, cutoff);
    PruneSnoc(Prune(times, cutoff), now, cutoff);
    PruneSnoc(history, now, cutoff);
  }

  lemma OtherKeyUntouched(policy: string -> Policy, log: Log, at: int, other: string, key: string)
    requires other != key
    ensures TimesOf(Answer(policy, log, other, at).0, key) == TimesOf(log, key)
  {
  }

  /** The log and the history after one event; a sweep and a request for another key leave the history alone. */
  function NextLog(policy: string -> Policy, maxAge: nat, log: Log, e: Event): Log {
    if e.Sweep? then Swept(log, e.at - maxAge) else Answer(policy, log, e.key, e.at).0
  }

  function NextHistory(policy: Policy, key: string, history: seq<int>, e: Event): seq<int> {
    if e.Request? && e.key == key && CountIn(history, e.at - policy.window, e.at) < policy.max then history + [e.at]
    else history
  }

  lemma AgreesNext(policy: string -> Policy, maxAge: nat, key: string, log: Log, history: seq<int>, now: int, e: Event)
    requires now <= e.at && policy(key).window <= maxAge
    requires Agrees(TimesOf(log, key), history, policy(key).window, now)
    ensures Agrees(TimesOf(NextLog(policy, maxAge, log, e), key), NextHistory(policy(key), key, history, e),
                   policy(key).window, e.at)
    ensures e.Request? && e.key == key ==>
              Answer(policy, log, key, e.at).1 ==
              (CountIn(history, e.at - policy(key).window, e.at) < policy(key).max)
  {
    hide Agrees, CountIn, Prune, Swept, TimesOf, Answer;
    AgreesLater(TimesOf(log, key), history, policy(key).window, now, e.at);
    if e.Sweep? {
      SweepKeepsAgreement(log, key, history, policy(key).window, e.at, maxAge);
    } else if e.key == key {
      CheckAgrees(policy, log, key, history, e.at);
    } else {
      OtherKeyUntouched(policy, log, e.at, e.key, key);
    }
  }

  lemma MatchStep(policy: string -> Policy, maxAge: nat, key: string, log: Log, history: seq<int>, events: seq<Event>)
    requires events != []
    requires events[0].Request? && events[0].key == key ==>
               Answer(policy, log, key, events[0].at).1 ==
               (CountIn(history, events[0].at - policy(key).window, events[0].at) < policy(key).max)
    requires Decisions(policy, maxAge, key, NextLog(policy, maxAge, log, events[0]), events[1..]) ==
             Reference(policy(key), key, NextHistory(policy(key), key, history, events[0]), events[1..])
    ensures Decisions(policy, maxAge, key, log, events) == Reference(policy(key), key, history, events)
  {
    ReferenceStep(policy(key), key, history, events);
    DecisionsStep(policy, maxAge, key, log, events);
    hide Decisions, Reference, Answer, Swept, CountIn;
  }

  lemma {:induction false} DecisionsMatch(policy: string -> Policy, maxAge: nat, key: string, log: Log,
                                          history: seq<int>, now: int, events: seq<Event>)
    requires Ordered(now, events) && policy(key).window <= maxAge
    requires Agrees(TimesOf(log, key), history, policy(key).window, now)
    ensures Decisions(policy, maxAge, key, log, events) == Reference(policy(key), key, history, events)
    decreases |events|
  {
    if events == [] {
      return;
    }
    hide *;
    OrderedStep(now, events);
    AgreesNext(policy, maxAge, key, log, history, now, events[0]);
    DecisionsMatch(policy, maxAge, key, NextLog(policy, maxAge, log, events[0]),
                   NextHistory(policy(key), key, history, events[0]), events[0].at, events[1..]);
    MatchStep(policy, maxAge, key, log, history, events);
  }

  lemma OrderedStep(from: int, events: seq<Event>)
    requires events != [] && Ordered(from, events)
    ensures from <= events[0].at && Ordered(events[0].at, events[1..])
  {
  }

  lemma DecisionsStep(policy: string -> Policy, maxAge: nat, key: string, log: Log, events: seq<Event>)
    requires events != []
    ensures var at := events[0].at;
            Decisions(policy, maxAge, key, log, events) ==
            if events[0].Sweep? then Decisions(policy, maxAge, key, Swept(log, at - maxAge), events[1..])
            else
              var (next, admitted) := Answer(policy, log, events[0].key, at);
              if events[0].key == key then [admitted] + Decisions(policy, maxAge, key, next, events[1..])
              else Decisions(policy, maxAge, key, next, events[1..])
  {
    hide Answer, Swept;
  }

  lemma ReferenceStep(policy: Policy, key: string, history: seq<int>, events: seq<Event>)
    requires events != []
    ensures var at := events[0].at;
            var admitted := CountIn(history, at - policy.window, at) < policy.max;
            Reference(policy, key, history, events) ==
            if events[0].Request? && events[0].key == key
            then [admitted] + Reference(policy, key, if admitted then history + [at] else history, events[1..])
            else Reference(policy, key, history, events[1..])
  {
    hide CountIn;
  }

  /** Over every run with a sweep age of at least the key's window, the pruned log decides as the full history does. */
  lemma RefinesFullHistory(policy: string -> Policy, maxAge: nat, key: string, from: int, events: seq<Event>)
    requires Ordered(from, events) && policy(key).window <= maxAge
    ensures Decisions(policy, maxAge, key, map[], events) == Reference(policy(key), key, [], events)
  {
    DecisionsMatch(policy, maxAge, key, map[], [], from, events);
  }

  // ---------------------------------------------------------------------- the bound

  predicate LimitedFrom(history: seq<int>, policy: Policy, x: int) {
    CountIn(history, x, x + policy.window) <= policy.max
  }

  ghost predicate Limited(history: seq<int>, policy: Policy) {
    forall x :: LimitedFrom(history, policy, x)
  }

  lemma {:induction false} CountMonotone(times: seq<int>, x: int, y: int, lo: int, hi: int)
    requires lo <= x && y <= hi
    ensures CountIn(times, x, y) <= CountIn(times, lo, hi)
  {
    if times != [] {
      CountMonotone(times[..|times| - 1], x, y, lo, hi);
    }
  }

  lemma {:induction false} CountClipped(times: seq<int>, lo: int, hi: int, now: int)
    requires forall t :: t in times ==> t <= now
    requires now <= hi
    ensures CountIn(times, lo, hi) == CountIn(times, lo, now)
  {
    if times != [] {
      var init, last := times[..|times| - 1], times[|times| - 1];
      assert last in times && forall t :: t in init ==> t in times;
      CountClipped(init, lo, hi, now);
    }
  }

  lemma AdmissionKeepsLimit(history: seq<int>, policy: Policy, at: int)
    requires Limited(history, policy) && forall t :: t in history ==> t <= at
    requires CountIn(history, at - policy.window, at) < policy.max
    ensures Limited(history + [at], policy)
  {
    forall x ensures LimitedFrom(history + [at], policy, x) {
      assert (history + [at])[..|history|] == history;
      assert LimitedFrom(history, policy, x);
      if x < at <= x + policy.window {
        CountClipped(history, x, x + policy.window, at);
        CountMonotone(history, x, at, at - policy.window, at);
      }
    }
  }

  lemma {:induction false} ReferenceLimits(policy: Policy, key: string, history: seq<int>, now: int, events: seq<Event>)
    requires Ordered(now, events) && Limited(history, policy) && forall t :: t in history ==> t <= now
    ensures Limited(history + AdmittedTimes(key, events, Reference(policy, key, history, events)), policy)
    decreases |events|
  {
    var decisions := Reference(policy, key, history, events);
    if events == [] {
      assert history + AdmittedTimes(key, events, decisions) == history;
    } else if events[0] == Request(key, events[0].at) {
      hide Limited, CountIn;
      var at := events[0].at;
      var next := if decisions[0] then history + [at] else history;
      if decisions[0] {
        AdmissionKeepsLimit(history, policy, at);
      }
      ReferenceLimits(policy, key, next, at, events[1..]);
      var rest := AdmittedTimes(key, events[1..], decisions[1..]);
      assert decisions[1..] == Reference(policy, key, next, events[1..]);
      assert history + AdmittedTimes(key, events, decisions) == next + rest;
    } else {
      hide Limited, CountIn;
      ReferenceLimits(policy, key, history, events[0].at, events[1..]);
      if decisions == [] {
        assert Reference(policy, key, history, events[1..]) == [];
        assert AdmittedTimes(key, events[1..], decisions) == [];
      }
    }
  }

  /** In every run, every half-open interval as long as the window holds at most `max` admissions of the key. */
  lemma NeverMoreThanMax(policy: string -> Policy, maxAge: nat, key: string, from: int, events: seq<Event>, x: int)
    requires Ordered(from, events) && policy(key).window <= maxAge
    ensures CountIn(AdmittedTimes(key, events, Decisions(policy, maxAge, key, map[], events)), x,
                    x + policy(key).window)
            <= policy(key).max
  {
    RefinesFullHistory(policy, maxAge, key, from, events);
    assert Limited([], policy(key)) by {
      forall y ensures LimitedFrom([], policy(key), y) {}
    }
    ReferenceLimits(policy(key), key, [], from, events);
    var times := AdmittedTimes(key, events, Reference(policy(key), key, [], events));
    assert [] + times == times;
    assert LimitedFrom(times, policy(key), x);
  }

  // ---------------------------------------------------------------- sweeping unobserved

  function WithoutSweeps(events: seq<Event>): seq<Event>
    decreases |events|
  {
    if events == [] then []
    else (if events[0].Sweep? then [] else [events[0]]) + WithoutSweeps(events[1..])
  }

  lemma {:induction false} StillOrdered(from: int, events: seq<Event>)
    requires Ordered(from, events)
    ensures Ordered(from, WithoutSweeps(events))
    decreases |events|
  {
    if events != [] {
      StillOrdered(events[0].at, events[1..]);
      var rest := WithoutSweeps(events[1..]);
      if events[0].Sweep? {
        assert WithoutSweeps(events) == rest;
      } else {
        assert ([events[0]] + rest)[1..] == rest;
      }
    }
  }

  lemma WithoutSweepsStep(events: seq<Event>)
    requires events != []
    ensures var rest := WithoutSweeps(events[1..]);
            if events[0].Sweep? then WithoutSweeps(events) == rest
            else WithoutSweeps(events) != [] && WithoutSweeps(events)[0] == events[0]
                 && WithoutSweeps(events)[1..] == rest
  {
    var rest := WithoutSweeps(events[1..]);
    assert ([events[0]] + rest)[1..] == rest;
  }

  lemma {:induction false} ReferenceIgnoresSweeps(policy: Policy, key: string, history: seq<int>, events: seq<Event>)
    ensures Reference(policy, key, history, WithoutSweeps(events)) == Reference(policy, key, history, events)
    decreases |events|
  {
    if events == [] {
      return;
    }
    hide *;
    var at := events[0].at;
    var admitted := CountIn(history, at - policy.window, at) < policy.max;
    WithoutSweepsStep(events);
    ReferenceStep(policy, key, history, events);
    if events[0].Request? {
      ReferenceStep(policy, key, history, WithoutSweeps(events));
    }
    var ours := events[0].Request? && events[0].key == key;
    ReferenceIgnoresSweeps(policy, key, if ours && admitted then history + [at] else history, events[1..]);
  }

  /** No run, with any traffic on other keys, lets the answers for this key tell whether sweeps took place. */
  ghost predicate SweepsUnobservable(policy: string -> Policy, maxAge: nat, key: string) {
    forall from: int, events: seq<Event> :: Ordered(from, events) ==>
      Decisions(policy, maxAge, key, map[], events) == Decisions(policy, maxAge, key, map[], WithoutSweeps(events))
  }

  lemma SweepsHarmless(policy: string -> Policy, maxAge: nat, key: string)
    requires policy(key).window <= maxAge
    ensures SweepsUnobservable(policy, maxAge, key)
  {
    forall from: int, events: seq<Event> | Ordered(from, events)
      ensures Decisions(policy, maxAge, key, map[], events) ==
          Decisions(policy, maxAge, key, map[], WithoutSweeps(events))
    {
      StillOrdered(from, events);
      RefinesFullHistory(policy, maxAge, key, from, events);
      RefinesFullHistory(policy, maxAge, key, from, WithoutSweeps(events));
      ReferenceIgnoresSweeps(policy(key), key, [], events);
    }
  }

  /** With a limit of zero every request is refused, swept or not. */
  lemma {:induction false} ZeroRefuses(policy: string -> Policy, maxAge: nat, key: string, log: Log, other: Log,
                                       events: seq<Event>)
    requires policy(key).max == 0
    ensures Decisions(policy, maxAge, key, log, events) == Decisions(policy, maxAge, key, other, WithoutSweeps(events))
    decreases |events|
  {
    if events != [] {
      hide Decisions, Swept;
      var rest := WithoutSweeps(events[1..]);
      assert events == [events[0]] + events[1..];
      match events[0]
      case Sweep(at) =>
        assert WithoutSweeps(events) == rest;
        DecisionsSweep(policy, maxAge, key, log, at, events[1..]);
        ZeroRefuses(policy, maxAge, key, Swept(log, at - maxAge), other, events[1..]);
      case Request(k, at) =>
        DecisionsRequest(policy, maxAge, key, log, k, at, events[1..]);
        DecisionsRequest(policy, maxAge, key, other, k, at, rest);
        ZeroRefuses(policy, maxAge, key, Answer(policy, log, k, at).0, Answer(policy, other, k, at).0, events[1..]);
    }
  }

  function Burst(key: string, n: nat): (events: seq<Event>)
    ensures |events| == n
  {
    seq(n, i => Request(key, 0))
  }

  function Zeros(n: nat): seq<int> {
    seq(n, i => 0)
  }

  lemma {:induction false} PruneZeros(n: nat, cutoff: int)
    ensures Prune(Zeros(n), cutoff) == if cutoff < 0 then Zeros(n) else []
  {
    if n > 0 {
      assert Zeros(n)[..n - 1] == Zeros(n - 1);
      PruneZeros(n - 1, cutoff);
      assert Zeros(n) == Zeros(n - 1) + [0];
    }
  }

  lemma BurstStep(policy: string -> Policy, log: Log, key: string, seen: nat)
    requires policy(key).window > 0 && seen < policy(key).max && TimesOf(log, key) == Zeros(seen)
    ensures var (next, admitted) := Answer(policy, log, key, 0);
            admitted && TimesOf(next, key) == Zeros(seen + 1)
  {
    PruneZeros(seen, 0 - policy(key).window);
    assert Zeros(seen) + [0] == Zeros(seen + 1);
  }

  lemma BurstUnrolls(key: string, n: nat, tail: seq<Event>)
    requires n > 0
    ensures Burst(key, n) + tail == [Request(key, 0)] + (Burst(key, n - 1) + tail)
  {
  }

  /** A burst of requests at one instant is admitted while there is room and then sits in the log. */
  lemma {:induction false} BurstFills(policy: string -> Policy, maxAge: nat, key: string, log: Log, seen: nat, n: nat,
                                      tail: seq<Event>) returns (full: Log, yes: seq<bool>)
    requires policy(key).window > 0 && seen + n <= policy(key).max && TimesOf(log, key) == Zeros(seen)
    ensures TimesOf(full, key) == Zeros(seen + n) && |yes| == n
    ensures Decisions(policy, maxAge, key, log, Burst(key, n) + tail)
            == yes + Decisions(policy, maxAge, key, full, tail)
    decreases n
  {
    if n == 0 {
      assert Burst(key, 0) + tail == tail;
      full, yes := log, [];
    } else {
      hide *;
      var rest := Burst(key, n - 1) + tail;
      BurstUnrolls(key, n, tail);
      BurstStep(policy, log, key, seen);
      DecisionsRequest(policy, maxAge, key, log, key, 0, rest);
      var next, later := Answer(policy, log, key, 0).0, [];
      full, later := BurstFills(policy, maxAge, key, next, seen + 1, n - 1, tail);
      yes := [true] + later;
      assert [true] + (later + Decisions(policy, maxAge, key, full, tail))
             == yes + Decisions(policy, maxAge, key, full, tail);
    }
  }

  /** A window longer than the sweep age: fill the limit, sweep once it is `maxAge` later, and ask again. */
  function Witness(key: string, max: nat, maxAge: nat): seq<Event> {
    Burst(key, max) + [Sweep(maxAge), Request(key, maxAge)]
  }

  lemma {:induction false} BurstOrdered(key: string, n: nat, at: nat)
    ensures Ordered(0, Burst(key, n) + [Sweep(at), Request(key, at)])
    decreases n
  {
    var events := Burst(key, n) + [Sweep(at), Request(key, at)];
    if n == 0 {
      assert events == [Sweep(at), Request(key, at)];
      assert events[1..] == [Request(key, at)];
    } else {
      assert events[1..] == Burst(key, n - 1) + [Sweep(at), Request(key, at)];
      BurstOrdered(key, n - 1, at);
    }
  }

  lemma {:induction false} BurstWithoutSweeps(key: string, n: nat, at: nat)
    ensures WithoutSweeps(Burst(key, n) + [Sweep(at), Request(key, at)]) == Burst(key, n) + [Request(key, at)]
    decreases n
  {
    var events := Burst(key, n) + [Sweep(at), Request(key, at)];
    if n == 0 {
      assert events == [Sweep(at), Request(key, at)];
      var last: seq<Event> := [Request(key, at)];
      assert events[1..] == last && last[1..] == [];
      assert WithoutSweeps(last) == last;
      assert Burst(key, 0) + last == last;
    } else {
      assert events[1..] == Burst(key, n - 1) + [Sweep(at), Request(key, at)];
      BurstWithoutSweeps(key, n - 1, at);
    }
  }

  lemma SweepObserved(policy: string -> Policy, maxAge: nat, key: string)
    requires policy(key).window > maxAge && policy(key).max > 0
    ensures !SweepsUnobservable(policy, maxAge, key)
  {
    var max, window := policy(key).max, policy(key).window;
    var swept, plain := [Sweep(maxAge), Request(key, maxAge)], [Request(key, maxAge)];
    BurstOrdered(key, max, maxAge);
    BurstWithoutSweeps(key, max, maxAge);
    assert TimesOf(map[], key) == Zeros(0);
    var full, yes := BurstFills(policy, maxAge, key, map[], 0, max, swept);
    var full', yes' := BurstFills(policy, maxAge, key, map[], 0, max, plain);
    LastAnswers(policy, maxAge, key, full, full');
    assert (yes + Decisions(policy, maxAge, key, full, swept))[max] == true;
    assert (yes' + Decisions(policy, maxAge, key, full', plain))[max] == false;
    assert Ordered(0, Witness(key, max, maxAge));
  }

  lemma NoMore(policy: string -> Policy, maxAge: nat, key: string, log: Log)
    ensures Decisions(policy, maxAge, key, log, []) == []
  {
  }

  lemma LastAnswers(policy: string -> Policy, maxAge: nat, key: string, full: Log, full': Log)
    requires policy(key).window > maxAge && policy(key).max > 0
    requires TimesOf(full, key) == TimesOf(full', key) == Zeros(policy(key).max)
    ensures Decisions(policy, maxAge, key, full, [Sweep(maxAge), Request(key, maxAge)]) == [true]
    ensures Decisions(policy, maxAge, key, full', [Request(key, maxAge)]) == [false]
  {
    var max, window := policy(key).max, policy(key).window;
    PruneZeros(max, maxAge - maxAge);
    PruneZeros(max, maxAge - window);
    hide Decisions;
    var swept := Swept(full, maxAge - maxAge);
    assert TimesOf(swept, key) == [];
    NoMore(policy, maxAge, key, Answer(policy, swept, key, maxAge).0);
    NoMore(policy, maxAge, key, Answer(policy, full', key, maxAge).0);
    assert [Request(key, maxAge)] == [Request(key, maxAge)] + [];
    assert [Sweep(maxAge), Request(key, maxAge)] == [Sweep(maxAge)] + [Request(key, maxAge)];
    DecisionsSweep(policy, maxAge, key, full, maxAge, [Request(key, maxAge)]);
    DecisionsRequest(policy, maxAge, key, swept, key, maxAge, []);
    DecisionsRequest(policy, maxAge, key, full', key, maxAge, []);
  }

  /** Sweeping is unobservable for a key if and only if its window is no longer than the sweep age, or its limit is
      zero. */
  lemma SweepsUnobservableIff(policy: string -> Policy, maxAge: nat, key: string)
    ensures SweepsUnobservable(policy, maxAge, key) <==> policy(key).window <= maxAge || policy(key).max == 0
  {
    if policy(key).window <= maxAge {
      SweepsHarmless(policy, maxAge, key);
    } else if policy(key).max > 0 {
      SweepObserved(policy, maxAge, key);
    } else {
      forall from: int, events: seq<Event> | Ordered(from, events)
        ensures Decisions(policy, maxAge, key, map[], events) ==
            Decisions(policy, maxAge, key, map[], WithoutSweeps(events))
      {
        ZeroRefuses(policy, maxAge, key, map[], map[], events);
      }
    }
  }

  // --------------------------------------------------------------------- as deployed

  /** Seconds: `rate_limit_cleanup.rs` removes what is older than an hour. */
  const DEPLOYED_MAX_AGE: nat := 60 * 60

  datatype Limit =
      Login | Register | Message | AudioUpload | FileUpload | Wipe | PreKeyFetch | CodeByPhone | CodeByAddress

  /** The configured limits: requests, and seconds. */
  function Deployed(limit: Limit): Policy {
    match limit
    case Login => Policy(100, 60)
    case Register => Policy(100, 60)
    case Message => Policy(60, 60)
    case AudioUpload => Policy(20, 60)
    case FileUpload => Policy(10, 60)
    case Wipe => Policy(3, 60 * 60)
    case PreKeyFetch => Policy(30, 60)
    case CodeByPhone => Policy(3, 3600)
    case CodeByAddress => Policy(10, 3600)
  }

  /** The deployed hour covers every configured window, the hour-long ones exactly; one second less would show. */
  lemma DeployedSweepUnobservable(policy: string -> Policy, key: string, limit: Limit)
    requires policy(key) == Deployed(limit)
    ensures SweepsUnobservable(policy, DEPLOYED_MAX_AGE, key)
    ensures policy(key).window == 3600 ==> !SweepsUnobservable(policy, DEPLOYED_MAX_AGE - 1, key)
  {
    SweepsUnobservableIff(policy, DEPLOYED_MAX_AGE, key);
    SweepsUnobservableIff(policy, DEPLOYED_MAX_AGE - 1, key);
  }

  /** In numbers, with the deployed sweep, for every run: within any minute at most 100 logins or registrations, 60
      messages, 20 audio and 10 file uploads and 30 pre-key fetches of a key are admitted, and within any hour at most 3
      wipes, 3 codes for a phone number and 10 for an address. */
  lemma DeployedBounds(policy: string -> Policy, key: string, limit: Limit, from: int, events: seq<Event>, x: int)
    requires Ordered(from, events) && policy(key) == Deployed(limit)
    ensures var times := AdmittedTimes(key, events, Decisions(policy, DEPLOYED_MAX_AGE, key, map[], events));
            match limit
            case Login => CountIn(times, x, x + 60) <= 100
            case Register => CountIn(times, x, x + 60) <= 100
            case Message => CountIn(times, x, x + 60) <= 60
            case AudioUpload => CountIn(times, x, x + 60) <= 20
            case FileUpload => CountIn(times, x, x + 60) <= 10
            case Wipe => CountIn(times, x, x + 3600) <= 3
            case PreKeyFetch => CountIn(times, x, x + 60) <= 30
            case CodeByPhone => CountIn(times, x, x + 3600) <= 3
            case CodeByAddress => CountIn(times, x, x + 3600) <= 10
  {
    hide Decisions, AdmittedTimes, CountIn, Ordered;
    NeverMoreThanMax(policy, DEPLOYED_MAX_AGE, key, from, events, x);
  }
}
