/** The Redis-backed limiter, one call at a time, and how far it agrees with the in-process one. */
module RedisWindow {
  import opened Common
  import opened SlidingWindow

  /** A sorted-set member "now:n" together with its score, which is the same now. */
  datatype Stamp = Stamp(time: real, n: int)

  /** One Redis key: its sorted set and, when set, the server time at which the key disappears. */
  datatype KeyState = KeyState(zset: set<Stamp>, expiresAt: Option<real>)

  const ABSENT := KeyState({}, None)

  // ---------- Redis commands ----------

  function Alive(state: KeyState, now: real): KeyState {
    if state.expiresAt.Some? && state.expiresAt.value <= now then ABSENT else state
  }

  /** ZREMRANGEBYSCORE key 0 (now - window); Redis drops a key whose set becomes empty. */
  function PurgedSet(zset: set<Stamp>, now: real, window: real): set<Stamp> {
    set s | s in zset && !(0.0 <= s.time <= now - window)
  }

  function Purged(state: KeyState, now: real, window: real): KeyState {
    var zset := PurgedSet(state.zset, now, window);
    if zset == {} then ABSENT else state.(zset := zset)
  }

  /** ZADD creates the key if need be, and leaves a time-to-live it may have. */
  function Added(state: KeyState, stamp: Stamp): KeyState {
    state.(zset := state.zset + {stamp})
  }

  /** The seconds of EXPIRE int(window) + 1. */
  function Ttl(window: real): int {
    Truncate(window) + 1
  }

  /** EXPIRE finds no key whose set is empty; a time-to-live that is not positive deletes the key. */
  function Touched(state: KeyState, now: real, window: real): KeyState {
    if state.zset == {} then state
    else if Ttl(window) <= 0 then ABSENT
    else state.(expiresAt := Some(now + Ttl(window) as real))
  }

  function Recorded(state: KeyState, stamp: Stamp, window: real): KeyState {
    Touched(Added(state, stamp), stamp.time, window)
  }

  ghost predicate IsOldest(zset: set<Stamp>, time: real) {
    && (exists s {:trigger s in zset} :: s in zset && s.time == time)
    && (forall s {:trigger s in zset} :: s in zset ==> time <= s.time)
  }

  lemma {:induction false} OldestExists(zset: set<Stamp>)
    requires zset != {}
    ensures exists time :: IsOldest(zset, time)
  {
    var s :| s in zset;
    var rest := zset - {s};
    assert forall u :: u in zset ==> u == s || u in rest;
    if rest == {} {
      assert IsOldest(zset, s.time);
    } else {
      OldestExists(rest);
      var t :| IsOldest(rest, t);
      assert IsOldest(zset, if s.time < t then s.time else t);
    }
  }

  ghost function Oldest(zset: set<Stamp>): (time: real)
    requires zset != {}
    ensures IsOldest(zset, time)
  {
    OldestExists(zset);
    var time :| IsOldest(zset, time);
    time
  }

  // ---------- one call ----------

  datatype RedisOutcome = RedisOutcome(verdict: Verdict, state: KeyState)

  /** What is left once expiry and eviction are done, before the count is taken. */
  function Counted(state: KeyState, now: real, window: real): KeyState {
    Purged(Alive(state, now), now, window)
  }

  ghost function Acheck(state: KeyState, limit: int, window: real, stamp: Stamp): RedisOutcome {
    var counted := Counted(state, stamp.time, window);
    if |counted.zset| >= limit then
      var oldest := if counted.zset == {} then stamp.time else Oldest(counted.zset);
      RedisOutcome(Refused(RetryAfter(oldest, stamp.time, window)), counted)
    else
      RedisOutcome(Admitted, Recorded(counted, stamp, window))
  }

  function StateOf(keys: map<string, KeyState>, key: string): KeyState {
    if key in keys then keys[key] else ABSENT
  }

  class RedisRateLimiter {
    var counter: int
    var keys: map<string, KeyState>  // the Redis server's keys

    constructor ()
      ensures counter == 0 && keys == map[]
    {
      counter, keys := 0, map[];
    }

    /** The next member for this attempt; the number is never handed out again by this process. */
    method Member(now: real) returns (stamp: Stamp)
      modifies this`counter
      ensures counter == old(counter) + 1 && stamp == Stamp(now, counter)
    {
      counter := counter + 1;
      stamp := Stamp(now, counter);
    }

    method FirstScore(key: string) returns (oldest: Option<real>)
      ensures oldest == if StateOf(keys, key).zset == {} then None else Some(Oldest(StateOf(keys, key).zset))
    {
      var zset := StateOf(keys, key).zset;
      if zset == {} {
        return None;
      }
      var left := zset;
      var first: Stamp :| first in left;
      left := left - {first};
      while left != {}
        invariant left <= zset && first in zset
        invariant forall s :: s in zset && s !in left ==> first.time <= s.time
        decreases |left|
      {
        var s: Stamp :| s in left;
        if s.time < first.time {
          first := s;
        }
        left := left - {s};
      }
      assert IsOldest(zset, first.time);
      oldest := Some(first.time);
    }

    /** The four commands of one call, issued back to back. */
    method AcheckAlone(scope: string, client: string, limit: int, window: real, now: real) returns (verdict: Verdict)
      modifies this
      ensures var key := "rl:" + scope + ":" + client;
              var outcome := Acheck(StateOf(old(keys), key), limit, window, Stamp(now, old(counter) + 1));
              && verdict == outcome.verdict
              && keys == old(keys)[key := outcome.state]
              && counter == old(counter) + if verdict == Admitted then 1 else 0
    {
      var key := "rl:" + scope + ":" + client;
      keys := keys[key := Purged(Alive(StateOf(keys, key), now), now, window)];
      var count := |keys[key].zset|;
      if count >= limit {
        var oldest := FirstScore(key);
        return Refused(RetryAfter(if oldest.Some? then oldest.value else now, now, window));
      }
      var stamp := Member(now);
      keys := keys[key := Recorded(keys[key], stamp, window)];
      verdict := Admitted;
    }
  }

  // ---------- runs ----------

  /** One attempt on the key: its clock reading, and how many members other keys drew since the previous one. */
  datatype Arrival = Arrival(time: real, others: nat)

  datatype RedisRun = RedisRun(state: KeyState, counter: int, admitted: seq<Stamp>, verdicts: seq<Verdict>)

  /** The member the attempt records if it is admitted. */
  function NextStamp(run: RedisRun, a: Arrival): Stamp {
    Stamp(a.time, run.counter + a.others + 1)
  }

  ghost function RedisAfter(run: RedisRun, limit: int, window: real, a: Arrival): RedisRun {
    var o := Acheck(run.state, limit, window, NextStamp(run, a));
    RedisRun(o.state,
             run.counter + a.others + if o.verdict == Admitted then 1 else 0,
             run.admitted + if o.verdict == Admitted then [NextStamp(run, a)] else [],
             run.verdicts + [o.verdict])
  }

  /** The calls of one process on one key. */
  ghost function RedisReplay(arrivals: seq<Arrival>, limit: int, window: real): (run: RedisRun)
    ensures |run.verdicts| == |arrivals|
  {
    if arrivals == [] then RedisRun(ABSENT, 0, [], [])
    else RedisAfter(RedisReplay(arrivals[..|arrivals| - 1], limit, window), limit, window, arrivals[|arrivals| - 1])
  }

  function ArrivalTimes(arrivals: seq<Arrival>): (times: seq<real>)
    ensures |times| == |arrivals| && forall i :: 0 <= i < |arrivals| ==> times[i] == arrivals[i].time
  {
    seq(|arrivals|, i requires 0 <= i < |arrivals| => arrivals[i].time)
  }

  function Times(stamps: seq<Stamp>): (times: seq<real>)
    ensures |times| == |stamps| && forall i :: 0 <= i < |stamps| ==> times[i] == stamps[i].time
  {
    seq(|stamps|, i requires 0 <= i < |stamps| => stamps[i].time)
  }

  /** Admissions in clock order, with members that never repeat. */
  ghost predicate Ordered(admitted: seq<Stamp>) {
    forall i, j :: 0 <= i < j < |admitted| ==> admitted[i].time <= admitted[j].time && admitted[i].n < admitted[j].n
  }

  /** The admissions strictly after now - window, by index. */
  function Recent(admitted: seq<Stamp>, now: real, window: real): set<int> {
    set i | 0 <= i < |admitted| && admitted[i].time > now - window
  }

  function Pick(admitted: seq<Stamp>, indices: set<int>): set<Stamp>
    requires forall i :: i in indices ==> 0 <= i < |admitted|
  {
    set i | i in indices :: admitted[i]
  }

  /** Every admission still inside the window, seen from `last`, is stored, and the key outlives all of them. */
  ghost predicate StoreInvariant(state: KeyState, counter: int, admitted: seq<Stamp>, last: real, window: real) {
    && Ordered(admitted)
    && (forall i :: 0 <= i < |admitted| ==> 0.0 <= admitted[i].time <= last && admitted[i].n <= counter)
    && (forall s :: s in state.zset ==> s in admitted)
    && (forall i :: i in Recent(admitted, last, window) ==> admitted[i] in state.zset)
    && (state.expiresAt.Some? ==>
          forall i :: 0 <= i < |admitted| ==> admitted[i].time + window < state.expiresAt.value)
  }

  /** The set that is counted holds exactly the recent admissions, whether or not the key had expired:
      the key's time-to-live never changes what is counted. */
  lemma {:induction false} CountedIsRecent(
      state: KeyState, counter: int, admitted: seq<Stamp>, last: real, window: real, now: real)
    requires StoreInvariant(state, counter, admitted, last, window) && last <= now
    ensures Counted(state, now, window).zset == Pick(admitted, Recent(admitted, now, window))
    ensures |Counted(state, now, window).zset| == |Recent(admitted, now, window)|
    ensures PurgedSet(state.zset, now, window) == Counted(state, now, window).zset
    ensures StoreInvariant(Counted(state, now, window), counter, admitted, now, window)
  {
    var recent := Recent(admitted, now, window);
    var counted := Counted(state, now, window);
    forall i | i in recent ensures admitted[i] in counted.zset {
      assert i in Recent(admitted, last, window);
    }
    forall s | s in PurgedSet(state.zset, now, window) ensures s in Pick(admitted, recent) {
      var i :| 0 <= i < |admitted| && admitted[i] == s;
      assert i in recent;
    }
    ImageCard(recent, admitted);
    assert counted.expiresAt.Some? ==> counted.expiresAt == state.expiresAt;
  }

  lemma {:induction false} TruncateExceeds(x: real)
    requires x >= 0.0
    ensures x < (Truncate(x) + 1) as real && Truncate(x) + 1 >= 1
  {
  }

  lemma {:induction false} RecordKeepsInvariant(
      state: KeyState, counter: int, admitted: seq<Stamp>, window: real, stamp: Stamp)
    requires StoreInvariant(state, counter, admitted, stamp.time, window)
    requires stamp.time >= 0.0 && counter < stamp.n && window >= 0.0
    ensures StoreInvariant(Recorded(state, stamp, window), stamp.n, admitted + [stamp], stamp.time, window)
  {
    var next := Recorded(state, stamp, window);
    var all := admitted + [stamp];
    TruncateExceeds(window);
    forall i | i in Recent(all, stamp.time, window) ensures all[i] in next.zset {
      assert i < |admitted| ==> i in Recent(admitted, stamp.time, window);
    }
    assert forall i :: 0 <= i < |all| ==> all[i].time <= stamp.time;
  }

  ghost predicate RunStored(run: RedisRun, last: real, window: real) {
    StoreInvariant(run.state, run.counter, run.admitted, last, window)
  }

  lemma {:induction false} RedisStepKeepsInvariant(run: RedisRun, last: real, limit: int, window: real, a: Arrival)
    requires RunStored(run, last, window) && last <= a.time && 0.0 <= a.time && 0.0 <= window
    ensures RunStored(RedisAfter(run, limit, window, a), a.time, window)
  {
    var stamp := NextStamp(run, a);
    CountedIsRecent(run.state, run.counter, run.admitted, last, window, a.time);
    var counted := Counted(run.state, a.time, window);
    var next := RedisAfter(run, limit, window, a);
    if |counted.zset| < limit {
      RecordKeepsInvariant(counted, run.counter, run.admitted, window, stamp);
      assert next.state == Recorded(counted, stamp, window);
    } else {
      assert next.state == counted && next.admitted == run.admitted;
    }
  }

  predicate ClockOf(arrivals: seq<Arrival>, last: real) {
    && Sorted(ArrivalTimes(arrivals))
    && forall i :: 0 <= i < |arrivals| ==> 0.0 <= arrivals[i].time <= last
  }

  lemma {:induction false} ClockOfPrefix(arrivals: seq<Arrival>, last: real)
    requires ClockOf(arrivals, last) && arrivals != []
    ensures ClockOf(arrivals[..|arrivals| - 1], arrivals[|arrivals| - 1].time)
    ensures ArrivalTimes(arrivals[..|arrivals| - 1]) == ArrivalTimes(arrivals)[..|arrivals| - 1]
  {
    var rest := arrivals[..|arrivals| - 1];
    assert ArrivalTimes(rest) == ArrivalTimes(arrivals)[..|rest|];
    assert forall i :: 0 <= i < |rest| ==> ArrivalTimes(arrivals)[i] <= ArrivalTimes(arrivals)[|rest|];
  }

  lemma {:induction false} RedisReplayInvariant(arrivals: seq<Arrival>, limit: int, window: real, last: real)
    requires 0.0 <= window && ClockOf(arrivals, last)
    ensures RunStored(RedisReplay(arrivals, limit, window), last, window)
  {
    if arrivals == [] {
    } else {
      var rest := arrivals[..|arrivals| - 1];
      var a := arrivals[|arrivals| - 1];
      ClockOfPrefix(arrivals, last);
      RedisReplayInvariant(rest, limit, window, a.time);
      RedisStepKeepsInvariant(RedisReplay(rest, limit, window), a.time, limit, window, a);
      var run := RedisReplay(arrivals, limit, window);
      assert forall i :: i in Recent(run.admitted, last, window) ==> i in Recent(run.admitted, a.time, window);
    }
  }
}
