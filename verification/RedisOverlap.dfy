/** The bounds on the Redis-backed limiter are sharp and their conditions needed: runs that reach or exceed them, for
    every limit and every number of calls in flight. */
module RedisOverlap {
  import opened Common
  import opened RedisWindow
  import opened RedisProtocol
  import opened RedisAdmissions

  lemma {:induction false} Extend(
      steps: seq<Step>, step: Step, limit: int, window: real, k: nat, rules: Rules)
    returns (longer: seq<Step>)
    requires Legal(steps, limit, window, k) && Tame(steps, limit, window, rules)
    requires Enabled(After(steps, limit, window), step)
    requires |Apply(After(steps, limit, window), step, limit, window).calls| <= k
    requires TameStep(After(steps, limit, window), step, limit, window, rules)
    ensures longer == steps + [step] && Legal(longer, limit, window, k) && Tame(longer, limit, window, rules)
    ensures After(longer, limit, window) == Apply(After(steps, limit, window), step, limit, window)
  {
    longer := steps + [step];
    assert longer[..|longer| - 1] == steps;
  }

  // ---------- one call that meets no other ----------

  ghost function Solo(steps: seq<Step>, now: real, n: int): seq<Step> {
    steps + [Begin(0, now)] + [Purge(0)] + [Count(0)] + [Store(0, n)] + [Touch(0)]
  }

  /** The call finds room. */
  ghost predicate Room(s: State, now: real, limit: int, window: real) {
    s.calls == map[] && s.clock <= now && |Counted(s.key, now, window).zset| < limit
  }

  /** It counts and passes. */
  lemma {:induction false} SoloEnters(
      steps: seq<Step>, now: real, limit: int, window: real, k: nat, rules: Rules) returns (longer: seq<Step>)
    requires k >= 1 && Legal(steps, limit, window, k) && Tame(steps, limit, window, rules) && rules.lasting >= 0.0
    requires Room(After(steps, limit, window), now, limit, window)
    ensures longer == steps + [Begin(0, now)] + [Purge(0)] + [Count(0)]
    ensures Legal(longer, limit, window, k) && Tame(longer, limit, window, rules)
    ensures var s := After(steps, limit, window);
            After(longer, limit, window)
            == State(Counted(s.key, now, window), map[0 := Call(now, Passed)], now, s.admitted)
  {
    var s := After(steps, limit, window);
    longer := Extend(steps, Begin(0, now), limit, window, k, rules);
    assert After(longer, limit, window) == State(Alive(s.key, now), map[0 := Call(now, Started)], now, s.admitted);
    longer := Extend(longer, Purge(0), limit, window, k, rules);
    assert After(longer, limit, window)
        == State(Counted(s.key, now, window), map[0 := Call(now, Cleared)], now, s.admitted);
    longer := Extend(longer, Count(0), limit, window, k, rules);
  }

  lemma {:induction false} SoloLeaves(
      steps: seq<Step>, now: real, n: int, limit: int, window: real, k: nat, rules: Rules) returns (longer: seq<Step>)
    requires Legal(steps, limit, window, k) && Tame(steps, limit, window, rules) && k >= 1 && rules.lasting >= 0.0
    requires After(steps, limit, window).calls == map[0 := Call(now, Passed)] &&
             After(steps, limit, window).clock == now
    requires rules.distinct ==> Stamp(now, n) !in After(steps, limit, window).admitted
    ensures longer == steps + [Store(0, n)] + [Touch(0)]
    ensures Legal(longer, limit, window, k) && Tame(longer, limit, window, rules)
    ensures var s, stamp := After(steps, limit, window), Stamp(now, n);
            After(longer, limit, window) == State(Recorded(s.key, stamp, window), map[], now, s.admitted + {stamp})
  {
    longer := Extend(steps, Store(0, n), limit, window, k, rules);
    assert After(longer, limit, window).calls == map[0 := Call(now, Stored)];
    longer := Extend(longer, Touch(0), limit, window, k, rules);
    assert After(longer, limit, window).calls == map[];
  }

  /** It is admitted, stored and gone. */
  lemma {:induction false} SoloCall(
      steps: seq<Step>, now: real, n: int, limit: int, window: real, k: nat, rules: Rules)
    requires k >= 1 && Legal(steps, limit, window, k) && Tame(steps, limit, window, rules) && rules.lasting >= 0.0
    requires Room(After(steps, limit, window), now, limit, window)
    requires rules.distinct ==> Stamp(now, n) !in After(steps, limit, window).admitted
    ensures var s, stamp, longer := After(steps, limit, window), Stamp(now, n), Solo(steps, now, n);
            && Legal(longer, limit, window, k) && Tame(longer, limit, window, rules)
            && After(longer, limit, window)
               == State(Recorded(Counted(s.key, now, window), stamp, window), map[], now, s.admitted + {stamp})
  {
    var entered := SoloEnters(steps, now, limit, window, k, rules);
    var left := SoloLeaves(entered, now, n, limit, window, k, rules);
  }

  lemma {:induction false} AdmissionsStep(steps: seq<Step>, step: Step, from: real, limit: int, window: real)
    requires Enabled(After(steps, limit, window), step)
    ensures After(steps + [step], limit, window) == Apply(After(steps, limit, window), step, limit, window)
    ensures AdmissionsInside(steps + [step], from, limit, window)
         == AdmissionsInside(steps, from, limit, window)
            + if Admits(After(steps, limit, window), step, from, window) then 1 else 0
  {
    assert (steps + [step])[..|steps|] == steps;
  }

  lemma {:induction false} SoloAdmissions(steps: seq<Step>, now: real, n: int, from: real, limit: int, window: real)
    requires Room(After(steps, limit, window), now, limit, window)
    ensures AdmissionsInside(Solo(steps, now, n), from, limit, window)
         == AdmissionsInside(steps, from, limit, window) + if Inside(now, from, window) then 1 else 0
  {
    var s1 := steps + [Begin(0, now)];
    var s2 := s1 + [Purge(0)];
    var s3 := s2 + [Count(0)];
    var s4 := s3 + [Store(0, n)];
    AdmissionsStep(steps, Begin(0, now), from, limit, window);
    AdmissionsStep(s1, Purge(0), from, limit, window);
    AdmissionsStep(s2, Count(0), from, limit, window);
    AdmissionsStep(s3, Store(0, n), from, limit, window);
    AdmissionsStep(s4, Touch(0), from, limit, window);
    assert After(s3, limit, window).calls[0] == Call(now, Passed);
  }

  // ---------- colliding members ----------

  lemma {:induction false} AtMostOne(key: KeyState, window: real)
    requires key.zset <= {Stamp(1.0, 1)}
    ensures |Counted(key, 1.0, window).zset| <= 1
    ensures Recorded(Counted(key, 1.0, window), Stamp(1.0, 1), window).zset <= {Stamp(1.0, 1)}
  {
    SubsetCard(Counted(key, 1.0, window).zset, {Stamp(1.0, 1)});
  }

  /** Everything so far happened at time one and left at most one entry. */
  ghost predicate Collided(
      steps: seq<Step>, m: nat, limit: int, window: real, k: nat, lasting: real)
  {
    && Legal(steps, limit, window, k) && Tame(steps, limit, window, Rules(false, lasting))
    && AdmissionsInside(steps, 1.0 - window, limit, window) == m
    && var s := After(steps, limit, window);
       s.calls == map[] && s.clock <= 1.0 && s.key.zset <= {Stamp(1.0, 1)}
  }

  lemma {:induction false} CollideOnce(steps: seq<Step>, m: nat, limit: int, window: real, k: nat, lasting: real)
    requires limit >= 2 && window > 0.0 && k >= 1 && lasting >= 0.0 && Collided(steps, m, limit, window, k, lasting)
    ensures Collided(Solo(steps, 1.0, 1), m + 1, limit, window, k, lasting)
  {
    AtMostOne(After(steps, limit, window).key, window);
    assert Room(After(steps, limit, window), 1.0, limit, window);
    SoloCall(steps, 1.0, 1, limit, window, k, Rules(false, lasting));
    SoloAdmissions(steps, 1.0, 1, 1.0 - window, limit, window);
  }

  /** Two processes whose counters and clock readings coincide write the same member. With such collisions even calls
      that never overlap, and last no time at all, are admitted without bound in a window that should hold `limit`. */
  lemma {:induction false} CollidingMembersUnbounded(m: nat, limit: int, window: real, k: nat, lasting: real)
    returns (steps: seq<Step>)
    requires limit >= 2 && window > 0.0 && k >= 1 && lasting >= 0.0
    ensures Legal(steps, limit, window, k) && Tame(steps, limit, window, Rules(false, lasting))
    ensures AdmissionsInside(steps, 1.0 - window, limit, window) == m
    ensures Collided(steps, m, limit, window, k, lasting)
  {
    if m == 0 {
      steps := [];
    } else {
      var fewer := CollidingMembersUnbounded(m - 1, limit, window, k, lasting);
      CollideOnce(fewer, m - 1, limit, window, k, lasting);
      steps := Solo(fewer, 1.0, 1);
    }
  }

  // ---------- calls that overlap, with distinct members ----------

  /** A set of states closed under the steps of the runs meant. */
  datatype Reach = Reach(limit: int, window: real, k: nat, lasting: real, holds: State -> bool) {
    ghost predicate Allows(s: State, step: Step)
    {
      && Enabled(s, step) && TameStep(s, step, limit, window, Rules(true, lasting))
      && |Apply(s, step, limit, window).calls| <= k
    }

    ghost predicate Closed() {
      forall s, step {:trigger Apply(s, step, limit, window)} ::
        holds(s) && Allows(s, step) ==> holds(Apply(s, step, limit, window))
    }

    ghost predicate Usable() {
      limit >= 1 && k >= 1 && window > 0.0 && lasting >= 0.0 && Closed()
    }
  }

  lemma {:induction false} Next(s: State, step: Step, t: State, c: Reach)
    requires c.Closed() && c.holds(s) && c.Allows(s, step) && Apply(s, step, c.limit, c.window) == t
    ensures c.holds(t)
  {
  }

  /** Exactly the calls 0, ..., m - 1 of `calls` are this call. */
  predicate Crowd(calls: map<int, Call>, m: nat, call: Call) {
    forall id: int :: 0 <= id < m ==> id in calls && calls[id] == call
  }

  lemma {:induction false} CrowdGrows(calls: map<int, Call>, m: nat, call: Call)
    requires Crowd(calls, m, call)
    ensures Crowd(calls[m := call], m + 1, call)
  {
  }

  lemma {:induction false} BeginOne(s: State, id: int, now: real, c: Reach)
    requires c.Usable() && c.holds(s) && id !in s.calls && |s.calls| < c.k && s.clock <= now
    requires Alive(s.key, now) == s.key && Brisk(s.(clock := now), c.lasting)
    ensures c.holds(s.(calls := s.calls[id := Call(now, Started)], clock := now))
  {
    var begun := s.(calls := s.calls[id := Call(now, Started)], clock := now);
    assert begun.calls.Keys == s.calls.Keys + {id};
    Next(s, Begin(id, now), begun, c);
  }

  lemma {:induction false} BeginMany(s: State, m: nat, now: real, c: Reach) returns (t: State)
    requires c.Usable() && c.holds(s) && s.calls == map[] && s.clock <= now && m <= c.k && Alive(s.key, now) == s.key
    ensures c.holds(t) && t.key == s.key && t.admitted == s.admitted && t.clock == if m > 0 then now else s.clock
    ensures Crowd(t.calls, m, Call(now, Started)) && |t.calls| == m && (forall id :: id in t.calls ==> 0 <= id < m)
  {
    t := s;
    if m == 0 {
    } else {
      var u := BeginMany(s, m - 1, now, c);
      BeginOne(u, m - 1, now, c);
      CrowdGrows(u.calls, m - 1, Call(now, Started));
      t := u.(calls := u.calls[m - 1 := Call(now, Started)], clock := now);
      assert t.calls.Keys == u.calls.Keys + {m - 1};
    }
  }

  /** It purges nothing. */
  lemma {:induction false} PurgeOne(s: State, id: int, now: real, c: Reach)
    requires c.Usable() && c.holds(s) && id in s.calls && s.calls[id] == Call(now, Started)
    requires |s.calls| <= c.k && Brisk(s, c.lasting) && Purged(s.key, now, c.window) == s.key
    ensures c.holds(s.(calls := s.calls[id := Call(now, Cleared)]))
    ensures Brisk(s.(calls := s.calls[id := Call(now, Cleared)]), c.lasting)
  {
    var t := s.(calls := s.calls[id := Call(now, Cleared)]);
    assert t.calls.Keys == s.calls.Keys;
    Next(s, Purge(id), t, c);
  }

  lemma {:induction false} PurgeMany(s: State, m: nat, now: real, c: Reach) returns (t: State)
    requires c.Usable() && c.holds(s) && Crowd(s.calls, m, Call(now, Started))
    requires |s.calls| <= c.k && Brisk(s, c.lasting) && Purged(s.key, now, c.window) == s.key
    ensures c.holds(t) && Brisk(t, c.lasting) && t == s.(calls := t.calls)
    ensures Crowd(t.calls, m, Call(now, Cleared)) && t.calls.Keys == s.calls.Keys
    ensures forall id :: id in s.calls && id >= m ==> t.calls[id] == s.calls[id]
  {
    t := s;
    if m == 0 {
    } else {
      var u := PurgeMany(s, m - 1, now, c);
      assert u.calls[m - 1] == s.calls[m - 1] && |u.calls.Keys| == |s.calls.Keys|;
      PurgeOne(u, m - 1, now, c);
      t := u.(calls := u.calls[m - 1 := Call(now, Cleared)]);
    }
  }

  /** It counts and passes. */
  lemma {:induction false} CountOne(s: State, id: int, now: real, c: Reach)
    requires c.Usable() && c.holds(s) && id in s.calls && s.calls[id] == Call(now, Cleared)
    requires |s.calls| <= c.k && Brisk(s, c.lasting) && |s.key.zset| < c.limit
    ensures c.holds(s.(calls := s.calls[id := Call(now, Passed)]))
    ensures Brisk(s.(calls := s.calls[id := Call(now, Passed)]), c.lasting)
  {
    var t := s.(calls := s.calls[id := Call(now, Passed)]);
    assert t.calls.Keys == s.calls.Keys;
    Next(s, Count(id), t, c);
  }

  /** All pass, since none of them has stored anything yet. */
  lemma {:induction false} CountMany(s: State, m: nat, now: real, c: Reach) returns (t: State)
    requires c.Usable() && c.holds(s) && Crowd(s.calls, m, Call(now, Cleared))
    requires |s.calls| <= c.k && Brisk(s, c.lasting) && |s.key.zset| < c.limit
    ensures c.holds(t) && Brisk(t, c.lasting) && t == s.(calls := t.calls)
    ensures Crowd(t.calls, m, Call(now, Passed)) && t.calls.Keys == s.calls.Keys
    ensures forall id :: id in s.calls && id >= m ==> t.calls[id] == s.calls[id]
  {
    t := s;
    if m == 0 {
    } else {
      var u := CountMany(s, m - 1, now, c);
      assert u.calls[m - 1] == s.calls[m - 1] && |u.calls.Keys| == |s.calls.Keys|;
      CountOne(u, m - 1, now, c);
      t := u.(calls := u.calls[m - 1 := Call(now, Passed)]);
    }
  }

  /** Of times from lo to hi, and numbered below `first`. */
  predicate Spread(stamps: set<Stamp>, first: int, lo: real, hi: real) {
    forall stamp {:trigger stamp in stamps} :: stamp in stamps ==> lo <= stamp.time <= hi && stamp.n < first
  }

  /** The state after a call has stored its stamp and left. */
  ghost function Left(s: State, id: int, stamp: Stamp, window: real): State {
    State(KeyState(s.key.zset + {stamp}, Some(s.clock + Ttl(window) as real)), s.calls - {id}, s.clock,
          s.admitted + {stamp})
  }

  /** The state after its ZADD. */
  ghost function AfterStore(s: State, id: int, stamp: Stamp): State {
    State(Added(s.key, stamp), s.calls[id := Call(stamp.time, Stored)], s.clock, s.admitted + {stamp})
  }

  lemma {:induction false} AddOne(s: State, id: int, now: real, n: int, c: Reach)
    requires c.Usable() && c.holds(s) && id in s.calls && s.calls[id] == Call(now, Passed)
    requires |s.calls| <= c.k && Brisk(s, c.lasting) && Stamp(now, n) !in s.admitted
    ensures c.holds(AfterStore(s, id, Stamp(now, n))) && Brisk(AfterStore(s, id, Stamp(now, n)), c.lasting)
    ensures |AfterStore(s, id, Stamp(now, n)).calls| <= c.k
  {
    var t := AfterStore(s, id, Stamp(now, n));
    assert t.calls.Keys == s.calls.Keys;
    assert Apply(s, Store(id, n), c.limit, c.window) == t;
    Next(s, Store(id, n), t, c);
  }

  lemma {:induction false} TouchOne(s: State, id: int, t: State, c: Reach)
    requires c.Usable() && c.holds(s) && id in s.calls && s.calls[id].phase == Stored && s.key.zset != {}
    requires |s.calls| <= c.k && Brisk(s, c.lasting)
    requires t == State(KeyState(s.key.zset, Some(s.clock + Ttl(c.window) as real)), s.calls - {id}, s.clock,
             s.admitted)
    ensures c.holds(t) && Brisk(t, c.lasting) && |t.calls| <= c.k
  {
    TtlExceeds(c.window);
    SubsetCard(t.calls.Keys, s.calls.Keys);
    Next(s, Touch(id), t, c);
  }

  /** It stores a stamp of its own and leaves. */
  lemma {:induction false} StoreOne(s: State, id: int, now: real, n: int, c: Reach)
    requires c.Usable() && c.holds(s) && id in s.calls && s.calls[id] == Call(now, Passed)
    requires |s.calls| <= c.k && Brisk(s, c.lasting) && Stamp(now, n) !in s.admitted
    ensures c.holds(Left(s, id, Stamp(now, n), c.window)) && Brisk(Left(s, id, Stamp(now, n), c.window), c.lasting)
    ensures |Left(s, id, Stamp(now, n), c.window).calls| <= c.k
  {
    var stored := AfterStore(s, id, Stamp(now, n));
    AddOne(s, id, now, n, c);
    assert stored.calls - {id} == s.calls - {id} && stored.key.zset != {};
    TouchOne(stored, id, Left(s, id, Stamp(now, n), c.window), c);
  }

  /** One after the other all of them do. */
  lemma {:induction false} StoreMany(s: State, m: nat, now: real, first: int, lo: real, hi: real, c: Reach)
    returns (t: State)
    requires c.Usable() && c.holds(s) && Crowd(s.calls, m, Call(now, Passed))
    requires |s.calls| <= c.k && Brisk(s, c.lasting) && Spread(s.admitted, first, lo, hi) && lo <= now <= hi
    ensures c.holds(t) && t.clock == s.clock && t.calls.Keys <= s.calls.Keys
    ensures Spread(t.admitted, first + m, lo, hi) && |t.admitted| == |s.admitted| + m
    ensures s.key.zset == s.admitted ==> t.key.zset == t.admitted
    ensures t.key.expiresAt == if m > 0 then Some(s.clock + Ttl(c.window) as real) else s.key.expiresAt
    ensures forall id: int :: 0 <= id < m ==> id !in t.calls
    decreases m
  {
    if m == 0 {
      t := s;
    } else {
      StoreOne(s, m - 1, now, first, c);
      var u := Left(s, m - 1, Stamp(now, first), c.window);
      t := StoreMany(u, m - 1, now, first + 1, lo, hi, c);
    }
  }

  // ---------- the runs themselves ----------

  /** A run of distinct members and quick calls that ends in the given state. */
  ghost predicate EndsIn(steps: seq<Step>, s: State, limit: int, window: real, k: nat, lasting: real) {
    && Legal(steps, limit, window, k) && Tame(steps, limit, window, Rules(true, lasting))
    && After(steps, limit, window) == s
  }

  ghost function Runs(limit: int, window: real, k: nat, lasting: real): Reach {
    Reach(limit, window, k, lasting, s => exists steps :: EndsIn(steps, s, limit, window, k, lasting))
  }

  lemma {:induction false} RunsClosed(limit: int, window: real, k: nat, lasting: real)
    ensures Runs(limit, window, k, lasting).Closed()
  {
    var c := Runs(limit, window, k, lasting);
    forall s, step | c.holds(s) && c.Allows(s, step)
      ensures c.holds(Apply(s, step, limit, window))
    {
      var steps :| EndsIn(steps, s, limit, window, k, lasting);
      var longer := Extend(steps, step, limit, window, k, Rules(true, lasting));
      assert EndsIn(longer, Apply(s, step, limit, window), limit, window, k, lasting);
    }
  }

  /** m stamps of time one stored, and nobody in flight. */
  predicate Filled(s: State, m: int, window: real) {
    && s.calls == map[] && s.key.zset == s.admitted && Spread(s.admitted, m, 1.0, 1.0) && |s.admitted| == m
    && s.clock == (if m == 0 then 0.0 else 1.0)
    && s.key.expiresAt == if m == 0 then None else Some(1.0 + Ttl(window) as real)
  }

  /** A call from the time of filling until the window's end finds all of it. */
  lemma {:induction false} FilledStays(s: State, m: int, window: real, now: real)
    requires Filled(s, m, window) && window > 0.0 && 1.0 <= now < 1.0 + window
    ensures Alive(s.key, now) == s.key && Purged(s.key, now, window) == s.key
  {
    TtlExceeds(window);
    assert PurgedSet(s.key.zset, now, window) == s.key.zset;
  }

  lemma {:induction false} FillOne(
      steps: seq<Step>, s: State, m: nat, limit: int, window: real, k: nat, lasting: real)
    returns (longer: seq<Step>, t: State)
    requires m < limit && k >= 1 && window > 0.0 && lasting >= 0.0
    requires EndsIn(steps, s, limit, window, k, lasting) && Filled(s, m, window)
    ensures EndsIn(longer, t, limit, window, k, lasting) && Filled(t, m + 1, window)
  {
    FilledStays(s, m, window, 1.0);
    TtlExceeds(window);
    SoloCall(steps, 1.0, m, limit, window, k, Rules(true, lasting));
    longer := Solo(steps, 1.0, m);
    t := After(longer, limit, window);
    assert t.admitted == s.admitted + {Stamp(1.0, m)};
  }

  /** m calls, one after the other, at time one. */
  lemma {:induction false} Fill(m: nat, limit: int, window: real, k: nat, lasting: real)
    returns (steps: seq<Step>, s: State)
    requires m <= limit && k >= 1 && window > 0.0 && lasting >= 0.0
    ensures EndsIn(steps, s, limit, window, k, lasting) && Filled(s, m, window)
  {
    if m == 0 {
      steps, s := [], INITIAL;
    } else {
      steps, s := Fill(m - 1, limit, window, k, lasting);
      steps, s := FillOne(steps, s, m - 1, limit, window, k, lasting);
    }
  }

  /** limit - 1 stored, then k at once. */
  lemma {:induction false} CrowdOnFilled(s: State, c: Reach) returns (t: State)
    requires c.Usable() && c.holds(s) && Filled(s, c.limit - 1, c.window)
    ensures c.holds(t) && Filled(t, c.limit + c.k - 1, c.window)
  {
    FilledStays(s, c.limit - 1, c.window, 1.0);
    var u := BeginMany(s, c.k, 1.0, c);
    u := PurgeMany(u, c.k, 1.0, c);
    u := CountMany(u, c.k, 1.0, c);
    t := StoreMany(u, c.k, 1.0, c.limit - 1, 1.0, 1.0, c);
    assert t.calls.Keys == {};
  }

  lemma {:induction false} CrowdReached(limit: int, window: real, k: nat, lasting: real) returns (s: State)
    requires limit >= 1 && k >= 1 && window > 0.0 && lasting >= 0.0
    ensures Runs(limit, window, k, lasting).holds(s) && Filled(s, limit + k - 1, window)
  {
    var steps, filled := Fill(limit - 1, limit, window, k, lasting);
    RunsClosed(limit, window, k, lasting);
    s := CrowdOnFilled(filled, Runs(limit, window, k, lasting));
  }

  /** limit - 1 calls in a row, then k at once: StoredBound cannot be improved. */
  lemma {:induction false} StoredBoundReached(limit: int, window: real, k: nat) returns (steps: seq<Step>)
    requires limit >= 1 && k >= 1 && window > 0.0
    ensures Legal(steps, limit, window, k)
    ensures |After(steps, limit, window).key.zset| == limit + k - 1
  {
    var s := CrowdReached(limit, window, k, 0.0);
    steps :| EndsIn(steps, s, limit, window, k, 0.0);
  }

  /** All of the stamps are in the window that ends at hi, if lo is. */
  lemma {:induction false} SpreadInside(s: State, first: int, lo: real, hi: real, window: real)
    requires Spread(s.admitted, first, lo, hi) && hi - window < lo
    ensures AdmittedInside(s, hi - window, window) == s.admitted
  {
  }

  lemma {:induction false} RunTo(
      s: State, first: int, lo: real, hi: real, limit: int, window: real, k: nat, lasting: real)
    returns (steps: seq<Step>)
    requires Runs(limit, window, k, lasting).holds(s) && Spread(s.admitted, first, lo, hi) && hi - window < lo
    ensures Legal(steps, limit, window, k) && Tame(steps, limit, window, Rules(true, lasting))
    ensures AdmissionsInside(steps, hi - window, limit, window) == |s.admitted|
  {
    steps :| EndsIn(steps, s, limit, window, k, lasting);
    SpreadInside(s, first, lo, hi, window);
    FreshAdmissionsCounted(steps, hi - window, limit, window, Rules(true, lasting));
  }

  // ---------- calls that stall before they count ----------

  /** A call that begins when the window is over purges everything in it. */
  lemma {:induction false} LatePurge(s: State, id: int, first: int, c: Reach)
    requires c.Usable() && c.holds(s) && id !in s.calls && |s.calls| < c.k && s.clock <= 1.0 + c.window
    requires Spread(s.key.zset, first, 1.0, 1.0) && Alive(s.key, 1.0 + c.window) == s.key
    requires Brisk(s.(clock := 1.0 + c.window), c.lasting)
    ensures c.holds(State(ABSENT, s.calls[id := Call(1.0 + c.window, Cleared)], 1.0 + c.window, s.admitted))
  {
    var late := 1.0 + c.window;
    BeginOne(s, id, late, c);
    var begun := s.(calls := s.calls[id := Call(late, Started)], clock := late);
    var purged := State(ABSENT, s.calls[id := Call(late, Cleared)], late, s.admitted);
    assert begun.calls.Keys == s.calls.Keys + {id} == purged.calls.Keys;
    assert begun.calls[id := Call(late, Cleared)] == purged.calls;
    assert PurgedSet(s.key.zset, late, c.window) == {};
    Next(begun, Purge(id), purged, c);
  }

  /** k - 1 more calls begin just inside the window and stall, and a late call purges it. */
  lemma {:induction false} Stall(s: State, now: real, c: Reach) returns (t: State)
    requires c.Usable() && c.holds(s) && Filled(s, c.limit + c.k - 1, c.window)
    requires 1.0 <= now < 1.0 + c.window <= now + c.lasting
    ensures c.holds(t) && t.key == ABSENT && t.admitted == s.admitted && |t.calls| == c.k && Brisk(t, c.lasting)
    ensures Crowd(t.calls, c.k - 1, Call(now, Cleared))
  {
    FilledStays(s, c.limit + c.k - 1, c.window, now);
    TtlExceeds(c.window);
    var u := BeginMany(s, c.k - 1, now, c);
    u := PurgeMany(u, c.k - 1, now, c);
    assert |u.calls.Keys| == c.k - 1;
    LatePurge(u, c.k - 1, c.limit + c.k - 1, c);
    t := State(ABSENT, u.calls[c.k - 1 := Call(1.0 + c.window, Cleared)], 1.0 + c.window, u.admitted);
    assert t.calls.Keys == u.calls.Keys + {c.k - 1};
  }

  /** Then the stalled ones pass and store. */
  lemma {:induction false} Release(s: State, m: nat, first: int, now: real, c: Reach) returns (t: State)
    requires c.Usable() && c.holds(s) && s.key == ABSENT && |s.calls| <= c.k && Brisk(s, c.lasting)
    requires Crowd(s.calls, m, Call(now, Cleared)) && Spread(s.admitted, first, 1.0, 1.0) && 1.0 <= now
    ensures c.holds(t) && |t.admitted| == |s.admitted| + m && Spread(t.admitted, first + m, 1.0, now)
  {
    var u := CountMany(s, m, now, c);
    assert |u.calls.Keys| == |s.calls.Keys|;
    t := StoreMany(u, m, now, first, 1.0, now, c);
  }

  /** With k - 1 stalled calls admitted after a late one purged the window, AdmittedBound cannot be improved, however
      quick calls are. */
  lemma {:induction false} AdmittedBoundReached(limit: int, window: real, k: nat, lasting: real)
    returns (steps: seq<Step>, from: real)
    requires limit >= 1 && k >= 1 && window > 0.0 && lasting > 0.0
    ensures Legal(steps, limit, window, k) && Tame(steps, limit, window, Rules(true, lasting))
    ensures AdmissionsInside(steps, from, limit, window) == limit + 2 * (k - 1)
  {
    var c := Runs(limit, window, k, lasting);
    var now := 1.0 + window - (if lasting < window then lasting else window) / 2.0;
    var s := CrowdReached(limit, window, k, lasting);
    RunsClosed(limit, window, k, lasting);
    var t := Stall(s, now, c);
    t := Release(t, k - 1, limit + k - 1, now, c);
    from := now - window;
    steps := RunTo(t, limit + 2 * (k - 1), 1.0, now, limit, window, k, lasting);
  }

  // ---------- calls that stall across the key's expiry ----------

  /** k calls begin inside the window and stall until the key expires. */
  lemma {:induction false} Outlive(s: State, now: real, c: Reach) returns (t: State)
    requires c.Usable() && c.holds(s) && Filled(s, c.limit + c.k - 1, c.window)
    requires 1.0 <= now < 1.0 + c.window && 1.0 + Ttl(c.window) as real <= now + c.lasting
    ensures c.holds(t) && t.key == ABSENT && t.admitted == s.admitted && |t.calls| == c.k && Brisk(t, c.lasting)
    ensures Crowd(t.calls, c.k, Call(now, Started))
  {
    FilledStays(s, c.limit + c.k - 1, c.window, now);
    TtlExceeds(c.window);
    var u := BeginMany(s, c.k, now, c);
    t := Later(u, 1.0 + Ttl(c.window) as real);
    Next(u, Tick(1.0 + Ttl(c.window) as real), t, c);
  }

  lemma {:induction false} OutlivedReleased(s: State, now: real, c: Reach) returns (t: State)
    requires c.Usable() && c.holds(s) && Filled(s, c.limit + c.k - 1, c.window)
    requires 1.0 <= now < 1.0 + c.window && 1.0 + Ttl(c.window) as real <= now + c.lasting
    ensures c.holds(t) && |t.admitted| == c.limit + 2 * c.k - 1 && Spread(t.admitted, c.limit + 2 * c.k - 1, 1.0, now)
  {
    t := Outlive(s, now, c);
    t := PurgeMany(t, c.k, now, c);
    assert |t.calls.Keys| == c.k;
    t := Release(t, c.k, c.limit + c.k - 1, now, c);
  }

  /** If calls may last longer than the slack, the bound is exceeded: k calls that stall until the key has expired all
      find an empty set, with the window's limit + k - 1 admissions forgotten. */
  lemma {:induction false} SlowCallsExceed(limit: int, window: real, k: nat, lasting: real)
    returns (steps: seq<Step>, from: real)
    requires limit >= 1 && k >= 1 && window > 0.0 && lasting > Slack(window)
    ensures Legal(steps, limit, window, k) && Tame(steps, limit, window, Rules(true, lasting))
    ensures AdmissionsInside(steps, from, limit, window) == limit + 2 * k - 1
  {
    TtlExceeds(window);
    var ttl := Ttl(window) as real;
    var now := 1.0 + ttl - (if lasting < ttl then lasting else ttl);
    var s := CrowdReached(limit, window, k, lasting);
    RunsClosed(limit, window, k, lasting);
    var t := OutlivedReleased(s, now, Runs(limit, window, k, lasting));
    from := now - window;
    steps := RunTo(t, limit + 2 * k - 1, 1.0, now, limit, window, k, lasting);
  }

  /** A call that meets no other, finds room and stores. */
  lemma {:induction false} LoneStore(s: State, now: real, n: int, c: Reach) returns (t: State)
    requires c.Usable() && c.holds(s) && s.calls == map[] && s.clock <= now && |s.key.zset| < c.limit
    requires Alive(s.key, now) == s.key && Purged(s.key, now, c.window) == s.key && Stamp(now, n) !in s.admitted
    ensures t == State(Added(s.key, Stamp(now, n)), map[0 := Call(now, Stored)], now, s.admitted + {Stamp(now, n)})
    ensures c.holds(t)
  {
    var u := BeginMany(s, 1, now, c);
    u := PurgeMany(u, 1, now, c);
    u := CountMany(u, 1, now, c);
    assert u.calls.Keys == {0};
    AddOne(u, 0, now, n, c);
    t := AfterStore(u, 0, Stamp(now, n));
    assert t.calls == map[0 := Call(now, Stored)];
  }

  /** It reaches its EXPIRE when the key is gone. */
  lemma {:induction false} LoneExpiry(s: State, call: Call, until: real, c: Reach) returns (t: State)
    requires c.Usable() && c.holds(s) && s.calls == map[0 := call] && call.phase == Stored
    requires s.clock <= until <= call.now + c.lasting && s.key.expiresAt == Some(until)
    ensures t == State(ABSENT, map[], until, s.admitted) && c.holds(t)
  {
    var gone := State(ABSENT, s.calls, until, s.admitted);
    Next(s, Tick(until), gone, c);
    assert gone.calls - {0} == map[];
    t := State(ABSENT, map[], until, s.admitted);
    Next(gone, Touch(0), t, c);
  }

  lemma {:induction false} LoneTouch(s: State, c: Reach) returns (t: State)
    requires c.Usable() && c.holds(s) && s.calls.Keys == {0} && s.calls[0].phase == Stored
    requires s.calls[0].now == s.clock && s.key.zset != {}
    ensures t == State(KeyState(s.key.zset, Some(s.clock + Ttl(c.window) as real)), map[], s.clock, s.admitted)
    ensures c.holds(t)
  {
    assert |s.calls.Keys| == 1;
    assert s.calls - {0} == map[];
    t := State(KeyState(s.key.zset, Some(s.clock + Ttl(c.window) as real)), map[], s.clock, s.admitted);
    TouchOne(s, 0, t, c);
  }

  lemma {:induction false} LoneCall(s: State, now: real, n: int, c: Reach) returns (t: State)
    requires c.Usable() && c.holds(s) && s.calls == map[] && s.clock <= now && |s.key.zset| < c.limit
    requires Alive(s.key, now) == s.key && Purged(s.key, now, c.window) == s.key && Stamp(now, n) !in s.admitted
    ensures var stamp := Stamp(now, n);
            t == State(KeyState(s.key.zset + {stamp}, Some(now + Ttl(c.window) as real)), map[], now,
              s.admitted + {stamp})
    ensures c.holds(t)
  {
    var u := LoneStore(s, now, n, c);
    t := LoneTouch(u, c);
  }

  /** Two a minute, and one entry stored at time 1. A call that reads the clock at 60.5 stores its own and reaches its
      EXPIRE at 62, when the key is gone; two more calls follow, and none of them overlaps another. */
  lemma {:induction false} MinuteOfThree(s: State, c: Reach) returns (t: State)
    requires c.Usable() && c.holds(s) && c.limit == 2 && c.window == 60.0 && c.lasting == 1.5 && Filled(s, 1, 60.0)
    ensures c.holds(t) && t.admitted == s.admitted + {Stamp(60.5, 1), Stamp(63.0, 2), Stamp(64.0, 3)}
  {
    FilledStays(s, 1, 60.0, 60.5);
    t := LoneStore(s, 60.5, 1, c);
    t := LoneExpiry(t, Call(60.5, Stored), 62.0, c);
    t := LoneCall(t, 63.0, 2, c);
    assert PurgedSet(t.key.zset, 64.0, 60.0) == t.key.zset == {Stamp(63.0, 2)};
    t := LoneCall(t, 64.0, 3, c);
  }

  /** So two a minute have become three in the minute after 60. */
  lemma {:induction false} ThreeInAMinute() returns (steps: seq<Step>)
    ensures Legal(steps, 2, 60.0, 1) && Tame(steps, 2, 60.0, Rules(true, 1.5))
    ensures AdmissionsInside(steps, 60.0, 2, 60.0) == 3
  {
    var filling, s := Fill(1, 2, 60.0, 1, 1.5);
    RunsClosed(2, 60.0, 1, 1.5);
    var t := MinuteOfThree(s, Runs(2, 60.0, 1, 1.5));
    steps :| EndsIn(steps, t, 2, 60.0, 1, 1.5);
    ThreeInside(s, t);
    FreshAdmissionsCounted(steps, 60.0, 2, 60.0, Rules(true, 1.5));
  }

  lemma {:induction false} ThreeInside(s: State, t: State)
    requires Filled(s, 1, 60.0) && t.admitted == s.admitted + {Stamp(60.5, 1), Stamp(63.0, 2), Stamp(64.0, 3)}
    ensures |AdmittedInside(t, 60.0, 60.0)| == 3
  {
    assert AdmittedInside(t, 60.0, 60.0) == {Stamp(60.5, 1), Stamp(63.0, 2), Stamp(64.0, 3)};
  }

  // ---------- exactly when the bound holds ----------

  /** No run of this kind puts more than limit + 2(k - 1) admissions into one window. */
  ghost predicate WindowsKept(limit: int, window: real, k: nat, rules: Rules) {
    forall steps, from {:trigger AdmissionsInside(steps, from, limit, window)} ::
      Legal(steps, limit, window, k) && Tame(steps, limit, window, rules)
      ==> AdmissionsInside(steps, from, limit, window) <= limit + 2 * (k - 1)
  }

  lemma {:induction false} TameAnyway(steps: seq<Step>, limit: int, window: real, rules: Rules)
    requires Tame(steps, limit, window, Rules(true, rules.lasting))
    ensures Tame(steps, limit, window, rules)
  {
    if steps == [] {
    } else {
      TameAnyway(steps[..|steps| - 1], limit, window, rules);
    }
  }

  /** The bound holds for all runs if and only if every call reaches its EXPIRE within int(window) + 1 - window seconds
      of reading the clock, and members are distinct or the limit is one. */
  lemma {:induction false} AdmittedBoundExactly(limit: int, window: real, k: nat, rules: Rules)
    requires limit >= 1 && k >= 1 && window > 0.0 && rules.lasting >= 0.0
    ensures WindowsKept(limit, window, k, rules)
       <==> rules.lasting <= window.Floor as real + 1.0 - window && (rules.distinct || limit == 1)
  {
    if rules.lasting > Slack(window) {
      var steps, from := SlowCallsExceed(limit, window, k, rules.lasting);
      TameAnyway(steps, limit, window, rules);
    } else if !rules.distinct && limit > 1 {
      var steps := CollidingMembersUnbounded(limit + 2 * k, limit, window, k, rules.lasting);
    } else {
      forall steps, from | Legal(steps, limit, window, k) && Tame(steps, limit, window, rules)
        ensures AdmissionsInside(steps, from, limit, window) <= limit + 2 * (k - 1)
      {
        AdmittedBound(steps, from, limit, window, k, rules);
      }
    }
  }
}
