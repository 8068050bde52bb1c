/** How many admissions of the Redis-backed limiter fall into one window. */
module RedisAdmissions {
  import opened Common
  import opened RedisWindow
  import opened RedisProtocol

  // ---------- the time-to-live ----------

  /** How much longer than the window a key lives. */
  function Slack(window: real): real {
    Ttl(window) as real - window
  }

  ghost predicate TimesBounded(s: State) {
    && (forall id {:trigger id in s.calls} :: id in s.calls ==> 0.0 <= s.calls[id].now <= s.clock)
    && (forall stamp {:trigger stamp in s.admitted} :: stamp in s.admitted ==> 0.0 <= stamp.time <= s.clock)
    && s.key.zset <= s.admitted && 0.0 <= s.clock
    && (s.key.zset == {} ==> s.key.expiresAt == None)
  }

  /** A call whose EXPIRE will come before `expiry` less the slack is over. */
  ghost predicate Rescued(s: State, expiry: real, window: real) {
    exists id {:trigger id in s.calls} ::
      id in s.calls && s.calls[id].phase == Stored && s.calls[id].now < expiry - Slack(window)
  }

  /** Every entry is out of the window a whole slack before the key expires. */
  ghost predicate AllOld(zset: set<Stamp>, expiry: real, window: real) {
    forall stamp {:trigger stamp in zset} :: stamp in zset ==> stamp.time + Ttl(window) as real <= expiry
  }

  predicate PastPurge(phase: Phase) {
    phase == Cleared || phase == Passed || phase == Stored
  }

  ghost predicate AllEarly(s: State, expiry: real, window: real) {
    forall id {:trigger id in s.calls} ::
      id in s.calls && PastPurge(s.calls[id].phase) ==> s.calls[id].now < expiry - Slack(window)
  }

  /** The key expires only when nothing in it matters, or some call is about to prolong it. */
  ghost predicate ExpirySafe(s: State, window: real) {
    s.key.expiresAt.Some? ==>
      var expiry := s.key.expiresAt.value;
      Rescued(s, expiry, window) || (AllOld(s.key.zset, expiry, window) && AllEarly(s, expiry, window))
  }

  lemma {:induction false} TtlExceeds(window: real)
    requires window > 0.0
    ensures Ttl(window) >= 1 && Slack(window) > 0.0
  {
    TruncateExceeds(window);
  }

  lemma {:induction false} StepKeepsTimes(s: State, step: Step, limit: int, window: real)
    requires TimesBounded(s) && Enabled(s, step)
    ensures TimesBounded(Apply(s, step, limit, window))
  {
  }

  /** A call that began too late to be rescued purges every old entry. */
  lemma {:induction false} PurgeKeepsExpiry(s: State, id: int, limit: int, window: real)
    requires window > 0.0 && TimesBounded(s) && ExpirySafe(s, window) && Enabled(s, Purge(id))
    ensures ExpirySafe(Apply(s, Purge(id), limit, window), window)
  {
    var t := Apply(s, Purge(id), limit, window);
    if s.key.expiresAt.Some? {
      var expiry := s.key.expiresAt.value;
      if Rescued(s, expiry, window) {
        var r :| r in s.calls && s.calls[r].phase == Stored && s.calls[r].now < expiry - Slack(window);
        assert t.calls[r] == s.calls[r];
      } else if s.calls[id].now >= expiry - Slack(window) {
        assert PurgedSet(s.key.zset, s.calls[id].now, window) == {};
      }
    }
  }

  lemma {:induction false} StoreKeepsExpiry(s: State, id: int, n: int, limit: int, window: real)
    requires TimesBounded(s) && ExpirySafe(s, window) && Enabled(s, Store(id, n))
    ensures ExpirySafe(Apply(s, Store(id, n), limit, window), window)
  {
    var t := Apply(s, Store(id, n), limit, window);
    if t.key.expiresAt.Some? {
      var expiry := t.key.expiresAt.value;
      if Rescued(s, expiry, window) {
        var r :| r in s.calls && s.calls[r].phase == Stored && s.calls[r].now < expiry - Slack(window);
        assert t.calls[r] == s.calls[r];
      } else {
        assert t.calls[id].phase == Stored && t.calls[id].now < expiry - Slack(window);
      }
    }
  }

  lemma {:induction false} TouchKeepsExpiry(s: State, id: int, limit: int, window: real)
    requires window > 0.0 && TimesBounded(s) && ExpirySafe(s, window) && Enabled(s, Touch(id))
    ensures ExpirySafe(Apply(s, Touch(id), limit, window), window)
  {
    TtlExceeds(window);
  }

  /** Steps that move no call to or from Stored or past its purge, and touch no entry. */
  lemma {:induction false} OtherKeepsExpiry(s: State, step: Step, limit: int, window: real)
    requires ExpirySafe(s, window) && Enabled(s, step)
    requires step.Tick? || step.Begin? || step.Count? || step.Answer?
    ensures ExpirySafe(Apply(s, step, limit, window), window)
  {
    var t := Apply(s, step, limit, window);
    if t.key.expiresAt.Some? {
      var expiry := t.key.expiresAt.value;
      assert t.key == s.key;
      if Rescued(s, expiry, window) {
        var r :| r in s.calls && s.calls[r].phase == Stored && s.calls[r].now < expiry - Slack(window);
        assert r in t.calls && t.calls[r] == s.calls[r];
      }
    }
  }

  lemma {:induction false} StepKeepsExpiry(s: State, step: Step, limit: int, window: real)
    requires window > 0.0 && TimesBounded(s) && ExpirySafe(s, window) && Enabled(s, step) && step != KeyLost
    ensures ExpirySafe(Apply(s, step, limit, window), window)
  {
    match step {
      case Purge(id) => PurgeKeepsExpiry(s, id, limit, window);
      case Store(id, n) => StoreKeepsExpiry(s, id, n, limit, window);
      case Touch(id) => TouchKeepsExpiry(s, id, limit, window);
      case _ => OtherKeepsExpiry(s, step, limit, window);
    }
  }

  /** What an expiry drops is out of the window of the present, and of every call in flight that may still store. */
  ghost predicate DropsOld(s: State, now: real, window: real) {
    Alive(s.key, now) != s.key ==>
      forall stamp {:trigger stamp in s.key.zset} :: stamp in s.key.zset ==>
        && stamp.time <= now - window
        && forall id {:trigger id in s.calls} ::
             id in s.calls && s.calls[id].phase != Denied ==> stamp.time <= s.calls[id].now - window
  }

  lemma {:induction false} ExpiryDropsOld(s: State, now: real, window: real, lasting: real)
    requires window > 0.0 && ExpirySafe(s, window) && lasting <= Slack(window)
    requires Brisk(s.(clock := now), lasting)
    ensures DropsOld(s, now, window)
  {
    TtlExceeds(window);
    if Alive(s.key, now) != s.key {
      var expiry := s.key.expiresAt.value;
      assert !Rescued(s, expiry, window);
    }
  }

  // ---------- one window ----------

  function AdmittedInside(s: State, from: real, window: real): set<Stamp> {
    set stamp | stamp in s.admitted && Inside(stamp.time, from, window)
  }

  function PassedInside(s: State, from: real, window: real): set<int> {
    set id | id in s.calls && s.calls[id].phase == Passed && Inside(s.calls[id].now, from, window)
  }

  function WaitingInside(s: State, from: real, window: real): set<int> {
    set id | id in s.calls && (s.calls[id].phase == Started || s.calls[id].phase == Cleared)
             && Inside(s.calls[id].now, from, window)
  }

  /** Until a call begins after the window, everything admitted inside it is still stored. `n` counts admissions. */
  ghost predicate Early(s: State, n: nat, from: real, limit: int, window: real, k: nat) {
    && AdmittedInside(s, from, window) <= s.key.zset
    && n + |PassedInside(s, from, window)| <= limit + k - 1
    && forall id {:trigger id in s.calls} :: id in s.calls ==> s.calls[id].now <= from + window
  }

  /** Afterwards only the calls that were already in flight can still be admitted into it. */
  ghost predicate Late(s: State, n: nat, from: real, limit: int, window: real, k: nat) {
    && from + window < s.clock
    && n + |PassedInside(s, from, window)| + |WaitingInside(s, from, window)| <= limit + 2 * (k - 1)
  }

  ghost predicate WindowInvariant(s: State, n: nat, from: real, limit: int, window: real, k: nat) {
    Early(s, n, from, limit, window, k) || Late(s, n, from, limit, window, k)
  }

  /** Fewer admissions than the limit as long as fewer of their stamps than the limit are there. */
  ghost predicate Counts(s: State, n: nat, from: real, limit: int, window: real) {
    |AdmittedInside(s, from, window)| < limit ==> n < limit
  }

  /** Nothing admitted inside the window is dropped while it goes on, or a call of it may still store. */
  lemma {:induction false} LaterKeepsInside(s: State, now: real, from: real, window: real)
    requires DropsOld(s, now, window) && AdmittedInside(s, from, window) <= s.key.zset
    requires now <= from + window ||
             exists id {:trigger id in s.calls} :: id in s.calls && s.calls[id].phase != Denied &&
               s.calls[id].now <= from + window
    ensures AdmittedInside(s, from, window) <= Alive(s.key, now).zset
  {
    if Alive(s.key, now) != s.key {
      forall stamp | stamp in s.key.zset ensures !Inside(stamp.time, from, window) {
      }
    }
  }

  lemma {:induction false} TickKeepsWindow(s: State, n: nat, now: real, from: real, limit: int, window: real, k: nat)
    requires k >= 1 && Enabled(s, Tick(now)) && WindowInvariant(s, n, from, limit, window, k)
    requires DropsOld(s, now, window)
    ensures WindowInvariant(Later(s, now), n, from, limit, window, k)
  {
    var t := Later(s, now);
    assert AdmittedInside(t, from, window) == AdmittedInside(s, from, window);
    assert PassedInside(t, from, window) == PassedInside(s, from, window);
    assert WaitingInside(t, from, window) == WaitingInside(s, from, window);
    if Early(s, n, from, limit, window, k) {
      var inside := PassedInside(s, from, window) + WaitingInside(s, from, window);
      if now <= from + window {
        LaterKeepsInside(s, now, from, window);
      } else if inside != {} {
        var id := NonemptyInts(inside);
        assert s.calls[id].phase != Denied;
        LaterKeepsInside(s, now, from, window);
      } else {
        assert PassedInside(s, from, window) == {} == WaitingInside(s, from, window);
      }
    }
  }

  lemma {:induction false} BeginKeepsWindow(
      s: State, n: nat, id: int, now: real, from: real, limit: int, window: real, k: nat)
    requires k >= 1 && Enabled(s, Begin(id, now)) && WindowInvariant(s, n, from, limit, window, k)
    requires DropsOld(s, now, window) && |Apply(s, Begin(id, now), limit, window).calls| <= k
    ensures WindowInvariant(Apply(s, Begin(id, now), limit, window), n, from, limit, window, k)
  {
    var t := Apply(s, Begin(id, now), limit, window);
    assert AdmittedInside(t, from, window) == AdmittedInside(s, from, window);
    assert PassedInside(t, from, window) == PassedInside(s, from, window);
    if from + window < now {
      assert WaitingInside(t, from, window) == WaitingInside(s, from, window);
      OutsiderLeavesRoom(t, id, from, window, k);
    } else {
      LaterKeepsInside(s, now, from, window);
    }
  }

  /** A call from outside the window takes one of the k places. */
  lemma {:induction false} OutsiderLeavesRoom(s: State, id: int, from: real, window: real, k: nat)
    requires id in s.calls && from + window < s.calls[id].now && |s.calls| <= k
    ensures |WaitingInside(s, from, window)| <= k - 1
  {
    SubsetCard(WaitingInside(s, from, window), s.calls.Keys - {id});
  }

  lemma {:induction false} PurgeKeepsWindow(s: State, n: nat, id: int, from: real, limit: int, window: real, k: nat)
    requires Enabled(s, Purge(id)) && WindowInvariant(s, n, from, limit, window, k)
    ensures WindowInvariant(Apply(s, Purge(id), limit, window), n, from, limit, window, k)
  {
    var t := Apply(s, Purge(id), limit, window);
    assert AdmittedInside(t, from, window) == AdmittedInside(s, from, window);
    assert PassedInside(t, from, window) == PassedInside(s, from, window);
    assert WaitingInside(t, from, window) == WaitingInside(s, from, window);
  }

  /** Counting moves a call out of those that wait, and to those that passed if there was room. */
  lemma {:induction false} CountMoves(s: State, id: int, from: real, limit: int, window: real)
    requires Enabled(s, Count(id))
    ensures var t := Apply(s, Count(id), limit, window);
            var inside := Inside(s.calls[id].now, from, window);
            && |WaitingInside(t, from, window)| == |WaitingInside(s, from, window)| - (if inside then 1 else 0)
            && |PassedInside(t, from, window)|
               == |PassedInside(s, from, window)| + (if inside && |s.key.zset| < limit then 1 else 0)
  {
    var t := Apply(s, Count(id), limit, window);
    if Inside(s.calls[id].now, from, window) {
      assert WaitingInside(t, from, window) == WaitingInside(s, from, window) - {id};
      if |s.key.zset| < limit {
        assert PassedInside(t, from, window) == PassedInside(s, from, window) + {id};
      } else {
        assert PassedInside(t, from, window) == PassedInside(s, from, window);
      }
    } else {
      assert WaitingInside(t, from, window) == WaitingInside(s, from, window);
      assert PassedInside(t, from, window) == PassedInside(s, from, window);
    }
  }

  lemma {:induction false} CountKeepsWindow(s: State, n: nat, id: int, from: real, limit: int, window: real, k: nat)
    requires limit >= 1 && Enabled(s, Count(id)) && WindowInvariant(s, n, from, limit, window, k)
    requires Counts(s, n, from, limit, window) && |s.calls| <= k
    ensures WindowInvariant(Apply(s, Count(id), limit, window), n, from, limit, window, k)
  {
    var t := Apply(s, Count(id), limit, window);
    CountMoves(s, id, from, limit, window);
    if Early(s, n, from, limit, window, k) {
      assert AdmittedInside(t, from, window) == AdmittedInside(s, from, window);
      assert t.calls.Keys == s.calls.Keys;
      SubsetCard(PassedInside(t, from, window), t.calls.Keys);
      SubsetCard(AdmittedInside(s, from, window), s.key.zset);
    }
  }

  lemma {:induction false} StoreMoves(s: State, id: int, n: int, from: real, limit: int, window: real)
    requires Enabled(s, Store(id, n))
    ensures var t := Apply(s, Store(id, n), limit, window);
            && WaitingInside(t, from, window) == WaitingInside(s, from, window)
            && |PassedInside(t, from, window)|
               == |PassedInside(s, from, window)| - (if Inside(s.calls[id].now, from, window) then 1 else 0)
  {
    var t := Apply(s, Store(id, n), limit, window);
    if Inside(s.calls[id].now, from, window) {
      assert PassedInside(t, from, window) == PassedInside(s, from, window) - {id};
    } else {
      assert PassedInside(t, from, window) == PassedInside(s, from, window);
    }
  }

  lemma {:induction false} StoreKeepsWindow(
      s: State, n: nat, id: int, m: int, from: real, limit: int, window: real, k: nat)
    requires Enabled(s, Store(id, m)) && WindowInvariant(s, n, from, limit, window, k)
    ensures WindowInvariant(Apply(s, Store(id, m), limit, window),
                            n + (if Inside(s.calls[id].now, from, window) then 1 else 0), from, limit, window, k)
  {
    var t := Apply(s, Store(id, m), limit, window);
    StoreMoves(s, id, m, from, limit, window);
    assert AdmittedInside(t, from, window) <= AdmittedInside(s, from, window) + {Stamp(s.calls[id].now, m)};
  }

  lemma {:induction false} LeaveKeepsWindow(s: State, n: nat, step: Step, from: real, limit: int, window: real, k: nat)
    requires (step.Answer? || step.Touch?) && Enabled(s, step) && WindowInvariant(s, n, from, limit, window, k)
    requires Ttl(window) > 0
    ensures WindowInvariant(Apply(s, step, limit, window), n, from, limit, window, k)
  {
    var t := Apply(s, step, limit, window);
    assert AdmittedInside(t, from, window) == AdmittedInside(s, from, window);
    assert PassedInside(t, from, window) == PassedInside(s, from, window);
    assert WaitingInside(t, from, window) == WaitingInside(s, from, window);
  }

  lemma {:induction false} StepKeepsWindow(
      s: State, step: Step, n: nat, from: real, limit: int, window: real, k: nat, rules: Rules)
    requires limit >= 1 && k >= 1 && window > 0.0 && rules.lasting <= Slack(window)
    requires Enabled(s, step) && TameStep(s, step, limit, window, rules)
    requires ExpirySafe(s, window) && WindowInvariant(s, n, from, limit, window, k)
    requires Counts(s, n, from, limit, window) && |s.calls| <= k && |Apply(s, step, limit, window).calls| <= k
    ensures WindowInvariant(Apply(s, step, limit, window), n + (if Admits(s, step, from, window) then 1 else 0),
                            from, limit, window, k)
  {
    TtlExceeds(window);
    match step {
      case Tick(now) =>
        ExpiryDropsOld(s, now, window, rules.lasting);
        TickKeepsWindow(s, n, now, from, limit, window, k);
      case Begin(id, now) =>
        BriskBefore(s, id, now, limit, window, rules.lasting);
        ExpiryDropsOld(s, now, window, rules.lasting);
        BeginKeepsWindow(s, n, id, now, from, limit, window, k);
      case Purge(id) => PurgeKeepsWindow(s, n, id, from, limit, window, k);
      case Count(id) => CountKeepsWindow(s, n, id, from, limit, window, k);
      case Store(id, m) => StoreKeepsWindow(s, n, id, m, from, limit, window, k);
      case Answer(id) => LeaveKeepsWindow(s, n, step, from, limit, window, k);
      case Touch(id) => LeaveKeepsWindow(s, n, step, from, limit, window, k);
    }
  }

  lemma {:induction false} BriskBefore(s: State, id: int, now: real, limit: int, window: real, lasting: real)
    requires Enabled(s, Begin(id, now)) && Brisk(Apply(s, Begin(id, now), limit, window), lasting)
    ensures Brisk(s.(clock := now), lasting)
  {
    var t := Apply(s, Begin(id, now), limit, window);
    forall other | other in s.calls && s.calls[other].phase != Denied ensures now <= s.calls[other].now + lasting {
      assert other in t.calls && t.calls[other] == s.calls[other];
    }
  }

  // ---------- what admissions leave behind ----------

  lemma {:induction false} StepAdmits(s: State, step: Step, from: real, limit: int, window: real)
    requires Enabled(s, step)
    ensures var t := Apply(s, step, limit, window);
            && AdmittedInside(s, from, window) <= AdmittedInside(t, from, window)
            && (!Admits(s, step, from, window) ==> AdmittedInside(t, from, window) == AdmittedInside(s, from, window))
            && (Admits(s, step, from, window) ==> AdmittedInside(t, from, window) != {})
            && (Admits(s, step, from, window) && FreshStep(s, step) ==>
                  |AdmittedInside(t, from, window)| == |AdmittedInside(s, from, window)| + 1)
  {
    var t := Apply(s, step, limit, window);
    if step.Store? {
      var stamp := Stamp(s.calls[step.id].now, step.n);
      if Inside(stamp.time, from, window) {
        assert AdmittedInside(t, from, window) == AdmittedInside(s, from, window) + {stamp};
      } else {
        assert AdmittedInside(t, from, window) == AdmittedInside(s, from, window);
      }
    } else {
      assert t.admitted == s.admitted;
    }
  }

  /** With distinct members every admission stays visible as an entry of its own. */
  lemma {:induction false} FreshAdmissionsCounted(steps: seq<Step>, from: real, limit: int, window: real, rules: Rules)
    requires rules.distinct && Tame(steps, limit, window, rules)
    ensures AdmissionsInside(steps, from, limit, window) == |AdmittedInside(After(steps, limit, window), from, window)|
  {
    if steps == [] {
      assert AdmittedInside(INITIAL, from, window) == {};
    } else {
      var before := steps[..|steps| - 1];
      FreshAdmissionsCounted(before, from, limit, window, rules);
      StepAdmits(After(before, limit, window), steps[|steps| - 1], from, limit, window);
    }
  }

  /** Even with colliding members an admission leaves some entry. */
  lemma {:induction false} AdmissionsLeaveTraces(steps: seq<Step>, from: real, limit: int, window: real, rules: Rules)
    requires Tame(steps, limit, window, rules) && AdmissionsInside(steps, from, limit, window) > 0
    ensures AdmittedInside(After(steps, limit, window), from, window) != {}
  {
    var before := steps[..|steps| - 1];
    StepAdmits(After(before, limit, window), steps[|steps| - 1], from, limit, window);
    if AdmissionsInside(before, from, limit, window) > 0 {
      AdmissionsLeaveTraces(before, from, limit, window, rules);
    }
  }

  lemma {:induction false} RunCounts(steps: seq<Step>, from: real, limit: int, window: real, rules: Rules)
    requires limit >= 1 && (rules.distinct || limit == 1) && Tame(steps, limit, window, rules)
    ensures Counts(After(steps, limit, window), AdmissionsInside(steps, from, limit, window), from, limit, window)
  {
    if rules.distinct {
      FreshAdmissionsCounted(steps, from, limit, window, rules);
    } else if AdmissionsInside(steps, from, limit, window) > 0 {
      AdmissionsLeaveTraces(steps, from, limit, window, rules);
    }
  }

  // ---------- runs ----------

  lemma {:induction false} RunKeepsExpiry(steps: seq<Step>, limit: int, window: real, rules: Rules)
    requires window > 0.0 && Tame(steps, limit, window, rules)
    ensures TimesBounded(After(steps, limit, window)) && ExpirySafe(After(steps, limit, window), window)
  {
    if steps == [] {
    } else {
      var before := steps[..|steps| - 1];
      RunKeepsExpiry(before, limit, window, rules);
      StepKeepsTimes(After(before, limit, window), steps[|steps| - 1], limit, window);
      StepKeepsExpiry(After(before, limit, window), steps[|steps| - 1], limit, window);
    }
  }

  lemma {:induction false} RunKeepsWindow(
      steps: seq<Step>, from: real, limit: int, window: real, k: nat, rules: Rules)
    requires limit >= 1 && k >= 1 && window > 0.0 && rules.lasting <= Slack(window) && (rules.distinct || limit == 1)
    requires Legal(steps, limit, window, k) && Tame(steps, limit, window, rules)
    ensures |After(steps, limit, window).calls| <= k
    ensures WindowInvariant(After(steps, limit, window), AdmissionsInside(steps, from, limit, window),
                            from, limit, window, k)
  {
    if steps == [] {
      assert AdmittedInside(INITIAL, from, window) == {} && PassedInside(INITIAL, from, window) == {};
    } else {
      var before := steps[..|steps| - 1];
      RunKeepsWindow(before, from, limit, window, k, rules);
      RunKeepsExpiry(before, limit, window, rules);
      RunCounts(before, from, limit, window, rules);
      StepKeepsWindow(After(before, limit, window), steps[|steps| - 1],
                      AdmissionsInside(before, from, limit, window), from, limit, window, k, rules);
    }
  }

  lemma {:induction false} EmptyWindow(steps: seq<Step>, from: real, limit: int, window: real)
    requires window <= 0.0
    ensures AdmissionsInside(steps, from, limit, window) == 0
  {
    if steps == [] {
    } else {
      EmptyWindow(steps[..|steps| - 1], from, limit, window);
    }
  }

  /** With at most k calls in flight, each of which reaches its EXPIRE while the slack between the window and the key's
      time-to-live lasts, no window (from, from + window] sees more than limit + 2(k - 1) admissions, so at most
      `limit` when calls do not overlap; provided that members are distinct, or the limit is one. */
  lemma {:induction false} AdmittedBound(
      steps: seq<Step>, from: real, limit: int, window: real, k: nat, rules: Rules)
    requires limit >= 1 && k >= 1 && rules.lasting <= Slack(window) && (rules.distinct || limit == 1)
    requires Legal(steps, limit, window, k) && Tame(steps, limit, window, rules)
    ensures AdmissionsInside(steps, from, limit, window) <= limit + 2 * (k - 1)
  {
    if window <= 0.0 {
      EmptyWindow(steps, from, limit, window);
    } else {
      RunKeepsWindow(steps, from, limit, window, k, rules);
    }
  }
}
