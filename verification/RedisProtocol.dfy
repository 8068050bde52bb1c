/** Overlapping calls of the Redis-backed limiter on one key, interleaved at every awaited command. */
module RedisProtocol {
  import opened Common
  import opened RedisWindow

  /** Where a call stands between two of its commands. */
  datatype Phase =
    | Started   // clock read, ZREMRANGEBYSCORE not yet run
    | Cleared   // ZCARD not yet run
    | Denied    // ZCARD reached the limit, ZRANGE not yet run
    | Passed    // ZCARD was under the limit, ZADD not yet run
    | Stored    // EXPIRE not yet run

  datatype Call = Call(now: real, phase: Phase)

  /** The Redis key, the calls in flight, the clock, and every stamp a ZADD ever wrote. */
  datatype State = State(key: KeyState, calls: map<int, Call>, clock: real, admitted: set<Stamp>)

  const INITIAL := State(ABSENT, map[], 0.0, {})

  /** `KeyLost` is a key dropped by the server itself, as under memory pressure. */
  datatype Step =
    | Tick(now: real)
    | Begin(id: int, now: real)
    | Purge(id: int)
    | Count(id: int)
    | Answer(id: int)
    | Store(id: int, n: int)
    | Touch(id: int)
    | KeyLost

  predicate InPhase(s: State, id: int, phase: Phase) {
    id in s.calls && s.calls[id].phase == phase
  }

  predicate Enabled(s: State, step: Step) {
    match step
    case Tick(now) => s.clock <= now
    case Begin(id, now) => id !in s.calls && s.clock <= now
    case Purge(id) => InPhase(s, id, Started)
    case Count(id) => InPhase(s, id, Cleared)
    case Answer(id) => InPhase(s, id, Denied)
    case Store(id, n) => InPhase(s, id, Passed)
    case Touch(id) => InPhase(s, id, Stored)
    case KeyLost => true
  }

  /** Time passes, and with it the key when its time-to-live is over. */
  function Later(s: State, now: real): State {
    s.(key := Alive(s.key, now), clock := now)
  }

  function Moved(s: State, id: int, phase: Phase): map<int, Call>
    requires id in s.calls
  {
    s.calls[id := s.calls[id].(phase := phase)]
  }

  function Apply(s: State, step: Step, limit: int, window: real): State
    requires Enabled(s, step)
  {
    match step
    case Tick(now) => Later(s, now)
    case Begin(id, now) => Later(s, now).(calls := s.calls[id := Call(now, Started)])
    case Purge(id) => s.(key := Purged(s.key, s.calls[id].now, window), calls := Moved(s, id, Cleared))
    case Count(id) => s.(calls := Moved(s, id, if |s.key.zset| >= limit then Denied else Passed))
    case Answer(id) => s.(calls := s.calls - {id})
    case Store(id, n) =>
      var stamp := Stamp(s.calls[id].now, n);
      s.(key := Added(s.key, stamp), admitted := s.admitted + {stamp}, calls := Moved(s, id, Stored))
    case Touch(id) => s.(key := Touched(s.key, s.clock, window), calls := s.calls - {id})
    case KeyLost => s.(key := ABSENT)
  }

  /** A run from the empty key with never more than k calls in flight. */
  ghost predicate Legal(steps: seq<Step>, limit: int, window: real, k: nat) {
    steps == [] ||
    var before := steps[..|steps| - 1];
    && Legal(before, limit, window, k)
    && Enabled(After(before, limit, window), steps[|steps| - 1])
    && |After(steps, limit, window).calls| <= k
  }

  ghost function After(steps: seq<Step>, limit: int, window: real): State {
    if steps == [] then INITIAL
    else
      var s := After(steps[..|steps| - 1], limit, window);
      var step := steps[|steps| - 1];
      if Enabled(s, step) then Apply(s, step, limit, window) else s
  }

  // ---------- how many are stored ----------

  /** The calls past ZCARD that have yet to store their stamp. */
  function PassedCalls(s: State): set<int> {
    set id | id in s.calls && s.calls[id].phase == Passed
  }

  lemma {:induction false} CountKeepsStored(s: State, id: int, limit: int, window: real, k: nat)
    requires limit >= 1 && Enabled(s, Count(id)) && |Apply(s, Count(id), limit, window).calls| <= k
    requires |s.key.zset| + |PassedCalls(s)| <= limit + k - 1
    ensures var t := Apply(s, Count(id), limit, window); |t.key.zset| + |PassedCalls(t)| <= limit + k - 1
  {
    var t := Apply(s, Count(id), limit, window);
    if |s.key.zset| >= limit {
      assert PassedCalls(t) == PassedCalls(s);
    } else {
      SubsetCard(PassedCalls(t), t.calls.Keys);
    }
  }

  lemma {:induction false} StoreKeepsStored(s: State, id: int, n: int, limit: int, window: real)
    requires Enabled(s, Store(id, n))
    ensures var t := Apply(s, Store(id, n), limit, window);
            |t.key.zset| + |PassedCalls(t)| <= |s.key.zset| + |PassedCalls(s)|
  {
    assert PassedCalls(Apply(s, Store(id, n), limit, window)) == PassedCalls(s) - {id};
  }

  lemma {:induction false} OtherKeepsStored(s: State, step: Step, limit: int, window: real)
    requires Enabled(s, step) && !step.Count? && !step.Store?
    ensures var t := Apply(s, step, limit, window);
            |t.key.zset| + |PassedCalls(t)| <= |s.key.zset| + |PassedCalls(s)|
  {
    var t := Apply(s, step, limit, window);
    assert PassedCalls(t) == PassedCalls(s);
    SubsetCard(t.key.zset, s.key.zset);
  }

  lemma {:induction false} StepKeepsStoredBound(s: State, step: Step, limit: int, window: real, k: nat)
    requires limit >= 1 && Enabled(s, step) && |Apply(s, step, limit, window).calls| <= k
    requires |s.key.zset| + |PassedCalls(s)| <= limit + k - 1
    ensures var t := Apply(s, step, limit, window); |t.key.zset| + |PassedCalls(t)| <= limit + k - 1
  {
    match step {
      case Count(id) => CountKeepsStored(s, id, limit, window, k);
      case Store(id, n) => StoreKeepsStored(s, id, n, limit, window);
      case _ => OtherKeepsStored(s, step, limit, window);
    }
  }

  /** In every interleaving with at most k calls in flight, whatever the processes, their counters, the key's
      time-to-live and losses of the key, stored entries plus calls already past the ZCARD test never exceed
      limit + k - 1. */
  lemma {:induction false} StoredBound(steps: seq<Step>, limit: int, window: real, k: nat)
    requires limit >= 1 && Legal(steps, limit, window, k)
    ensures var s := After(steps, limit, window);
            |s.key.zset| + |PassedCalls(s)| <= limit + k - 1
  {
    if steps == [] {
      assert PassedCalls(INITIAL) == {};
    } else {
      var before := steps[..|steps| - 1];
      StoredBound(before, limit, window, k);
      StepKeepsStoredBound(After(before, limit, window), steps[|steps| - 1], limit, window, k);
    }
  }

  // ---------- which runs are meant ----------

  /** Whether members are told apart, and how long a call lasts at most from reading the clock to its EXPIRE. */
  datatype Rules = Rules(distinct: bool, lasting: real)

  /** A call that was denied has no EXPIRE to come. */
  ghost predicate Brisk(s: State, lasting: real) {
    forall id {:trigger id in s.calls} ::
      id in s.calls && s.calls[id].phase != Denied ==> s.clock <= s.calls[id].now + lasting
  }

  ghost predicate FreshStep(s: State, step: Step) {
    step.Store? && step.id in s.calls ==> Stamp(s.calls[step.id].now, step.n) !in s.admitted
  }

  ghost predicate TameStep(s: State, step: Step, limit: int, window: real, rules: Rules)
    requires Enabled(s, step)
  {
    step != KeyLost && (rules.distinct ==> FreshStep(s, step)) && Brisk(Apply(s, step, limit, window), rules.lasting)
  }

  /** Redis keeps the key until its time-to-live is over, calls are as quick as the rules say, and if the rules say so
      every ZADD adds a new member, as the counter guarantees inside one process. */
  ghost predicate Tame(steps: seq<Step>, limit: int, window: real, rules: Rules) {
    steps == [] ||
    var before := steps[..|steps| - 1];
    && Tame(before, limit, window, rules)
    && Enabled(After(before, limit, window), steps[|steps| - 1])
    && TameStep(After(before, limit, window), steps[|steps| - 1], limit, window, rules)
  }

  // ---------- how many are admitted ----------

  predicate Inside(time: real, from: real, window: real) {
    from < time <= from + window
  }

  /** The admissions of a run, one per ZADD, whose clock reading falls inside the window. */
  ghost function AdmissionsInside(steps: seq<Step>, from: real, limit: int, window: real): nat {
    if steps == [] then 0
    else
      var before := steps[..|steps| - 1];
      AdmissionsInside(before, from, limit, window)
      + if Admits(After(before, limit, window), steps[|steps| - 1], from, window) then 1 else 0
  }

  /** The step is the ZADD of a call whose clock reading falls inside the window. */
  predicate Admits(s: State, step: Step, from: real, window: real) {
    step.Store? && InPhase(s, step.id, Passed) && Inside(s.calls[step.id].now, from, window)
  }
}
