/** The in-process sliding-window limiter: a deque of admission times per (scope, client) key. */
module SlidingWindow {
  import opened Common

  datatype Verdict = Admitted | Refused(retryAfter: int)

  // ---------- one attempt ----------

  /** Python's int(): truncation toward zero. */
  function Truncate(x: real): int {
    if x >= 0.0 then x.Floor else -((-x).Floor)
  }

  function RetryAfter(oldest: real, now: real, window: real): int {
    var whole := Truncate(window - (now - oldest)) + 1;
    if whole < 1 then 1 else whole
  }

  /** What the eviction loop leaves of a bucket. */
  function Evict(bucket: seq<real>, now: real, window: real): seq<real> {
    if |bucket| > 0 && now - bucket[0] > window then Evict(bucket[1..], now, window) else bucket
  }

  datatype Outcome = Outcome(verdict: Verdict, bucket: seq<real>)

  function Attempt(bucket: seq<real>, limit: int, window: real, now: real): Outcome
    requires limit >= 1
  {
    var kept := Evict(bucket, now, window);
    if |kept| >= limit then
      Outcome(Refused(RetryAfter(kept[0], now, window)), kept)
    else
      Outcome(Admitted, kept + [now])
  }

  type Key = (string, string)

  function BucketOf(buckets: map<Key, seq<real>>, key: Key): seq<real> {
    if key in buckets then buckets[key] else []
  }

  class RateLimiter {
    var buckets: map<Key, seq<real>>

    constructor ()
      ensures buckets == map[]
    {
      buckets := map[];
    }

    /** One attempt. A limit below one makes the source index an empty deque, so callers owe at least one. */
    method Check(scope: string, key: string, limit: int, window: real, now: real) returns (verdict: Verdict)
      requires limit >= 1
      modifies this
      ensures verdict == Attempt(BucketOf(old(buckets), (scope, key)), limit, window, now).verdict
      ensures buckets ==
              old(buckets)[(scope, key) := Attempt(BucketOf(old(buckets), (scope, key)), limit, window, now).bucket]
    {
      var bucket := BucketOf(buckets, (scope, key));
      while |bucket| > 0 && now - bucket[0] > window
        invariant Evict(bucket, now, window) == Evict(BucketOf(old(buckets), (scope, key)), now, window)
        decreases |bucket|
      {
        bucket := bucket[1..];
      }
      if |bucket| >= limit {
        buckets := buckets[(scope, key) := bucket];
        verdict := Refused(RetryAfter(bucket[0], now, window));
      } else {
        buckets := buckets[(scope, key) := bucket + [now]];
        verdict := Admitted;
      }
    }

    method Reset()
      modifies this
      ensures buckets == map[]
    {
      buckets := map[];
    }
  }

  // ---------- runs ----------

  predicate Sorted(times: seq<real>) {
    forall i, j :: 0 <= i <= j < |times| ==> times[i] <= times[j]
  }

  /** One key's bucket after a run of attempts, with everything it ever admitted and every answer. */
  datatype Run = Run(bucket: seq<real>, admitted: seq<real>, verdicts: seq<Verdict>)

  function After(run: Run, limit: int, window: real, now: real): Run
    requires limit >= 1
  {
    var o := Attempt(run.bucket, limit, window, now);
    Run(o.bucket,
        if o.verdict == Admitted then run.admitted + [now] else run.admitted,
        run.verdicts + [o.verdict])
  }

  function Replay(times: seq<real>, limit: int, window: real): (run: Run)
    requires limit >= 1
    ensures |run.verdicts| == |times|
  {
    if |times| == 0 then Run([], [], [])
    else
      After(Replay(times[..|times| - 1], limit, window), limit, window, times[|times| - 1])
  }

  /** The admitted attempts, by index, inside the closed window [from, to]. */
  function Within(admitted: seq<real>, from: real, to: real): set<int> {
    set i | 0 <= i < |admitted| && from <= admitted[i] <= to
  }

  /** Evicting drops exactly the entries older than the window. */
  lemma {:induction false} EvictKeepsSuffix(admitted: seq<real>, k: nat, now: real, window: real) returns (j: nat)
    requires Sorted(admitted) && k <= |admitted|
    ensures k <= j <= |admitted| && Evict(admitted[k..], now, window) == admitted[j..]
    ensures forall i :: k <= i < j ==> now - admitted[i] > window
    ensures forall i :: j <= i < |admitted| ==> now - admitted[i] <= window
    decreases |admitted| - k
  {
    var bucket := admitted[k..];
    if |bucket| > 0 && now - bucket[0] > window {
      assert bucket[1..] == admitted[k + 1..];
      j := EvictKeepsSuffix(admitted, k + 1, now, window);
    } else {
      j := k;
    }
  }

  /** Any limit + 1 consecutive admissions span more than the window. */
  ghost predicate Spaced(admitted: seq<real>, limit: int, window: real)
    requires limit >= 0
  {
    forall i, j :: 0 <= i && i + limit <= j < |admitted| ==> admitted[j] - admitted[i] > window
  }

  /** The bucket is what is left of the admissions once those older than the window, seen from `last`, are gone. */
  ghost predicate BucketIs(run: Run, k: int, last: real, window: real) {
    && 0 <= k <= |run.admitted|
    && run.bucket == run.admitted[k..]
    && forall i :: 0 <= i < k ==> last - run.admitted[i] > window
  }

  /** What every run over a non-decreasing clock keeps. */
  ghost predicate RunInvariant(run: Run, k: int, last: real, limit: int, window: real)
    requires limit >= 1
  {
    && Sorted(run.admitted) && Spaced(run.admitted, limit, window)
    && BucketIs(run, k, last, window)
    && (forall i :: 0 <= i < |run.admitted| ==> run.admitted[i] <= last)
    && |run.bucket| <= limit
  }

  lemma {:induction false} AppendKeepsSpacing(admitted: seq<real>, j: int, limit: int, window: real, now: real)
    requires limit >= 1 && Sorted(admitted) && Spaced(admitted, limit, window)
    requires forall i :: 0 <= i < |admitted| ==> admitted[i] <= now
    requires 0 <= j <= |admitted| < j + limit && forall i :: 0 <= i < j ==> now - admitted[i] > window
    ensures Sorted(admitted + [now]) && Spaced(admitted + [now], limit, window)
  {
  }

  /** One attempt keeps it. */
  lemma {:induction false} AttemptKeepsInvariant(run: Run, k: int, last: real, limit: int, window: real, now: real)
    returns (j: int)
    requires limit >= 1 && RunInvariant(run, k, last, limit, window) && last <= now
    ensures RunInvariant(After(run, limit, window, now), j, now, limit, window)
    ensures k <= j <= |run.admitted| && Evict(run.bucket, now, window) == run.admitted[j..]
    ensures forall i :: j <= i < |run.admitted| ==> now - run.admitted[i] <= window
  {
    j := EvictKeepsSuffix(run.admitted, k, now, window);
    assert forall i :: 0 <= i < j ==> now - run.admitted[i] > window;
    if |run.admitted[j..]| < limit {
      AdmittingKeepsInvariant(run.admitted, j, limit, window, now, run.verdicts + [Admitted]);
    }
  }

  lemma {:induction false} AdmittingKeepsInvariant(
      admitted: seq<real>, j: int, limit: int, window: real, now: real, verdicts: seq<Verdict>)
    requires limit >= 1 && Sorted(admitted) && Spaced(admitted, limit, window)
    requires forall i :: 0 <= i < |admitted| ==> admitted[i] <= now
    requires 0 <= j <= |admitted| < j + limit && forall i :: 0 <= i < j ==> now - admitted[i] > window
    ensures RunInvariant(Run(admitted[j..] + [now], admitted + [now], verdicts), j, now, limit, window)
  {
    AppendKeepsSpacing(admitted, j, limit, window, now);
    assert (admitted + [now])[j..] == admitted[j..] + [now];
  }

  /** Every run over a non-decreasing clock keeps it. */
  lemma {:induction false} ReplayInvariant(times: seq<real>, limit: int, window: real, last: real) returns (k: int)
    requires limit >= 1 && Sorted(times)
    requires forall i :: 0 <= i < |times| ==> times[i] <= last
    ensures RunInvariant(Replay(times, limit, window), k, last, limit, window)
  {
    k := 0;
    if times == [] {
    } else {
      var now := times[|times| - 1];
      k := ReplayInvariant(times[..|times| - 1], limit, window, now);
      k := AttemptKeepsInvariant(Replay(times[..|times| - 1], limit, window), k, now, limit, window, now);
    }
  }

  // ---------- what the limiter promises ----------

  /** No closed window of the configured length ever holds more than `limit` admissions. */
  lemma {:induction false} WindowBound(times: seq<real>, limit: int, window: real, from: real, to: real)
    requires limit >= 1 && Sorted(times) && to - from <= window
    ensures |Within(Replay(times, limit, window).admitted, from, to)| <= limit
  {
    var admitted := Replay(times, limit, window).admitted;
    var inside := Within(admitted, from, to);
    var _ := ReplayInvariant(times, limit, window, if times == [] then 0.0 else times[|times| - 1]);
    if inside != {} {
      var first := LeastElement(inside);
      assert forall i :: i in inside ==> admitted[i] - admitted[first] <= window;
      SubsetCard(inside, Interval(first, first + limit));
    }
  }

  /** The closed window ending at the attempt holds exactly what eviction leaves in the bucket. */
  lemma {:induction false} BucketIsWindow(times: seq<real>, limit: int, window: real, now: real) returns (j: int)
    requires limit >= 1 && window >= 0.0 && Sorted(times + [now])
    ensures var run := Replay(times, limit, window);
            && 0 <= j <= |run.admitted|
            && Evict(run.bucket, now, window) == run.admitted[j..]
            && Within(run.admitted, now - window, now) == Interval(j, |run.admitted|)
            && Sorted(run.admitted)
  {
    var all := times + [now];
    assert all[|times|] == now;
    assert forall i :: 0 <= i < |times| ==> times[i] == all[i];
    var run := Replay(times, limit, window);
    var last := if times == [] then now else times[|times| - 1];
    var k := ReplayInvariant(times, limit, window, last);
    j := AttemptKeepsInvariant(run, k, last, limit, window, now);
    var next := After(run, limit, window, now);
    assert forall i :: 0 <= i < |run.admitted| ==> next.admitted[i] == run.admitted[i];
  }

  lemma {:induction false} KeptIsWindow(times: seq<real>, limit: int, window: real, now: real)
    requires limit >= 1 && window >= 0.0 && Sorted(times + [now])
    ensures var run := Replay(times, limit, window);
            |Evict(run.bucket, now, window)| == |Within(run.admitted, now - window, now)|
  {
    var j := BucketIsWindow(times, limit, window, now);
  }

  lemma {:induction false} SortedPrefix(times: seq<real>, now: real)
    requires Sorted(times + [now])
    ensures Sorted(times)
  {
    assert forall i :: 0 <= i < |times| ==> times[i] == (times + [now])[i];
  }

  lemma {:induction false} KeptNeverOverLimit(times: seq<real>, limit: int, window: real, now: real)
    requires limit >= 1 && window >= 0.0 && Sorted(times + [now])
    ensures var run := Replay(times, limit, window);
            |Evict(run.bucket, now, window)| == |Within(run.admitted, now - window, now)| <= limit
  {
    SortedPrefix(times, now);
    WindowBound(times, limit, window, now - window, now);
    KeptIsWindow(times, limit, window, now);
  }

  /** An attempt is refused exactly when `limit` admissions lie in the closed window that ends at it. */
  lemma {:induction false} RefusedExactly(times: seq<real>, limit: int, window: real, now: real)
    requires limit >= 1 && window >= 0.0 && Sorted(times + [now])
    ensures var run := Replay(times, limit, window);
            Attempt(run.bucket, limit, window, now).verdict.Refused?
            <==> |Within(run.admitted, now - window, now)| == limit
  {
    KeptNeverOverLimit(times, limit, window, now);
  }

  /** Retry-After is exact: after a refusal, and with no other attempt in between, waiting a whole number of
      seconds is enough if and only if it is at least the answered one. */
  lemma {:induction false} RetryAfterExact(times: seq<real>, limit: int, window: real, now: real, wait: nat)
    requires limit >= 1 && window >= 0.0 && Sorted(times + [now])
    requires Attempt(Replay(times, limit, window).bucket, limit, window, now).verdict.Refused?
    ensures var refused := Attempt(Replay(times, limit, window).bucket, limit, window, now);
            Attempt(refused.bucket, limit, window, now + wait as real).verdict == Admitted
            <==> wait >= refused.verdict.retryAfter
  {
    var run := Replay(times, limit, window);
    var j := BucketIsWindow(times, limit, window, now);
    RefusedExactly(times, limit, window, now);
    var kept := run.admitted[j..];
    assert kept == Evict(run.bucket, now, window) && |kept| == limit && Sorted(kept);
    assert kept[0] == run.admitted[j] && j in Within(run.admitted, now - window, now);
    FullBucketWaits(kept, limit, window, now, wait);
  }

  lemma {:induction false} FloorIsLeast(x: real, wait: nat)
    requires x >= 0.0
    ensures wait as real > x <==> wait >= Truncate(x) + 1
  {
  }

  lemma {:induction false} FullBucketWaits(kept: seq<real>, limit: int, window: real, now: real, wait: nat)
    requires limit >= 1 && |kept| == limit && Sorted(kept) && 0.0 <= now - kept[0] <= window
    ensures Attempt(kept, limit, window, now + wait as real).verdict == Admitted
            <==> wait >= RetryAfter(kept[0], now, window)
  {
    var later := now + wait as real;
    assert kept[0..] == kept;
    var m := EvictKeepsSuffix(kept, 0, later, window);
    FloorIsLeast(window - (now - kept[0]), wait);
    assert m > 0 <==> wait as real > window - (now - kept[0]);
  }

  datatype Call = Call(key: Key, now: real)

  function CheckAll(calls: seq<Call>, limits: Key -> int, windows: Key -> real): map<Key, seq<real>>
    requires forall k :: limits(k) >= 1
  {
    if calls == [] then map[]
    else
      var before := CheckAll(calls[..|calls| - 1], limits, windows);
      var c := calls[|calls| - 1];
      before[c.key := Attempt(BucketOf(before, c.key), limits(c.key), windows(c.key), c.now).bucket]
  }

  function TimesOf(calls: seq<Call>, key: Key): seq<real> {
    if calls == [] then []
    else
      var c := calls[|calls| - 1];
      TimesOf(calls[..|calls| - 1], key) + if c.key == key then [c.now] else []
  }

  /** Different keys never influence one another: a key's bucket is the replay of its own attempts. */
  lemma {:induction false} KeysIndependent(calls: seq<Call>, limits: Key -> int, windows: Key -> real, key: Key)
    requires forall k :: limits(k) >= 1
    ensures BucketOf(CheckAll(calls, limits, windows), key)
         == Replay(TimesOf(calls, key), limits(key), windows(key)).bucket
  {
    if calls == [] {
    } else {
      KeysIndependent(calls[..|calls| - 1], limits, windows, key);
      var c := calls[|calls| - 1];
      var earlier := TimesOf(calls[..|calls| - 1], key);
      if c.key == key {
        assert TimesOf(calls, key) == earlier + [c.now];
        assert (earlier + [c.now])[..|earlier|] == earlier;
      } else {
        assert TimesOf(calls, key) == earlier;
      }
    }
  }
}
