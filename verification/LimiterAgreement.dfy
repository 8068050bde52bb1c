/** When the Redis-backed limiter, run one call at a time, answers as the in-process one does. */
module LimiterAgreement {
  import opened Common
  import opened SlidingWindow
  import opened RedisWindow

  lemma {:induction false} OldestIs(zset: set<Stamp>, time: real)
    requires IsOldest(zset, time)
    ensures zset != {} && Oldest(zset) == time
  {
  }

  /** The two backends count the same admissions, except for those exactly `window` old. */
  lemma {:induction false} CountsDiffer(admitted: seq<Stamp>, j: nat, now: real, window: real)
    requires j <= |admitted| && Ordered(admitted)
    requires forall i :: 0 <= i < j ==> now - admitted[i].time > window
    requires forall i :: j <= i < |admitted| ==> now - admitted[i].time <= window
    ensures now - window !in Times(admitted) ==> Recent(admitted, now, window) == Interval(j, |admitted|)
    ensures now - window in Times(admitted) ==> |Recent(admitted, now, window)| < |admitted| - j
    ensures |Recent(admitted, now, window)| <= |admitted| - j
  {
    var recent := Recent(admitted, now, window);
    SubsetCard(recent, Interval(j, |admitted|));
    if now - window in Times(admitted) {
      var i :| 0 <= i < |admitted| && Times(admitted)[i] == now - window;
      assert i !in recent && i in Interval(j, |admitted|);
      SubsetCard(recent, Interval(j, |admitted|) - {i});
    } else {
      forall i | i in Interval(j, |admitted|) ensures i in recent {
        assert Times(admitted)[i] != now - window;
      }
    }
  }

  lemma {:induction false} MemoryKeeps(
      run: Run, k: int, last: real, limit: int, window: real, now: real)
    returns (j: int)
    requires limit >= 1 && RunInvariant(run, k, last, limit, window) && last <= now
    ensures 0 <= j <= |run.admitted| && |run.admitted| - j <= limit
    ensures Evict(run.bucket, now, window) == run.admitted[j..]
    ensures forall i :: 0 <= i < j ==> now - run.admitted[i] > window
    ensures forall i :: j <= i < |run.admitted| ==> now - run.admitted[i] <= window
  {
    j := EvictKeepsSuffix(run.admitted, k, now, window);
  }

  /** A stored suffix of the admissions has its first element as oldest entry. */
  lemma {:induction false} OldestOfSuffix(admitted: seq<Stamp>, j: nat)
    requires Ordered(admitted) && j < |admitted|
    ensures Pick(admitted, Interval(j, |admitted|)) != {}
    ensures Oldest(Pick(admitted, Interval(j, |admitted|))) == admitted[j].time
  {
    var picked := Pick(admitted, Interval(j, |admitted|));
    assert admitted[j] in picked;
    OldestIs(picked, admitted[j].time);
  }

  lemma {:induction false} RedisCounts(run: RedisRun, last: real, window: real, now: real, j: int)
    requires RunStored(run, last, window) && last <= now && 0 <= j <= |run.admitted|
    ensures Ordered(run.admitted)
    ensures var counted := Counted(run.state, now, window).zset;
            && |counted| == |Recent(run.admitted, now, window)|
            && (j < |run.admitted| && Recent(run.admitted, now, window) == Interval(j, |run.admitted|)
                ==> counted != {} && Oldest(counted) == run.admitted[j].time)
  {
    CountedIsRecent(run.state, run.counter, run.admitted, last, window, now);
    if j < |run.admitted| {
      OldestOfSuffix(run.admitted, j);
    }
  }

  /** Both answers depend only on the two counts and the two oldest entries. */
  lemma {:induction false} AnswersFromCounts(bucket: seq<real>, state: KeyState, limit: int, window: real, stamp: Stamp)
    requires limit >= 1
    ensures var kept := Evict(bucket, stamp.time, window);
            var counted := Counted(state, stamp.time, window).zset;
            var mem := Attempt(bucket, limit, window, stamp.time).verdict;
            var red := Acheck(state, limit, window, stamp).verdict;
            && (mem.Refused? <==> |kept| >= limit) && (red.Refused? <==> |counted| >= limit)
            && (mem.Refused? && red.Refused? && kept[0] == Oldest(counted) ==> mem == red)
  {
  }

  /** What the two backends count at the same moment. */
  lemma {:induction false} StepCounts(
      mem: Run, red: RedisRun, k: int, last: real, limit: int, window: real, now: real) returns (j: int)
    requires limit >= 1 && last <= now
    requires RunInvariant(mem, k, last, limit, window) && RunStored(red, last, window)
    requires Times(red.admitted) == mem.admitted
    ensures var kept, counted := Evict(mem.bucket, now, window), Counted(red.state, now, window).zset;
            && |kept| <= limit && |counted| <= |kept|
            && (now - window in mem.admitted ==> |counted| < |kept|)
            && (now - window !in mem.admitted ==> |counted| == |kept| && (kept != [] ==> Oldest(counted) == kept[0]))
  {
    j := MemoryKeeps(mem, k, last, limit, window, now);
    RedisCounts(red, last, window, now, j);
    CountsDiffer(red.admitted, j, now, window);
  }

  /** From equal admissions, the next two answers are equal unless the in-process limiter refuses an attempt that
      falls exactly `window` after an admitted one. */
  lemma {:induction false} StepAgreement(
      mem: Run, red: RedisRun, k: int, last: real, limit: int, window: real, a: Arrival)
    requires limit >= 1 && window >= 0.0 && last <= a.time && 0.0 <= a.time
    requires RunInvariant(mem, k, last, limit, window) && RunStored(red, last, window)
    requires Times(red.admitted) == mem.admitted
    ensures Attempt(mem.bucket, limit, window, a.time).verdict
            == Acheck(red.state, limit, window, NextStamp(red, a)).verdict
            <==> !(Attempt(mem.bucket, limit, window, a.time).verdict.Refused? && a.time - window in mem.admitted)
  {
    var _ := StepCounts(mem, red, k, last, limit, window, a.time);
    AnswersFromCounts(mem.bucket, red.state, limit, window, NextStamp(red, a));
  }

  ghost predicate BoundaryRefusal(times: seq<real>, verdicts: seq<Verdict>, i: int, window: real)
    requires |times| == |verdicts|
  {
    && 0 <= i < |times| && verdicts[i].Refused?
    && exists j :: 0 <= j < i && verdicts[j] == Admitted && times[i] - times[j] == window
  }

  lemma {:induction false} AdmittedAre(times: seq<real>, limit: int, window: real, t: real)
    requires limit >= 1
    ensures var run := Replay(times, limit, window);
            t in run.admitted <==> exists j :: 0 <= j < |times| && run.verdicts[j] == Admitted && times[j] == t
  {
    if times == [] {
    } else {
      var n := |times| - 1;
      AdmittedAre(times[..n], limit, window, t);
      var before := Replay(times[..n], limit, window);
      var run := Replay(times, limit, window);
      assert forall j :: 0 <= j < n ==> run.verdicts[j] == before.verdicts[j] && times[..n][j] == times[j];
      if t in before.admitted {
        var j :| 0 <= j < n && before.verdicts[j] == Admitted && times[..n][j] == t;
        assert run.verdicts[j] == Admitted;
      }
      if run.verdicts[n] == Admitted {
        assert run.admitted == before.admitted + [times[n]];
      }
    }
  }

  lemma {:induction false} SameAnswersSameAdmissions(arrivals: seq<Arrival>, limit: int, window: real)
    requires limit >= 1
    requires Replay(ArrivalTimes(arrivals), limit, window).verdicts == RedisReplay(arrivals, limit, window).verdicts
    ensures Times(RedisReplay(arrivals, limit, window).admitted)
         == Replay(ArrivalTimes(arrivals), limit, window).admitted
  {
    if arrivals == [] {
    } else {
      var n := |arrivals| - 1;
      var times := ArrivalTimes(arrivals);
      assert ArrivalTimes(arrivals[..n]) == times[..n];
      var mem, red := Replay(times, limit, window), RedisReplay(arrivals, limit, window);
      assert Replay(times[..n], limit, window).verdicts == mem.verdicts[..n];
      assert RedisReplay(arrivals[..n], limit, window).verdicts == red.verdicts[..n];
      SameAnswersSameAdmissions(arrivals[..n], limit, window);
      assert mem.verdicts[n] == red.verdicts[n];
    }
  }

  ghost predicate Agree(arrivals: seq<Arrival>, limit: int, window: real)
    requires limit >= 1
  {
    Replay(ArrivalTimes(arrivals), limit, window).verdicts == RedisReplay(arrivals, limit, window).verdicts
  }

  ghost predicate NoBoundaryRefusal(times: seq<real>, limit: int, window: real)
    requires limit >= 1
  {
    var verdicts := Replay(times, limit, window).verdicts;
    forall i :: 0 <= i < |times| ==> !BoundaryRefusal(times, verdicts, i, window)
  }

  lemma {:induction false} AgreeOnPrefix(arrivals: seq<Arrival>, limit: int, window: real)
    requires limit >= 1 && arrivals != []
    ensures var n := |arrivals| - 1;
            Agree(arrivals, limit, window)
            <==> Agree(arrivals[..n], limit, window)
                 && Replay(ArrivalTimes(arrivals), limit, window).verdicts[n]
                    == RedisReplay(arrivals, limit, window).verdicts[n]
  {
    var n := |arrivals| - 1;
    var mem, red := Replay(ArrivalTimes(arrivals), limit, window), RedisReplay(arrivals, limit, window);
    assert ArrivalTimes(arrivals)[..n] == ArrivalTimes(arrivals[..n]);
    assert mem.verdicts == mem.verdicts[..n] + [mem.verdicts[n]];
    assert red.verdicts == red.verdicts[..n] + [red.verdicts[n]];
  }

  lemma {:induction false} NoBoundaryOnPrefix(times: seq<real>, limit: int, window: real)
    requires limit >= 1 && times != []
    ensures var n := |times| - 1;
            NoBoundaryRefusal(times, limit, window)
            <==> NoBoundaryRefusal(times[..n], limit, window)
                 && !BoundaryRefusal(times, Replay(times, limit, window).verdicts, n, window)
  {
    var n := |times| - 1;
    var before, run := Replay(times[..n], limit, window), Replay(times, limit, window);
    assert run.verdicts[..n] == before.verdicts;
    assert forall j :: 0 <= j < n ==> run.verdicts[j] == before.verdicts[j] && times[..n][j] == times[j];
    forall i | 0 <= i < n
      ensures BoundaryRefusal(times, run.verdicts, i, window)
              <==> BoundaryRefusal(times[..n], before.verdicts, i, window)
    {
    }
  }

  lemma {:induction false} LastVerdicts(arrivals: seq<Arrival>, limit: int, window: real)
    requires limit >= 1 && arrivals != []
    ensures var n := |arrivals| - 1;
            var times := ArrivalTimes(arrivals);
            var red := RedisReplay(arrivals[..n], limit, window);
            && Replay(times, limit, window).verdicts[n]
               == Attempt(Replay(times[..n], limit, window).bucket, limit, window, arrivals[n].time).verdict
            && RedisReplay(arrivals, limit, window).verdicts[n]
               == Acheck(red.state, limit, window, NextStamp(red, arrivals[n])).verdict
  {
  }

  lemma {:induction false} NextAnswersAgree(rest: seq<Arrival>, limit: int, window: real, a: Arrival)
    requires limit >= 1 && window >= 0.0 && 0.0 <= a.time && ClockOf(rest, a.time) && Agree(rest, limit, window)
    ensures var mem, red := Replay(ArrivalTimes(rest), limit, window), RedisReplay(rest, limit, window);
            var answer := Attempt(mem.bucket, limit, window, a.time).verdict;
            answer == Acheck(red.state, limit, window, NextStamp(red, a)).verdict
            <==> !(answer.Refused? && a.time - window in mem.admitted)
  {
    SameAnswersSameAdmissions(rest, limit, window);
    RedisReplayInvariant(rest, limit, window, a.time);
    var k := ReplayInvariant(ArrivalTimes(rest), limit, window, a.time);
    StepAgreement(Replay(ArrivalTimes(rest), limit, window), RedisReplay(rest, limit, window), k, a.time, limit,
      window, a);
  }

  lemma {:induction false} LastAnswersAgree(arrivals: seq<Arrival>, limit: int, window: real, last: real)
    requires limit >= 1 && window >= 0.0 && ClockOf(arrivals, last) && arrivals != []
    requires Agree(arrivals[..|arrivals| - 1], limit, window)
    ensures var n := |arrivals| - 1;
            var mem := Replay(ArrivalTimes(arrivals), limit, window);
            mem.verdicts[n] == RedisReplay(arrivals, limit, window).verdicts[n]
            <==> !BoundaryRefusal(ArrivalTimes(arrivals), mem.verdicts, n, window)
  {
    var n := |arrivals| - 1;
    var rest, a, times := arrivals[..n], arrivals[n], ArrivalTimes(arrivals);
    NextAnswersAgree(rest, limit, window, a) by {
      ClockOfPrefix(arrivals, last);
    }
    assert ArrivalTimes(rest) == times[..n];
    LastVerdicts(arrivals, limit, window);
    LastBoundary(times, limit, window);
  }

  /** The two backends give the same answers, Retry-After included, on a whole run if and only if the in-process
      limiter never refuses an attempt that falls exactly `window` after an admitted one. */
  lemma {:induction false} Agreement(arrivals: seq<Arrival>, limit: int, window: real, last: real)
    requires limit >= 1 && window >= 0.0 && ClockOf(arrivals, last)
    ensures Agree(arrivals, limit, window) <==> NoBoundaryRefusal(ArrivalTimes(arrivals), limit, window)
  {
    if arrivals == [] {
    } else {
      var n := |arrivals| - 1;
      ClockOfPrefix(arrivals, last);
      Agreement(arrivals[..n], limit, window, arrivals[n].time);
      AgreeOnPrefix(arrivals, limit, window);
      NoBoundaryOnPrefix(ArrivalTimes(arrivals), limit, window);
      if Agree(arrivals[..n], limit, window) {
        LastAnswersAgree(arrivals, limit, window, last);
      }
    }
  }

  lemma {:induction false} LastBoundary(times: seq<real>, limit: int, window: real)
    requires limit >= 1 && times != []
    ensures var n := |times| - 1;
            var before, run := Replay(times[..n], limit, window), Replay(times, limit, window);
            BoundaryRefusal(times, run.verdicts, n, window)
            <==> run.verdicts[n].Refused? && times[n] - window in before.admitted
  {
    var n := |times| - 1;
    var before, run := Replay(times[..n], limit, window), Replay(times, limit, window);
    AdmittedAre(times[..n], limit, window, times[n] - window);
    assert run.verdicts[..n] == before.verdicts;
    assert forall j :: 0 <= j < n ==> run.verdicts[j] == before.verdicts[j] && times[..n][j] == times[j];
  }

  /** One request a minute, two requests sixty seconds apart: the in-process limiter refuses the second, the Redis
      one admits it. */
  lemma {:induction false} BoundaryDisagreement()
    ensures !Agree([Arrival(0.0, 0), Arrival(60.0, 0)], 1, 60.0)
  {
    var arrivals := [Arrival(0.0, 0), Arrival(60.0, 0)];
    assert ArrivalTimes(arrivals) == [0.0, 60.0];
    TwoAMinuteApart();
    assert BoundaryRefusal([0.0, 60.0], Replay([0.0, 60.0], 1, 60.0).verdicts, 1, 60.0);
    Agreement(arrivals, 1, 60.0, 60.0);
  }

  lemma {:induction false} TwoAMinuteApart()
    ensures var verdicts := Replay([0.0, 60.0], 1, 60.0).verdicts;
            |verdicts| == 2 && verdicts[0] == Admitted && verdicts[1].Refused?
  {
    assert [0.0][..0] == [] && [0.0, 60.0][..1] == [0.0];
    assert Attempt([], 1, 60.0, 0.0) == Outcome(Admitted, [0.0]);
    assert Replay([0.0], 1, 60.0) == Run([0.0], [0.0], [Admitted]);
    assert Evict([0.0], 60.0, 60.0) == [0.0];
  }

  // ---------- Retry-After of the Redis backend ----------

  /** The stored set never outgrows the limit when calls do not overlap. */
  lemma {:induction false} StoredWithinLimit(arrivals: seq<Arrival>, limit: int, window: real)
    requires limit >= 1
    ensures |RedisReplay(arrivals, limit, window).state.zset| <= limit
  {
    if arrivals == [] {
    } else {
      var n := |arrivals| - 1;
      var run := RedisReplay(arrivals[..n], limit, window);
      StoredWithinLimit(arrivals[..n], limit, window);
      SubsetCard(Counted(run.state, arrivals[n].time, window).zset, run.state.zset);
    }
  }

  /** After a refusal and with nothing else arriving, a whole number of seconds is enough exactly when it reaches
      the oldest counted admission's end of window. */
  lemma {:induction false} RedisWaits(run: RedisRun, last: real, limit: int, window: real, now: real, stamp: Stamp)
    requires limit >= 1 && RunStored(run, last, window) && last <= now <= stamp.time && |run.state.zset| <= limit
    requires |Counted(run.state, now, window).zset| >= limit
    ensures var counted := Counted(run.state, now, window);
            Acheck(counted, limit, window, stamp).verdict == Admitted <==> Oldest(counted.zset) <= stamp.time - window
  {
    var counted := Counted(run.state, now, window);
    CountsAtLeisure(run, last, window, now, stamp.time);
    SubsetCard(counted.zset, run.state.zset);
    OldestLeavesFirst(counted.zset, window, stamp.time);
  }

  lemma {:induction false} CountsAtLeisure(run: RedisRun, last: real, window: real, now: real, later: real)
    requires RunStored(run, last, window) && last <= now <= later
    ensures var counted := Counted(run.state, now, window);
            && Counted(counted, later, window).zset == PurgedSet(counted.zset, later, window)
            && (forall s {:trigger s in counted.zset} :: s in counted.zset ==> 0.0 <= s.time)
  {
    CountedIsRecent(run.state, run.counter, run.admitted, last, window, now);
    CountedIsRecent(Counted(run.state, now, window), run.counter, run.admitted, now, window, later);
  }

  /** Purging shrinks a set of past stamps exactly when its oldest one is out of the window. */
  lemma {:induction false} OldestLeavesFirst(zset: set<Stamp>, window: real, now: real)
    requires zset != {} && forall s {:trigger s in zset} :: s in zset ==> 0.0 <= s.time
    ensures |PurgedSet(zset, now, window)| < |zset| <==> Oldest(zset) <= now - window
  {
    var purged := PurgedSet(zset, now, window);
    if Oldest(zset) <= now - window {
      var s :| s in zset && s.time == Oldest(zset);
      SubsetCard(purged, zset - {s});
    } else {
      assert purged == zset;
    }
  }

  /** The answered Retry-After always suffices, and it is the least whole number of seconds that does unless the
      remaining time is itself a whole number of seconds. */
  lemma {:induction false} RedisRetryAfter(arrivals: seq<Arrival>, limit: int, window: real, a: Arrival, wait: nat)
    requires limit >= 1 && window >= 0.0 && ClockOf(arrivals + [a], a.time)
    requires RedisAfter(RedisReplay(arrivals, limit, window), limit, window, a).verdicts[|arrivals|].Refused?
    ensures var refused := RedisAfter(RedisReplay(arrivals, limit, window), limit, window, a);
            var remaining := window - (a.time - Oldest(refused.state.zset));
            var retryAfter := refused.verdicts[|arrivals|].retryAfter;
            var next := Acheck(refused.state, limit, window, NextStamp(refused, Arrival(a.time + wait as real, 0)));
            && refused.state.zset != {} && remaining > 0.0
            && (wait >= retryAfter ==> next.verdict == Admitted)
            && (wait < retryAfter && next.verdict == Admitted
                <==> remaining == remaining.Floor as real && wait == retryAfter - 1)
  {
    var run := RedisReplay(arrivals, limit, window);
    RunBefore(arrivals, limit, window, a);
    StoredWithinLimit(arrivals, limit, window);
    RefusalWaits(run, limit, window, a, wait);
  }

  lemma {:induction false} RunBefore(arrivals: seq<Arrival>, limit: int, window: real, a: Arrival)
    requires window >= 0.0 && ClockOf(arrivals + [a], a.time)
    ensures RunStored(RedisReplay(arrivals, limit, window), a.time, window)
  {
    assert (arrivals + [a])[..|arrivals|] == arrivals && (arrivals + [a])[|arrivals|] == a;
    ClockOfPrefix(arrivals + [a], a.time);
    RedisReplayInvariant(arrivals, limit, window, a.time);
  }

  lemma {:induction false} RefusalWaits(run: RedisRun, limit: int, window: real, a: Arrival, wait: nat)
    requires limit >= 1 && RunStored(run, a.time, window) && |run.state.zset| <= limit
    requires RedisAfter(run, limit, window, a).verdicts[|run.verdicts|].Refused?
    ensures var refused := RedisAfter(run, limit, window, a);
            var retryAfter := refused.verdicts[|run.verdicts|].retryAfter;
            var next := Acheck(refused.state, limit, window, NextStamp(refused, Arrival(a.time + wait as real, 0)));
            && refused.state.zset != {}
            && var remaining := window - (a.time - Oldest(refused.state.zset));
            && remaining > 0.0
            && (wait >= retryAfter ==> next.verdict == Admitted)
            && (wait < retryAfter && next.verdict == Admitted
                <==> remaining == remaining.Floor as real && wait == retryAfter - 1)
  {
    var refused := RedisAfter(run, limit, window, a);
    RefusalAnswers(run, limit, window, a);
    RedisWaits(run, a.time, limit, window, a.time, NextStamp(refused, Arrival(a.time + wait as real, 0)));
    CountedInWindow(run, a.time, window);
    CeilingOf(window - (a.time - Oldest(Counted(run.state, a.time, window).zset)), wait);
  }

  lemma {:induction false} RefusalAnswers(run: RedisRun, limit: int, window: real, a: Arrival)
    requires limit >= 1 && RedisAfter(run, limit, window, a).verdicts[|run.verdicts|].Refused?
    ensures var counted := Counted(run.state, a.time, window);
            && |counted.zset| >= limit && RedisAfter(run, limit, window, a).state == counted
            && RedisAfter(run, limit, window, a).verdicts[|run.verdicts|].retryAfter
               == RetryAfter(Oldest(counted.zset), a.time, window)
  {
  }

  lemma {:induction false} CountedInWindow(run: RedisRun, now: real, window: real)
    requires RunStored(run, now, window) && Counted(run.state, now, window).zset != {}
    ensures Oldest(Counted(run.state, now, window).zset) > now - window
  {
    CountedIsRecent(run.state, run.counter, run.admitted, now, window, now);
  }

  lemma {:induction false} CeilingOf(x: real, wait: nat)
    requires x > 0.0
    ensures wait >= Truncate(x) + 1 ==> wait as real >= x
    ensures wait < Truncate(x) + 1 && wait as real >= x <==> x == x.Floor as real && wait == Truncate(x)
    ensures Truncate(x) + 1 >= 1
  {
  }
}
