/** What a stopwatch does over a whole sequence of calls. `Run` folds the
    single-call specification `Timing.Step` over the calls in order. The link
    to a `StopWatch` object is made one call at a time: each of its methods
    ensures `State() == Step(old(State()), op)` for its own call `op`. */
module StopWatchProperties {
  import opened JavaLong
  import opened Timing

  /** The state after performing `ops`, in order, from state `s`. */
  function Run(s: Snapshot, ops: seq<Op>): Snapshot
    decreases |ops|
  {
    if ops == [] then s else Step(Run(s, ops[..|ops| - 1]), ops[|ops| - 1])
  }

  /** No call after position `i` is a `Stop` (with `i == -1`: none at all). */
  predicate NoStopAfter(ops: seq<Op>, i: int) {
    forall j :: 0 <= j < |ops| && i < j ==> !ops[j].Stop?
  }

  /** The watch was started after its last stop: some `Start` has no `Stop`
      after it, or the watch was running at the outset and nothing stopped it. */
  predicate StartedSinceLastStop(wasRunning: bool, ops: seq<Op>) {
    (exists i :: 0 <= i < |ops| && ops[i].Start? && NoStopAfter(ops, i))
    || (wasRunning && NoStopAfter(ops, -1))
  }

  /** Calls that only touch the lap log. */
  predicate OnlyLogCalls(ops: seq<Op>) {
    forall op <- ops :: op.Lap? || op.Clear?
  }

  /** The number of `Lap` calls in `ops`. */
  function LapCount(ops: seq<Op>): nat {
    if ops == [] then 0
    else LapCount(ops[..|ops| - 1]) + (if ops[|ops| - 1].Lap? then 1 else 0)
  }

  /** Performing `a` and then `b` is performing `a + b`. */
  lemma {:induction false} RunConcat(s: Snapshot, a: seq<Op>, b: seq<Op>)
    ensures Run(s, a + b) == Run(Run(s, a), b)
    decreases |b|
  {
    if b == [] {
      assert a + b == a;
    } else {
      var b' := b[..|b| - 1];
      assert (a + b)[..|a + b| - 1] == a + b';
      assert (a + b)[|a + b| - 1] == b[|b| - 1];
      RunConcat(s, a, b');
    }
  }

  /** `isRunning()` is true exactly when a `start()` came after the most
      recent `stop()` (or the watch was running and was never stopped). */
  lemma {:induction false} RunningIffStartedSinceLastStop(s: Snapshot, ops: seq<Op>)
    ensures Run(s, ops).running <==> StartedSinceLastStop(s.running, ops)
    decreases |ops|
  {
    if ops != [] {
      var n := |ops| - 1;
      var p, o := ops[..n], ops[n];
      RunningIffStartedSinceLastStop(s, p);
      match o
      case Start(_) =>
        assert ops[n].Start? && NoStopAfter(ops, n);
      case Stop(_) =>
        assert !NoStopAfter(ops, -1);
        forall i | 0 <= i < n ensures !NoStopAfter(ops, i) {
          assert ops[n].Stop?;
        }
      case _ =>
        assert NoStopAfter(ops, -1) <==> NoStopAfter(p, -1);
        forall i | 0 <= i < n ensures NoStopAfter(ops, i) <==> NoStopAfter(p, i) {
          assert forall j :: i < j < n ==> ops[j] == p[j];
        }
        if StartedSinceLastStop(s.running, ops) {
          if i :| 0 <= i < |ops| && ops[i].Start? && NoStopAfter(ops, i) {
            assert i < n && p[i].Start? && NoStopAfter(p, i);
          }
        } else {
          assert !StartedSinceLastStop(s.running, p);
        }
    }
  }

  /** `finishtime` is the clock reading of the most recent `stop()`, and is
      untouched when there was none. */
  lemma {:induction false} FinishTimeIsLastStop(s: Snapshot, ops: seq<Op>)
    ensures NoStopAfter(ops, -1) ==> Run(s, ops).finishtime == s.finishtime
    ensures forall i :: 0 <= i < |ops| && ops[i].Stop? && NoStopAfter(ops, i) ==>
              Run(s, ops).finishtime == ops[i].now
    decreases |ops|
  {
    if ops != [] {
      var n := |ops| - 1;
      var p := ops[..n];
      FinishTimeIsLastStop(s, p);
      var before, after := Run(s, p), Run(s, ops);
      assert after == Step(before, ops[n]);
      forall i | 0 <= i < |ops| && ops[i].Stop? && NoStopAfter(ops, i)
        ensures after.finishtime == ops[i].now
      {
        if i < n {
          assert !ops[n].Stop?;
          assert p[i] == ops[i] && NoStopAfter(p, i);
          assert after.finishtime == before.finishtime;
        }
      }
      if NoStopAfter(ops, -1) {
        assert NoStopAfter(p, -1);
      }
    }
  }

  /** `start()` on a running watch is a no-op: as long as nothing stops it,
      the watch keeps running with its start and finish times unchanged, and
      a run of `start()` calls alone leaves the whole state as it was. */
  lemma {:induction false} StartsIgnoredWhileRunning(s: Snapshot, ops: seq<Op>)
    requires s.running && NoStopAfter(ops, -1)
    ensures Run(s, ops).running
    ensures Run(s, ops).starttime == s.starttime && Run(s, ops).finishtime == s.finishtime
    ensures (forall op <- ops :: op.Start?) ==> Run(s, ops) == s
    decreases |ops|
  {
    if ops != [] {
      var p := ops[..|ops| - 1];
      assert NoStopAfter(p, -1);
      StartsIgnoredWhileRunning(s, p);
      if forall op <- ops :: op.Start? {
        assert forall op <- p :: op.Start? by {
          forall op | op in p ensures op.Start? {
            assert op in ops;
          }
        }
      }
    }
  }

  /** `lap()` and `clear()` never touch the times or the running flag. */
  lemma {:induction false} LogCallsKeepTimes(s: Snapshot, ops: seq<Op>)
    requires OnlyLogCalls(ops)
    ensures Run(s, ops).starttime == s.starttime && Run(s, ops).finishtime == s.finishtime
    ensures Run(s, ops).running == s.running
    decreases |ops|
  {
    if ops != [] {
      var p := ops[..|ops| - 1];
      assert OnlyLogCalls(p) by {
        forall op | op in p ensures op.Lap? || op.Clear? {
          assert op in ops;
        }
      }
      LogCallsKeepTimes(s, p);
      assert ops[|ops| - 1] in ops;
    }
  }

  /** While the watch runs, `starttime` is the clock reading of the `start()`
      that began the current run, whatever else happened since. */
  lemma StartTimeOfCurrentRun(s: Snapshot, t: Long, rest: seq<Op>)
    requires !s.running && NoStopAfter(rest, -1)
    ensures Run(s, [Start(t)] + rest).running
    ensures Run(s, [Start(t)] + rest).starttime == t
  {
    RunConcat(s, [Start(t)], rest);
    assert Run(s, [Start(t)]) == Step(s, Start(t)) by {
      assert [Start(t)][..0] == [];
    }
    StartsIgnoredWhileRunning(Step(s, Start(t)), rest);
  }

  /** A `lap()` taken after a full cycle — `start(t1)` from a stopped watch,
      then `stop(t2)`, with only lap-log calls after the stop — records
      exactly `(t1, t2)`. When `t1 <= t2` and `t2 - t1` fits in a `long`
      its running time is `t2 - t1 >= 0`; without the second condition the
      wrapping subtraction can make it negative. */
  lemma LapAfterCycle(s: Snapshot, t1: Long, mid: seq<Op>, t2: Long, post: seq<Op>)
    requires !s.running && NoStopAfter(mid, -1) && OnlyLogCalls(post)
    ensures var r := Run(s, [Start(t1)] + mid + [Stop(t2)] + post + [Lap]);
      !r.running && |r.laps| > 0 && r.laps[|r.laps| - 1] == LapLog(t1, t2)
    ensures t1 <= t2 && InRange(t2 - t1) ==>
      var r := Run(s, [Start(t1)] + mid + [Stop(t2)] + post + [Lap]);
      |r.laps| > 0 && r.laps[|r.laps| - 1].RunningTime() == t2 - t1 >= 0
  {
    var started := Run(s, [Start(t1)] + mid);
    StartTimeOfCurrentRun(s, t1, mid);
    var stopped := Step(started, Stop(t2));
    RunConcat(s, [Start(t1)] + mid, [Stop(t2)]);
    assert Run(s, [Start(t1)] + mid + [Stop(t2)]) == stopped by {
      assert [Stop(t2)][..0] == [];
    }
    LogCallsKeepTimes(stopped, post);
    RunConcat(s, [Start(t1)] + mid + [Stop(t2)], post);
    var all := [Start(t1)] + mid + [Stop(t2)] + post + [Lap];
    assert all[..|all| - 1] == [Start(t1)] + mid + [Stop(t2)] + post;
  }

  /** Without `clear()`, the earlier laps stay in place and in order, and
      each `lap()` appends exactly one entry. */
  lemma {:induction false} LapsWithoutClear(s: Snapshot, ops: seq<Op>)
    requires forall op <- ops :: !op.Clear?
    ensures s.laps <= Run(s, ops).laps
    ensures |Run(s, ops).laps| == |s.laps| + LapCount(ops)
    decreases |ops|
  {
    if ops != [] {
      var p := ops[..|ops| - 1];
      assert forall op <- p :: !op.Clear? by {
        forall op | op in p ensures !op.Clear? {
          assert op in ops;
        }
      }
      LapsWithoutClear(s, p);
      assert ops[|ops| - 1] in ops;
    }
  }

  /** The `lap()` at position `j` of `ops`, run from `s`, is logged right
      after the old log and the entries of the earlier `lap()` calls, and it
      records the watch's times as they were when that call was made. */
  predicate LoggedInOrder(s: Snapshot, ops: seq<Op>, j: nat)
    requires j < |ops|
  {
    |s.laps| + LapCount(ops[..j]) < |Run(s, ops).laps| &&
    Run(s, ops).laps[|s.laps| + LapCount(ops[..j])] == Run(s, ops[..j]).CurrentLap()
  }

  /** A later call other than `clear()` keeps an earlier lap where it was. */
  lemma KeptInOrder(s: Snapshot, ops: seq<Op>, j: nat)
    requires j < |ops| - 1 && !ops[|ops| - 1].Clear?
    requires LoggedInOrder(s, ops[..|ops| - 1], j)
    ensures LoggedInOrder(s, ops, j)
  {
    var p := ops[..|ops| - 1];
    assert ops[..j] == p[..j];
    assert Run(s, p).laps <= Run(s, ops).laps;
  }

  /** A final `lap()` is logged right after every earlier entry. */
  lemma LastLapInOrder(s: Snapshot, ops: seq<Op>)
    requires ops != [] && ops[|ops| - 1].Lap?
    requires forall j :: 0 <= j < |ops| - 1 ==> !ops[j].Clear?
    ensures LoggedInOrder(s, ops, |ops| - 1)
  {
    var p := ops[..|ops| - 1];
    assert forall op <- p :: !op.Clear? by {
      forall op | op in p ensures !op.Clear? {
        var j :| 0 <= j < |p| && p[j] == op;
        assert ops[j] == op;
      }
    }
    LapsWithoutClear(s, p);
  }

  /** Without `clear()`, the laps are logged in call order: every `lap()`
      is `LoggedInOrder`. */
  lemma {:induction false} LapsInCallOrder(s: Snapshot, ops: seq<Op>)
    requires forall op <- ops :: !op.Clear?
    ensures forall j :: 0 <= j < |ops| && ops[j].Lap? ==> LoggedInOrder(s, ops, j)
    decreases |ops|
  {
    if ops != [] {
      var n := |ops| - 1;
      var p := ops[..n];
      assert forall op <- p :: !op.Clear? by {
        forall op | op in p ensures !op.Clear? {
          assert op in ops;
        }
      }
      assert forall j :: 0 <= j < |ops| ==> !ops[j].Clear? by {
        forall j | 0 <= j < |ops| ensures !ops[j].Clear? {
          assert ops[j] in ops;
        }
      }
      LapsInCallOrder(s, p);
      forall j | 0 <= j < |ops| && ops[j].Lap?
        ensures LoggedInOrder(s, ops, j)
      {
        if j < n {
          assert p[j].Lap?;
          KeptInOrder(s, ops, j);
        } else {
          LastLapInOrder(s, ops);
        }
      }
    }
  }

  /** `clear()` discards every earlier lap: afterwards the log holds exactly
      the records of the later `lap()` calls, one each, in call order. */
  lemma LapsSinceLastClear(s: Snapshot, pre: seq<Op>, post: seq<Op>)
    requires forall op <- post :: !op.Clear?
    ensures |Run(s, pre + [Clear] + post).laps| == LapCount(post)
    ensures forall j :: 0 <= j < |post| && post[j].Lap? ==>
              LapCount(post[..j]) < |Run(s, pre + [Clear] + post).laps| &&
              Run(s, pre + [Clear] + post).laps[LapCount(post[..j])]
                == Run(s, pre + [Clear] + post[..j]).CurrentLap()
  {
    var cleared := Run(s, pre + [Clear]);
    RunConcat(s, pre, [Clear]);
    assert cleared == Step(Run(s, pre), Clear) by {
      assert [Clear][..0] == [];
    }
    RunConcat(s, pre + [Clear], post);
    LapsWithoutClear(cleared, post);
    LapsInCallOrder(cleared, post);
    forall j | 0 <= j < |post| && post[j].Lap?
      ensures Run(s, pre + [Clear] + post[..j]) == Run(cleared, post[..j])
    {
      RunConcat(s, pre + [Clear], post[..j]);
    }
  }

  /** `n` calls of `lap()` in a row append `n` identical records of the
      current times, since `lap()` does not read the clock. */
  lemma {:induction false} RepeatedLaps(s: Snapshot, n: nat)
    ensures Run(s, seq(n, _ => Lap))
         == s.(laps := s.laps + seq(n, _ => s.CurrentLap()))
  {
    if n > 0 {
      RepeatedLaps(s, n - 1);
      assert seq(n, _ => Lap)[..n - 1] == seq(n - 1, _ => Lap);
      var e := s.CurrentLap();
      assert seq(n - 1, _ => e) + [e] == seq(n, _ => e);
    }
  }
}
