/** The stopwatch of `robertefry.jtoolkit.timing`: a running flag, the times
    of the last start and the last stop, and an ordered log of laps. */
module Timing {
  import opened JavaLong

  /** An immutable lap record: the watch's start and finish times at the
      moment the lap was taken. The Java getters `getStartTime` and
      `getFinishTime` are the destructors `starttime` and `finishtime`. */
  datatype LapLog = LapLog(starttime: Long, finishtime: Long) {

    /** The length of the lap, computed on every call with Java's wrapping
        `long` subtraction. It is exact whenever both times are non-negative
        (milliseconds since the epoch), and for such times it is negative
        exactly when the finish time lies before the start time; when the
        subtraction overflows its sign is the opposite of the true one. */
    function RunningTime(): (d: Long)
      ensures InRange(finishtime - starttime) ==> starttime + d == finishtime
      ensures 0 <= starttime && 0 <= finishtime ==> starttime + d == finishtime
      ensures 0 <= starttime && 0 <= finishtime ==> (d < 0 <==> finishtime < starttime)
    {
      Sub(finishtime, starttime)
    }
  }

  /** The whole state of a stopwatch, as a value. */
  datatype Snapshot = Snapshot(starttime: Long, finishtime: Long, running: bool, laps: seq<LapLog>) {

    /** The record a `lap()` takes in this state. */
    function CurrentLap(): LapLog {
      LapLog(starttime, finishtime)
    }
  }

  /** The calls that change a stopwatch; `now` is the clock reading the
      call takes (`System.currentTimeMillis()` in the source). */
  datatype Op = Start(now: Long) | Stop(now: Long) | Lap | Clear

  /** The state of a newly constructed stopwatch: stopped, with an empty
      log, and with both times zero, so that a lap taken at once lasts 0. */
  function Initial(): (s: Snapshot)
    ensures !s.running && s.laps == []
    ensures s.starttime == 0 && s.finishtime == 0 && s.CurrentLap().RunningTime() == 0
  {
    Snapshot(0, 0, false, [])
  }

  /** The effect of one call on the state: the specification the methods
      of `StopWatch` implement. Field by field: the watch runs after a
      `start()` or if it ran and was not stopped; `starttime` moves only on
      a `start()` of a stopped watch, `finishtime` only on a `stop()`; the
      log grows by the current record on `lap()`, empties on `clear()` and
      is otherwise kept. */
  function Step(s: Snapshot, op: Op): (r: Snapshot)
    ensures r.running <==> op.Start? || (s.running && !op.Stop?)
    ensures r.starttime == if op.Start? && !s.running then op.now else s.starttime
    ensures r.finishtime == if op.Stop? then op.now else s.finishtime
    ensures op.Lap? ==> r.laps == s.laps + [s.CurrentLap()]
    ensures op.Clear? ==> r.laps == []
    ensures op.Start? || op.Stop? ==> r.laps == s.laps
  {
    match op
    case Start(now) => if s.running then s else s.(running := true, starttime := now)
    case Stop(now) => s.(running := false, finishtime := now)
    case Lap => s.(laps := s.laps + [s.CurrentLap()])
    case Clear => s.(laps := [])
  }

  /** A stopwatch whose fields are updated in place. Every call is atomic
      (the source serialises them with `synchronized`). */
  class StopWatch {
    var starttime: Long
    var finishtime: Long
    var running: bool
    var laps: seq<LapLog>

    /** The current state as a value. */
    function State(): Snapshot
      reads this
    {
      Snapshot(starttime, finishtime, running, laps)
    }

    constructor ()
      ensures starttime == 0 && finishtime == 0 && !running && laps == []
      ensures State() == Initial()
    {
      starttime, finishtime := 0, 0;
      running := false;
      laps := [];
    }

    /** Starts the watch at time `now`, unless it is already running. */
    method Start(now: Long)
      modifies this
      ensures old(running) ==> unchanged(this)
      ensures !old(running) ==> running && starttime == now
      ensures finishtime == old(finishtime) && laps == old(laps)
      ensures State() == Step(old(State()), Op.Start(now))
    {
      if running {
        return;
      }
      running := true;
      starttime := now;
    }

    /** Stops the watch at time `now`, whatever state it is in. */
    method Stop(now: Long)
      modifies this
      ensures !running && finishtime == now
      ensures starttime == old(starttime) && laps == old(laps)
      ensures State() == Step(old(State()), Op.Stop(now))
    {
      running := false;
      finishtime := now;
    }

    /** Appends a record of the current start and finish times to the
        lap log; the clock is not read. */
    method Lap()
      modifies this
      ensures laps == old(laps) + [LapLog(old(starttime), old(finishtime))]
      ensures starttime == old(starttime) && finishtime == old(finishtime) && running == old(running)
      ensures State() == Step(old(State()), Op.Lap)
    {
      laps := laps + [LapLog(starttime, finishtime)];
    }

    /** Empties the lap log. */
    method Clear()
      modifies this
      ensures laps == []
      ensures starttime == old(starttime) && finishtime == old(finishtime) && running == old(running)
      ensures State() == Step(old(State()), Op.Clear)
    {
      laps := [];
    }

    /** The laps recorded since the last `Clear`, oldest first. */
    method GetLaps() returns (log: seq<LapLog>)
      ensures log == laps
    {
      log := laps;
    }

    /** Whether the watch is running. */
    method IsRunning() returns (r: bool)
      ensures r == running
    {
      r := running;
    }
  }
}
