/**
 * The `Timer` of nvuelab/utils/clocks.py and the helpers that name a
 * recording phase and store a timer's state.
 *
 * Every read of the wall clock is a parameter `now` (seconds, as an exact
 * real). A ghost field remembers the latest reading, and the methods require
 * the clock not to run backwards; under that assumption the stored times
 * stay ordered and the elapsed and remaining times stay in range.
 */
module Clocks {
  import opened Base

  class Timer {
    var startTime: real
    var endTime: real
    var duration: real
    var durationUnits: string
    var elapsedTime: real
    var isRunning: bool
    /** The latest clock reading the timer has taken. */
    ghost var clock: real

    ghost predicate Valid()
      reads this
    {
      0.0 <= startTime <= clock && 0.0 <= endTime <= clock && 0.0 <= elapsedTime
    }

    /** The dataclass defaults: everything zero, not running; `duration` and `durationUnits` may be given. */
    constructor (duration: real := 0.0, durationUnits: string := "seconds")
      ensures Valid() && clock == 0.0
      ensures startTime == 0.0 && endTime == 0.0 && elapsedTime == 0.0 && !isRunning
      ensures this.duration == duration && this.durationUnits == durationUnits
    {
      startTime, endTime, elapsedTime := 0.0, 0.0, 0.0;
      this.duration, this.durationUnits := duration, durationUnits;
      isRunning := false;
      clock := 0.0;
    }

    /** `start`: a no-op while running; otherwise records `now` and runs. */
    method Start(now: real)
      requires Valid() && clock <= now
      modifies this
      ensures Valid()
      ensures old(isRunning) ==> unchanged(this)
      ensures !old(isRunning) ==> startTime == now && isRunning && clock == now
      ensures !old(isRunning) ==> endTime == old(endTime) && elapsedTime == old(elapsedTime)
      ensures duration == old(duration) && durationUnits == old(durationUnits)
      ensures !old(isRunning) ==> forall t :: ElapsedTime(t) == t - now
    {
      if !isRunning {
        startTime := now;
        isRunning := true;
        clock := now;
      }
    }

    /**
     * `stop`: a no-op unless running; otherwise stores the elapsed time read
     * at `now`, the end time read at `later`, and stops. What `ElapsedTime`
     * reported at `now` is what it reports from then on.
     */
    method Stop(now: real, later: real)
      requires Valid() && clock <= now <= later
      modifies this
      ensures Valid()
      ensures !old(isRunning) ==> unchanged(this)
      ensures old(isRunning) ==> elapsedTime == now - old(startTime) && endTime == later && !isRunning
      ensures old(isRunning) ==> elapsedTime <= endTime - startTime
      ensures old(isRunning) ==> forall t :: ElapsedTime(t) == old(ElapsedTime(now))
      ensures startTime == old(startTime) && duration == old(duration) && durationUnits == old(durationUnits)
    {
      if isRunning {
        elapsedTime := now - startTime;
        endTime := later;
        isRunning := false;
        clock := later;
      }
    }

    /** `restart`: restarts the count from `now` without touching the running flag. */
    method Restart(now: real)
      requires Valid() && clock <= now
      modifies this
      ensures Valid()
      ensures startTime == now && elapsedTime == 0.0 && clock == now
      ensures isRunning == old(isRunning) && endTime == old(endTime)
      ensures duration == old(duration) && durationUnits == old(durationUnits)
      ensures isRunning ==> ElapsedTime(now) == 0.0
    {
      startTime := now;
      elapsedTime := 0.0;
      clock := now;
    }

    /** `reset`: zero start and elapsed time and stop; the end time and duration stay. */
    method Reset()
      requires Valid()
      modifies this
      ensures Valid()
      ensures startTime == 0.0 && elapsedTime == 0.0 && !isRunning
      ensures endTime == old(endTime) && duration == old(duration) && durationUnits == old(durationUnits)
      ensures clock == old(clock)
      ensures forall t :: ElapsedTime(t) == 0.0
    {
      startTime := 0.0;
      elapsedTime := 0.0;
      isRunning := false;
    }

    /**
     * `get_elapsed_time` at clock reading `now`: the running time while
     * running, the stored time otherwise. It is never negative for a reading
     * no earlier than the timer's latest one.
     */
    function ElapsedTime(now: real): (t: real)
      reads this
      ensures isRunning ==> t + startTime == now
      ensures !isRunning ==> t == elapsedTime
      ensures Valid() && clock <= now ==> 0.0 <= t
    {
      if isRunning then now - startTime else elapsedTime
    }

    /**
     * `get_remaining_time` at clock reading `now`: a value only for a running
     * timer with a positive duration. The value is the part of the duration
     * not yet elapsed, clamped at zero, so it lies between zero and the
     * duration, and before expiry it and the elapsed time add up to the
     * duration.
     */
    function RemainingTime(now: real): (r: Option<real>)
      reads this
      ensures r.Some? <==> isRunning && 0.0 < duration
      ensures r.Some? && startTime <= now ==> 0.0 <= r.value <= duration
      ensures r.Some? ==> (r.value == 0.0 <==> duration <= ElapsedTime(now))
      ensures r.Some? && 0.0 < r.value ==> r.value + ElapsedTime(now) == duration
    {
      if isRunning && duration > 0.0 then
        var remaining := duration - (now - startTime);
        if remaining <= 0.0 then Some(0.0) else Some(remaining)
      else if isRunning && duration == 0.0 then
        None
      else
        None
    }
  }

  /** A path as its components; `Path.cwd() / name` appends one. */
  type Path = seq<string>

  const DefaultFileName: string := "experiment-times.toml"

  /** `resolve_file_path`: the given path, or `experiment-times.toml` in the working directory. */
  function ResolveFilePath(filepath: Option<Path>, cwd: Path): (p: Path)
    ensures filepath.Some? ==> p == filepath.value
    ensures filepath.None? ==> |p| == |cwd| + 1 && p[..|cwd|] == cwd && p[|cwd|] == DefaultFileName
  {
    match filepath
    case Some(path) => path
    case None => cwd + [DefaultFileName]
  }

  /** Python's truth value of an optional string: `None` and `""` are false. */
  predicate Named(phase: Option<string>)
  {
    phase.Some? && phase.value != ""
  }

  /** `create_phase_name`: the phase name, or `recording`, joined to the timestamp. */
  function CreatePhaseName(phase: Option<string>, timestamp: string): (name: string)
    ensures |name| >= |timestamp| && name[|name| - |timestamp|..] == timestamp
    ensures Named(phase) ==> name[..|name| - |timestamp|] == phase.value + "_"
    ensures !Named(phase) ==> name[..|name| - |timestamp|] == "recording-"
  {
    if Named(phase) then phase.value + "_" + timestamp else "recording-" + timestamp
  }

  /**
   * Phase names of equally long timestamps (the source formats every one
   * the same way) never collide unless timestamp and phase agree: a named
   * phase never takes the name of an unnamed one, and `None` and `""` are
   * the only two phases that share names.
   */
  lemma {:induction false} PhaseNameInjective(p1: Option<string>, t1: string, p2: Option<string>, t2: string)
    requires |t1| == |t2|
    requires CreatePhaseName(p1, t1) == CreatePhaseName(p2, t2)
    ensures t1 == t2
    ensures Named(p1) == Named(p2)
    ensures Named(p1) ==> p1.value == p2.value
  {
    var name := CreatePhaseName(p1, t1);
    var cut := |name| - |t1|;
    assert t1 == name[cut..] == t2;
    var head := name[..cut];
    if Named(p1) != Named(p2) {
      NamedPrefixIsNotDefault(if Named(p1) then p1.value else p2.value);
      assert false;
    } else if Named(p1) {
      assert p1.value == head[..|head| - 1] == p2.value;
    }
  }

  /** A named phase's prefix ends in `_`, the default prefix in `-`. */
  lemma NamedPrefixIsNotDefault(name: string)
    ensures name + "_" != "recording-"
  {
    var prefix := name + "_";
    assert prefix[|prefix| - 1] == '_';
    assert "recording-"[9] == '-';
  }

  /** The entry `save_timer_state` writes for a timer; `format` renders a timestamp. */
  datatype TimerRecord = TimerRecord(
    startTime: string, endTime: string, duration: real, durationUnits: string, elapsedTime: real)

  function RecordOf(timer: Timer, format: real -> string): TimerRecord
    reads timer
  {
    TimerRecord(format(timer.startTime), format(timer.endTime), timer.duration, timer.durationUnits, timer.elapsedTime)
  }

  /**
   * `save_timer_state` without the file I/O: `stored` is what the file held
   * (`None` when it does not exist), and the result is the path and the
   * table written back. Exactly the phase's key is set; every other entry
   * is kept.
   */
  method SaveTimerState(timer: Timer, phase: Option<string>, filepath: Option<Path>, cwd: Path,
                        timestamp: string, stored: Option<map<string, TimerRecord>>, format: real -> string)
    returns (path: Path, data: map<string, TimerRecord>)
    ensures path == ResolveFilePath(filepath, cwd)
    ensures var before := if stored.Some? then stored.value else map[];
            var key := CreatePhaseName(phase, timestamp);
            && data.Keys == before.Keys + {key}
            && data[key] == RecordOf(timer, format)
            && forall k :: k in before && k != key ==> data[k] == before[k]
  {
    path := ResolveFilePath(filepath, cwd);
    var phaseName := CreatePhaseName(phase, timestamp);
    data := map[];
    if stored.Some? {
      data := stored.value;
    }
    data := data[phaseName := RecordOf(timer, format)];
  }
}
