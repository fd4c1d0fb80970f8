/** A model of the task timer: a table of running tasks, keyed by task name,
    that remembers when each task was started.  Starting a task that is
    already running and stopping a task that is not running are reported
    and change nothing.  The clock is a parameter of every operation, and
    what the program prints becomes a returned `Report`. */
module TaskTimer {

  type Name = string

  /** A reading of the wall clock, in seconds. */
  type Time = real

  /** The running tasks: task name to start time. */
  type Running = map<Name, Time>

  /** What an operation reports to the user. */
  datatype Report =
    | Started
    | AlreadyRunning
    | Stopped(elapsed: Time)
    | NotRunning

  /** The table after an operation, together with what it reported. */
  datatype Transition = Transition(running: Running, report: Report)

  datatype Option<T> = None | Some(value: T)

  /** One call on the timer, with the clock reading it sees. */
  datatype Op =
    | StartOp(name: Name, at: Time)
    | StopOp(name: Name, at: Time)

  // ---------------------------------------------------------------------
  // The two operations, as functions of the table and the clock
  // ---------------------------------------------------------------------

  /** Starting `name` at time `now`: refused if it is already running,
      otherwise it is recorded with `now` as its start time. */
  function Start(running: Running, name: Name, now: Time): (t: Transition)
    ensures t.report == AlreadyRunning <==> name in running
    ensures t.report == Started <==> name !in running
    ensures name in running ==> t.running == running
    ensures name !in running ==>
              && t.running.Keys == running.Keys + {name}
              && t.running[name] == now
    ensures forall k :: k in running ==> k in t.running && t.running[k] == running[k]
    ensures name in t.running
  {
    if name in running then Transition(running, AlreadyRunning)
    else Transition(running[name := now], Started)
  }

  /** Stopping `name` at time `now`: refused if it is not running,
      otherwise it is removed and the time since its start is reported. */
  function Stop(running: Running, name: Name, now: Time): (t: Transition)
    ensures t.report == NotRunning <==> name !in running
    ensures name !in running ==> t.running == running
    ensures name in running ==>
              && t.report == Stopped(now - running[name])
              && t.running.Keys == running.Keys - {name}
    ensures forall k :: k in running && k != name ==> k in t.running && t.running[k] == running[k]
    ensures name !in t.running
  {
    if name in running then Transition(running - {name}, Stopped(now - running[name]))
    else Transition(running, NotRunning)
  }

  // ---------------------------------------------------------------------
  // Sequences of calls on one timer
  // ---------------------------------------------------------------------

  /** One call on the timer: a start or a stop, at the clock reading it carries. */
  function Step(running: Running, op: Op): Transition
  {
    match op
    case StartOp(name, now) => Start(running, name, now)
    case StopOp(name, now) => Stop(running, name, now)
  }

  /** The table after the calls `ops`, in order, and the report of each call. */
  datatype Trace = Trace(running: Running, reports: seq<Report>)

  function Run(running: Running, ops: seq<Op>): (r: Trace)
    ensures |r.reports| == |ops|
    decreases |ops|
  {
    if ops == [] then Trace(running, [])
    else
      var first := Step(running, ops[0]);
      var rest := Run(first.running, ops[1..]);
      Trace(rest.running, [first.report] + rest.reports)
  }

  /** The last call in `ops` that names `x`, if there is one. */
  function LastOpOn(ops: seq<Op>, x: Name): (r: Option<Op>)
    ensures r.Some? ==> r.value.name == x && r.value in ops
    ensures r.None? <==> forall i :: 0 <= i < |ops| ==> ops[i].name != x
    ensures r.Some? ==>
              exists i :: 0 <= i < |ops| && ops[i] == r.value &&
                forall j :: i < j < |ops| ==> ops[j].name != x
    decreases |ops|
  {
    if ops == [] then None
    else
      match LastOpOn(ops[1..], x)
      case Some(op) =>
        var k :| 0 <= k < |ops[1..]| && ops[1..][k] == op &&
                 forall j :: k < j < |ops[1..]| ==> ops[1..][j].name != x;
        assert ops[k + 1] == op;
        assert forall j :: k + 1 < j < |ops| ==> ops[j] == ops[1..][j - 1];
        Some(op)
      case None =>
        if ops[0].name == x then
          assert forall j :: 0 < j < |ops| ==> ops[j] == ops[1..][j - 1];
          Some(ops[0])
        else None
  }

  /** Every start time in the table is no later than `now`. */
  predicate StartedBy(running: Running, now: Time)
  {
    forall k :: k in running ==> running[k] <= now
  }

  /** The calls in `ops` see clock readings that never go back and that are
      all at least `now`. */
  predicate ClockFrom(ops: seq<Op>, now: Time)
  {
    && (forall i :: 0 <= i < |ops| ==> now <= ops[i].at)
    && (forall i, j :: 0 <= i < j < |ops| ==> ops[i].at <= ops[j].at)
  }

  // ---------------------------------------------------------------------
  // Properties of the operations
  // ---------------------------------------------------------------------

  /** Starting a task that was not running and then stopping it gives back
      the table as it was, and reports the time between the two calls. */
  lemma StartThenStop(running: Running, x: Name, t0: Time, t1: Time)
    requires x !in running
    ensures Stop(Start(running, x, t0).running, x, t1) == Transition(running, Stopped(t1 - t0))
  {
  }

  /** A second start of a running task does not reset its start time: the
      later stop still measures from the first start. */
  lemma RestartKeepsStartTime(running: Running, x: Name, t0: Time, t1: Time, t2: Time)
    requires x !in running
    ensures Start(Start(running, x, t0).running, x, t1).report == AlreadyRunning
    ensures Stop(Start(Start(running, x, t0).running, x, t1).running, x, t2)
            == Transition(running, Stopped(t2 - t0))
  {
  }

  /** Calls that do not name `x` leave the entry of `x` as it was. */
  lemma {:induction false} OtherCallsLeaveEntry(running: Running, ops: seq<Op>, x: Name)
    requires forall i :: 0 <= i < |ops| ==> ops[i].name != x
    ensures x in Run(running, ops).running <==> x in running
    ensures x in running ==> Run(running, ops).running[x] == running[x]
    decreases |ops|
  {
    if ops != [] {
      var first := Step(running, ops[0]);
      assert x in first.running <==> x in running;
      assert x in running ==> first.running[x] == running[x];
      OtherCallsLeaveEntry(first.running, ops[1..], x);
    }
  }

  /** After a sequence of calls, `x` is running exactly when the last call
      naming it was a start, or, when no call names it, when it was running
      before. */
  lemma {:induction false} RunningIffLastCallStarts(running: Running, ops: seq<Op>, x: Name)
    ensures x in Run(running, ops).running <==>
              match LastOpOn(ops, x)
              case None => x in running
              case Some(op) => op.StartOp?
    decreases |ops|
  {
    if ops != [] {
      var first := Step(running, ops[0]);
      RunningIffLastCallStarts(first.running, ops[1..], x);
    }
  }

  /** When the clock never goes back, every stop reports a non-negative
      elapsed time, and every start time in the final table is no later than
      the clock reading of the last call. */
  lemma {:induction false} ElapsedNonNegative(running: Running, ops: seq<Op>, now: Time)
    requires StartedBy(running, now)
    requires ClockFrom(ops, now)
    ensures forall i :: 0 <= i < |ops| && Run(running, ops).reports[i].Stopped? ==>
              Run(running, ops).reports[i].elapsed >= 0.0
    ensures ops != [] ==> StartedBy(Run(running, ops).running, ops[|ops| - 1].at)
    ensures ops == [] ==> StartedBy(Run(running, ops).running, now)
    decreases |ops|
  {
    if ops != [] {
      var first := Step(running, ops[0]);
      var t := ops[0].at;
      assert StartedBy(first.running, t);
      assert first.report.Stopped? ==> first.report.elapsed >= 0.0;
      var tail := ops[1..];
      assert ClockFrom(tail, t) by {
        forall i | 0 <= i < |tail| ensures t <= tail[i].at {
          assert tail[i] == ops[i + 1];
        }
      }
      ElapsedNonNegative(first.running, tail, t);
      var rest := Run(first.running, tail);
      assert Run(running, ops).reports == [first.report] + rest.reports;
      if tail != [] {
        assert tail[|tail| - 1] == ops[|ops| - 1];
      }
    }
  }

  // ---------------------------------------------------------------------
  // The timer object
  // ---------------------------------------------------------------------

  /** The timer: it owns the table of running tasks and updates it in place. */
  class Timer {
    var running: Running

    /** A new timer has no running tasks. */
    constructor ()
      ensures running == map[]
    {
      running := map[];
    }

    /** Starts `name` at clock reading `now`. */
    method StartTask(name: Name, now: Time) returns (report: Report)
      modifies this
      ensures old(name in running) ==> running == old(running) && report == AlreadyRunning
      ensures old(name !in running) ==> running == old(running)[name := now] && report == Started
      ensures name in running
      ensures Transition(running, report) == Start(old(running), name, now)
    {
      if name in running {
        report := AlreadyRunning;
        return;
      }
      running := running[name := now];
      report := Started;
    }

    /** Stops `name` at clock reading `now`, reporting the time since it started. */
    method StopTask(name: Name, now: Time) returns (report: Report)
      modifies this
      ensures old(name in running) ==>
                running == old(running) - {name} && report == Stopped(now - old(running)[name])
      ensures old(name !in running) ==> running == old(running) && report == NotRunning
      ensures name !in running
      ensures Transition(running, report) == Stop(old(running), name, now)
    {
      if name in running {
        var startedAt := running[name];
        running := running - {name};
        report := Stopped(now - startedAt);
      } else {
        report := NotRunning;
      }
    }
  }

  /** What a caller of the timer can rely on: on a new timer, starting a
      task at 0, starting it again at 3 and stopping it at 5 reports five
      seconds, measured from the first start. */
  method WritingFiveSeconds() returns (report: Report)
    ensures report == Stopped(5.0)
  {
    var timer := new Timer();
    var started := timer.StartTask("writing", 0.0);
    assert started == Started;
    var again := timer.StartTask("writing", 3.0);
    assert again == AlreadyRunning;
    report := timer.StopTask("writing", 5.0);
    assert timer.running == map[];
  }
}
