# Task timer — Dafny model

This project models the task timer of `mattk6/task-timer`. The timer is the
`TaskTimer` class in `task_timer/__main__.py`. It keeps one table,
`running_tasks`, that maps a task name to the time the task was started. It has
two operations:

- **start** a task: if the name is already in the table, report "already
  running" and change nothing; otherwise store the name with the current time.
- **stop** a task: if the name is not in the table, report "not running" and
  change nothing; otherwise remove it and report the time elapsed since its
  start.

The model, in `task_timer.dfy` (module `TaskTimer`):

- `Start` and `Stop` are the two operations as functions from the table, a
  name and a clock reading to the new table and a `Report`. The `Report`
  values (`Started`, `AlreadyRunning`, `Stopped(elapsed)`, `NotRunning`)
  stand for the messages the program prints.
- `Timer` is the class. Its `running` field is the table, and its methods
  `StartTask` and `StopTask` update it in place, as the program does. Each
  method states its new table and report directly and also ties them to
  `Start` and `Stop`.
- `Run` applies a sequence of calls to one table, call by call through
  `Start` and `Stop`. The lemmas about `Run` are about these functions. They
  carry over to a sequence of `Timer.StartTask` and `Timer.StopTask` calls
  only through those methods' postconditions, which equate each call's new
  table and report with `Start` or `Stop`. No member states that link for a
  whole sequence of method calls.

The clock is a parameter: every call receives the time `now` that the program
reads from `time.time()`. Times are Dafny reals.

The code keeps only running tasks. It has no table of completed tasks, no
accumulation of elapsed times, no saved state, and no delete, rename, show or
export command, so the model has none either. Also, the code creates one
timer per process (line 26) and runs one command per process. So a `stop` in a later invocation never sees the `start`
from an earlier one. The model treats the timer as one object receiving a
sequence of calls; the process boundary is not modelled.

## Model

| member | source | states |
|---|---|---|
| `TaskTimer.Timer.constructor` | task_timer/__main__.py:5-6 | a new timer has no running tasks |
| `TaskTimer.Start` | task_timer/__main__.py:8-14 | "already running" is reported exactly when the name is in the table, and then the table is unchanged, so the first start time is kept; otherwise exactly that name is added, mapped to `now`; every other entry keeps its value; afterwards the name is always running |
| `TaskTimer.Stop` | task_timer/__main__.py:16-22 | "not running" is reported exactly when the name is absent, and then the table is unchanged; otherwise exactly that key is removed and the reported elapsed time is `now` minus its stored start time; every other entry keeps its value; afterwards the name is never running |
| `TaskTimer.Timer.StartTask` | task_timer/__main__.py:8-14 | updates the timer's table in place with the guard of line 10 and the insertion of line 13; the new table and report are those of `Start` |
| `TaskTimer.Timer.StopTask` | task_timer/__main__.py:16-22 | updates the timer's table in place with the guard of line 18 and the `pop` of line 19; the new table and report are those of `Stop` |
| `TaskTimer.StartThenStop` | task_timer/__main__.py:10-19 | starting a task that was not running and then stopping it restores the original table and reports stop time minus start time |
| `TaskTimer.RestartKeepsStartTime` | task_timer/__main__.py:10-19 | a second start of a running task is refused, and the later stop still measures from the first start and restores the original table |
| `TaskTimer.OtherCallsLeaveEntry` | task_timer/__main__.py:10-19 | any sequence of starts and stops of other names leaves a name's presence and start time unchanged |
| `TaskTimer.RunningIffLastCallStarts` | task_timer/__main__.py:10-19 | after any sequence of calls, a name is running if and only if the last call naming it was a start (or, when no call names it, it was running before) |
| `TaskTimer.ElapsedNonNegative` | task_timer/__main__.py:13-19 | when clock readings never go back, every stop in a sequence of calls reports a non-negative elapsed time, and no stored start time is later than the last reading |
| `TaskTimer.LastOpOn` | task_timer/__main__.py:10-19 | the last call naming a task, used to state which tasks are running after a sequence of calls: it names that task, it sits at a position of the sequence after which no call names the task, and there is none exactly when no call names the task |
| `TaskTimer.Run` | task_timer/__main__.py:8-22 | a sequence of calls on one timer produces one report per call |
| `TaskTimer.WritingFiveSeconds` | task_timer/__main__.py:8-22 | on a new timer, starting "writing" at 0, starting it again at 3 and stopping it at 5 reports 5 seconds elapsed, measured from the first start |

## Left out

- The command-line layer: the `click` group, the `start` and `stop` commands, `add_command` and the entry point (lines 28-50). They only parse arguments and call the timer.
- The global `timer` object (line 26): the model constructs a `Timer` explicitly. Because each process makes a fresh one, state does not carry over between invocations; this is not modelled.
- Console output and the two-decimal formatting of the elapsed time (lines 11, 14, 20, 22): each message is a `Report` value.
- `time.time()` and floating-point subtraction (lines 13, 19): the clock is a `real` parameter and the elapsed time is exact real subtraction, with no rounding.
- Completed tasks, accumulation of elapsed time, persistence to a snapshot file, delete, rename, show and export: these are not in the code, so there is nothing to model.
