# Iterative robot mode dispatch, in Dafny

This project models the main loop of the `IterativeRobot` robot framework
(`startCompetition`) and proves the properties that loop keeps.

On every pass, the loop asks the driver station which mode the robot is in.
It tests disabled, then test, then autonomous, and falls back to teleop. If
that mode's "initialized" flag is clear, the loop calls the mode's init
handler, sets the flag and clears the other three flags. If a new control
packet has arrived, it then notifies the HAL that the user program is running
in that mode and calls the mode's periodic handler. Finally it waits for the
next packet. The default periodic handlers print an "Overload me!" diagnostic
the first time they run. They then mark their own function object with a
`firstRun` attribute, so the diagnostic appears once per handler for the whole
program.

The project has three modules:

- `mode_dispatch.dfy`, module `ModeDispatch`: the loop as values.
  - `Mode`, `Event`, `Input` (one driver-station report), `Flags` (the four
    initialized fields).
  - `Step` describes one pass and `Run` a finite sequence of passes.
  - `Schedule` is a reference description of the calls that does not use the
    flags: a pass calls init exactly when its mode differs from the previous
    pass's mode.
  - The lemmas state the loop's properties.
- `default_periodic.dfy`, module `DefaultPeriodic`: the first-run latch.
  - `Printed` gives the diagnostics printed over a sequence of calls.
  - The class `DefaultPeriodics` holds the four function objects' marks and
    the diagnostics printed so far.
- `robot.dfy`, module `Robot`: the class `IterativeRobot`.
  - It holds the four boolean fields the loop updates in place and the trace
    of calls.
  - One method per branch of the loop body, dispatched by `Step`.
  - `StartCompetition` runs the loop over a finite sequence of reports. Each
    method is proved to follow `ModeDispatch.Step` and `ModeDispatch.Run`.

`nextPeriodReady()` (one read of `ds.isNewControlData()`) is the `newData`
field of each `Input`. The model reads it once per pass, as the source does.
The blocking `ds.waitForData()` becomes "go on to the next `Input`".

Where the class docstring and the code disagree, the model follows the code.
The docstring says `disabledInit` is called only when the robot is first
disabled (`wpilib/wpilib/iterativerobot.py:28`). The code clears
`disabledInitialized` whenever another mode is entered (lines 104, 121 and
135), so disabled init runs again on every re-entry. `ReentryRearmsInit` holds
for every mode, disabled included.

Only the default periodic handlers are latched (lines 200-203, 212-215,
224-227, 236-239). The default init handlers print on every call (lines 166,
174, 182, 190), and those prints are not modelled.

## Model

| member | source | states |
|---|---|---|
| `ModeDispatch.SelectMode` | wpilib/wpilib/iterativerobot.py:80-126 | Precedence: the result is disabled iff disabled is reported, test iff test but not disabled, autonomous iff autonomous but neither of the others, and teleop iff none of the three predicates holds |
| `ModeDispatch.EnterMode` | wpilib/wpilib/iterativerobot.py:86-90 | Entering mode m leaves m's flag set and every other mode's flag clear (the same reset in all four branches, lines 86-90, 101-104, 118-121, 132-135) |
| `ModeDispatch.Pass` | wpilib/wpilib/iterativerobot.py:83-94 | One branch of the loop body, for mode m (the same shape at lines 98-108, 112-125, 129-139): afterwards m is initialized, and the pass makes one init call if m's flag was clear plus two calls (observe, periodic) if a packet arrived. Its full contract is carried by `StepContract` |
| `ModeDispatch.Step` | wpilib/wpilib/iterativerobot.py:80-139 | One pass of the loop in the mode the report selects: that mode is initialized afterwards. Its full contract is carried by `StepContract` |
| `ModeDispatch.StepContract` | wpilib/wpilib/iterativerobot.py:80-139 | One pass: the selected mode is initialized afterwards. If it already was, the flags are unchanged; if not, all other flags are clear. Init is called iff the flag was clear, and it is the first call. Observe and periodic are called iff a new packet arrived, and they are the last two calls. Every call concerns the selected mode, and none is made twice |
| `ModeDispatch.Run` | wpilib/wpilib/iterativerobot.py:78-140 | Over any run from flags with at most one set, at most one flag stays set. After a non-empty run, exactly the last pass's mode is initialized |
| `ModeDispatch.FirstPassCallsInit` | wpilib/wpilib/iterativerobot.py:55-58 | From the constructor's all-clear flags, every non-empty run begins with the init of the mode its first report selects |
| `ModeDispatch.RunFollowsSchedule` | wpilib/wpilib/iterativerobot.py:78-140 | The flag-driven loop makes exactly the calls of the reference schedule: init exactly when the mode differs from the previous pass's mode, then observe and periodic exactly when a packet arrived |
| `ModeDispatch.RunAppend` | wpilib/wpilib/iterativerobot.py:78-140 | Running a + b gives the same flags and calls as running a and then running b from the flags a left |
| `ModeDispatch.BlockInitsOnce` | wpilib/wpilib/iterativerobot.py:83-90 | A contiguous block of passes in one mode calls that mode's init once if it was not initialized, and never if it was. It calls no other mode's init and leaves that mode as the only one initialized (the same test at lines 83, 98, 112, 129) |
| `ModeDispatch.ReentryRearmsInit` | wpilib/wpilib/iterativerobot.py:112-135 | A run in mode a, then a run in another mode b, then a run in a again calls a's init twice, or once if a was already initialized at the start |
| `ModeDispatch.InitOncePerEntry` | wpilib/wpilib/iterativerobot.py:83-135 | Over any run, the number of init calls for m equals the number of passes that enter m from a different mode |
| `ModeDispatch.PeriodicOncePerPacket` | wpilib/wpilib/iterativerobot.py:91-147 | Tick gating: over any run, m's periodic handler and its HAL notification are each called exactly once per pass in m on which a new packet arrived |
| `ModeDispatch.ObserveBeforePeriodic` | wpilib/wpilib/iterativerobot.py:91-93 | In any run, every periodic call comes right after the HAL notification for the same mode (lines 92-93, 106-107, 123-124, 137-138) |
| `ModeDispatch.ScenarioDisabledThenAutonomous` | wpilib/wpilib/iterativerobot.py:80-125 | Reports disabled, disabled, autonomous, autonomous with packets on passes 2 and 4 give init(D), observe(D), periodic(D), init(A), observe(A), periodic(A) |
| `ModeDispatch.ScenarioTeleopThreeTicks` | wpilib/wpilib/iterativerobot.py:126-139 | Three teleop passes, each with a packet, give one teleop init and three observe/periodic pairs |
| `ModeDispatch.ScenarioAutonomousTeleopAutonomous` | wpilib/wpilib/iterativerobot.py:109-135 | Autonomous, teleop, autonomous without packets give init(A), init(T), init(A) |
| `DefaultPeriodic.Printed` | wpilib/wpilib/iterativerobot.py:200-203 | The `firstRun` latch over a sequence of calls: at most one diagnostic per call. What it prints is characterised by `PrintedOnce` |
| `DefaultPeriodic.PrintedOnce` | wpilib/wpilib/iterativerobot.py:200-203 | Over any calls, a default periodic handler prints iff it runs unoverridden and has not printed before. Diagnostics that were distinct stay distinct, so a diagnostic never appears twice (the same latch at lines 212-215, 224-227, 236-239) |
| `DefaultPeriodic.PrintedAppend` | wpilib/wpilib/iterativerobot.py:200-203 | The diagnostics over a + b are those over a, then those over b, with a's diagnostics counted as already printed |
| `DefaultPeriodic.PrintedOfPass` | wpilib/wpilib/iterativerobot.py:91-94 | A pass prints at most its own mode's diagnostic. It does so iff a packet arrived, the handler is not overridden and the handler has not printed before |
| `DefaultPeriodic.DefaultPeriodics.CallDefault` | wpilib/wpilib/iterativerobot.py:200-203 | One call of a default periodic handler prints its diagnostic iff it has not printed before. It keeps the invariant that a handler is marked iff it has printed and that nothing was printed twice |
| `Robot.IterativeRobot.constructor` | wpilib/wpilib/iterativerobot.py:46-58 | A new robot has all four initialized flags clear and an empty trace |
| `Robot.IterativeRobot.CallPeriodic` | wpilib/wpilib/iterativerobot.py:93-93 | Calling a mode's periodic handler records the call. It runs the default handler, with its latch, only when the robot does not override it |
| `Robot.IterativeRobot.DisabledPass` | wpilib/wpilib/iterativerobot.py:80-94 | The disabled branch updates the fields, the trace and the printed diagnostics exactly as `Pass(old flags, Disabled, newData)` says |
| `Robot.IterativeRobot.TestPass` | wpilib/wpilib/iterativerobot.py:95-108 | The test branch updates the fields, the trace and the printed diagnostics exactly as `Pass(old flags, Test, newData)` says |
| `Robot.IterativeRobot.AutonomousPass` | wpilib/wpilib/iterativerobot.py:109-125 | The autonomous branch updates the fields, the trace and the printed diagnostics exactly as `Pass(old flags, Autonomous, newData)` says |
| `Robot.IterativeRobot.TeleopPass` | wpilib/wpilib/iterativerobot.py:126-139 | The teleop fallback branch updates the fields, the trace and the printed diagnostics exactly as `Pass(old flags, Teleop, newData)` says |
| `Robot.IterativeRobot.Step` | wpilib/wpilib/iterativerobot.py:79-139 | One pass of the loop keeps the at-most-one-flag invariant. It changes the fields and extends the trace exactly as `ModeDispatch.Step` says |
| `Robot.IterativeRobot.StartCompetition` | wpilib/wpilib/iterativerobot.py:60-140 | The loop over a finite sequence of reports keeps the invariant. Its fields, its trace and the printed diagnostics end exactly as `ModeDispatch.Run` and `DefaultPeriodic.Printed` say |

## Left out

- `hal.HALReport` (lines 62-63): a native usage-reporting call with no effect on the loop. The HAL "observe user program" calls (lines 92, 106, 123, 137) are kept only as opaque `Observe` events.
- `robotInit` (lines 65, 151-158): a single user callback before the loop. It keeps no state the loop reads.
- The infinite `while True` loop and `ds.waitForData()` (lines 78, 140): a finite sequence of driver-station reports stands for them, and moving to the next report stands for the blocking wait.
- The driver-station predicates themselves: they are the fields of each `Input`.
- The tracing locals `TRACE_LOOP_MAX`, `loopCount`, `marker` and the `did*Periodic` flags (lines 68-74, 94, 108, 125, 139): they are written and never read.
- The LiveWindow calls, which exist only as comments in the source.
- `Timer.delay(0.001)` in the default periodic handlers (lines 204, 216, 228): a sleep, with no state.
- The text printed by the default handlers, and the unlatched print in each default init handler (lines 166, 174, 182, 190). Only the periodic handlers' once-only diagnostic is modelled, as the mode it names.
- Exceptions raised by user handlers: the source lets them unwind out of the loop. The model's handlers cannot fail, so a fault that stops the loop is not represented.
- A user override that calls the default periodic handler through `super()`: the source then looks up the mark on the override's function object (line 200). The model treats an overridden handler as never reaching the default.
- User handlers are assumed not to write the four initialized fields. In the source they are methods of the same object and could; the at-most-one-initialized invariant and the once-per-entry init counts rely on the assumption.
- The work a user's own handlers do: each call is an event in the trace. The model records only whether a periodic handler is overridden, because that decides whether the default latch runs.
- The HAL binding layer (`hal-roborio/hal_impl/fndef.py`) is not part of this model: it is foreign-function plumbing.
