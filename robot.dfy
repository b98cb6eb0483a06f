/** The iterative robot itself: four "initialized" fields that the main
    loop updates in place, the calls it has made so far, and the loop. */
module Robot {
  import opened ModeDispatch
  import opened DefaultPeriodic

  class IterativeRobot {
    var disabledInitialized: bool
    var autonomousInitialized: bool
    var teleopInitialized: bool
    var testInitialized: bool
    /** The init handlers, HAL notifications and periodic handlers called so far, in order. */
    var trace: seq<Event>
    /** The modes whose periodic handler the user's robot overrides; the
        others run the default handler. */
    const overridden: set<Mode>
    /** The default periodic handlers, shared by every robot. */
    const defaults: DefaultPeriodics

    function State(): Flags
      reads this
    {
      Flags(disabledInitialized, autonomousInitialized, teleopInitialized, testInitialized)
    }

    ghost predicate Valid()
      reads this, defaults
    {
      AtMostOneInitialized(State()) && defaults.Valid()
    }

    /** A new robot: no mode initialized yet, so the first pass in any mode
        calls that mode's init. */
    constructor (overridden: set<Mode>, defaults: DefaultPeriodics)
      requires defaults.Valid()
      ensures Valid()
      ensures State() == NoneInitialized && trace == []
      ensures this.overridden == overridden && this.defaults == defaults
    {
      disabledInitialized := false;
      autonomousInitialized := false;
      teleopInitialized := false;
      testInitialized := false;
      trace := [];
      this.overridden := overridden;
      this.defaults := defaults;
    }

    /** Calls mode m's periodic handler, the user's or the default one. */
    method CallPeriodic(m: Mode)
      requires defaults.Valid()
      modifies defaults, this`trace
      ensures defaults.Valid()
      ensures trace == old(trace) + [Periodic(m)]
      ensures defaults.printed
              == old(defaults.printed) + if m !in overridden && m !in old(defaults.printed) then [m] else []
    {
      trace := trace + [Periodic(m)];
      if m !in overridden {
        defaults.CallDefault(m);
      }
    }

    /** One pass of the main loop: the mode predicates are tested in the
        order disabled, test, autonomous, and teleop is the fallback. */
    method Step(inp: Input)
      requires Valid()
      modifies this, defaults
      ensures Valid()
      ensures State() == ModeDispatch.Step(old(State()), inp).flags
      ensures trace == old(trace) + ModeDispatch.Step(old(State()), inp).events
      // the selected mode's default periodic handler prints when it runs unmarked
      ensures defaults.printed
              == old(defaults.printed)
                 + if inp.newData && ModeOf(inp) !in overridden && ModeOf(inp) !in old(defaults.printed)
                   then [ModeOf(inp)] else []
    {
      if inp.isDisabled {
        DisabledPass(inp.newData);
      } else if inp.isTest {
        TestPass(inp.newData);
      } else if inp.isAutonomous {
        AutonomousPass(inp.newData);
      } else {
        TeleopPass(inp.newData);
      }
    }

    /** The disabled branch of the loop body. */
    method DisabledPass(newData: bool)
      requires Valid()
      modifies this, defaults
      ensures Valid()
      ensures State() == Pass(old(State()), Disabled, newData).flags
      ensures trace == old(trace) + Pass(old(State()), Disabled, newData).events
      ensures defaults.printed
              == old(defaults.printed)
                 + if newData && Disabled !in overridden && Disabled !in old(defaults.printed) then [Disabled] else []
    {
      if !disabledInitialized {
        trace := trace + [Init(Disabled)];
        disabledInitialized := true;
        autonomousInitialized := false;
        teleopInitialized := false;
        testInitialized := false;
      }
      if newData {
        trace := trace + [Observe(Disabled)];
        CallPeriodic(Disabled);
      }
    }

    /** The test branch of the loop body. */
    method TestPass(newData: bool)
      requires Valid()
      modifies this, defaults
      ensures Valid()
      ensures State() == Pass(old(State()), Test, newData).flags
      ensures trace == old(trace) + Pass(old(State()), Test, newData).events
      ensures defaults.printed
              == old(defaults.printed)
                 + if newData && Test !in overridden && Test !in old(defaults.printed) then [Test] else []
    {
      if !testInitialized {
        trace := trace + [Init(Test)];
        testInitialized := true;
        autonomousInitialized := false;
        teleopInitialized := false;
        disabledInitialized := false;
      }
      if newData {
        trace := trace + [Observe(Test)];
        CallPeriodic(Test);
      }
    }

    /** The autonomous branch of the loop body. */
    method AutonomousPass(newData: bool)
      requires Valid()
      modifies this, defaults
      ensures Valid()
      ensures State() == Pass(old(State()), Autonomous, newData).flags
      ensures trace == old(trace) + Pass(old(State()), Autonomous, newData).events
      ensures defaults.printed
              == old(defaults.printed)
                 + if newData && Autonomous !in overridden && Autonomous !in old(defaults.printed) then [Autonomous] else []
    {
      if !autonomousInitialized {
        trace := trace + [Init(Autonomous)];
        autonomousInitialized := true;
        testInitialized := false;
        teleopInitialized := false;
        disabledInitialized := false;
      }
      if newData {
        trace := trace + [Observe(Autonomous)];
        CallPeriodic(Autonomous);
      }
    }

    /** The teleop branch of the loop body, taken when no other mode is reported. */
    method TeleopPass(newData: bool)
      requires Valid()
      modifies this, defaults
      ensures Valid()
      ensures State() == Pass(old(State()), Teleop, newData).flags
      ensures trace == old(trace) + Pass(old(State()), Teleop, newData).events
      ensures defaults.printed
              == old(defaults.printed)
                 + if newData && Teleop !in overridden && Teleop !in old(defaults.printed) then [Teleop] else []
    {
      if !teleopInitialized {
        trace := trace + [Init(Teleop)];
        teleopInitialized := true;
        testInitialized := false;
        autonomousInitialized := false;
        disabledInitialized := false;
      }
      if newData {
        trace := trace + [Observe(Teleop)];
        CallPeriodic(Teleop);
      }
    }

    /** The main loop, over a finite sequence of driver-station reports:
        each report is one pass, and moving to the next report stands for
        waiting for the next control packet. */
    method StartCompetition(inputs: seq<Input>)
      requires Valid()
      modifies this, defaults
      ensures Valid()
      ensures State() == Run(old(State()), inputs).flags
      ensures trace == old(trace) + Run(old(State()), inputs).events
      ensures defaults.printed
              == old(defaults.printed) + Printed(old(defaults.printed), overridden, Run(old(State()), inputs).events)
    {
      ghost var start := State();
      ghost var before := trace;
      ghost var printedBefore := defaults.printed;
      var i := 0;
      while i < |inputs|
        invariant 0 <= i <= |inputs|
        invariant Valid()
        invariant State() == Run(start, inputs[..i]).flags
        invariant trace == before + Run(start, inputs[..i]).events
        invariant defaults.printed
                  == printedBefore + Printed(printedBefore, overridden, Run(start, inputs[..i]).events)
      {
        ghost var done := Run(start, inputs[..i]).events;
        PrintedAfterPass(printedBefore, overridden, done, State(), inputs[i]);
        RunPrefix(start, inputs, i);
        AppendAssociates(before, done, ModeDispatch.Step(State(), inputs[i]).events);
        AppendAssociates(printedBefore, Printed(printedBefore, overridden, done),
                         if inputs[i].newData && ModeOf(inputs[i]) !in overridden
                            && ModeOf(inputs[i]) !in defaults.printed
                         then [ModeOf(inputs[i])] else []);
        Step(inputs[i]);
        i := i + 1;
      }
      assert inputs[..|inputs|] == inputs;
    }
  }
}
