/** The mode-dispatch loop of an iterative robot program, as values.

    One pass of the loop reads three mode predicates from the driver station
    (disabled, test, autonomous; anything else is teleop), calls the mode's
    init handler when that mode's "initialized" flag is clear, and, when a new
    control packet has arrived, notifies the HAL that the user program is
    running in that mode and calls the mode's periodic handler. The functions
    here describe one pass (Step) and a finite run of passes (Run); the class
    in robot.dfy is proved to follow them. */
module ModeDispatch {

  datatype Option<T> = None | Some(value: T)

  /** The four operating modes, listed in the order the loop tests them. */
  datatype Mode = Disabled | Test | Autonomous | Teleop

  /** A call the loop makes: a mode's init handler, the HAL "observe user
      program" notification for a mode, or a mode's periodic handler. */
  datatype Event = Init(mode: Mode) | Observe(mode: Mode) | Periodic(mode: Mode)

  /** What the driver station reports on one pass: the three mode predicates
      and whether a new control packet arrived (the one read of
      nextPeriodReady in that pass). */
  datatype Input = Input(isDisabled: bool, isTest: bool, isAutonomous: bool, newData: bool)

  /** The four "initialized" fields of the robot. */
  datatype Flags = Flags(disabledInitialized: bool, autonomousInitialized: bool,
                         teleopInitialized: bool, testInitialized: bool)

  /** The flags after some passes and the calls those passes made. */
  datatype Outcome = Outcome(flags: Flags, events: seq<Event>)

  /** The flags as the constructor leaves them. */
  const NoneInitialized := Flags(false, false, false, false)

  /** Mode selection: disabled beats test, test beats autonomous, and teleop
      is what is left when none of the three predicates holds. */
  function SelectMode(isDisabled: bool, isTest: bool, isAutonomous: bool): (m: Mode)
    ensures m == Disabled <==> isDisabled
    ensures m == Test <==> !isDisabled && isTest
    ensures m == Autonomous <==> !isDisabled && !isTest && isAutonomous
    ensures m == Teleop <==> !isDisabled && !isTest && !isAutonomous
  {
    if isDisabled then Disabled
    else if isTest then Test
    else if isAutonomous then Autonomous
    else Teleop
  }

  function ModeOf(inp: Input): Mode {
    SelectMode(inp.isDisabled, inp.isTest, inp.isAutonomous)
  }

  function IsInitialized(f: Flags, m: Mode): bool {
    match m
    case Disabled => f.disabledInitialized
    case Test => f.testInitialized
    case Autonomous => f.autonomousInitialized
    case Teleop => f.teleopInitialized
  }

  /** The flags right after entering mode m: its own set, the other three cleared. */
  function EnterMode(m: Mode): (f: Flags)
    ensures forall m' :: IsInitialized(f, m') <==> m' == m
  {
    Flags(m == Disabled, m == Autonomous, m == Teleop, m == Test)
  }

  function Count(b: bool): nat { if b then 1 else 0 }

  /** The invariant of the loop: at most one mode counts as initialized. */
  predicate AtMostOneInitialized(f: Flags) {
    Count(f.disabledInitialized) + Count(f.autonomousInitialized)
    + Count(f.teleopInitialized) + Count(f.testInitialized) <= 1
  }

  /** The mode whose flag is set, if any. */
  function ActiveMode(f: Flags): (r: Option<Mode>)
    ensures r == None <==> f == NoneInitialized
    ensures r.Some? ==> IsInitialized(f, r.value)
    ensures AtMostOneInitialized(f) ==> forall m :: r == Some(m) <==> IsInitialized(f, m)
  {
    if f.disabledInitialized then Some(Disabled)
    else if f.testInitialized then Some(Test)
    else if f.autonomousInitialized then Some(Autonomous)
    else if f.teleopInitialized then Some(Teleop)
    else None
  }

  /** A pass in mode m: init when m's flag is clear (setting it and
      clearing the other three), then the HAL notification and m's periodic
      handler when a new packet arrived. */
  function Pass(f: Flags, m: Mode, newData: bool): (r: Outcome)
    ensures IsInitialized(r.flags, m)
    ensures |r.events| == (if IsInitialized(f, m) then 0 else 1) + (if newData then 2 else 0)
  {
    var entry := if IsInitialized(f, m) then [] else [Init(m)];
    var tick := if newData then [Observe(m), Periodic(m)] else [];
    Outcome(if IsInitialized(f, m) then f else EnterMode(m), entry + tick)
  }

  /** One pass of the loop, in the mode the driver station's report selects. */
  function Step(f: Flags, inp: Input): (r: Outcome)
    ensures IsInitialized(r.flags, ModeOf(inp))
  {
    Pass(f, ModeOf(inp), inp.newData)
  }

  /** What one pass promises. */
  lemma StepContract(f: Flags, inp: Input)
    // the selected mode is initialized afterwards, and it alone when it was just entered
    ensures IsInitialized(Step(f, inp).flags, ModeOf(inp))
    ensures IsInitialized(f, ModeOf(inp)) ==> Step(f, inp).flags == f
    ensures !IsInitialized(f, ModeOf(inp)) ==> Step(f, inp).flags == EnterMode(ModeOf(inp))
    ensures AtMostOneInitialized(f) ==> Step(f, inp).flags == EnterMode(ModeOf(inp))
    // every call of the pass concerns the selected mode, and none is made twice
    ensures forall e :: e in Step(f, inp).events ==> e.mode == ModeOf(inp)
    ensures forall i, j :: 0 <= i < j < |Step(f, inp).events| ==> Step(f, inp).events[i] != Step(f, inp).events[j]
    // init exactly when the flag was clear, and before anything else
    ensures Init(ModeOf(inp)) in Step(f, inp).events <==> !IsInitialized(f, ModeOf(inp))
    ensures Init(ModeOf(inp)) in Step(f, inp).events ==> Step(f, inp).events[0] == Init(ModeOf(inp))
    // observe then periodic exactly when a new packet arrived, as the last two calls
    ensures Periodic(ModeOf(inp)) in Step(f, inp).events <==> inp.newData
    ensures Observe(ModeOf(inp)) in Step(f, inp).events <==> inp.newData
    ensures inp.newData ==>
              |Step(f, inp).events| >= 2
              && Step(f, inp).events[|Step(f, inp).events| - 2] == Observe(ModeOf(inp))
              && Step(f, inp).events[|Step(f, inp).events| - 1] == Periodic(ModeOf(inp))
  {
    var m := ModeOf(inp);
    if IsInitialized(f, m) && AtMostOneInitialized(f) {
      OnlyInitializedMode(f, m);
    }
  }

  function Last<T>(s: seq<T>): T
    requires s != []
  {
    s[|s| - 1]
  }

  function AllButLast<T>(s: seq<T>): seq<T>
    requires s != []
  {
    s[..|s| - 1]
  }

  lemma AppendAssociates<T>(a: seq<T>, b: seq<T>, c: seq<T>)
    ensures (a + b) + c == a + (b + c)
  {
  }

  /** The passes of the loop over a finite sequence of driver-station reports,
      starting from flags f. */
  function Run(f: Flags, inputs: seq<Input>): (r: Outcome)
    decreases |inputs|
    ensures AtMostOneInitialized(f) ==> AtMostOneInitialized(r.flags)
    ensures AtMostOneInitialized(f) && inputs != [] ==>
              r.flags == EnterMode(ModeOf(Last(inputs)))
    ensures inputs == [] ==> r == Outcome(f, [])
  {
    if inputs == [] then Outcome(f, [])
    else
      var before := Run(f, AllButLast(inputs));
      var now := Step(before.flags, Last(inputs));
      StepContract(before.flags, Last(inputs));
      Outcome(now.flags, before.events + now.events)
  }

  /** The run over the first i + 1 reports is the run over the first i
      followed by pass i. */
  lemma RunPrefix(f: Flags, inputs: seq<Input>, i: nat)
    requires i < |inputs|
    ensures Run(f, inputs[..i + 1]).flags == Step(Run(f, inputs[..i]).flags, inputs[i]).flags
    ensures Run(f, inputs[..i + 1]).events
            == Run(f, inputs[..i]).events + Step(Run(f, inputs[..i]).flags, inputs[i]).events
  {
    assert AllButLast(inputs[..i + 1]) == inputs[..i];
    assert Last(inputs[..i + 1]) == inputs[i];
  }

  /** A reference description of the calls that makes no use of the flags:
      a pass calls init exactly when its mode differs from the mode of the
      pass before it (for the first pass, from the mode `prev` that is
      already initialized), and calls observe then periodic exactly when a
      new packet arrived. */
  function Schedule(prev: Option<Mode>, inputs: seq<Input>): seq<Event>
    decreases |inputs|
  {
    if inputs == [] then []
    else
      var rest := AllButLast(inputs);
      var m := ModeOf(Last(inputs));
      var before := if rest == [] then prev else Some(ModeOf(Last(rest)));
      Schedule(prev, rest)
      + (if before == Some(m) then [] else [Init(m)])
      + (if Last(inputs).newData then [Observe(m), Periodic(m)] else [])
  }

  /** Number of passes that enter mode m: passes in m whose predecessor (or,
      for the first pass, the already initialized mode `prev`) is not m. This
      is the number of maximal contiguous runs of m, not counting a leading
      run that continues `prev`. */
  function Entries(prev: Option<Mode>, inputs: seq<Input>, m: Mode): nat
    decreases |inputs|
  {
    if inputs == [] then 0
    else
      var rest := AllButLast(inputs);
      var before := if rest == [] then prev else Some(ModeOf(Last(rest)));
      Entries(prev, rest, m) + (if ModeOf(Last(inputs)) == m && before != Some(m) then 1 else 0)
  }

  /** Number of passes in mode m on which a new packet arrived. */
  function Packets(inputs: seq<Input>, m: Mode): nat
    decreases |inputs|
  {
    if inputs == [] then 0
    else Packets(AllButLast(inputs), m) + (if ModeOf(Last(inputs)) == m && Last(inputs).newData then 1 else 0)
  }

  /** Flags with a set flag and at most one set are the flags of entering that mode. */
  lemma OnlyInitializedMode(f: Flags, m: Mode)
    requires AtMostOneInitialized(f) && IsInitialized(f, m)
    ensures f == EnterMode(m)
  {
    match m
    case Disabled =>
    case Test =>
    case Autonomous =>
    case Teleop =>
  }

  /** From the constructor's flags, any run starts by calling the init of
      the mode its first report selects. */
  lemma {:induction false} FirstPassCallsInit(inputs: seq<Input>)
    requires inputs != []
    ensures Run(NoneInitialized, inputs).events != []
    ensures Run(NoneInitialized, inputs).events[0] == Init(ModeOf(inputs[0]))
    decreases |inputs|
  {
    var rest := AllButLast(inputs);
    if rest == [] {
      assert Last(inputs) == inputs[0];
    } else {
      FirstPassCallsInit(rest);
      assert rest[0] == inputs[0];
    }
  }

  /** The flag-driven loop makes exactly the calls of the reference description. */
  lemma {:induction false} RunFollowsSchedule(f: Flags, inputs: seq<Input>)
    requires AtMostOneInitialized(f)
    ensures Run(f, inputs).events == Schedule(ActiveMode(f), inputs)
    decreases |inputs|
  {
    if inputs != [] {
      var rest := AllButLast(inputs);
      var m := ModeOf(Last(inputs));
      RunFollowsSchedule(f, rest);
      var flags := Run(f, rest).flags;
      var before := if rest == [] then ActiveMode(f) else Some(ModeOf(Last(rest)));
      assert IsInitialized(flags, m) <==> before == Some(m);
    }
  }

  /** Running a + b is running a and then running b from where a stopped. */
  lemma {:induction false} RunAppend(f: Flags, a: seq<Input>, b: seq<Input>)
    ensures Run(f, a + b).flags == Run(Run(f, a).flags, b).flags
    ensures Run(f, a + b).events == Run(f, a).events + Run(Run(f, a).flags, b).events
    decreases |b|
  {
    if b == [] {
      assert a + b == a;
    } else {
      assert AllButLast(a + b) == a + AllButLast(b);
      assert Last(a + b) == Last(b);
      RunAppend(f, a, AllButLast(b));
    }
  }

  /** How often one pass makes each call. */
  lemma StepCounts(f: Flags, inp: Input, e: Event)
    ensures multiset(Step(f, inp).events)[e]
            == (if e == Init(ModeOf(inp)) && !IsInitialized(f, ModeOf(inp)) then 1 else 0)
               + (if (e == Observe(ModeOf(inp)) || e == Periodic(ModeOf(inp))) && inp.newData then 1 else 0)
  {
    var m := ModeOf(inp);
    var entry: seq<Event> := if IsInitialized(f, m) then [] else [Init(m)];
    var tick: seq<Event> := if inp.newData then [Observe(m), Periodic(m)] else [];
    assert Step(f, inp).events == entry + tick;
    assert multiset(entry + tick) == multiset(entry) + multiset(tick);
  }

  /** The calls of a non-empty run: those of all but its last pass, then those of its last pass. */
  lemma RunUnfold(f: Flags, inputs: seq<Input>, e: Event)
    requires inputs != []
    ensures multiset(Run(f, inputs).events)[e]
            == multiset(Run(f, AllButLast(inputs)).events)[e]
               + multiset(Step(Run(f, AllButLast(inputs)).flags, Last(inputs)).events)[e]
  {
    var done := Run(f, AllButLast(inputs)).events;
    var now := Step(Run(f, AllButLast(inputs)).flags, Last(inputs)).events;
    assert Run(f, inputs).events == done + now;
    assert multiset(done + now) == multiset(done) + multiset(now);
  }

  /** A contiguous block of passes in one mode m calls m's init once if m was
      not already initialized and never if it was, calls no other init, and
      leaves m as the only initialized mode. */
  lemma {:induction false} BlockInitsOnce(f: Flags, block: seq<Input>, m: Mode)
    requires AtMostOneInitialized(f)
    requires block != []
    requires forall x :: x in block ==> ModeOf(x) == m
    ensures Run(f, block).flags == EnterMode(m)
    ensures forall m' :: multiset(Run(f, block).events)[Init(m')]
                         == if m' == m && !IsInitialized(f, m) then 1 else 0
    decreases |block|
  {
    var rest := AllButLast(block);
    assert Last(block) in block;
    var flags := Run(f, rest).flags;
    if rest != [] {
      assert forall x :: x in rest ==> x in block;
      BlockInitsOnce(f, rest, m);
    }
    forall m': Mode
      ensures multiset(Run(f, block).events)[Init(m')] == if m' == m && !IsInitialized(f, m) then 1 else 0
    {
      RunUnfold(f, block, Init(m'));
      StepCounts(flags, Last(block), Init(m'));
    }
  }

  /** Re-entering a mode re-arms its init: a run in mode a, then a run in
      another mode b, then a run in a again calls a's init twice (once if a
      was already initialized when the first run began). */
  lemma ReentryRearmsInit(f: Flags, first: seq<Input>, between: seq<Input>, again: seq<Input>,
                          a: Mode, b: Mode)
    requires AtMostOneInitialized(f)
    requires a != b
    requires first != [] && between != [] && again != []
    requires forall x :: x in first ==> ModeOf(x) == a
    requires forall x :: x in between ==> ModeOf(x) == b
    requires forall x :: x in again ==> ModeOf(x) == a
    ensures multiset(Run(f, first + between + again).events)[Init(a)]
            == if IsInitialized(f, a) then 1 else 2
  {
    var r1 := Run(f, first);
    BlockInitsOnce(f, first, a);
    var r2 := Run(r1.flags, between);
    BlockInitsOnce(r1.flags, between, b);
    var r3 := Run(r2.flags, again);
    BlockInitsOnce(r2.flags, again, a);
    RunAppend(f, first, between);
    RunAppend(f, first + between, again);
    assert Run(f, first + between + again).events == r1.events + r2.events + r3.events;
    assert multiset(r1.events + r2.events + r3.events)
           == multiset(r1.events) + multiset(r2.events) + multiset(r3.events);
  }

  /** Tick gating: over any run, each mode's periodic handler, and the
      notification before it, is called exactly once per pass in that mode
      on which a new packet arrived. */
  lemma {:induction false} PeriodicOncePerPacket(f: Flags, inputs: seq<Input>, m: Mode)
    ensures multiset(Run(f, inputs).events)[Periodic(m)] == Packets(inputs, m)
    ensures multiset(Run(f, inputs).events)[Observe(m)] == Packets(inputs, m)
    decreases |inputs|
  {
    if inputs != [] {
      PeriodicOncePerPacket(f, AllButLast(inputs), m);
      var flags := Run(f, AllButLast(inputs)).flags;
      RunUnfold(f, inputs, Periodic(m));
      RunUnfold(f, inputs, Observe(m));
      StepCounts(flags, Last(inputs), Periodic(m));
      StepCounts(flags, Last(inputs), Observe(m));
    }
  }

  /** Exactly-once init: over any run, mode m's init is called once for each
      pass that enters m. */
  lemma {:induction false} InitOncePerEntry(f: Flags, inputs: seq<Input>, m: Mode)
    requires AtMostOneInitialized(f)
    ensures multiset(Run(f, inputs).events)[Init(m)] == Entries(ActiveMode(f), inputs, m)
    decreases |inputs|
  {
    if inputs != [] {
      var rest := AllButLast(inputs);
      InitOncePerEntry(f, rest, m);
      var flags := Run(f, rest).flags;
      var n := ModeOf(Last(inputs));
      var before := if rest == [] then ActiveMode(f) else Some(ModeOf(Last(rest)));
      assert IsInitialized(flags, n) <==> before == Some(n);
      RunUnfold(f, inputs, Init(m));
      StepCounts(flags, Last(inputs), Init(m));
    }
  }

  /** Every periodic call in a run is immediately preceded by the HAL
      notification for the same mode. */
  lemma {:induction false} ObserveBeforePeriodic(f: Flags, inputs: seq<Input>)
    ensures forall i :: 0 <= i < |Run(f, inputs).events| && Run(f, inputs).events[i].Periodic? ==>
              i > 0 && Run(f, inputs).events[i - 1] == Observe(Run(f, inputs).events[i].mode)
    decreases |inputs|
  {
    if inputs != [] {
      ObserveBeforePeriodic(f, AllButLast(inputs));
      var done := Run(f, AllButLast(inputs)).events;
      var now := Step(Run(f, AllButLast(inputs)).flags, Last(inputs));
      var t := done + now.events;
      forall i | 0 <= i < |t| && t[i].Periodic?
        ensures i > 0 && t[i - 1] == Observe(t[i].mode)
      {
        if i >= |done| {
          assert now.events[i - |done|] == t[i];
          assert Periodic(t[i].mode) in now.events;
          assert i - |done| == |now.events| - 1;
        }
      }
    }
  }

  /** Three example runs of the loop. */
  lemma ScenarioDisabledThenAutonomous()
    ensures Run(NoneInitialized, [Input(true, false, false, false), Input(true, false, false, true),
                                  Input(false, false, true, false), Input(false, false, true, true)]).events
            == [Init(Disabled), Observe(Disabled), Periodic(Disabled),
                Init(Autonomous), Observe(Autonomous), Periodic(Autonomous)]
  {
    var inputs := [Input(true, false, false, false), Input(true, false, false, true),
                   Input(false, false, true, false), Input(false, false, true, true)];
    assert AllButLast(inputs[..1]) == [];
    assert Run(NoneInitialized, inputs[..1]).events == [Init(Disabled)];
    assert AllButLast(inputs[..2]) == inputs[..1];
    assert Run(NoneInitialized, inputs[..2]).events == [Init(Disabled), Observe(Disabled), Periodic(Disabled)];
    assert AllButLast(inputs[..3]) == inputs[..2];
    assert Run(NoneInitialized, inputs[..3]).events
           == [Init(Disabled), Observe(Disabled), Periodic(Disabled), Init(Autonomous)];
    assert AllButLast(inputs) == inputs[..3];
  }

  lemma ScenarioTeleopThreeTicks()
    ensures Run(NoneInitialized, [Input(false, false, false, true), Input(false, false, false, true),
                                  Input(false, false, false, true)]).events
            == [Init(Teleop), Observe(Teleop), Periodic(Teleop), Observe(Teleop), Periodic(Teleop),
                Observe(Teleop), Periodic(Teleop)]
  {
    var inputs := [Input(false, false, false, true), Input(false, false, false, true),
                   Input(false, false, false, true)];
    RunFollowsSchedule(NoneInitialized, inputs);
    assert AllButLast(inputs) == inputs[..2];
    assert AllButLast(inputs[..2]) == inputs[..1];
    assert AllButLast(inputs[..1]) == [];
  }

  lemma ScenarioAutonomousTeleopAutonomous()
    ensures Run(NoneInitialized, [Input(false, false, true, false), Input(false, false, false, false),
                                  Input(false, false, true, false)]).events
            == [Init(Autonomous), Init(Teleop), Init(Autonomous)]
  {
    var inputs := [Input(false, false, true, false), Input(false, false, false, false),
                   Input(false, false, true, false)];
    RunFollowsSchedule(NoneInitialized, inputs);
    assert AllButLast(inputs) == inputs[..2];
    assert AllButLast(inputs[..2]) == inputs[..1];
    assert AllButLast(inputs[..1]) == [];
  }
}
