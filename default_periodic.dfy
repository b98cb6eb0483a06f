/** The default periodic handlers and their "Overload me!" diagnostic.

    Each default periodic handler prints its diagnostic the first time it
    runs and then marks itself by giving its own function object a
    `firstRun` attribute; the mark lives on the function, not on a robot, so
    the diagnostic appears once per handler for the whole program, however
    many times the mode is entered and however many robots there are. */
module DefaultPeriodic {
  import opened ModeDispatch

  /** No mode named twice. */
  predicate Distinct(p: seq<Mode>) {
    forall i, j :: 0 <= i < j < |p| ==> p[i] != p[j]
  }

  /** The diagnostics printed while the calls `events` are made, when the
      handlers of the modes in `already` have printed (and so carry their
      mark) and the user's robot overrides the periodic handlers of the
      modes in `overridden`. */
  function Printed(already: seq<Mode>, overridden: set<Mode>, events: seq<Event>): (r: seq<Mode>)
    decreases |events|
    ensures |r| <= |events|
  {
    if events == [] then []
    else
      var before := Printed(already, overridden, AllButLast(events));
      var e := Last(events);
      if e.Periodic? && e.mode !in overridden && e.mode !in already && e.mode !in before
      then before + [e.mode]
      else before
  }

  /** The latch at work: over any calls, each default periodic handler
      prints exactly when it runs without having printed before, so no
      diagnostic ever appears twice. */
  lemma {:induction false} PrintedOnce(already: seq<Mode>, overridden: set<Mode>, events: seq<Event>)
    ensures forall m :: m in Printed(already, overridden, events) <==>
              m !in already && m !in overridden && Periodic(m) in events
    ensures Distinct(already) ==> Distinct(already + Printed(already, overridden, events))
    decreases |events|
  {
    if events != [] {
      var rest := AllButLast(events);
      PrintedOnce(already, overridden, rest);
      assert events == rest + [Last(events)];
      var p := Printed(already, overridden, rest);
      if Distinct(already) && Printed(already, overridden, events) != p {
        assert already + Printed(already, overridden, events) == (already + p) + [Last(events).mode];
      }
    }
  }

  /** Printing over a + b is printing over a, then over b with what a printed
      counted as printed already. */
  lemma {:induction false} PrintedAppend(already: seq<Mode>, overridden: set<Mode>,
                                         a: seq<Event>, b: seq<Event>)
    ensures Printed(already, overridden, a + b)
            == Printed(already, overridden, a)
               + Printed(already + Printed(already, overridden, a), overridden, b)
    decreases |b|
  {
    if b == [] {
      assert a + b == a;
    } else {
      assert AllButLast(a + b) == a + AllButLast(b);
      assert Last(a + b) == Last(b);
      PrintedAppend(already, overridden, a, AllButLast(b));
    }
  }

  /** One pass of the loop prints at most the diagnostic of its own mode's
      default periodic handler: when a packet arrived, the handler is not
      overridden and it has not printed before. */
  lemma PrintedOfPass(already: seq<Mode>, overridden: set<Mode>, f: Flags, inp: Input)
    ensures Printed(already, overridden, Step(f, inp).events)
            == if inp.newData && ModeOf(inp) !in overridden && ModeOf(inp) !in already
               then [ModeOf(inp)] else []
  {
    var m := ModeOf(inp);
    var entry: seq<Event> := if IsInitialized(f, m) then [] else [Init(m)];
    var tick: seq<Event> := if inp.newData then [Observe(m), Periodic(m)] else [];
    assert Step(f, inp).events == entry + tick;
    PrintedAppend(already, overridden, entry, tick);
    assert entry != [] ==> AllButLast(entry) == [];
    assert Printed(already, overridden, entry) == [];
    assert already + [] == already;
    if inp.newData {
      assert AllButLast(tick) == [Observe(m)];
      assert AllButLast([Observe(m)]) == [];
      assert Printed(already, overridden, [Observe(m)]) == [];
      assert Printed(already, overridden, tick) == if m !in overridden && m !in already then [m] else [];
    }
  }

  /** Extending a run by one pass extends what was printed by what that
      pass's handler prints. */
  lemma PrintedAfterPass(already: seq<Mode>, overridden: set<Mode>, done: seq<Event>, f: Flags, inp: Input)
    ensures Printed(already, overridden, done + Step(f, inp).events)
            == Printed(already, overridden, done)
               + if inp.newData && ModeOf(inp) !in overridden
                    && ModeOf(inp) !in already + Printed(already, overridden, done)
                 then [ModeOf(inp)] else []
  {
    var p := Printed(already, overridden, done);
    PrintedAppend(already, overridden, done, Step(f, inp).events);
    PrintedOfPass(already + p, overridden, f, inp);
  }

  /** The function objects of the four default periodic handlers: whether
      each carries its `firstRun` mark, and the diagnostics printed so far. */
  class DefaultPeriodics {
    var disabledMarked: bool
    var autonomousMarked: bool
    var teleopMarked: bool
    var testMarked: bool
    var printed: seq<Mode>

    function Marked(m: Mode): bool
      reads this
    {
      match m
      case Disabled => disabledMarked
      case Autonomous => autonomousMarked
      case Teleop => teleopMarked
      case Test => testMarked
    }

    /** A handler is marked exactly when it has printed, and none printed twice. */
    ghost predicate Valid()
      reads this
    {
      Distinct(printed) && forall m :: Marked(m) <==> m in printed
    }

    /** The handlers as the class defines them: unmarked, nothing printed. */
    constructor ()
      ensures Valid()
      ensures printed == []
    {
      disabledMarked, autonomousMarked, teleopMarked, testMarked := false, false, false, false;
      printed := [];
    }

    /** One call of mode m's default periodic handler. */
    method CallDefault(m: Mode)
      requires Valid()
      modifies this
      ensures Valid()
      ensures printed == old(printed) + if m in old(printed) then [] else [m]
    {
      assert Marked(m) == (m in printed);
      match m
      case Disabled =>
        if !disabledMarked {
          printed := printed + [m];
          disabledMarked := true;
        }
      case Autonomous =>
        if !autonomousMarked {
          printed := printed + [m];
          autonomousMarked := true;
        }
      case Teleop =>
        if !teleopMarked {
          printed := printed + [m];
          teleopMarked := true;
        }
      case Test =>
        if !testMarked {
          printed := printed + [m];
          testMarked := true;
        }
    }
  }
}
