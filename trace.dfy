/**
 * The command trace of a baking program, as pure functions, and what the
 * oven promises about it.
 *
 * `FullTrace` is the trace of a run in which no heating operation fails.
 * `Execute` is the run against a heating module whose `failing` operations
 * raise an error: it stops right after the first call that fails.
 */
module Trace {
  import opened Programs

  /** A run: the calls made, in order, and how it ended. */
  datatype Run = Run(cmds: seq<Cmd>, outcome: Outcome)

  // ---------------------------------------------------------------------------
  // The trace of a run with no failures
  // ---------------------------------------------------------------------------

  /** The fan calls that open a stage: only thermo-circulation switches the fan on. */
  function Lead(s: Stage): seq<Cmd>
  {
    if s.heat == ThermoCirculation then [FanOn] else []
  }

  /** The heating call of a stage. */
  function Call(s: Stage): Cmd
  {
    Heat(OpFor(s.heat), StageSettings(s))
  }

  /** The fan calls that close a successful stage: thermo-circulation switches the fan off. */
  function Close(s: Stage): seq<Cmd>
  {
    if s.heat == ThermoCirculation then [FanOff] else []
  }

  /**
   * The calls of one successful stage: its heating call, preceded and followed by a
   * fan call only for thermo-circulation.
   */
  function StageCmds(s: Stage): (r: seq<Cmd>)
    ensures |r| == if s.heat == ThermoCirculation then 3 else 1
    ensures r[|Lead(s)|] == Heat(OpFor(s.heat), StageSettings(s))
  {
    Lead(s) + [Call(s)] + Close(s)
  }

  /**
   * The dispatch on heat type: a stage makes exactly one heating call, of the operation
   * its heat type selects, with its own settings; only a thermo-circulation stage
   * commands the fan, on before that call and off after it.
   */
  lemma StageDispatch(s: Stage)
    ensures Count(Heat(OpFor(s.heat), StageSettings(s)), StageCmds(s)) == 1
    ensures forall c | c in StageCmds(s) :: c.Heat? ==> c == Heat(OpFor(s.heat), StageSettings(s))
    ensures Count(FanOn, StageCmds(s)) == (if s.heat == ThermoCirculation then 1 else 0)
    ensures Count(FanOff, StageCmds(s)) == (if s.heat == ThermoCirculation then 1 else 0)
    ensures s.heat == ThermoCirculation ==>
      StageCmds(s) == [FanOn, Heat(TermalCircuitOp, StageSettings(s)), FanOff]
  {
    if s.heat == ThermoCirculation {
      assert StageCmds(s) == [FanOn, Call(s), FanOff];
    } else {
      assert StageCmds(s) == [Call(s)];
    }
  }

  /** The calls of a sequence of successful stages, in order. */
  function StagesCmds(stages: seq<Stage>): seq<Cmd>
    decreases |stages|
  {
    if stages == [] then [] else StageCmds(stages[0]) + StagesCmds(stages[1..])
  }

  /** The initial heat-up: a heater call when the initial temperature is not zero. */
  function InitCmds(p: Program): seq<Cmd>
  {
    if p.initialTemp != 0 then [Heat(HeaterOp, HeatUpSettings(p.initialTemp))] else []
  }

  /** The finishing step: the fan is switched on when the program cools at finish. */
  function FinishCmds(p: Program): seq<Cmd>
  {
    if p.coolAtFinish then [FanOn] else []
  }

  /**
   * Every call of a program that runs to completion: the heat-up call comes first,
   * and the cooling fan call last.
   */
  function FullTrace(p: Program): (r: seq<Cmd>)
    ensures p.initialTemp != 0 ==> |r| > 0 && r[0] == Heat(HeaterOp, HeatUpSettings(p.initialTemp))
    ensures p.coolAtFinish ==> |r| > 0 && r[|r| - 1] == FanOn
  {
    InitCmds(p) + StagesCmds(p.stages) + FinishCmds(p)
  }

  // ---------------------------------------------------------------------------
  // The run against a heating module that may fail
  // ---------------------------------------------------------------------------

  /** The last of the calls is a heating call of a failing operation. */
  predicate EndsOnFailingCall(cmds: seq<Cmd>, failing: set<HeatingOp>)
  {
    cmds != [] && cmds[|cmds| - 1].Heat? && cmds[|cmds| - 1].op in failing
  }

  /**
   * Runs the stages in order; the first failing heating call aborts the rest. A failed
   * run reports OvenFailure and ends on a failing heating call.
   */
  function RunStages(stages: seq<Stage>, failing: set<HeatingOp>): (r: Run)
    ensures r.outcome.Failed? ==> r.outcome == Failed(OvenFailure) && EndsOnFailingCall(r.cmds, failing)
    decreases |stages|
  {
    if stages == [] then Run([], Completed)
    else
      var s := stages[0];
      if OpFor(s.heat) in failing then
        Run(Lead(s) + [Call(s)], Failed(OvenFailure))
      else
        var rest := RunStages(stages[1..], failing);
        Run(StageCmds(s) + rest.cmds, rest.outcome)
  }

  /** Running the stages from index `i` on: stage `i`, then, if it succeeds, the stages after it. */
  lemma RunStagesStep(stages: seq<Stage>, i: nat, failing: set<HeatingOp>)
    requires i < |stages|
    ensures var s := stages[i];
      RunStages(stages[i..], failing) ==
        if OpFor(s.heat) in failing then Run(Lead(s) + [Call(s)], Failed(OvenFailure))
        else Run(StageCmds(s) + RunStages(stages[i + 1..], failing).cmds,
                 RunStages(stages[i + 1..], failing).outcome)
  {
    assert stages[i..][0] == stages[i];
    assert stages[i..][1..] == stages[i + 1..];
  }

  /**
   * Runs a program: initial heat-up, the stages, then the finishing step. A failed run
   * reports OvenFailure and ends on a failing heating call.
   */
  function Execute(p: Program, failing: set<HeatingOp>): (r: Run)
    ensures r.outcome.Failed? ==> r.outcome == Failed(OvenFailure) && EndsOnFailingCall(r.cmds, failing)
  {
    if p.initialTemp != 0 && HeaterOp in failing then
      Run(InitCmds(p), Failed(OvenFailure))
    else
      var st := RunStages(p.stages, failing);
      if st.outcome.Failed? then Run(InitCmds(p) + st.cmds, st.outcome)
      else Run(InitCmds(p) + st.cmds + FinishCmds(p), Completed)
  }

  /** The heating operations a program calls when nothing fails. */
  function UsedOps(p: Program): set<HeatingOp>
  {
    (if p.initialTemp != 0 then {HeaterOp} else {})
    + set k | 0 <= k < |p.stages| :: OpFor(p.stages[k].heat)
  }

  /** The number of thermo-circulation stages. */
  function ThermoStages(stages: seq<Stage>): nat
    decreases |stages|
  {
    if stages == [] then 0
    else (if stages[0].heat == ThermoCirculation then 1 else 0) + ThermoStages(stages[1..])
  }

  /** Whether the fan runs after `cmds`, starting from `running`: the last fan call decides. */
  function FanRunning(running: bool, cmds: seq<Cmd>): bool
    decreases |cmds|
  {
    if cmds == [] then running
    else
      var last := cmds[|cmds| - 1];
      if last == FanOn then true
      else if last == FanOff then false
      else FanRunning(running, cmds[..|cmds| - 1])
  }

  /** The number of times `c` occurs in `cmds`. */
  function Count(c: Cmd, cmds: seq<Cmd>): nat
  {
    multiset(cmds)[c]
  }

  // ---------------------------------------------------------------------------
  // Failure: the first failing call aborts the run
  // ---------------------------------------------------------------------------

  /** No call in `cmds` is a call of a failing heating operation. */
  predicate NoFailingCall(cmds: seq<Cmd>, failing: set<HeatingOp>)
  {
    forall j :: 0 <= j < |cmds| && cmds[j].Heat? ==> cmds[j].op !in failing
  }

  /** The calls of a run that stopped at its first failing call: only the last call fails. */
  predicate StoppedAtFirstFailure(cmds: seq<Cmd>, failing: set<HeatingOp>)
  {
    && EndsOnFailingCall(cmds, failing)
    && NoFailingCall(cmds[..|cmds| - 1], failing)
  }

  /** No call of a concatenation fails exactly when no call of either part fails. */
  lemma NoFailingCallAppend(a: seq<Cmd>, b: seq<Cmd>, failing: set<HeatingOp>)
    ensures NoFailingCall(a + b, failing) <==> NoFailingCall(a, failing) && NoFailingCall(b, failing)
  {
    if NoFailingCall(a + b, failing) {
      forall j | 0 <= j < |a| && a[j].Heat? ensures a[j].op !in failing {
        assert a[j] == (a + b)[j];
      }
      forall j | 0 <= j < |b| && b[j].Heat? ensures b[j].op !in failing {
        assert b[j] == (a + b)[|a| + j];
      }
    }
    if NoFailingCall(a, failing) && NoFailingCall(b, failing) {
      forall j | 0 <= j < |a + b| && (a + b)[j].Heat? ensures (a + b)[j].op !in failing {
        if j >= |a| {
          assert (a + b)[j] == b[j - |a|];
        }
      }
    }
  }

  /** Concatenation of call sequences is associative. */
  lemma AppendAssoc(a: seq<Cmd>, b: seq<Cmd>, c: seq<Cmd>)
    ensures a + (b + c) == (a + b) + c
  {
  }

  /** Dropping the last call of a concatenation drops it from its second part. */
  lemma DropLastOfAppend(a: seq<Cmd>, b: seq<Cmd>)
    requires b != []
    ensures (a + b)[..|a + b| - 1] == a + b[..|b| - 1]
  {
  }

  /** The stages fail exactly when one of them calls a failing operation, and then with OvenFailure. */
  lemma {:induction false} RunStagesFailsIff(stages: seq<Stage>, failing: set<HeatingOp>)
    ensures RunStages(stages, failing).outcome.Failed? <==>
      exists k :: 0 <= k < |stages| && OpFor(stages[k].heat) in failing
    ensures RunStages(stages, failing).outcome.Failed? ==>
      RunStages(stages, failing).outcome == Failed(OvenFailure)
    decreases |stages|
  {
    if stages != [] && OpFor(stages[0].heat) !in failing {
      RunStagesFailsIff(stages[1..], failing);
      if exists k :: 0 <= k < |stages| && OpFor(stages[k].heat) in failing {
        var k :| 0 <= k < |stages| && OpFor(stages[k].heat) in failing;
        assert stages[1..][k - 1] == stages[k];
      }
      if exists k :: 0 <= k < |stages[1..]| && OpFor(stages[1..][k].heat) in failing {
        var k :| 0 <= k < |stages[1..]| && OpFor(stages[1..][k].heat) in failing;
        assert stages[k + 1] == stages[1..][k];
      }
    }
  }

  /** The calls the stages make are a prefix of the stages' full trace, all of it on completion. */
  lemma {:induction false} RunStagesPrefix(stages: seq<Stage>, failing: set<HeatingOp>)
    ensures RunStages(stages, failing).cmds <= StagesCmds(stages)
    ensures RunStages(stages, failing).outcome.Completed? ==>
      RunStages(stages, failing).cmds == StagesCmds(stages)
    decreases |stages|
  {
    if stages != [] {
      var s := stages[0];
      assert StagesCmds(stages) == StageCmds(s) + StagesCmds(stages[1..]);
      if OpFor(s.heat) in failing {
        assert StageCmds(s) == RunStages(stages, failing).cmds + Close(s);
      } else {
        RunStagesPrefix(stages[1..], failing);
      }
    }
  }

  /** Calls that do not fail, followed by a run stopped at its first failure, stop there too. */
  lemma StoppedAfter(a: seq<Cmd>, b: seq<Cmd>, failing: set<HeatingOp>)
    requires NoFailingCall(a, failing) && StoppedAtFirstFailure(b, failing)
    ensures StoppedAtFirstFailure(a + b, failing)
  {
    DropLastOfAppend(a, b);
    NoFailingCallAppend(a, b[..|b| - 1], failing);
    assert (a + b)[|a + b| - 1] == b[|b| - 1];
  }

  /** The calls of a stage whose heating operation does not fail include no failing call. */
  lemma StageNoFailingCall(s: Stage, failing: set<HeatingOp>)
    requires OpFor(s.heat) !in failing
    ensures NoFailingCall(StageCmds(s), failing)
    ensures NoFailingCall(Lead(s), failing)
  {
    if s.heat == ThermoCirculation {
      assert StageCmds(s) == [FanOn, Call(s), FanOff];
    } else {
      assert StageCmds(s) == [Call(s)];
    }
  }

  /** The stages stop right after their first failing call, and make none when they complete. */
  lemma {:induction false} RunStagesStop(stages: seq<Stage>, failing: set<HeatingOp>)
    ensures var r := RunStages(stages, failing);
      && (r.outcome.Failed? ==> StoppedAtFirstFailure(r.cmds, failing))
      && (r.outcome.Completed? ==> NoFailingCall(r.cmds, failing))
    decreases |stages|
  {
    if stages != [] {
      var s := stages[0];
      var r := RunStages(stages, failing);
      if OpFor(s.heat) in failing {
        assert NoFailingCall(Lead(s), failing);
        assert StoppedAtFirstFailure([Call(s)], failing) by {
          assert [Call(s)][..0] == [];
        }
        StoppedAfter(Lead(s), [Call(s)], failing);
      } else {
        RunStagesStop(stages[1..], failing);
        var rest := RunStages(stages[1..], failing);
        StageNoFailingCall(s, failing);
        if rest.outcome.Failed? {
          StoppedAfter(StageCmds(s), rest.cmds, failing);
        } else {
          NoFailingCallAppend(StageCmds(s), rest.cmds, failing);
        }
      }
    }
  }

  /** A run fails exactly when the program uses an operation that fails, and then with OvenFailure. */
  lemma ExecuteFailsIff(p: Program, failing: set<HeatingOp>)
    ensures Execute(p, failing).outcome.Failed? <==> UsedOps(p) * failing != {}
    ensures Execute(p, failing).outcome.Failed? ==> Execute(p, failing).outcome == Failed(OvenFailure)
  {
    RunStagesFailsIff(p.stages, failing);
    var initFails := p.initialTemp != 0 && HeaterOp in failing;
    var stageFails := exists k :: 0 <= k < |p.stages| && OpFor(p.stages[k].heat) in failing;
    assert Execute(p, failing).outcome.Failed? <==> initFails || stageFails;
    if initFails {
      assert HeaterOp in UsedOps(p) * failing;
    } else if stageFails {
      var k :| 0 <= k < |p.stages| && OpFor(p.stages[k].heat) in failing;
      assert OpFor(p.stages[k].heat) in UsedOps(p) * failing;
    }
  }

  /**
   * Whatever fails, the calls made are a prefix of the full trace, and a completed
   * run makes every call of it.
   */
  lemma ExecuteIsPrefix(p: Program, failing: set<HeatingOp>)
    ensures Execute(p, failing).cmds <= FullTrace(p)
    ensures Execute(p, failing).outcome.Completed? ==> Execute(p, failing).cmds == FullTrace(p)
  {
    RunStagesPrefix(p.stages, failing);
    var st := RunStages(p.stages, failing);
    var init := InitCmds(p);
    assert FullTrace(p) == init + (StagesCmds(p.stages) + FinishCmds(p));
    if !(p.initialTemp != 0 && HeaterOp in failing) && st.outcome.Failed? {
      assert StagesCmds(p.stages) == st.cmds + StagesCmds(p.stages)[|st.cmds|..];
    }
  }

  /**
   * A failed run stops right after its first failing call: its last call is a failing
   * heating call and no earlier heating call fails; a completed run has no failing call.
   */
  lemma ExecuteStopsAtFirstFailure(p: Program, failing: set<HeatingOp>)
    ensures var r := Execute(p, failing);
      && (r.outcome.Failed? ==> StoppedAtFirstFailure(r.cmds, failing))
      && (r.outcome.Completed? ==> NoFailingCall(r.cmds, failing))
  {
    var init := InitCmds(p);
    if p.initialTemp != 0 && HeaterOp in failing {
      assert init[..0] == [];
    } else {
      RunStagesStop(p.stages, failing);
      var st := RunStages(p.stages, failing);
      assert NoFailingCall(init, failing);
      if st.outcome.Failed? {
        StoppedAfter(init, st.cmds, failing);
      } else {
        assert NoFailingCall(FinishCmds(p), failing);
        NoFailingCallAppend(init, st.cmds, failing);
        NoFailingCallAppend(init + st.cmds, FinishCmds(p), failing);
      }
    }
  }

  /** With no failing operation in use, a run completes and makes every call of the full trace. */
  lemma NoFailureCompletes(p: Program, failing: set<HeatingOp>)
    requires UsedOps(p) * failing == {}
    ensures Execute(p, failing) == Run(FullTrace(p), Completed)
  {
    ExecuteFailsIff(p, failing);
    ExecuteIsPrefix(p, failing);
  }

  // ---------------------------------------------------------------------------
  // The fan: driven only by thermo-circulation stages and the finishing step
  // ---------------------------------------------------------------------------

  /** Each thermo-circulation stage switches the fan on once and off once; no other stage touches it. */
  lemma {:induction false} StagesFanCount(stages: seq<Stage>)
    ensures Count(FanOn, StagesCmds(stages)) == ThermoStages(stages)
    ensures Count(FanOff, StagesCmds(stages)) == ThermoStages(stages)
    decreases |stages|
  {
    if stages != [] {
      StagesFanCount(stages[1..]);
    }
  }

  /**
   * A completed run switches the fan on once per thermo-circulation stage plus once
   * to cool at finish, and off once per thermo-circulation stage.
   */
  lemma FanCount(p: Program)
    ensures Count(FanOn, FullTrace(p)) == ThermoStages(p.stages) + (if p.coolAtFinish then 1 else 0)
    ensures Count(FanOff, FullTrace(p)) == ThermoStages(p.stages)
  {
    StagesFanCount(p.stages);
  }

  /** A program without thermo-circulation stages and without cooling never switches the fan on. */
  lemma NoFanOnWithoutThermoOrCooling(p: Program, failing: set<HeatingOp>)
    requires ThermoStages(p.stages) == 0 && !p.coolAtFinish
    ensures FanOn !in Execute(p, failing).cmds
  {
    FanCount(p);
    ExecuteIsPrefix(p, failing);
  }

  /** Where the fan is commanded within the stages: around each termalCircuit call, and nowhere else. */
  lemma {:induction false} StagesFanBracketsTermal(stages: seq<Stage>, i: int)
    requires 0 <= i < |StagesCmds(stages)|
    ensures var t := StagesCmds(stages);
      && (t[i] == FanOn ==> i + 1 < |t| && t[i + 1].Heat? && t[i + 1].op == TermalCircuitOp)
      && (t[i] == FanOff ==> 0 < i && t[i - 1].Heat? && t[i - 1].op == TermalCircuitOp)
      && (t[i].Heat? && t[i].op == TermalCircuitOp ==>
            0 < i && i + 1 < |t| && t[i - 1] == FanOn && t[i + 1] == FanOff)
    decreases |stages|
  {
    var t := StagesCmds(stages);
    var h := StageCmds(stages[0]);
    var rest := StagesCmds(stages[1..]);
    assert t == h + rest;
    if i >= |h| {
      StagesFanBracketsTermal(stages[1..], i - |h|);
      assert t[i] == rest[i - |h|];
      if i - |h| > 0 {
        assert t[i - 1] == rest[i - |h| - 1];
      }
      if i - |h| + 1 < |rest| {
        assert t[i + 1] == rest[i - |h| + 1];
      }
    }
  }

  /**
   * In the full trace, the fan is switched on only right before a termalCircuit call
   * or as the very last call when the program cools at finish; it is switched off only
   * right after a termalCircuit call, and every termalCircuit call has the fan on
   * right before it and off right after it.
   */
  lemma FanDiscipline(p: Program, i: int)
    requires 0 <= i < |FullTrace(p)|
    ensures var t := FullTrace(p);
      && (t[i] == FanOn ==>
            (i + 1 < |t| && t[i + 1].Heat? && t[i + 1].op == TermalCircuitOp)
            || (i == |t| - 1 && p.coolAtFinish))
      && (t[i] == FanOff ==> 0 < i && t[i - 1].Heat? && t[i - 1].op == TermalCircuitOp)
      && (t[i].Heat? && t[i].op == TermalCircuitOp ==>
            0 < i && i + 1 < |t| && t[i - 1] == FanOn && t[i + 1] == FanOff)
  {
    var t := FullTrace(p);
    var init := InitCmds(p);
    var mid := StagesCmds(p.stages);
    var j := i - |init|;
    if 0 <= j < |mid| {
      StagesFanBracketsTermal(p.stages, j);
      assert t[i] == mid[j];
      if j > 0 {
        assert t[i - 1] == mid[j - 1];
      } else {
        assert mid[j] != FanOff;
        assert !(mid[j].Heat? && mid[j].op == TermalCircuitOp);
      }
      if j + 1 < |mid| {
        assert t[i + 1] == mid[j + 1];
      } else {
        assert mid[j] != FanOn;
        assert !(mid[j].Heat? && mid[j].op == TermalCircuitOp);
      }
    }
  }

  /** Where the fan ends up after a completed run that started with the fan in state `running`. */
  lemma FanAfterCompletedRun(p: Program, running: bool)
    ensures FanRunning(running, FullTrace(p)) ==
      if p.coolAtFinish then true
      else if ThermoStages(p.stages) > 0 then false
      else running
  {
    FanRunningAppend(running, InitCmds(p), StagesCmds(p.stages) + FinishCmds(p));
    FanRunningAppend(FanRunning(running, InitCmds(p)), StagesCmds(p.stages), FinishCmds(p));
    assert FullTrace(p) == InitCmds(p) + (StagesCmds(p.stages) + FinishCmds(p));
    StagesFanState(p.stages, FanRunning(running, InitCmds(p)));
  }

  /** The fan state after two runs of calls is that after the second, started from the first. */
  lemma {:induction false} FanRunningAppend(running: bool, a: seq<Cmd>, b: seq<Cmd>)
    ensures FanRunning(running, a + b) == FanRunning(FanRunning(running, a), b)
    decreases |b|
  {
    if b != [] {
      assert (a + b)[..|a + b| - 1] == a + b[..|b| - 1];
      FanRunningAppend(running, a, b[..|b| - 1]);
    } else {
      assert a + b == a;
    }
  }

  /** Successful stages leave the fan off when one of them is thermo-circulation, untouched otherwise. */
  lemma {:induction false} StagesFanState(stages: seq<Stage>, running: bool)
    ensures FanRunning(running, StagesCmds(stages)) ==
      if ThermoStages(stages) > 0 then false else running
    decreases |stages|
  {
    if stages != [] {
      var s := stages[0];
      var h := StageCmds(s);
      FanRunningAppend(running, h, StagesCmds(stages[1..]));
      StagesFanState(stages[1..], FanRunning(running, h));
      if s.heat == ThermoCirculation {
        assert h[|h| - 1] == FanOff;
      } else {
        assert h == [Call(s)] && h[..0] == [];
      }
    }
  }

  // ---------------------------------------------------------------------------
  // The scenarios of the oven's tests
  // ---------------------------------------------------------------------------

  /** A failing heater call during the initial heat-up aborts before any stage or fan call. */
  lemma InitialHeatUpFailure(p: Program, failing: set<HeatingOp>)
    requires p.initialTemp != 0 && HeaterOp in failing
    ensures Execute(p, failing) == Run([Heat(HeaterOp, HeatUpSettings(p.initialTemp))], Failed(OvenFailure))
  {
  }

  /**
   * A single stage whose heating operation fails reports OvenFailure, for each heat type:
   * the run is the stage's lead fan call and its failing heating call, with no fan off
   * and no cooling after it.
   */
  lemma SingleStageFailure(s: Stage, cool: bool, failing: set<HeatingOp>)
    requires OpFor(s.heat) in failing
    ensures Execute(Program(0, [s], cool), failing) == Run(Lead(s) + [Call(s)], Failed(OvenFailure))
  {
  }

  /** One successful thermo-circulation stage: fan on, termalCircuit, fan off, then fan on to cool. */
  lemma ThermoStageCallOrder(s: Stage, cool: bool, failing: set<HeatingOp>)
    requires s.heat == ThermoCirculation && TermalCircuitOp !in failing
    ensures Execute(Program(0, [s], cool), failing) ==
      Run([FanOn, Heat(TermalCircuitOp, StageSettings(s)), FanOff] + (if cool then [FanOn] else []), Completed)
  {
    assert [s][1..] == [];
    assert RunStages([s], failing) == Run(StageCmds(s), Completed);
  }

  /** One successful heater stage switches the fan on exactly once with cooling and never without. */
  lemma HeaterStageCooling(s: Stage, cool: bool, failing: set<HeatingOp>)
    requires s.heat == Heater && HeaterOp !in failing
    ensures Execute(Program(0, [s], cool), failing).outcome == Completed
    ensures Count(FanOn, Execute(Program(0, [s], cool), failing).cmds) == if cool then 1 else 0
  {
    var p := Program(0, [s], cool);
    NoFailureCompletes(p, failing);
    FanCount(p);
  }
}
