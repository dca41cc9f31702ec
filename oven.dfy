/**
 * The oven controller: it holds the heating module and the fan it was built
 * with, and runs baking programs by calling them step by step.
 *
 * The calls it makes are recorded, in order, in `log`; the fan's state is
 * kept in `fanRunning`. Each run appends exactly the calls that `Execute`
 * describes.
 */
module Ovens {
  import opened Programs
  import opened Trace

  class Oven {
    /** The heating module: which of its operations fail. */
    const heating: HeatingModule
    /** Whether the fan was running when the oven was built. */
    const fanAtStart: bool
    /** Whether the fan is running now. */
    var fanRunning: bool
    /** Every call made on the heating module and the fan, in order. */
    var log: seq<Cmd>

    /** The fan runs exactly as the fan calls made so far leave it. */
    ghost predicate Valid()
      reads this
    {
      fanRunning == FanRunning(fanAtStart, log)
    }

    /** An oven over present collaborators; no call has been made yet. */
    constructor (heating: HeatingModule, fan: Fan)
      ensures Valid()
      ensures this.heating == heating && fanAtStart == fan.running
      ensures fanRunning == fan.running && log == []
    {
      this.heating := heating;
      fanAtStart := fan.running;
      fanRunning := fan.running;
      log := [];
    }

    /** Builds an oven, rejecting a missing heating module or a missing fan before any call. */
    static method Create(heating: Option<HeatingModule>, fan: Option<Fan>) returns (r: Result<Oven>)
      ensures r.Err? <==> heating.None? || fan.None?
      ensures r.Err? ==> r.error == NullArgument
      ensures r.Ok? ==> && fresh(r.value) && r.value.Valid()
                        && r.value.heating == heating.value
                        && r.value.fanRunning == fan.value.running
                        && r.value.log == []
    {
      if heating.None? || fan.None? {
        return Err(NullArgument);
      }
      var oven := new Oven(heating.value, fan.value);
      return Ok(oven);
    }

    /** Switches the fan on. */
    method TurnFanOn()
      requires Valid()
      modifies this
      ensures Valid()
      ensures log == old(log) + [FanOn]
      ensures fanRunning
    {
      log := log + [FanOn];
      fanRunning := true;
      assert log[..|log| - 1] == old(log);
    }

    /** Switches the fan off. */
    method TurnFanOff()
      requires Valid()
      modifies this
      ensures Valid()
      ensures log == old(log) + [FanOff]
      ensures !fanRunning
    {
      log := log + [FanOff];
      fanRunning := false;
      assert log[..|log| - 1] == old(log);
    }

    /** Calls one heating operation; `ok` is false when the heating module raises an error. */
    method CallHeating(op: HeatingOp, settings: Settings) returns (ok: bool)
      requires Valid()
      modifies this
      ensures Valid()
      ensures log == old(log) + [Heat(op, settings)]
      ensures fanRunning == old(fanRunning)
      ensures ok <==> op !in heating.failing
    {
      log := log + [Heat(op, settings)];
      assert log[..|log| - 1] == old(log);
      ok := op !in heating.failing;
    }

    /**
     * Runs one stage: a thermo-circulation stage switches the fan on before its heating
     * call and off after it; heater and grill stages make only their heating call.
     * A failing heating call ends the stage at once, leaving the fan as it is.
     */
    method RunStage(s: Stage) returns (ok: bool)
      requires Valid()
      modifies this
      ensures Valid()
      ensures ok <==> OpFor(s.heat) !in heating.failing
      ensures ok ==> log == old(log) + StageCmds(s)
      ensures !ok ==> log == old(log) + Lead(s) + [Call(s)]
    {
      if s.heat == ThermoCirculation {
        TurnFanOn();
        ok := CallHeating(TermalCircuitOp, StageSettings(s));
        if ok {
          TurnFanOff();
          AppendAssoc(old(log), [FanOn] + [Call(s)], [FanOff]);
          AppendAssoc(old(log), [FanOn], [Call(s)]);
        }
      } else {
        ok := CallHeating(OpFor(s.heat), StageSettings(s));
        assert Lead(s) == [] && Close(s) == [];
        assert [] + [Call(s)] + [] == [Call(s)];
        assert old(log) + [] == old(log);
      }
    }

    /** Runs the stages in order, stopping at the first one whose heating call fails. */
    method RunAllStages(stages: seq<Stage>) returns (ok: bool)
      requires Valid()
      modifies this
      ensures Valid()
      ensures ok == RunStages(stages, heating.failing).outcome.Completed?
      ensures log == old(log) + RunStages(stages, heating.failing).cmds
    {
      ghost var f := heating.failing;
      ghost var st := RunStages(stages, f);
      var i := 0;
      while i < |stages|
        invariant 0 <= i <= |stages|
        invariant Valid()
        invariant old(log) + st.cmds == log + RunStages(stages[i..], f).cmds
        invariant RunStages(stages[i..], f).outcome == st.outcome
      {
        var s := stages[i];
        ghost var before := log;
        RunStagesStep(stages, i, f);
        ok := RunStage(s);
        if !ok {
          return;
        }
        AppendAssoc(before, StageCmds(s), RunStages(stages[i + 1..], f).cmds);
        i := i + 1;
      }
      return true;
    }

    /**
     * Runs a baking program: a missing program is rejected before any call; otherwise
     * the calls made and the outcome are those of `Execute` against this heating module.
     */
    method RunProgram(program: Option<Program>) returns (outcome: Outcome)
      requires Valid()
      modifies this
      ensures Valid()
      ensures program.None? ==> outcome == Failed(NullArgument) && log == old(log)
      ensures program.Some? ==>
        var run := Execute(program.value, heating.failing);
        && outcome == run.outcome
        && log == old(log) + run.cmds
        && fanRunning == FanRunning(old(fanRunning), run.cmds)
    {
      if program.None? {
        return Failed(NullArgument);
      }
      var p := program.value;
      ghost var f := heating.failing;
      ghost var st := RunStages(p.stages, f);

      if p.initialTemp != 0 {
        var ok := CallHeating(HeaterOp, HeatUpSettings(p.initialTemp));
        if !ok {
          FanRunningAppend(fanAtStart, old(log), Execute(p, f).cmds);
          return Failed(OvenFailure);
        }
      } else {
        assert old(log) + InitCmds(p) == old(log);
      }
      assert log == old(log) + InitCmds(p);
      AppendAssoc(old(log), InitCmds(p), st.cmds);
      var ok := RunAllStages(p.stages);
      assert log == old(log) + (InitCmds(p) + st.cmds);
      if !ok {
        RunStagesFailsIff(p.stages, f);
        assert Execute(p, f) == Run(InitCmds(p) + st.cmds, Failed(OvenFailure));
        FanRunningAppend(fanAtStart, old(log), Execute(p, f).cmds);
        return Failed(OvenFailure);
      }
      ghost var done := InitCmds(p) + st.cmds;
      if p.coolAtFinish {
        TurnFanOn();
      } else {
        assert done + FinishCmds(p) == done;
      }
      AppendAssoc(old(log), done, FinishCmds(p));
      assert Execute(p, f) == Run(done + FinishCmds(p), Completed);
      FanRunningAppend(fanAtStart, old(log), Execute(p, f).cmds);
      return Completed;
    }
  }
}
