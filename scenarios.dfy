/**
 * The oven's test scenarios, run against the `Oven` class: each method builds
 * an oven over a heating module whose failing operations are given, runs one
 * program, and states the outcome and the calls recorded.
 */
module OvenScenarios {
  import opened Programs
  import opened Trace
  import opened Ovens

  /** The standard stage: heater at 180 degrees for 120 seconds. */
  function StandardStage(): Stage
  {
    Stage(180, 120, Heater)
  }

  /** A one-stage program starting from temperature zero. */
  function OneStage(s: Stage, cool: bool): Program
  {
    Program(0, [s], cool)
  }

  /** A program whose single stage of the given heat type is at 1 degree for 1 second. */
  function SmallProgram(heat: HeatType, cool: bool): Program
  {
    OneStage(Stage(1, 1, heat), cool)
  }

  /** Builds an oven over a heating module with the given failing operations and a stopped fan. */
  method NewOven(failing: set<HeatingOp>) returns (oven: Oven)
    ensures fresh(oven) && oven.Valid()
    ensures oven.heating.failing == failing && oven.log == [] && !oven.fanRunning
  {
    var r := Oven.Create(Some(HeatingModule(failing)), Some(Fan(false)));
    oven := r.value;
  }

  /** A missing heating module, or a missing fan, is rejected when the oven is built. */
  method MissingCollaborators() returns (noHeating: Result<Oven>, noFan: Result<Oven>)
    ensures noHeating == Err(NullArgument) && noFan == Err(NullArgument)
  {
    noHeating := Oven.Create(None, Some(Fan(false)));
    noFan := Oven.Create(Some(HeatingModule({})), None);
  }

  /** Running no program is rejected before any call. */
  method MissingProgram() returns (outcome: Outcome, calls: seq<Cmd>)
    ensures outcome == Failed(NullArgument) && calls == []
  {
    var oven := NewOven({});
    outcome := oven.RunProgram(None);
    calls := oven.log;
  }

  /** A failing heater during the initial heat-up is reported as OvenFailure after that one call. */
  method InitialHeatUpFails() returns (outcome: Outcome, calls: seq<Cmd>)
    ensures outcome == Failed(OvenFailure)
    ensures calls == [Heat(HeaterOp, Settings(1, 0))]
  {
    var oven := NewOven({HeaterOp});
    outcome := oven.RunProgram(Some(Program(1, [StandardStage()], false)));
    calls := oven.log;
  }

  /** A stage whose heating operation fails is reported as OvenFailure, for each heat type. */
  method StageHeatingFails(heat: HeatType, cool: bool) returns (outcome: Outcome, fanOns: nat)
    ensures outcome == Failed(OvenFailure)
    ensures fanOns == if heat == ThermoCirculation then 1 else 0
  {
    var oven := NewOven({OpFor(heat)});
    outcome := oven.RunProgram(Some(SmallProgram(heat, cool)));
    fanOns := Count(FanOn, oven.log);
  }

  /**
   * A thermo-circulation stage switches the fan on, calls termalCircuit, switches the
   * fan off, and with cooling switches the fan on again at the end.
   */
  method ThermoCirculationOrder(cool: bool) returns (outcome: Outcome, calls: seq<Cmd>)
    ensures outcome == Completed
    ensures calls == [FanOn, Heat(TermalCircuitOp, Settings(1, 1)), FanOff]
                     + (if cool then [FanOn] else [])
  {
    var oven := NewOven({});
    ThermoStageCallOrder(Stage(1, 1, ThermoCirculation), cool, {});
    outcome := oven.RunProgram(Some(SmallProgram(ThermoCirculation, cool)));
    calls := oven.log;
  }

  /** The standard heater program switches the fan on once with cooling, never without. */
  method HeaterCooling(cool: bool) returns (outcome: Outcome, fanOns: nat, running: bool)
    ensures outcome == Completed
    ensures fanOns == (if cool then 1 else 0) && running == cool
  {
    var oven := NewOven({});
    var p := OneStage(StandardStage(), cool);
    HeaterStageCooling(StandardStage(), cool, {});
    NoFailureCompletes(p, {});
    FanAfterCompletedRun(p, false);
    outcome := oven.RunProgram(Some(p));
    fanOns := Count(FanOn, oven.log);
    running := oven.fanRunning;
  }

  /** The three-stage program with an initial heat-up to 30 and cooling runs to completion. */
  method MoreStages() returns (outcome: Outcome, calls: seq<Cmd>)
    ensures outcome == Completed
    ensures calls == [Heat(HeaterOp, Settings(30, 0)), Heat(GrillOp, Settings(180, 60)),
                      FanOn, Heat(TermalCircuitOp, Settings(60, 120)), FanOff,
                      Heat(HeaterOp, Settings(30, 120)), FanOn]
  {
    var oven := NewOven({});
    var p := Program(30, [Stage(180, 60, Grill), Stage(60, 120, ThermoCirculation),
                          Stage(30, 120, Heater)], true);
    outcome := oven.RunProgram(Some(p));
    calls := oven.log;
  }
}
