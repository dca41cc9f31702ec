# Oven controller model

A Dafny model of the oven controller in package `edu.iis.mto.oven`. The controller
takes a baking program and drives two collaborators: a heating module and a fan.
The program has an initial temperature, an ordered list of stages, and a
`coolAtFinish` flag. Each stage has a target temperature, a time and a heat type
(`HEATER`, `THERMO_CIRCULATION` or `GRILL`). The heating module has the operations
`heater`, `termalCircuit` and `grill`; the fan has `on` and `off`.

`Oven.java` is not available; its behaviour is taken from `OvenTest.java`, which
fixes call counts and call order. Where the tests do not observe a call, the
model states an assumption, which no test observes; "## Left out" lists each one.
The model has four modules:

- `Programs` (`program.dfy`): the data model. It defines the heat types, stages,
  programs and settings. A `Cmd` is one call on a collaborator (`FanOn`, `FanOff`,
  `Heat(op, settings)`). A `HeatingModule` is described by the set of its operations
  that fail; a failing operation raises a heating error on every call. The two
  errors surfaced to callers are `NullArgument` and `OvenFailure`.
- `Trace` (`trace.dfy`): the specification as pure functions, with lemmas about it.
  `FullTrace(p)` is the list of calls of a run in which nothing fails. `Execute(p, failing)`
  is the run against a heating module whose `failing` operations raise an error.
  The heat-type dispatch of a single stage is `StageCmds`.
- `Ovens` (`oven.dfy`): the controller as a class. `log` records every call in order
  and `fanRunning` is the fan's state. `RunProgram` loops over the stages and stops
  at the first failure. It is proved to append exactly `Execute`'s calls to `log`
  and to return `Execute`'s outcome. Its invariant is that the fan's state is the
  one left by the last fan call in `log`.
- `OvenScenarios` (`scenarios.dfy`): each test of `OvenTest.java` replayed against
  the class, with the outcome and the recorded calls stated.

Behaviour the model follows. The tests pin down the thermo-circulation call
order, the cooling fan call, the `HEATER` stage's fan behaviour and the error
kinds. The heat-up call, the `GRILL` part of the third bullet and the absence of
any `fan.off()` for `HEATER` and `GRILL` stages are the model's assumptions, which
no test observes:

- A non-zero initial temperature first calls `heater` with that temperature and
  hold time 0.
- A `THERMO_CIRCULATION` stage calls `fan.on()`, then `termalCircuit`, then `fan.off()`.
- `HEATER` and `GRILL` stages make only their heating call and never switch the fan
  on. A rule that switched the fan on before every stage would fail the test at
  `OvenTest.java:111-115`, so the model has no such rule.
- With `coolAtFinish`, a final `fan.on()` comes after all stages.
- The first heating error aborts the run and is reported as `OvenFailure`, never
  as the raw heating error.

## Model

| member | source | states |
|---|---|---|
| `Programs.OpFor` | testsReactor/src/test/java/edu/iis/mto/oven/OvenTest.java:69-131 | each heat type selects its own heating operation: heater for `HEATER`, termalCircuit for `THERMO_CIRCULATION`, grill for `GRILL`, in both directions |
| `Trace.StageCmds` | testsReactor/src/test/java/edu/iis/mto/oven/OvenTest.java:77-115 | a successful stage makes three calls when thermo-circulation and one otherwise, and its heating call, after the lead fan call, is the selected operation with the stage's settings (no fan call for `HEATER`/`GRILL` is the model's assumption) |
| `Trace.FullTrace` | testsReactor/src/test/java/edu/iis/mto/oven/OvenTest.java:133-157 | a run that completes starts with the heat-up heater call when the initial temperature is not zero, and ends with fan on when the program cools at finish (the heat-up call is the model's assumption, which no test observes) |
| `Trace.RunStages` | testsReactor/src/test/java/edu/iis/mto/oven/OvenTest.java:117-157 | the stage loop runs the stages in order; when it fails, it reports OvenFailure and its last call is a failing heating call |
| `Trace.Execute` | testsReactor/src/test/java/edu/iis/mto/oven/OvenTest.java:52-157 | the whole run: heat-up, the stages in order, fan on when cooling; when it fails, it reports OvenFailure and its last call is a failing heating call |
| `Trace.StageDispatch` | testsReactor/src/test/java/edu/iis/mto/oven/OvenTest.java:78-115 | a stage makes exactly one heating call, of the operation its heat type selects, with its own settings; only a thermo-circulation stage commands the fan, with one on before and one off after the call (the zero fan counts for `HEATER`/`GRILL` stages are the model's assumption, which the tests observe only for fan on) |
| `Trace.RunStagesFailsIff` | testsReactor/src/test/java/edu/iis/mto/oven/OvenTest.java:117-131 | running the stages fails if and only if some stage's heating operation fails, and the failure is OvenFailure |
| `Trace.RunStagesPrefix` | testsReactor/src/test/java/edu/iis/mto/oven/OvenTest.java:142-157 | the calls made by the stages are a prefix of their failure-free trace, and all of it when they complete |
| `Trace.RunStagesStop` | testsReactor/src/test/java/edu/iis/mto/oven/OvenTest.java:69-75 | a failed stage run ends with a failing heating call and no earlier call fails; a completed one has no failing call |
| `Trace.ExecuteFailsIff` | testsReactor/src/test/java/edu/iis/mto/oven/OvenTest.java:57-75 | a run fails if and only if the program uses a failing operation (including the initial heater call), and then reports OvenFailure |
| `Trace.ExecuteIsPrefix` | testsReactor/src/test/java/edu/iis/mto/oven/OvenTest.java:77-86 | whatever fails, the calls made are a prefix of the full trace; a completed run makes every call of it in order |
| `Trace.ExecuteStopsAtFirstFailure` | testsReactor/src/test/java/edu/iis/mto/oven/OvenTest.java:57-67 | a failed run stops right after its first failing heating call; a completed run contains no failing call |
| `Trace.NoFailureCompletes` | testsReactor/src/test/java/edu/iis/mto/oven/OvenTest.java:133-157 | when no operation the program uses fails, the run completes with exactly the full trace |
| `Trace.StagesFanCount` | testsReactor/src/test/java/edu/iis/mto/oven/OvenTest.java:88-115 | the stages switch the fan on, and off, exactly once per thermo-circulation stage (the fan-off part is the model's choice for `HEATER`/`GRILL` stages, which the tests do not observe) |
| `Trace.FanCount` | testsReactor/src/test/java/edu/iis/mto/oven/OvenTest.java:88-115 | a completed run switches the fan on once per thermo-circulation stage plus once for cooling, and off once per thermo-circulation stage (the fan-off part is the model's choice for `HEATER`/`GRILL` stages, which the tests do not observe) |
| `Trace.NoFanOnWithoutThermoOrCooling` | testsReactor/src/test/java/edu/iis/mto/oven/OvenTest.java:111-115 | with no thermo-circulation stage and no cooling, no run switches the fan on, whatever fails |
| `Trace.StagesFanBracketsTermal` | testsReactor/src/test/java/edu/iis/mto/oven/OvenTest.java:77-86 | in the stages' trace every fan on is followed by termalCircuit, every fan off follows termalCircuit, and every termalCircuit has fan on before and fan off after (the fan-off part is the model's choice for `HEATER`/`GRILL` stages, which the tests do not observe) |
| `Trace.FanDiscipline` | testsReactor/src/test/java/edu/iis/mto/oven/OvenTest.java:100-109 | in the full trace the fan is switched on only right before termalCircuit or as the last call when cooling, and off only right after termalCircuit (the fan-off part is the model's choice for `HEATER`/`GRILL` stages, which the tests do not observe) |
| `Trace.StagesFanState` | testsReactor/src/test/java/edu/iis/mto/oven/OvenTest.java:100-109 | after successful stages the fan is off if some stage was thermo-circulation, and as it was otherwise (the unchanged-fan case is the model's choice for `HEATER`/`GRILL` stages, which the tests do not observe) |
| `Trace.FanAfterCompletedRun` | testsReactor/src/test/java/edu/iis/mto/oven/OvenTest.java:88-109 | after a completed run the fan runs if the program cools at finish; otherwise it is off after any thermo-circulation stage and untouched without one (the unchanged-fan case is the model's choice for `HEATER`/`GRILL` stages, which the tests do not observe) |
| `Trace.InitialHeatUpFailure` | testsReactor/src/test/java/edu/iis/mto/oven/OvenTest.java:57-67 | a failing heater with a non-zero initial temperature aborts with OvenFailure after that single call: no stage call and no fan call (the test observes only the OvenFailure; the calls are the model's assumption) |
| `Trace.SingleStageFailure` | testsReactor/src/test/java/edu/iis/mto/oven/OvenTest.java:117-131 | a single stage whose operation fails reports OvenFailure for every heat type; the run is exactly the stage's lead fan call (thermo-circulation only) and its failing call, with no fan off and no cooling fan call |
| `Trace.ThermoStageCallOrder` | testsReactor/src/test/java/edu/iis/mto/oven/OvenTest.java:77-109 | a successful thermo-circulation stage gives fan on, termalCircuit, fan off, then fan on when cooling |
| `Trace.HeaterStageCooling` | testsReactor/src/test/java/edu/iis/mto/oven/OvenTest.java:88-115 | a successful heater stage switches the fan on exactly once with cooling and never without |
| `Ovens.Oven.constructor` | testsReactor/src/test/java/edu/iis/mto/oven/OvenTest.java:37-40 | a new oven holds the given heating module and fan and has made no call |
| `Ovens.Oven.Create` | testsReactor/src/test/java/edu/iis/mto/oven/OvenTest.java:42-50 | building an oven fails with NullArgument exactly when the heating module or the fan is missing |
| `Ovens.Oven.TurnFanOn` | testsReactor/src/test/java/edu/iis/mto/oven/OvenTest.java:83 | switching the fan on appends exactly one `fan.on()` call to the log and leaves the fan running |
| `Ovens.Oven.TurnFanOff` | testsReactor/src/test/java/edu/iis/mto/oven/OvenTest.java:85 | switching the fan off appends exactly one `fan.off()` call to the log and leaves the fan stopped |
| `Ovens.Oven.CallHeating` | testsReactor/src/test/java/edu/iis/mto/oven/OvenTest.java:57-59 | a heating call is recorded, fails exactly when its operation is a failing one, and leaves the fan alone |
| `Ovens.Oven.RunStage` | testsReactor/src/test/java/edu/iis/mto/oven/OvenTest.java:77-86 | one stage appends its calls to the log, stopping right after a failing heating call |
| `Ovens.Oven.RunAllStages` | testsReactor/src/test/java/edu/iis/mto/oven/OvenTest.java:142-157 | the stage loop appends exactly the calls of `RunStages` and succeeds exactly when it completes |
| `Ovens.Oven.RunProgram` | testsReactor/src/test/java/edu/iis/mto/oven/OvenTest.java:52-157 | a missing program is rejected with NullArgument and no call; otherwise the calls appended and the outcome are those of `Execute`, and the fan ends as those calls leave it |
| `OvenScenarios.NewOven` | testsReactor/src/test/java/edu/iis/mto/oven/OvenTest.java:37-40 | an oven over present collaborators is built with no call made |
| `OvenScenarios.MissingCollaborators` | testsReactor/src/test/java/edu/iis/mto/oven/OvenTest.java:42-50 | a missing heating module and a missing fan are each rejected with NullArgument |
| `OvenScenarios.MissingProgram` | testsReactor/src/test/java/edu/iis/mto/oven/OvenTest.java:52-55 | running no program is rejected with NullArgument and makes no call |
| `OvenScenarios.InitialHeatUpFails` | testsReactor/src/test/java/edu/iis/mto/oven/OvenTest.java:57-67 | initial temperature 1 with a failing heater gives OvenFailure after the single heat-up call (the test observes only the OvenFailure) |
| `OvenScenarios.StageHeatingFails` | testsReactor/src/test/java/edu/iis/mto/oven/OvenTest.java:69-131 | for each heat type, a failing stage operation gives OvenFailure; only the thermo-circulation stage switched the fan on first |
| `OvenScenarios.ThermoCirculationOrder` | testsReactor/src/test/java/edu/iis/mto/oven/OvenTest.java:77-109 | the recorded calls are fan on, termalCircuit, fan off, and with cooling a final fan on |
| `OvenScenarios.HeaterCooling` | testsReactor/src/test/java/edu/iis/mto/oven/OvenTest.java:88-115 | the standard heater program switches the fan on once with cooling and never without, and the fan runs at the end exactly when cooling |
| `OvenScenarios.MoreStages` | testsReactor/src/test/java/edu/iis/mto/oven/OvenTest.java:142-157 | the three-stage program with heat-up to 30 and cooling completes with heat-up, grill, fan on, termalCircuit, fan off, heater, fan on |

## Left out

- `Oven.java` is not available. Most behaviour above comes from its tests, and
  each member cites the test lines it follows. The tests do not observe four
  things the model assumes:
  - the initial heat-up call `heater(initialTemp, 0)`, with its temperature and
    hold time (`OvenTest.java:57-67` asserts only the exception, and a failing
    stage heater would raise it as well);
  - that a failed heat-up makes no stage call and no fan call
    (`Trace.InitialHeatUpFailure`, `OvenScenarios.InitialHeatUpFails`);
  - that `GRILL` stages never switch the fan on (`OvenTest.java:117-123` asserts
    only the exception);
  - that `HEATER` and `GRILL` stages never switch the fan off. The tests check only
    `fan.on()` for these stages (`OvenTest.java:88-98`, `111-115`) and never check
    for missing further calls. The zero fan counts of `Trace.StageDispatch` for
    these stages, the `FanOff` counts of `Trace.StagesFanCount` and
    `Trace.FanCount`, the absence of a fan off after a failing stage in
    `Trace.SingleStageFailure`, the "off only right after termalCircuit" clauses of
    `Trace.StagesFanBracketsTermal` and `Trace.FanDiscipline`, and the "fan
    untouched without a thermo-circulation stage" cases of `Trace.StagesFanState`
    and `Trace.FanAfterCompletedRun` rest on this choice.
- HeatingModule: a heating operation either fails on every call or never fails,
  for the oven's whole lifetime, as the tests' `doThrow` stubs do. A module whose
  operation fails on one call and succeeds on another cannot be expressed, for
  example a heat-up `heater` that succeeds followed by a stage `heater` that fails.
  `Trace.ExecuteFailsIff` is stated under this assumption.
- Fan calls after a failing thermo-circulation call are not modelled. The model
  makes no `fan.off()` there, because the tests do not constrain that case.
- The model makes no fan call for `HEATER` and `GRILL` stages; the tests only
  forbid `fan.on()` for a `HEATER` stage.
- Settings: the stage's temperature and time, and the initial heat-up's hold time
  of 0, are carried in each `Heat` call. The tests match them with `any(...)`, so
  no other property of their values is stated.
- The wrapped cause of `OvenFailure` is not kept: the model's error carries no
  cause, and nothing observable depends on it.
- Builders for stages and programs are plain data assembly. They are replaced by
  datatype constructors.
- Mockito machinery (mocks, `verify`, `InOrder`, `doThrow`) is replaced by the
  call log and the set of failing operations.
- Java `int` width: temperatures and times are unbounded integers. The model does
  no arithmetic on them, and the tests use only values from 0 to 180.
- Real heating hardware, fan hardware, elapsed time and temperature sensing are
  external and are not modelled.
- Concurrency: none exists, since `runProgram` is one synchronous call.
- An empty stage list is accepted and runs only the heat-up and finish steps,
  since nothing in the tests rejects it.
