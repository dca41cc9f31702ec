/**
 * Data model of a baking program and of the commands the oven issues to its
 * two collaborators, the heating module and the fan.
 */
module Programs {

  /** How a stage heats: selects which heating-module operation the stage calls. */
  datatype HeatType = Heater | ThermoCirculation | Grill

  /** One phase of a baking program: target temperature (degrees), time (seconds), heat type. */
  datatype Stage = Stage(targetTemp: int, stageTime: int, heat: HeatType)

  /** A baking program: its stages run in sequence order. */
  datatype Program = Program(initialTemp: int, stages: seq<Stage>, coolAtFinish: bool)

  /** The settings handed to one heating-module call. */
  datatype Settings = Settings(temperature: int, time: int)

  /** The three operations of the heating module: heater, termalCircuit and grill. */
  datatype HeatingOp = HeaterOp | TermalCircuitOp | GrillOp

  /** One call made by the oven on a collaborator, in the order it is made. */
  datatype Cmd = FanOn | FanOff | Heat(op: HeatingOp, settings: Settings)

  /**
   * The heating module as the oven sees it: which of its operations fail.
   * An operation in `failing` raises a heating error on every call.
   */
  datatype HeatingModule = HeatingModule(failing: set<HeatingOp>)

  /** The fan as the oven finds it: whether it is running. */
  datatype Fan = Fan(running: bool)

  /** The errors surfaced to callers of the oven. */
  datatype OvenError =
    | NullArgument   // a missing collaborator or a missing program
    | OvenFailure    // any heating error, wrapped

  /** How a call to the oven ended. */
  datatype Outcome = Completed | Failed(error: OvenError)

  /** A reference that may be missing (Java's null). */
  datatype Option<T> = None | Some(value: T)

  /** The value of a fallible construction. */
  datatype Result<T> = Ok(value: T) | Err(error: OvenError)

  /**
   * The heating-module operation a stage of the given heat type calls: each heat
   * type selects its own operation.
   */
  function OpFor(heat: HeatType): (op: HeatingOp)
    ensures op == HeaterOp <==> heat == Heater
    ensures op == TermalCircuitOp <==> heat == ThermoCirculation
    ensures op == GrillOp <==> heat == Grill
  {
    match heat
    case Heater => HeaterOp
    case ThermoCirculation => TermalCircuitOp
    case Grill => GrillOp
  }

  /** The settings a stage hands to its heating operation. */
  function StageSettings(s: Stage): Settings
  {
    Settings(s.targetTemp, s.stageTime)
  }

  /** Hold time used for the initial heat-up: reach the temperature, hold for no time. */
  const HeatUpTime: int := 0

  /** The settings of the initial heat-up to `temp`. */
  function HeatUpSettings(temp: int): Settings
  {
    Settings(temp, HeatUpTime)
  }
}
