/** Commands and results of AERO control, from
    src/ventilation_core/domain/aero_control.py. */
module AeroControl {
  import opened Common

  datatype Kind = Speed | Airing

  const SPEED_REGISTER := 1080
  const AIRING_REGISTER := 1081

  datatype RawCommand = RawCommand(kind: Kind, value: int)
  {
    /** The constructor accepts only these values; the register follows from the kind. */
    predicate Valid() {
      0 <= value <= if kind.Speed? then 3 else 1
    }

    function Register(): int {
      if kind.Speed? then SPEED_REGISTER else AIRING_REGISTER
    }
  }

  type Command = c: RawCommand | c.Valid()
    witness RawCommand(Speed, 0)

  datatype FanPower = FanPower(fan1: int, fan2: int)

  datatype ExecutionState = SUCCEEDED | FAILED

  datatype ControlResult = ControlResult(
    command: Command, state: ExecutionState, previous: int, readback: Option<int>,
    baseline: Option<FanPower>, observed: Option<FanPower>, recovered: bool, confirmed: bool)
}
