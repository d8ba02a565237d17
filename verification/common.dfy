/** Values shared by the three motor controllers and the servers around them. */
module Common {

  datatype Option<+T> = None | Some(value: T) {
    /** The value, or `default` when there is none. */
    function GetOr(default: T): T
    {
      match this
      case Some(v) => v
      case None => default
    }
  }

  function Min(a: int, b: int): int { if a <= b then a else b }

  function Max(a: int, b: int): int { if a >= b then a else b }

  /** `max(lo, min(hi, value))`, the expression every `set_pwm` stores. */
  function Clamp(lo: int, hi: int, value: int): (r: int)
    requires lo <= hi
    ensures lo <= r <= hi
    ensures lo <= value <= hi ==> r == value
    ensures value <= lo ==> r == lo
    ensures hi <= value ==> r == hi
  {
    Max(lo, Min(hi, value))
  }

  /** The `current_state` of a motor: one of the strings "off", "forward", "backward". */
  datatype Direction = Off | Forward | Backward {
    function Label(): string
    {
      match this
      case Off => "off"
      case Forward => "forward"
      case Backward => "backward"
    }
  }

  /**
   * What a motor's `get_state` reports. The websocket server serialises
   * `level` under the key "power", the two HTTP servers under "pwm".
   */
  datatype MotorReport = MotorReport(name: string, state: string, level: int)
}
