/**
 * The Flask motor server (raspi_code.py): two motors in a dictionary keyed
 * "motor1" and "motor2", and route handlers that look a motor up by the
 * name in the URL path, act on it and answer with its state, or answer
 * 404 when the name is unknown. URL matching, JSON encoding, the home and
 * cleanup routes and the GPIO pins are not modelled.
 */
module FlaskServer {
  import opened Common
  import opened PyText

  /** `set_pwm` clamps to a duty cycle in [0, 100]. */
  const MaxPwm: int := 100

  class MotorController {
    const name: string
    var currentState: Direction
    var pwmValue: int

    ghost predicate Valid()
      reads this
    {
      0 <= pwmValue <= MaxPwm
    }

    constructor (name: string)
      ensures Valid()
      ensures this.name == name && currentState == Off && pwmValue == 0
    {
      this.name := name;
      currentState := Off;
      pwmValue := 0;
    }

    /** The direction changes; the duty cycle does not. */
    method MotorForward()
      modifies this`currentState
      ensures currentState == Direction.Forward
    {
      currentState := Direction.Forward;
    }

    method MotorBackward()
      modifies this`currentState
      ensures currentState == Direction.Backward
    {
      currentState := Direction.Backward;
    }

    method MotorOff()
      modifies this`currentState
      ensures currentState == Off
    {
      currentState := Off;
    }

    /** The duty cycle becomes the value clamped to [0, 100]; the direction stays. */
    method SetPwm(value: int)
      modifies this`pwmValue
      ensures Valid()
      ensures pwmValue == Clamp(0, MaxPwm, value)
    {
      pwmValue := Max(0, Min(MaxPwm, value));
    }

    /** The motor's JSON state: its name, its direction's label and its duty cycle. */
    function GetState(): (r: MotorReport)
      reads this
      ensures r.name == name && r.state == currentState.Label() && r.level == pwmValue
      ensures Valid() ==> 0 <= r.level <= MaxPwm
    {
      MotorReport(name, currentState.Label(), pwmValue)
    }
  }

  /** A route's answer: the JSON state of one motor, or "Motor not found" with status 404. */
  datatype Reply = Json(state: MotorReport) | NotFound

  /**
   * `request.args.get('value', default=0, type=int)`: the query argument
   * read by `int()`, and 0 when it is absent or `int()` rejects it.
   */
  function PwmArgument(value: Option<string>): (v: int)
    ensures value.None? ==> v == 0
    ensures value.Some? && ParseInt(value.value).None? ==> v == 0
    ensures value.Some? && ParseInt(value.value).Some? ==> v == ParseInt(value.value).value
  {
    match value
    case None => 0
    case Some(text) => ParseInt(text).GetOr(0)
  }

  /** A number written in the query string is the number `set_pwm` receives. */
  lemma PwmArgumentShow(n: int)
    ensures PwmArgument(Some(Show(n))) == n
  {
    ParseIntShow(n);
  }

  /** The module-level dictionary `motors` and the handlers that use it. */
  class MotorApp {
    const motors: map<string, MotorController>

    /** Distinct names hold distinct controllers, each in range. */
    ghost predicate Valid()
      reads motors.Values
    {
      && (forall a, b :: a in motors && b in motors && a != b ==> motors[a] != motors[b])
      && (forall a :: a in motors ==> motors[a].Valid())
    }

    constructor ()
      ensures Valid()
      ensures motors.Keys == {"motor1", "motor2"}
      ensures motors["motor1"].name == "Motor 1" && motors["motor2"].name == "Motor 2"
      ensures forall a :: a in motors ==> fresh(motors[a])
      ensures forall a :: a in motors ==> motors[a].currentState == Off && motors[a].pwmValue == 0
    {
      var m1 := new MotorController("Motor 1");
      var m2 := new MotorController("Motor 2");
      motors := map["motor1" := m1, "motor2" := m2];
    }

    /** `/state`: each motor's report under its dictionary name. */
    function GetStates(): (states: map<string, MotorReport>)
      reads motors.Values
      ensures states.Keys == motors.Keys
      ensures forall a :: a in states ==> states[a].name == motors[a].name
      ensures forall a :: a in states ==>
        states[a].state == motors[a].currentState.Label() && states[a].level == motors[a].pwmValue
    {
      map a | a in motors :: motors[a].GetState()
    }

    /** All motors other than `motorName` are as they were. */
    twostate predicate OthersUnchanged(motorName: string)
      reads motors.Values
    {
      forall a :: a in motors && a != motorName ==> unchanged(motors[a])
    }

    /** `/<motor_name>/forward`. */
    method MotorForward(motorName: string) returns (reply: Reply)
      requires Valid()
      modifies motors.Values
      ensures Valid()
      ensures motorName !in motors ==> reply == NotFound && unchanged(motors.Values)
      ensures motorName in motors ==>
        && motors[motorName].currentState == Direction.Forward
        && motors[motorName].pwmValue == old(motors[motorName].pwmValue)
        && OthersUnchanged(motorName)
        && reply == Json(motors[motorName].GetState())
    {
      if motorName in motors {
        motors[motorName].MotorForward();
        reply := Json(motors[motorName].GetState());
      } else {
        reply := NotFound;
      }
    }

    /** `/<motor_name>/backward`. */
    method MotorBackward(motorName: string) returns (reply: Reply)
      requires Valid()
      modifies motors.Values
      ensures Valid()
      ensures motorName !in motors ==> reply == NotFound && unchanged(motors.Values)
      ensures motorName in motors ==>
        && motors[motorName].currentState == Direction.Backward
        && motors[motorName].pwmValue == old(motors[motorName].pwmValue)
        && OthersUnchanged(motorName)
        && reply == Json(motors[motorName].GetState())
    {
      if motorName in motors {
        motors[motorName].MotorBackward();
        reply := Json(motors[motorName].GetState());
      } else {
        reply := NotFound;
      }
    }

    /** `/<motor_name>/off`. */
    method MotorOff(motorName: string) returns (reply: Reply)
      requires Valid()
      modifies motors.Values
      ensures Valid()
      ensures motorName !in motors ==> reply == NotFound && unchanged(motors.Values)
      ensures motorName in motors ==>
        && motors[motorName].currentState == Off
        && motors[motorName].pwmValue == old(motors[motorName].pwmValue)
        && OthersUnchanged(motorName)
        && reply == Json(motors[motorName].GetState())
    {
      if motorName in motors {
        motors[motorName].MotorOff();
        reply := Json(motors[motorName].GetState());
      } else {
        reply := NotFound;
      }
    }

    /**
     * `/<motor_name>/pwm?value=...`: the duty cycle becomes the query
     * argument (0 when absent or not a number) clamped to [0, 100].
     */
    method SetPwm(motorName: string, value: Option<string>) returns (reply: Reply)
      requires Valid()
      modifies motors.Values
      ensures Valid()
      ensures motorName !in motors ==> reply == NotFound && unchanged(motors.Values)
      ensures motorName in motors ==>
        && motors[motorName].currentState == old(motors[motorName].currentState)
        && motors[motorName].pwmValue == Clamp(0, MaxPwm, PwmArgument(value))
        && OthersUnchanged(motorName)
        && reply == Json(motors[motorName].GetState())
    {
      if motorName in motors {
        var pwmValue := PwmArgument(value);
        motors[motorName].SetPwm(pwmValue);
        reply := Json(motors[motorName].GetState());
      } else {
        reply := NotFound;
      }
    }
  }
}
