/**
 * The websocket server on the Raspberry Pi (sockets/server_rasp.py): two
 * GPIO motors behind a `RobotController`, movement commands that drive
 * them, and a connection registry that stops stream and motors when the
 * last client leaves. The file elides the bodies of `VideoStream` and
 * `on_message` as unchanged from sockets/server.py; the stream here is
 * `Server.VideoStream`, and no `on_message` is modelled.
 */
module RaspServer {
  import opened Common
  import opened Protocol
  import Server

  /** `set_pwm` clamps to a duty cycle in [0, 100]. */
  const MaxPower: int := 100

  class MotorController {
    const name: string
    var currentState: Direction
    var pwmValue: int

    ghost predicate Valid()
      reads this
    {
      0 <= pwmValue <= MaxPower
    }

    constructor (name: string)
      ensures Valid()
      ensures this.name == name && currentState == Off && pwmValue == 0
    {
      this.name := name;
      currentState := Off;
      pwmValue := 0;
    }

    /** `set_pwm`: the duty cycle is the requested value clamped to [0, 100]; the direction stays. */
    method SetPwm(value: int)
      modifies this`pwmValue
      ensures Valid()
      ensures pwmValue == Clamp(0, MaxPower, value)
    {
      pwmValue := Max(0, Min(MaxPower, value));
    }

    method Forward(power: int)
      modifies this
      ensures Valid()
      ensures currentState == Direction.Forward && pwmValue == Clamp(0, MaxPower, power)
    {
      SetPwm(power);
      currentState := Direction.Forward;
    }

    method Backward(power: int)
      modifies this
      ensures Valid()
      ensures currentState == Direction.Backward && pwmValue == Clamp(0, MaxPower, power)
    {
      SetPwm(power);
      currentState := Direction.Backward;
    }

    method Stop()
      modifies this
      ensures Valid()
      ensures currentState == Off && pwmValue == 0
    {
      SetPwm(0);
      currentState := Off;
    }

    /** The motor's JSON state: its name, its direction's label and its duty cycle. */
    function GetState(): (r: MotorReport)
      reads this
      ensures r.name == name && r.state == currentState.Label() && r.level == pwmValue
      ensures Valid() ==> 0 <= r.level <= MaxPower
    {
      MotorReport(name, currentState.Label(), pwmValue)
    }
  }

  /**
   * The directions (left, right) a movement command puts the motors in;
   * `None` for a command `handle_movement` does not know.
   */
  function Manoeuvre(command: string): (m: Option<(Direction, Direction)>)
    ensures m.Some? <==> command in {"forward", "backward", "left", "right", "stop"}
    ensures command == "forward" ==> m == Some((Direction.Forward, Direction.Forward))
    ensures command == "backward" ==> m == Some((Direction.Backward, Direction.Backward))
    ensures command == "left" ==> m == Some((Direction.Backward, Direction.Forward))
    ensures command == "right" ==> m == Some((Direction.Forward, Direction.Backward))
    ensures command == "stop" ==> m == Some((Off, Off))
  {
    if command == "forward" then Some((Forward, Forward))
    else if command == "backward" then Some((Backward, Backward))
    else if command == "left" then Some((Backward, Forward))
    else if command == "right" then Some((Forward, Backward))
    else if command == "stop" then Some((Off, Off))
    else None
  }

  /** The duty cycle a motor ends with: 0 when stopped, the clamped power otherwise. */
  function PowerFor(d: Direction, power: int): int
  {
    if d == Off then 0 else Clamp(0, MaxPower, power)
  }

  class RobotController {
    const leftMotor: MotorController
    const rightMotor: MotorController

    ghost predicate Valid()
      reads this, leftMotor, rightMotor
    {
      leftMotor != rightMotor && leftMotor.Valid() && rightMotor.Valid()
    }

    /** Both motors are in the given directions, with the duty cycles `power` gives them. */
    ghost predicate Drives(left: Direction, right: Direction, power: int)
      reads this, leftMotor, rightMotor
    {
      && leftMotor.currentState == left && leftMotor.pwmValue == PowerFor(left, power)
      && rightMotor.currentState == right && rightMotor.pwmValue == PowerFor(right, power)
    }

    constructor ()
      ensures Valid() && fresh(leftMotor) && fresh(rightMotor)
      ensures leftMotor.name == "Left Motor" && rightMotor.name == "Right Motor"
      ensures Drives(Off, Off, 0)
    {
      leftMotor := new MotorController("Left Motor");
      rightMotor := new MotorController("Right Motor");
    }

    method MoveForward(power: int)
      requires Valid()
      modifies leftMotor, rightMotor
      ensures Valid() && Drives(Forward, Forward, power)
    {
      leftMotor.Forward(power);
      rightMotor.Forward(power);
    }

    method MoveBackward(power: int)
      requires Valid()
      modifies leftMotor, rightMotor
      ensures Valid() && Drives(Backward, Backward, power)
    {
      leftMotor.Backward(power);
      rightMotor.Backward(power);
    }

    method TurnLeft(power: int)
      requires Valid()
      modifies leftMotor, rightMotor
      ensures Valid() && Drives(Backward, Forward, power)
    {
      leftMotor.Backward(power);
      rightMotor.Forward(power);
    }

    method TurnRight(power: int)
      requires Valid()
      modifies leftMotor, rightMotor
      ensures Valid() && Drives(Forward, Backward, power)
    {
      leftMotor.Forward(power);
      rightMotor.Backward(power);
    }

    method Stop()
      requires Valid()
      modifies leftMotor, rightMotor
      ensures Valid() && Drives(Off, Off, 0)
    {
      leftMotor.Stop();
      rightMotor.Stop();
    }

    /** `cleanup`: stops both motors (releasing the GPIO pins is not modelled). */
    method Cleanup()
      requires Valid()
      modifies leftMotor, rightMotor
      ensures Valid() && Drives(Off, Off, 0)
    {
      Stop();
    }

    /** `get_state`: both motors' reports, left then right. */
    function GetState(): (r: RobotState)
      reads this, leftMotor, rightMotor
      ensures r.leftMotor == leftMotor.GetState() && r.rightMotor == rightMotor.GetState()
      ensures Valid() ==> 0 <= r.leftMotor.level <= MaxPower && 0 <= r.rightMotor.level <= MaxPower
    {
      RobotState(leftMotor.GetState(), rightMotor.GetState())
    }
  }

  /** The class attributes of `AsyncRobotWebSocket` and the per-connection `video_active` flags. */
  class RaspRobotWebSocket {
    const videoStream: Server.VideoStream
    const robotController: RobotController
    var clients: set<SessionId>
    var videoActive: map<SessionId, bool>
    var videoTasks: map<SessionId, TaskId>
    /** Every `handle_video` task created so far, indexed by its `TaskId`. */
    var tasks: seq<Server.VideoTask>

    ghost predicate Valid()
      reads this, videoStream, robotController, robotController.leftMotor, robotController.rightMotor
    {
      && videoStream.Valid()
      && robotController.Valid()
      && clients <= videoActive.Keys
      && videoTasks.Keys <= clients
      && (forall s :: s in videoTasks ==> videoTasks[s] < |tasks| && tasks[videoTasks[s]].owner == s)
    }

    constructor ()
      ensures Valid() && fresh(videoStream) && fresh(robotController)
      ensures fresh(robotController.leftMotor) && fresh(robotController.rightMotor)
      ensures clients == {} && videoActive == map[] && videoTasks == map[] && tasks == []
      ensures !videoStream.active && videoStream.cap == None
      ensures robotController.Drives(Off, Off, 0)
    {
      videoStream := new Server.VideoStream();
      robotController := new RobotController();
      clients := {};
      videoActive := map[];
      videoTasks := map[];
      tasks := [];
    }

    /** `open`: a new connection joins the client set, not streaming, and is greeted. */
    method Open(id: SessionId) returns (reply: Outbound)
      requires Valid() && id !in videoActive
      modifies this
      ensures Valid()
      ensures clients == old(clients) + {id}
      ensures videoActive == old(videoActive)[id := false]
      ensures videoTasks == old(videoTasks) && tasks == old(tasks)
      ensures reply == ConnectionStatus("connected")
    {
      clients := clients + {id};
      videoActive := videoActive[id := false];
      reply := ConnectionStatus("connected");
    }

    /**
     * `handle_movement`: a known command drives the motors as `Manoeuvre`
     * says, an unknown one changes nothing; either way the reply reports
     * "executed", echoes the power as requested and carries the motors'
     * state afterwards.
     */
    method HandleMovement(command: string, power: int, now: int) returns (reply: Outbound)
      requires Valid()
      modifies robotController.leftMotor, robotController.rightMotor
      ensures Valid()
      ensures Manoeuvre(command).Some? ==>
        robotController.Drives(Manoeuvre(command).value.0, Manoeuvre(command).value.1, power)
      ensures Manoeuvre(command).None? ==>
        unchanged(robotController.leftMotor, robotController.rightMotor)
      ensures reply == CommandResponse("executed", command, power, Some(robotController.GetState()), now)
    {
      if command == "forward" {
        robotController.MoveForward(power);
      } else if command == "backward" {
        robotController.MoveBackward(power);
      } else if command == "left" {
        robotController.TurnLeft(power);
      } else if command == "right" {
        robotController.TurnRight(power);
      } else if command == "stop" {
        robotController.Stop();
      }
      var state := robotController.GetState();
      reply := CommandResponse("executed", command, power, Some(state), now);
    }

    /**
     * `on_close`: the connection's flag is cleared, its task cancelled and
     * forgotten, and it leaves the client set. When no client is left the
     * stream and both motors are stopped; otherwise neither is touched.
     */
    method OnClose(id: SessionId)
      requires Valid() && id in clients
      modifies this, videoStream`active, videoStream`cap
      modifies robotController.leftMotor, robotController.rightMotor
      ensures Valid()
      ensures clients == old(clients) - {id}
      ensures videoActive == old(videoActive)[id := false]
      ensures videoTasks == old(videoTasks) - {id}
      ensures tasks == if id in old(videoTasks) then Server.Cancel(old(tasks), old(videoTasks[id])) else old(tasks)
      ensures clients == {} ==>
        !videoStream.active && videoStream.cap == None && robotController.Drives(Off, Off, 0)
      ensures clients != {} ==>
        && videoStream.active == old(videoStream.active) && videoStream.cap == old(videoStream.cap)
        && unchanged(robotController.leftMotor, robotController.rightMotor)
    {
      videoActive := videoActive[id := false];
      if id in videoTasks {
        tasks := Server.Cancel(tasks, videoTasks[id]);
        videoTasks := videoTasks - {id};
      }
      clients := clients - {id};
      if |clients| == 0 {
        videoStream.Stop();
        robotController.Stop();
      }
    }
  }
}
