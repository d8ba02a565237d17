/**
 * The JSON messages exchanged over the robot's websocket, as records.
 * Encoding and decoding are not modelled: a message that does not decode,
 * has a `type` the server does not know, or lacks `data.command` is
 * `Unrecognised` (the server logs it and does nothing else).
 */
module Protocol {
  import opened Common

  /** A connection, identified as the server identifies it, by `id(self)`. */
  type SessionId = nat

  /** A `handle_video` task, numbered in the order the tasks were created. */
  type TaskId = nat

  /** The power `on_message` uses when `data.power` is absent. */
  const DefaultPower: int := 100

  /** An item of the frame queue: the base64 JPEG text and the capture time. */
  datatype Frame = Frame(payload: string, timestamp: int)

  /**
   * The figures the server divides to get the `fps` it attaches to a frame:
   * frames counted and ticks elapsed in the window that just closed.
   */
  datatype FpsSample = FpsSample(frames: nat, elapsed: int)

  /** `RobotController.get_state()`: both motors, keyed left and right. */
  datatype RobotState = RobotState(leftMotor: MotorReport, rightMotor: MotorReport)

  /** Client to server. */
  datatype Inbound =
    | MovementCommand(command: string, power: Option<int>)
    | PowerUpdate(power: Option<int>)
    | StartVideo
    | StopVideo
    | Unrecognised

  /** Server to client. `state` is absent in the replies of the motorless server. */
  datatype Outbound =
    | ConnectionStatus(status: string)
    | CommandResponse(status: string, command: string, power: int, state: Option<RobotState>, timestamp: int)
    | VideoFrame(frame: string, timestamp: int, fps: Option<FpsSample>)
}
