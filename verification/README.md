# ROV-MVP control core, modelled in Dafny

ROV-MVP drives a small camera robot from a browser. It has three servers and one client:

- A Tornado websocket server (`sockets/server.py`). It shares one camera stream among all connections. The stream has a one-slot frame queue that always holds the freshest frame. Each connection runs its own video task.
- Its Raspberry Pi variant (`sockets/server_rasp.py`). It adds two GPIO motors behind a `RobotController`.
- Two stand-alone HTTP motor servers: a MicroPython socket loop (`main.py`) and a Flask application (`raspi_code.py`). Each records a direction and a PWM duty cycle per motor.
- A React control panel (`sockets/rasppi/src/App.js`). It sends movement commands while an arrow key or button is held, and keeps a short history of the server's replies.

This project models the sequential state machines inside those programs and proves their properties:

- the stream lifecycle and its camera-handle quirks;
- the connection and task registry;
- the FPS window counter;
- motor clamping and the two-motor manoeuvres;
- request routing (substring-based in `main.py`, by dictionary lookup in `raspi_code.py`);
- the client's continuous-move latch, key map and bounded history.

The modules are:

- `Common`: `Option`, `Clamp`, motor `Direction` and `MotorReport`.
- `PyText`: Python's `in`, `str.find`, `str.split` and `int()` on strings.
- `Protocol`: the websocket messages as records.
- `Server`: `sockets/server.py`.
- `RaspServer`: `sockets/server_rasp.py`.
- `MicroServer`: `main.py`.
- `FlaskServer`: `raspi_code.py`.
- `ControlApp`: `App.js`.

Modelling conventions:

- **Time.** Clock readings are integer ticks of 1/600 s. The 1/60 s frame interval is 10 ticks, and the one-second FPS window is 600 ticks.
- **Camera.** The camera is an oracle. Whether `cv2.VideoCapture(0)` opened, and what a read returned, are parameters.
- **Tasks.** An asyncio task is a `VideoTask` record, indexed by creation order. Its first run and each pass of its streaming loop are separate methods. Cancelling a task marks it finished.
- **Sockets.** A connection is identified by a `SessionId`, standing for `id(self)`. In the client, a socket is just whether it is OPEN, and what it sends is a list of `Protocol.Inbound` records.

Quirks of the code that the model keeps on purpose:

- A second `initialize_camera` finds `cap` set and falls off its end, returning `None`. So a second `start()` reports failure even while the stream runs.
- A failed open leaves the unopened handle in `cap`.
- `start_video` does not set `video_active`. The task sets it when it first runs, so two `start_video` messages before then create two tasks.
- `on_close` stops the stream when the last client leaves, whether or not any client was watching.
- In `main.py` the pwm value is everything after the last `value=` in the raw request. `int()` strips surrounding whitespace, so a request that ends with the number, optionally followed by whitespace, sets it (`MicroServer.PwmValueAtEnd`). When the rest of the request line follows the number, as in `GET /motor1/pwm?value=50 HTTP/1.1`, `int()` raises `ValueError` (`MicroServer.PwmValueBeforeRequestLine`). That holds for every integer, negative ones included, whatever headers and line ends follow, as long as they hold no further `value=`; header values such as `q=0.9` do not matter. Nothing catches it: the loop in `main.py:114-124` has no handler, so the server stops. The model records this as the `ValueError` reply, with no motor changed.
- The streaming loop in `sockets/server.py` tests `video_active` and the stream only before it waits on the queue. `stop_video` cancels only the task registered in `video_tasks`. A second `start_video` before the first task runs overwrites that entry, leaving the first task orphaned. If the orphaned task is blocked in `get()` when `stop_video` arrives, nothing cancels it, and it still forwards the next frame (`Server.OrphanedTaskOutlivesStopVideo`).
- In `App.js` the resend interval captures the power in force when the movement started. An arrow keydown for a key not already held, an arrow keyup, and a button press or release each replace `activeKeys`, and every replacement re-runs the keyboard effect. Other keys, and a repeated keydown of a held arrow, change nothing. That effect's cleanup stops the interval but leaves the latch and the interval ref set. So each such event ends with no interval firing, and a held key is sent only once (see Findings).

## Model

| member | source | states |
|---|---|---|
| Common.Clamp | sockets/server_rasp.py:53-54 | the stored duty cycle lies in [lo, hi], equals the request when already in range, and saturates at the nearer bound otherwise |
| PyText.Contains | main.py:66 | `pat in text` holds exactly when the pattern occurs at some index |
| PyText.FindFromMeaning | main.py:66 | the search returns the first index at or after the start where the pattern occurs, and finds nothing only when it occurs nowhere from there on |
| PyText.Split | main.py:89 | `str.split(sep)` yields at least one piece, and no piece contains the separator |
| PyText.JoinSplit | main.py:89 | joining the pieces of `split(sep)` with `sep` gives back the original text |
| PyText.SplitLastAfterSeparator | main.py:89 | `split(sep)[-1]` is a separator-free suffix of the text; it is preceded by an occurrence of the separator when there is one, and is the whole text otherwise |
| PyText.ParseStripped | main.py:89 | `int()` after whitespace is stripped: accepts exactly digits with at most one leading sign, and gives their value, negated only after '-' |
| PyText.ParseInt | main.py:89 | `int()` on a string succeeds exactly when the stripped text is digits, optionally after one '-' or '+' sign; stripped digits give their value, a leading '-' negates it and a leading '+' keeps it; blank text and a leading character that is not a digit or sign are rejected; a negative result needs a leading '-' |
| PyText.ParseIntShow | main.py:89 | `int(str(n)) == n` for every integer |
| PyText.ParseIntShowPadded | main.py:89 | `int()` ignores trailing whitespace after `str(n)` |
| PyText.ParseIntRejectsTrailingText | main.py:89 | text starting with a non-space character, a space, then text starting with a non-space character is rejected by `int()` |
| Server.VideoStream.constructor | sockets/server.py:13-23 | a new stream is inactive, has no handle, an empty queue, last frame time 0 and no error |
| Server.VideoStream.InitializeCamera | sockets/server.py:25-42 | returns True iff there was no handle and the device opened, False iff there was none and it failed (recording "Failed to open camera"), and nothing iff a handle existed; a handle is created only when none existed and is kept even if unopened |
| Server.VideoStream.Start | sockets/server.py:44-55 | succeeds iff this call initialised an opening camera; `active` becomes true only then and is otherwise unchanged |
| Server.VideoStream.Stop | sockets/server.py:57-63 | always ends inactive with no handle, so a second call changes nothing |
| Server.VideoStream.CaptureAndEncodeFrame | sockets/server.py:65-75 | yields a frame iff the handle exists, is open and the read succeeded, and then yields the frame read |
| Server.VideoStream.Publish | sockets/server.py:87-93 | drain, then put: the one-slot queue holds exactly the new frame |
| Server.VideoStream.CaptureIteration | sockets/server.py:79-96 | publishes iff the minimum interval has passed and the capture returned data; then the queue holds exactly that frame stamped `now` and `last_frame_time` is `now`; otherwise queue and time are unchanged |
| Server.VideoStream.CaptureFrames | sockets/server.py:77-98 | the loop runs only while active; publications never exceed passes; each publication advances `last_frame_time` by at least the minimum interval; without one, queue and time are unchanged; after one, the queued frame carries `last_frame_time` |
| Server.VideoStream.TakeFrame | sockets/server.py:144 | `frame_queue.get()` returns the queued frame, stamped with the last publication time, and empties the queue |
| Server.CountFrame | sockets/server.py:147-155 | the counter grows by one per frame; a sample is attached iff at least a window has elapsed, and then carries the frames counted and the elapsed time, and the counter restarts at 0 from `now` |
| Server.CountFrames | sockets/server.py:142-155 | one attachment slot per forwarded frame |
| Server.CountFramesConserves | sockets/server.py:147-155 | every forwarded frame is counted exactly once, in a sample attached later or in the open window |
| Server.NoSampleWithinWindow | sockets/server.py:147-155 | while the window is open no fps is attached and the counter only grows |
| Server.Cancel | sockets/server.py:192 | `task.cancel()` ends that task and no other |
| Server.AsyncRobotWebSocket.constructor | sockets/server.py:100-105 | no clients, no tasks, an idle stream with an empty queue, last frame time 0 and no error, and the FPS counter at zero from start time |
| Server.AsyncRobotWebSocket.Open | sockets/server.py:110-118 | the connection joins the clients with `video_active` false and is greeted with "connected"; tasks and counter are untouched |
| Server.AsyncRobotWebSocket.HandleMovement | sockets/server.py:120-133 | the reply is a "processed" `command_response` echoing command and power at `now`, with no motor state |
| Server.AsyncRobotWebSocket.OnMessage | sockets/server.py:168-197 | movement replies with power defaulting to 100; `start_video` creates a task only when the flag is clear and leaves the flag alone; `stop_video` clears the flag and cancels and forgets this connection's task only if it has one; power updates and unrecognised messages change nothing |
| Server.AsyncRobotWebSocket.HandleVideoBegin | sockets/server.py:135-141 | the task sets its connection's flag, then starts the stream (creating the handle and recording the open error only when there was no handle); the streaming loop follows iff the start succeeded |
| Server.AsyncRobotWebSocket.ForwardFrame | sockets/server.py:144-162 | the queued frame is taken, counted, and sent with the fps sample of the window it closes; when the connection is gone the task ends and the frame is lost |
| Server.AsyncRobotWebSocket.HandleVideoStep | sockets/server.py:142-166 | the loop ends when the flag or the stream is off; otherwise a queued frame is forwarded at once, and an empty queue blocks the task |
| Server.AsyncRobotWebSocket.HandleVideoResume | sockets/server.py:144-162 | a blocked task forwards the next frame without testing the flag or the stream again, and then goes back to the loop's test |
| Server.TwoTasksFirstWaiting | sockets/server.py:135-166 | two `start_video` messages before the first task runs leave two running tasks, the task map pointing at the second, and the first task blocked on the empty queue |
| Server.OrphanedTaskOutlivesStopVideo | sockets/server.py:135-166 | after two `start_video` and one `stop_video`, the task waiting on the queue still sends the next frame to the connection whose flag is off |
| Server.AsyncRobotWebSocket.OnClose | sockets/server.py:199-207 | the connection leaves clients and the task map, its task is cancelled, and the stream is stopped exactly when no client remains |
| RaspServer.MotorController.constructor | sockets/server_rasp.py:15-22 | a new motor is "off" with power 0 |
| RaspServer.MotorController.SetPwm | sockets/server_rasp.py:53-55 | stores `max(0, min(100, value))` and leaves the direction |
| RaspServer.MotorController.Forward | sockets/server_rasp.py:35-39 | direction "forward", power clamped to [0, 100] |
| RaspServer.MotorController.Backward | sockets/server_rasp.py:41-45 | direction "backward", power clamped to [0, 100] |
| RaspServer.MotorController.Stop | sockets/server_rasp.py:47-51 | direction "off", power 0 |
| RaspServer.MotorController.GetState | sockets/server_rasp.py:57-58 | the report gives the motor's name, its direction's label and its power, which lies in [0, 100] |
| RaspServer.Manoeuvre | sockets/server_rasp.py:140-149 | exactly the five commands forward, backward, left, right and stop are known; forward drives both motors forward, backward both backward, left is left backward and right forward, right the reverse, and stop turns both off |
| RaspServer.RobotController.constructor | sockets/server_rasp.py:62-67 | two distinct motors named "Left Motor" and "Right Motor", both off at 0 |
| RaspServer.RobotController.MoveForward | sockets/server_rasp.py:69-71 | both motors forward at the same clamped power |
| RaspServer.RobotController.MoveBackward | sockets/server_rasp.py:73-75 | both motors backward at the same clamped power |
| RaspServer.RobotController.TurnLeft | sockets/server_rasp.py:77-79 | left motor backward, right motor forward, same clamped power |
| RaspServer.RobotController.TurnRight | sockets/server_rasp.py:81-83 | left motor forward, right motor backward, same clamped power |
| RaspServer.RobotController.Stop | sockets/server_rasp.py:85-87 | both motors off at power 0 |
| RaspServer.RobotController.Cleanup | sockets/server_rasp.py:95-97 | both motors off at power 0 |
| RaspServer.RobotController.GetState | sockets/server_rasp.py:89-93 | the robot's state holds the left motor's report and the right motor's report, each with power in [0, 100] |
| RaspServer.RaspRobotWebSocket.constructor | sockets/server_rasp.py:115-121 | no clients or tasks, an idle stream, both motors off |
| RaspServer.RaspRobotWebSocket.Open | sockets/server_rasp.py:126-133 | the connection joins the clients with `video_active` false and is greeted with "connected" |
| RaspServer.RaspRobotWebSocket.HandleMovement | sockets/server_rasp.py:135-165 | a known command puts the motors in its manoeuvre; an unknown one changes no motor; the reply is always "executed", echoes the power unclamped, and carries the motors' clamped state afterwards |
| RaspServer.RaspRobotWebSocket.OnClose | sockets/server_rasp.py:169-178 | the connection leaves clients and task map, and its task, if any, is cancelled by `Server.Cancel`; when no client remains, the stream and both motors stop; otherwise neither is touched |
| MicroServer.MotorController.constructor | main.py:10-16 | a new motor is "off" with pwm 0 |
| MicroServer.MotorController.MotorForward | main.py:18-22 | only the direction changes, to "forward" |
| MicroServer.MotorController.MotorBackward | main.py:24-28 | only the direction changes, to "backward" |
| MicroServer.MotorController.MotorOff | main.py:30-34 | only the direction changes, to "off" |
| MicroServer.MotorController.SetPwm | main.py:36-39 | stores `max(0, min(255, value))` and leaves the direction |
| MicroServer.MotorController.GetState | main.py:41-42 | the report gives the motor's name, its direction's label and its pwm, which lies in [0, 255] |
| MicroServer.Resolve | main.py:65-93 | a request containing "GET / " takes the index route; otherwise one containing "GET /state" takes the state route; a motor route names an existing motor and one of its routes that matches |
| MicroServer.FirstMotorRouteIsFirst | main.py:72-93 | the motor loop picks the first motor, in dictionary order, with a matching route, and finds none only when no motor matches |
| MicroServer.ResolveMotorRoute | main.py:65-93 | motor k gets action a iff neither "GET / " nor "GET /state" occurs, a is motor k's first matching route in the order forward, backward, off, pwm (pwm needing "value=" too), and no earlier motor matches |
| MicroServer.ResolveNoRoute | main.py:65-96 | 404 iff no route of any kind matches |
| MicroServer.SplitLastAfterFinalKey | main.py:89 | the text after the last "value=" is everything after its final occurrence, when no further "value=" follows it |
| MicroServer.PwmValueAtEnd | main.py:88-90 | a request ending in "value=", a number and any trailing whitespace parses to that number |
| MicroServer.PwmValueBeforeRequestLine | main.py:88-90 | any integer followed by a space and the rest of a request (which may hold '=' but no further "value=") makes `int()` raise |
| MicroServer.StatesOf | main.py:68-70 | `/state` lists every motor's report under its name, in dictionary order |
| MicroServer.ActOn | main.py:73-93 | forward, backward and off set the direction and keep the pwm; pwm reads the text after the last "value=" with `int()` and either stores it clamped to [0, 255], keeping the direction, or raises `ValueError` and changes nothing; the reply is the motor's new state otherwise |
| MicroServer.HandleRequest | main.py:65-96 | follows `Resolve`: index and state change nothing; the chosen motor gets its action and every other motor is unchanged; the reply is the `ValueError` exactly when the route is pwm and the parse fails, and otherwise the motor's new state; no route gives 404 and changes nothing |
| FlaskServer.MotorController.constructor | raspi_code.py:8-14 | a new motor is "off" with pwm 0 |
| FlaskServer.MotorController.MotorForward | raspi_code.py:27-31 | only the direction changes, to "forward" |
| FlaskServer.MotorController.MotorBackward | raspi_code.py:33-37 | only the direction changes, to "backward" |
| FlaskServer.MotorController.MotorOff | raspi_code.py:39-43 | only the direction changes, to "off" |
| FlaskServer.MotorController.SetPwm | raspi_code.py:45-48 | stores `max(0, min(100, value))` and leaves the direction |
| FlaskServer.MotorController.GetState | raspi_code.py:50-51 | the report gives the motor's name, its direction's label and its pwm, which lies in [0, 100] |
| FlaskServer.PwmArgument | raspi_code.py:96 | the `value` argument read by `int()`, and 0 when it is absent or not a number |
| FlaskServer.PwmArgumentShow | raspi_code.py:96 | a number written in the query string reaches `set_pwm` unchanged |
| FlaskServer.MotorApp.constructor | raspi_code.py:54-57 | the dictionary holds "motor1" and "motor2", named "Motor 1" and "Motor 2", distinct, both off at 0 |
| FlaskServer.MotorApp.GetStates | raspi_code.py:64-67 | `/state` maps every dictionary name, and only those, to that motor's name, direction and pwm |
| FlaskServer.MotorApp.MotorForward | raspi_code.py:69-75 | an unknown name gets 404 and no motor changes; otherwise only that motor's direction becomes "forward" and its new state is returned |
| FlaskServer.MotorApp.MotorBackward | raspi_code.py:77-83 | an unknown name gets 404 and no motor changes; otherwise only that motor's direction becomes "backward" and its new state is returned |
| FlaskServer.MotorApp.MotorOff | raspi_code.py:85-91 | an unknown name gets 404 and no motor changes; otherwise only that motor's direction becomes "off" and its new state is returned |
| FlaskServer.MotorApp.SetPwm | raspi_code.py:93-100 | an unknown name gets 404 and no motor changes; otherwise only that motor's pwm becomes the clamped argument (0 when absent) and its new state is returned |
| ControlApp.PushHistory | sockets/rasppi/src/App.js:62-67 | the new response is first, older rows follow in order, and the history holds at most five |
| ControlApp.PushAllNewestFirst | sockets/rasppi/src/App.js:62-67 | after any run of responses, the history is the newest responses first, then the older history, cut to five |
| ControlApp.KeyMap | sockets/rasppi/src/App.js:142-147 | exactly the four arrow keys map to a command: ArrowUp to forward, ArrowDown to backward, ArrowLeft to left and ArrowRight to right |
| ControlApp.NextFps | sockets/rasppi/src/App.js:56-59 | the shown fps keeps its value when a frame has no fps or fps 0, and takes the frame's fps otherwise |
| ControlApp.ControlPanel.constructor | sockets/rasppi/src/App.js:5-15 | not connected, power 100, no held keys, empty history, fps 0, no latch or interval |
| ControlApp.ControlPanel.OnSocketOpen | sockets/rasppi/src/App.js:26-33 | connected, and `start_video` is sent at once |
| ControlApp.ControlPanel.OnSocketClose | sockets/rasppi/src/App.js:35-40 | disconnected; nothing can be sent any more |
| ControlApp.ControlPanel.OnSocketError | sockets/rasppi/src/App.js:42-45 | the indicator goes off |
| ControlApp.ControlPanel.SendCommand | sockets/rasppi/src/App.js:105-112 | sends one movement command carrying the current power iff the socket is OPEN, nothing otherwise |
| ControlApp.ControlPanel.StartContinuousMove | sockets/rasppi/src/App.js:115-129 | the latch takes the command, the command is sent once at once, and a new live interval for it, capturing the current power, replaces the old one |
| ControlApp.ControlPanel.IntervalTick | sockets/rasppi/src/App.js:124-128 | a firing resends its command, with the captured power, only while the latch still holds that command |
| ControlApp.ControlPanel.StopContinuousMove | sockets/rasppi/src/App.js:132-138 | releasing the latched command clears latch and interval; releasing another changes nothing |
| ControlApp.ControlPanel.KeyEffectCleanup | sockets/rasppi/src/App.js:172-178 | the interval stops firing while latch and ref keep their values |
| ControlApp.ControlPanel.PressKey | sockets/rasppi/src/App.js:149-155 | the body of `handleKeyDown`: it acts exactly for an arrow key not yet held, which becomes held while its command starts with a live interval; otherwise nothing changes |
| ControlApp.ControlPanel.HandleKeyDown | sockets/rasppi/src/App.js:149-179 | a non-arrow key, or an arrow key already held, changes nothing; otherwise the key is held, its command starts, and the effect's cleanup leaves no interval firing |
| ControlApp.ControlPanel.ReleaseKey | sockets/rasppi/src/App.js:157-167 | the body of `handleKeyUp`: it acts exactly for an arrow key, which is released, and its command stops only if it is the latched one |
| ControlApp.ControlPanel.HandleKeyUp | sockets/rasppi/src/App.js:157-179 | a non-arrow key changes nothing; otherwise the key is released, its command stops only if it is the latched one, and no interval is left firing |
| ControlApp.ControlPanel.PressButton | sockets/rasppi/src/App.js:182-185 | the body of `handleButtonPress`: the command itself is recorded as held, without a check, and starts with a live interval |
| ControlApp.ControlPanel.HandleButtonPress | sockets/rasppi/src/App.js:172-185 | as `PressButton`, and then the effect's cleanup leaves no interval firing |
| ControlApp.ControlPanel.ReleaseButton | sockets/rasppi/src/App.js:187-194 | the body of `handleButtonRelease`: the command leaves the held set and stops only if it is the latched one |
| ControlApp.ControlPanel.HandleButtonRelease | sockets/rasppi/src/App.js:172-194 | as `ReleaseButton`, and no interval is left firing |
| ControlApp.ControlPanel.HandlePowerChange | sockets/rasppi/src/App.js:94-102 | the power takes the new value, a power update is sent iff the socket is OPEN, and a changed power re-runs the keyboard effect, which stops the interval |
| ControlApp.ControlPanel.OnConnectionStatus | sockets/rasppi/src/App.js:50-52 | connected iff the status is "connected" |
| ControlApp.ControlPanel.OnVideoFrame | sockets/rasppi/src/App.js:53-59 | the fps metric follows `NextFps` |
| ControlApp.ControlPanel.OnCommandResponse | sockets/rasppi/src/App.js:60-68 | the echoed command and power are pushed on the history |
| ControlApp.HeldKeyAsWritten | sockets/rasppi/src/App.js:115-179 | holding an arrow key sends its command once and leaves no interval firing |
| ControlApp.HeldKeyIntended | sockets/rasppi/src/App.js:115-155 | without the cleanup, each firing of the interval resends the held key's command |
| ControlApp.OverlappingKeys | sockets/rasppi/src/App.js:132-179 | with two arrow keys held, releasing the first leaves the second latched but no interval firing |
| ControlApp.OverlappingKeysIntended | sockets/rasppi/src/App.js:132-167 | without the cleanup, releasing the first of two held keys keeps the second latched, and the next firing resends only the second |

## Left out

- Socket, Tornado, Flask and Wi-Fi plumbing: `main` functions, `app.run`, `serve_file`'s file read (the index route is just `IndexPage`), the home route `/`, and the `/cleanup` route. These are I/O.
- GPIO and `machine.Pin`/PWM side effects. Only the recorded `current_state` and `pwm_value` are kept.
- OpenCV capture, resizing, JPEG encoding and base64. A frame is an opaque string, and the camera's answers are parameters.
- Thread pools, `threading.Lock` and asyncio scheduling. `start()` runs as one atomic step, and each task step is a method the event loop calls. A task blocked on an empty queue is in the `Waiting` phase until a frame arrives. Cancellation takes effect at the task's next step.
- Floating point: the fps division and `round`, latency, and `Date.now`. Only the counter and where samples are attached are modelled; the fps value is not. The client's fps is a `real` supplied by the message.
- JSON encoding and decoding. A message that does not decode, or lacks `data.command`, is `Unrecognised`, which only logs.
- The bodies of `VideoStream` and `on_message` in `sockets/server_rasp.py` are elided in that file. Its stream is `Server.VideoStream`, and its `on_message` is not part of this model, so the Raspberry Pi server creates no tasks here. Its task list and task map start empty and only `on_close` touches them.
- Server.AsyncRobotWebSocket.Open: requires a connection id that has never been used. Python's `id(self)` can be reused after a handler is freed, which is not modelled.
- RaspServer.RaspRobotWebSocket.Open: the same fresh-id requirement as `Server.AsyncRobotWebSocket.Open`.
- Server.VideoStream.CaptureFrames: runs over a finite schedule of clock readings and camera answers rather than forever. Stopping the stream from elsewhere while the loop runs is not interleaved.
- `int()` details outside ASCII: underscores between digits and Unicode digits and whitespace are not accepted by `PyText.ParseInt`.
- App.js rendering, the 3-second reconnect timer, replacing the socket on reconnect, `toLocaleTimeString`, and the unmount cleanup.
- App.js latency fields of history rows. A row keeps the command and the power.

## Findings

| source | as written | input that shows it | evidently intended | confidence | as-written member | corrected member |
|---|---|---|---|---|---|---|
| sockets/rasppi/src/App.js:172-179 | the keyboard effect depends on `activeKeys`, so every arrow or button event that replaces it re-runs it, and its cleanup clears the resend interval that the same event just started | hold ArrowUp for longer than 100 ms | resend the command every 100 ms while the key is held (App.js:123) | high; not executed | ControlApp.HeldKeyAsWritten | ControlApp.HeldKeyIntended |
