/**
 * The websocket server without motors (sockets/server.py): the shared
 * camera stream with its one-slot frame queue, and the class-level
 * registry of connections and per-connection video tasks.
 *
 * Clock readings are integer ticks; the camera is an oracle whose answers
 * are parameters; an asyncio task is a `VideoTask` record whose steps are
 * methods the event loop calls one at a time.
 */
module Server {
  import opened Common
  import opened Protocol

  /** `time.time()` is read in ticks of 1/600 s. */
  const TicksPerSecond: int := 600

  /** `min_frame_interval = 1/60` s. */
  const MinFrameInterval: int := 10

  /** The FPS window closes once `elapsed >= 1.0` s. */
  const FpsWindow: int := TicksPerSecond

  /** The message `initialize_camera` records when the device does not open. */
  const CameraOpenError: string := "Failed to open camera"

  /** A `cv2.VideoCapture` handle; it exists whether or not it opened the device. */
  datatype Capture = Capture(isOpen: bool)

  /** What `initialize_camera` returns: `True`, `False`, or nothing when it falls off its end. */
  datatype InitResult = InitTrue | InitFalse | InitNone {
    predicate Truthy() { InitTrue? }
  }

  /** Python truthiness of what `capture_and_encode_frame` returned. */
  predicate IsFrameData(data: Option<string>)
  {
    data.Some? && data.value != ""
  }

  class VideoStream {
    var active: bool
    var cap: Option<Capture>
    /** The `asyncio.Queue(maxsize=1)`. */
    var frameQueue: seq<Frame>
    var lastFrameTime: int
    var initializationError: Option<string>

    ghost predicate Valid()
      reads this
    {
      && |frameQueue| <= 1
      && (active ==> cap == Some(Capture(true)))
      && (forall f :: f in frameQueue ==> f.timestamp == lastFrameTime)
    }

    constructor ()
      ensures Valid()
      ensures !active && cap == None && frameQueue == [] && lastFrameTime == 0 && initializationError == None
    {
      active := false;
      cap := None;
      frameQueue := [];
      lastFrameTime := 0;
      initializationError := None;
    }

    /**
     * `initialize_camera`; `opens` is whether `cv2.VideoCapture(0)` opened the
     * device. Only a call that finds no handle creates one, and the handle
     * stays even when it failed to open.
     */
    method InitializeCamera(opens: bool) returns (r: InitResult)
      modifies this`cap, this`initializationError
      ensures r == InitTrue <==> old(cap) == None && opens
      ensures r == InitFalse <==> old(cap) == None && !opens
      ensures r == InitNone <==> old(cap) != None
      ensures cap == if old(cap) == None then Some(Capture(opens)) else old(cap)
      ensures initializationError == if r == InitFalse then Some(CameraOpenError) else old(initializationError)
    {
      if cap == None {
        cap := Some(Capture(opens));
        if !opens {
          initializationError := Some(CameraOpenError);
          return InitFalse;
        }
        return InitTrue;
      }
      r := InitNone;
    }

    /** `start`: the stream becomes active only if this call initialised the camera. */
    method Start(opens: bool) returns (success: bool)
      requires Valid()
      modifies this`active, this`cap, this`initializationError
      ensures Valid()
      ensures success <==> old(cap) == None && opens
      ensures active == (old(active) || success)
      ensures cap == if old(cap) == None then Some(Capture(opens)) else old(cap)
      ensures initializationError == if old(cap) == None && !opens then Some(CameraOpenError) else old(initializationError)
    {
      var r := InitializeCamera(opens);
      if r.Truthy() {
        active := true;
        success := true;
      } else {
        success := false;
      }
    }

    /** `stop`: always ends inactive and without a handle; a second call changes nothing. */
    method Stop()
      requires Valid()
      modifies this`active, this`cap
      ensures Valid()
      ensures !active && cap == None
    {
      active := false;
      if cap != None {
        cap := None;
      }
    }

    /** `capture_and_encode_frame`: the camera's frame, if there is an open handle and the read succeeded. */
    function CaptureAndEncodeFrame(grabbed: Option<string>): (r: Option<string>)
      reads this
      ensures r.Some? <==> cap == Some(Capture(true)) && grabbed.Some?
      ensures r.Some? ==> r == grabbed
    {
      if cap == None || !cap.value.isOpen then None else grabbed
    }

    /** Drain the queue, then put `f`: the freshest frame replaces an unread one. */
    method Publish(f: Frame)
      modifies this`frameQueue
      ensures frameQueue == [f]
    {
      while frameQueue != []
        decreases |frameQueue|
      {
        frameQueue := frameQueue[1..];
      }
      frameQueue := frameQueue + [f];
    }

    /** One pass of the body of `capture_frames` at clock reading `now`. */
    method CaptureIteration(now: int, grabbed: Option<string>) returns (published: bool)
      requires Valid()
      modifies this`frameQueue, this`lastFrameTime
      ensures Valid()
      ensures published <==> now - old(lastFrameTime) >= MinFrameInterval && IsFrameData(CaptureAndEncodeFrame(grabbed))
      ensures published ==> frameQueue == [Frame(grabbed.value, now)] && lastFrameTime == now
      ensures !published ==> frameQueue == old(frameQueue) && lastFrameTime == old(lastFrameTime)
    {
      published := false;
      if now - lastFrameTime >= MinFrameInterval {
        var frameData := CaptureAndEncodeFrame(grabbed);
        if IsFrameData(frameData) {
          Publish(Frame(frameData.value, now));
          lastFrameTime := now;
          published := true;
        }
      }
    }

    /**
     * `capture_frames`: `while self.active`, one pass per entry of the
     * schedule (a clock reading and what the camera read returned). Each
     * publication moves `lastFrameTime` forward by at least the minimum
     * interval; without one, queue and time stay as they were.
     */
    method CaptureFrames(schedule: seq<(int, Option<string>)>) returns (passes: nat, ghost publications: nat)
      requires Valid()
      modifies this`frameQueue, this`lastFrameTime
      ensures Valid()
      ensures passes == if active then |schedule| else 0
      ensures publications <= passes
      ensures lastFrameTime >= old(lastFrameTime) + publications * MinFrameInterval
      ensures publications == 0 ==> frameQueue == old(frameQueue) && lastFrameTime == old(lastFrameTime)
      ensures publications > 0 ==> |frameQueue| == 1 && frameQueue[0].timestamp == lastFrameTime
    {
      passes, publications := 0, 0;
      while active && passes < |schedule|
        invariant Valid()
        invariant passes <= |schedule| && (!active ==> passes == 0)
        invariant publications <= passes
        invariant lastFrameTime >= old(lastFrameTime) + publications * MinFrameInterval
        invariant publications == 0 ==> frameQueue == old(frameQueue) && lastFrameTime == old(lastFrameTime)
        invariant publications > 0 ==> |frameQueue| == 1 && frameQueue[0].timestamp == lastFrameTime
      {
        var (now, grabbed) := schedule[passes];
        var p := CaptureIteration(now, grabbed);
        if p {
          publications := publications + 1;
        }
        passes := passes + 1;
      }
    }

    /** `frame_queue.get()`; `None` when the queue is empty, where the caller would wait. */
    method TakeFrame() returns (f: Option<Frame>)
      requires Valid()
      modifies this`frameQueue
      ensures Valid()
      ensures f.Some? <==> old(frameQueue) != []
      ensures f.Some? ==> f.value == old(frameQueue)[0] && f.value.timestamp == lastFrameTime
      ensures frameQueue == []
    {
      if frameQueue == [] {
        f := None;
      } else {
        f := Some(frameQueue[0]);
        frameQueue := [];
      }
    }
  }

  /** The class attributes `frame_count` and `last_frame_time` behind the `fps` figure. */
  datatype FpsCounter = FpsCounter(frameCount: nat, lastFrameTime: int)

  /**
   * Counting one frame taken from the queue at `now`. The counter goes up
   * by one; when at least a second has passed since the window opened, the
   * window closes: the sample is attached to this frame and the counter
   * restarts from zero at `now`.
   */
  function CountFrame(c: FpsCounter, now: int): (r: (FpsCounter, Option<FpsSample>))
    ensures r.1.Some? <==> now - c.lastFrameTime >= FpsWindow
    ensures r.1.Some? ==> r.0 == FpsCounter(0, now) && r.1.value == FpsSample(c.frameCount + 1, now - c.lastFrameTime)
    ensures r.1.None? ==> r.0 == FpsCounter(c.frameCount + 1, c.lastFrameTime)
  {
    var count := c.frameCount + 1;
    var elapsed := now - c.lastFrameTime;
    if elapsed >= FpsWindow then (FpsCounter(0, now), Some(FpsSample(count, elapsed)))
    else (FpsCounter(count, c.lastFrameTime), None)
  }

  /** The counter after frames taken at `times`, and what was attached to each of them. */
  function CountFrames(c: FpsCounter, times: seq<int>): (r: (FpsCounter, seq<Option<FpsSample>>))
    ensures |r.1| == |times|
    decreases |times|
  {
    if times == [] then (c, [])
    else
      var (c', sample) := CountFrame(c, times[0]);
      var (last, samples) := CountFrames(c', times[1..]);
      (last, [sample] + samples)
  }

  /** The frames counted in the attached samples. */
  function SampledFrames(samples: seq<Option<FpsSample>>): nat
  {
    if samples == [] then 0
    else (if samples[0].Some? then samples[0].value.frames else 0) + SampledFrames(samples[1..])
  }

  /** Every frame is counted exactly once: in a sample attached later or in the open window. */
  lemma {:induction false} CountFramesConserves(c: FpsCounter, times: seq<int>)
    ensures var (last, samples) := CountFrames(c, times);
      SampledFrames(samples) + last.frameCount == c.frameCount + |times|
    decreases |times|
  {
    if times != [] {
      var (c', sample) := CountFrame(c, times[0]);
      CountFramesConserves(c', times[1..]);
      var (last, samples) := CountFrames(c', times[1..]);
      assert CountFrames(c, times) == (last, [sample] + samples);
      assert ([sample] + samples)[1..] == samples;
    }
  }

  /** While the window is open, nothing is attached and the counter only grows. */
  lemma {:induction false} NoSampleWithinWindow(c: FpsCounter, times: seq<int>)
    requires forall k :: 0 <= k < |times| ==> times[k] - c.lastFrameTime < FpsWindow
    ensures var (last, samples) := CountFrames(c, times);
      && last == FpsCounter(c.frameCount + |times|, c.lastFrameTime)
      && forall k :: 0 <= k < |samples| ==> samples[k].None?
    decreases |times|
  {
    if times != [] {
      var c' := FpsCounter(c.frameCount + 1, c.lastFrameTime);
      assert CountFrame(c, times[0]) == (c', None);
      assert forall k :: 0 <= k < |times[1..]| ==> times[1..][k] == times[k + 1];
      NoSampleWithinWindow(c', times[1..]);
    }
  }

  /**
   * A `handle_video` task: created, running its streaming loop, blocked in
   * `frame_queue.get()` on an empty queue, or over (returned or cancelled).
   */
  datatype TaskPhase = Pending | Streaming | Waiting | Finished

  datatype VideoTask = VideoTask(owner: SessionId, phase: TaskPhase)

  /** `task.cancel()`: a task not yet over never runs again. */
  function Cancel(tasks: seq<VideoTask>, t: TaskId): (r: seq<VideoTask>)
    requires t < |tasks|
    ensures |r| == |tasks| && r[t] == VideoTask(tasks[t].owner, Finished)
    ensures forall u :: 0 <= u < |tasks| && u != t ==> r[u] == tasks[u]
    ensures forall u :: 0 <= u < |tasks| ==> r[u].owner == tasks[u].owner
  {
    tasks[t := VideoTask(tasks[t].owner, Finished)]
  }

  /**
   * The state of `AsyncRobotWebSocket`: its class attributes (the client
   * set, the shared stream, the FPS counter, the task map) and the
   * per-connection `video_active` flags, keyed by connection.
   */
  class AsyncRobotWebSocket {
    const videoStream: VideoStream
    var clients: set<SessionId>
    var videoActive: map<SessionId, bool>
    var videoTasks: map<SessionId, TaskId>
    /** Every `handle_video` task created so far; a `TaskId` indexes it. */
    var tasks: seq<VideoTask>
    var fps: FpsCounter

    ghost predicate Valid()
      reads this, videoStream
    {
      && videoStream.Valid()
      && clients <= videoActive.Keys
      && videoTasks.Keys <= clients
      && (forall s :: s in videoTasks ==> videoTasks[s] < |tasks| && tasks[videoTasks[s]].owner == s)
      && (forall t :: 0 <= t < |tasks| ==> tasks[t].owner in videoActive)
    }

    constructor (startTime: int)
      ensures Valid() && fresh(videoStream)
      ensures clients == {} && videoActive == map[] && videoTasks == map[] && tasks == []
      ensures fps == FpsCounter(0, startTime)
      ensures !videoStream.active && videoStream.cap == None && videoStream.frameQueue == []
      ensures videoStream.lastFrameTime == 0 && videoStream.initializationError == None
    {
      videoStream := new VideoStream();
      clients := {};
      videoActive := map[];
      videoTasks := map[];
      tasks := [];
      fps := FpsCounter(0, startTime);
    }

    /** `open`: a new connection joins the client set, not streaming, and is greeted. */
    method Open(id: SessionId) returns (reply: Outbound)
      requires Valid() && id !in videoActive
      modifies this
      ensures Valid()
      ensures clients == old(clients) + {id}
      ensures videoActive == old(videoActive)[id := false]
      ensures videoTasks == old(videoTasks) && tasks == old(tasks) && fps == old(fps)
      ensures reply == ConnectionStatus("connected")
    {
      clients := clients + {id};
      videoActive := videoActive[id := false];
      reply := ConnectionStatus("connected");
    }

    /** `handle_movement`: this server drives no motor; it only echoes the command. */
    method HandleMovement(command: string, power: int, now: int) returns (reply: Outbound)
      ensures reply.CommandResponse? && reply.status == "processed"
      ensures reply.command == command && reply.power == power && reply.timestamp == now
      ensures reply.state == None
    {
      reply := CommandResponse("processed", command, power, None, now);
    }

    /**
     * `on_message` for connection `id`. `start_video` creates a task only
     * when the connection's flag is clear, and does not set the flag: the
     * task sets it when it first runs. `stop_video` clears the flag and
     * cancels and forgets the connection's task, if it has one.
     */
    method OnMessage(id: SessionId, msg: Inbound, now: int) returns (replies: seq<Outbound>)
      requires Valid() && id in clients
      modifies this
      ensures Valid()
      ensures clients == old(clients) && fps == old(fps)
      ensures !msg.MovementCommand? ==> replies == []
      ensures msg.MovementCommand? ==>
        replies == [CommandResponse("processed", msg.command, msg.power.GetOr(DefaultPower), None, now)]
      ensures (msg.MovementCommand? || msg.PowerUpdate? || msg.Unrecognised?) ==>
        videoActive == old(videoActive) && videoTasks == old(videoTasks) && tasks == old(tasks)
      ensures msg.StartVideo? && old(videoActive[id]) ==>
        videoActive == old(videoActive) && videoTasks == old(videoTasks) && tasks == old(tasks)
      ensures msg.StartVideo? && !old(videoActive[id]) ==>
        && videoActive == old(videoActive)
        && tasks == old(tasks) + [VideoTask(id, Pending)]
        && videoTasks == old(videoTasks)[id := |old(tasks)|]
      ensures msg.StopVideo? ==>
        && videoActive == old(videoActive)[id := false]
        && videoTasks == old(videoTasks) - {id}
        && tasks == if id in old(videoTasks) then Cancel(old(tasks), old(videoTasks[id])) else old(tasks)
    {
      replies := [];
      match msg
      case MovementCommand(command, power) =>
        var reply := HandleMovement(command, power.GetOr(DefaultPower), now);
        replies := [reply];
      case PowerUpdate(_) =>
      case StartVideo =>
        if !videoActive[id] {
          videoTasks := videoTasks[id := |tasks|];
          tasks := tasks + [VideoTask(id, Pending)];
        }
      case StopVideo =>
        videoActive := videoActive[id := false];
        if id in videoTasks {
          tasks := Cancel(tasks, videoTasks[id]);
          videoTasks := videoTasks - {id};
        }
      case Unrecognised =>
    }

    /**
     * The first run of `handle_video` task `t`: it sets its connection's
     * flag and starts the shared stream; the streaming loop follows only if
     * that start succeeded.
     */
    method HandleVideoBegin(t: TaskId, opens: bool) returns (success: bool)
      requires Valid() && t < |tasks| && tasks[t].phase == Pending
      modifies this, videoStream`active, videoStream`cap, videoStream`initializationError
      ensures Valid()
      ensures clients == old(clients) && videoTasks == old(videoTasks) && fps == old(fps)
      ensures videoActive == old(videoActive)[old(tasks[t].owner) := true]
      ensures success <==> old(videoStream.cap) == None && opens
      ensures tasks == old(tasks)[t := VideoTask(old(tasks[t].owner), if success then Streaming else Finished)]
      ensures videoStream.active == (old(videoStream.active) || success)
      ensures videoStream.cap == if old(videoStream.cap) == None then Some(Capture(opens)) else old(videoStream.cap)
      ensures videoStream.initializationError ==
        if old(videoStream.cap) == None && !opens then Some(CameraOpenError) else old(videoStream.initializationError)
    {
      var owner := tasks[t].owner;
      videoActive := videoActive[owner := true];
      success := videoStream.Start(opens);
      tasks := tasks[t := VideoTask(owner, if success then Streaming else Finished)];
    }

    /**
     * The body of the streaming loop once `get()` has a frame: the frame is
     * taken, counted for FPS and sent on task `t`'s connection with the
     * sample of the window it closes, if any. If the connection is gone the
     * task ends and the frame is lost.
     */
    method ForwardFrame(t: TaskId, now: int, writable: bool) returns (sent: Option<Outbound>)
      requires Valid() && t < |tasks| && videoStream.frameQueue != []
      modifies this`tasks, this`fps, videoStream`frameQueue
      ensures Valid()
      ensures var owner := old(tasks[t].owner);
        var f := old(videoStream.frameQueue[0]);
        var (counter, sample) := CountFrame(old(fps), now);
        && videoStream.frameQueue == [] && fps == counter
        && (writable ==>
              tasks == old(tasks)[t := VideoTask(owner, Streaming)] && sent == Some(VideoFrame(f.payload, f.timestamp, sample)))
        && (!writable ==> tasks == old(tasks)[t := VideoTask(owner, Finished)] && sent == None)
    {
      var owner := tasks[t].owner;
      var frame := videoStream.TakeFrame();
      var (counter, sample) := CountFrame(fps, now);
      fps := counter;
      if !writable {
        tasks := tasks[t := VideoTask(owner, Finished)];
        return None;
      }
      tasks := tasks[t := VideoTask(owner, Streaming)];
      sent := Some(VideoFrame(frame.value.payload, frame.value.timestamp, sample));
    }

    /**
     * One test of the streaming loop's guard by task `t`. The loop ends when
     * its connection's flag or the stream is off. Otherwise the task asks
     * the queue for a frame: it forwards one at once if there is one, and
     * blocks on an empty queue.
     */
    method HandleVideoStep(t: TaskId, now: int, writable: bool) returns (sent: Option<Outbound>)
      requires Valid() && t < |tasks| && tasks[t].phase == Streaming
      modifies this, videoStream`frameQueue
      ensures Valid()
      ensures clients == old(clients) && videoActive == old(videoActive) && videoTasks == old(videoTasks)
      ensures var owner := old(tasks[t].owner);
        !(old(videoActive[owner]) && old(videoStream.active)) ==>
          && tasks == old(tasks)[t := VideoTask(owner, Finished)] && sent == None
          && fps == old(fps) && videoStream.frameQueue == old(videoStream.frameQueue)
      ensures var owner := old(tasks[t].owner);
        old(videoActive[owner]) && old(videoStream.active) && old(videoStream.frameQueue) == [] ==>
          && tasks == old(tasks)[t := VideoTask(owner, Waiting)] && sent == None
          && fps == old(fps) && videoStream.frameQueue == []
      ensures var owner := old(tasks[t].owner);
        old(videoActive[owner]) && old(videoStream.active) && old(videoStream.frameQueue) != [] ==>
          var f := old(videoStream.frameQueue[0]);
          var (counter, sample) := CountFrame(old(fps), now);
          && videoStream.frameQueue == [] && fps == counter
          && (writable ==> tasks == old(tasks) && sent == Some(VideoFrame(f.payload, f.timestamp, sample)))
          && (!writable ==> tasks == old(tasks)[t := VideoTask(owner, Finished)] && sent == None)
    {
      var owner := tasks[t].owner;
      if !(videoActive[owner] && videoStream.active) {
        tasks := tasks[t := VideoTask(owner, Finished)];
        return None;
      }
      if videoStream.frameQueue == [] {
        tasks := tasks[t := VideoTask(owner, Waiting)];
        return None;
      }
      sent := ForwardFrame(t, now, writable);
    }

    /**
     * A blocked task `t` wakes when a frame is queued. It forwards that frame
     * without testing the loop's guard again: the flag and the stream are
     * tested only on the next pass.
     */
    method HandleVideoResume(t: TaskId, now: int, writable: bool) returns (sent: Option<Outbound>)
      requires Valid() && t < |tasks| && tasks[t].phase == Waiting && videoStream.frameQueue != []
      modifies this, videoStream`frameQueue
      ensures Valid()
      ensures clients == old(clients) && videoActive == old(videoActive) && videoTasks == old(videoTasks)
      ensures var owner := old(tasks[t].owner);
        var f := old(videoStream.frameQueue[0]);
        var (counter, sample) := CountFrame(old(fps), now);
        && videoStream.frameQueue == [] && fps == counter
        && (writable ==>
              tasks == old(tasks)[t := VideoTask(owner, Streaming)] && sent == Some(VideoFrame(f.payload, f.timestamp, sample)))
        && (!writable ==> tasks == old(tasks)[t := VideoTask(owner, Finished)] && sent == None)
    {
      sent := ForwardFrame(t, now, writable);
    }

    /**
     * `on_close`: the connection's flag is cleared, its task cancelled and
     * forgotten, and it leaves the client set; the stream is stopped exactly
     * when no client is left, streaming or not.
     */
    method OnClose(id: SessionId)
      requires Valid() && id in clients
      modifies this, videoStream`active, videoStream`cap
      ensures Valid()
      ensures clients == old(clients) - {id}
      ensures videoActive == old(videoActive)[id := false]
      ensures videoTasks == old(videoTasks) - {id}
      ensures tasks == if id in old(videoTasks) then Cancel(old(tasks), old(videoTasks[id])) else old(tasks)
      ensures fps == old(fps)
      ensures clients == {} ==> !videoStream.active && videoStream.cap == None
      ensures clients != {} ==>
        videoStream.active == old(videoStream.active) && videoStream.cap == old(videoStream.cap)
    {
      videoActive := videoActive[id := false];
      if id in videoTasks {
        tasks := Cancel(tasks, videoTasks[id]);
        videoTasks := videoTasks - {id};
      }
      clients := clients - {id};
      if |clients| == 0 {
        videoStream.Stop();
      }
    }
  }

  /**
   * Connection 7 sends `start_video` twice before its first task runs. Both
   * tasks start; the first finds the queue empty and waits on it. The
   * connection's task map holds only the second task.
   */
  method TwoTasksFirstWaiting() returns (server: AsyncRobotWebSocket)
    ensures fresh(server) && fresh(server.videoStream) && server.Valid()
    ensures 7 in server.clients && server.videoTasks == map[7 := 1]
    ensures |server.tasks| == 2 && server.tasks[0] == VideoTask(7, Waiting)
    ensures server.videoStream.active && server.videoStream.cap == Some(Capture(true))
    ensures server.videoStream.frameQueue == [] && server.videoStream.lastFrameTime == 0
    ensures server.fps == FpsCounter(0, 0)
  {
    server := new AsyncRobotWebSocket(0);
    var _ := server.Open(7);
    var _ := server.OnMessage(7, StartVideo, 0);
    var _ := server.OnMessage(7, StartVideo, 0);
    var first := server.HandleVideoBegin(0, true);
    var second := server.HandleVideoBegin(1, true);
    var _ := server.HandleVideoStep(0, 0, true);
  }

  /**
   * From there the connection sends `stop_video` while the first task
   * waits. `stop_video` cancels only the second task, and the first one
   * still forwards the next frame to the connection that stopped its video.
   */
  method OrphanedTaskOutlivesStopVideo() returns (sent: Option<Outbound>, watching: bool)
    ensures !watching
    ensures sent == Some(VideoFrame("jpeg", MinFrameInterval, None))
  {
    var server := TwoTasksFirstWaiting();
    var _ := server.OnMessage(7, StopVideo, 0);
    assert server.tasks[0].phase == Waiting && !server.videoActive[7];
    var _ := server.videoStream.CaptureIteration(MinFrameInterval, Some("jpeg"));
    assert server.videoStream.frameQueue == [Frame("jpeg", MinFrameInterval)];
    sent := server.HandleVideoResume(0, MinFrameInterval, true);
    watching := server.videoActive[7];
  }
}
