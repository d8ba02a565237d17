/**
 * The command logic of the React control panel (sockets/rasppi/src/App.js):
 * the bounded command history, the arrow-key map, the continuous-move latch
 * with its resend interval, the `sendCommand` guard and the fps metric.
 * Rendering, the reconnect timer, clock readings (latency, time of day) and
 * JSON are not modelled; a socket is reduced to whether it is OPEN, and a
 * sent message to a `Protocol.Inbound` record.
 */
module ControlApp {
  import opened Common
  import opened Protocol

  /** The history keeps the five newest responses. */
  const HistoryLimit: nat := 5

  /** The power slider's initial value. */
  const InitialPower: int := 100

  /** A history row: the command and power a `command_response` echoed. */
  datatype HistoryEntry = HistoryEntry(command: string, power: int)

  /** The history after one more response: the entry in front, then the older rows, five at most. */
  function PushHistory(entry: HistoryEntry, prev: seq<HistoryEntry>): (r: seq<HistoryEntry>)
    ensures |r| == Min(|prev| + 1, HistoryLimit)
    ensures r[0] == entry
    ensures forall i :: 1 <= i < |r| ==> r[i] == prev[i - 1]
  {
    ([entry] + prev)[..Min(|prev| + 1, HistoryLimit)]
  }

  function Reverse<T>(s: seq<T>): (r: seq<T>)
    ensures |r| == |s|
    ensures forall i :: 0 <= i < |s| ==> r[i] == s[|s| - 1 - i]
  {
    if s == [] then [] else Reverse(s[1..]) + [s[0]]
  }

  /** The history after the responses `entries` arrive, in that order. */
  function PushAll(prev: seq<HistoryEntry>, entries: seq<HistoryEntry>): seq<HistoryEntry>
    decreases |entries|
  {
    if entries == [] then prev
    else PushAll(PushHistory(entries[0], prev), entries[1..])
  }

  /**
   * Whatever arrives, the history is the newest responses first, cut to
   * five: the latest arrivals in reverse order, followed by the older
   * history while room is left.
   */
  lemma {:induction false} PushAllNewestFirst(prev: seq<HistoryEntry>, entries: seq<HistoryEntry>)
    requires |prev| <= HistoryLimit
    ensures var r := PushAll(prev, entries);
      var all := Reverse(entries) + prev;
      |r| == Min(|all|, HistoryLimit) && r == all[..|r|]
    decreases |entries|
  {
    if entries != [] {
      var next := PushHistory(entries[0], prev);
      PushAllNewestFirst(next, entries[1..]);
      var all := Reverse(entries) + prev;
      var all' := Reverse(entries[1..]) + next;
      var r := PushAll(prev, entries);
      assert r == PushAll(next, entries[1..]);
      assert |all'| >= |r|;
      forall i | 0 <= i < |r|
        ensures r[i] == all[i]
      {
        if i >= |entries| {
          assert all'[i] == next[i - |entries| + 1] == prev[i - |entries|];
        }
      }
    }
  }

  /** `keyMap[e.key]`: the four arrow keys and the commands they drive. */
  function KeyMap(key: string): (command: Option<string>)
    ensures command.Some? <==> key in {"ArrowUp", "ArrowDown", "ArrowLeft", "ArrowRight"}
    ensures key == "ArrowUp" ==> command == Some("forward")
    ensures key == "ArrowDown" ==> command == Some("backward")
    ensures key == "ArrowLeft" ==> command == Some("left")
    ensures key == "ArrowRight" ==> command == Some("right")
  {
    if key == "ArrowUp" then Some("forward")
    else if key == "ArrowDown" then Some("backward")
    else if key == "ArrowLeft" then Some("left")
    else if key == "ArrowRight" then Some("right")
    else None
  }

  /** `message.data.fps || prev.fps`: a frame without fps, or with fps 0, keeps the shown value. */
  function NextFps(prev: real, fps: Option<real>): (r: real)
    ensures fps.None? || fps.value == 0.0 ==> r == prev
    ensures fps.Some? && fps.value != 0.0 ==> r == fps.value
  {
    if fps.Some? && fps.value != 0.0 then fps.value else prev
  }

  /** A running `setInterval` of `startContinuousMove`: its command and the power its closure saw. */
  datatype Interval = Interval(command: string, power: int)

  /** The component's state and refs, and the messages it has sent. */
  class ControlPanel {
    /** `ws.readyState === WebSocket.OPEN`. */
    var socketOpen: bool
    /** The `connected` indicator. */
    var connected: bool
    var power: int
    var activeKeys: set<string>
    var commandHistory: seq<HistoryEntry>
    var fps: real
    /** `activeCommandRef.current`. */
    var activeCommand: Option<string>
    /** `moveIntervalRef.current`: the last interval started and not cleared through the ref. */
    var moveInterval: Option<Interval>
    /** Whether that interval still fires; `clearInterval` stops it without emptying the ref. */
    var intervalLive: bool
    /** Everything `ws.send` has sent, oldest first. */
    var sent: seq<Inbound>

    /** The latch and the interval ref are set and cleared together, with the same command. */
    ghost predicate Valid()
      reads this
    {
      && |commandHistory| <= HistoryLimit
      && (moveInterval.Some? <==> activeCommand.Some?)
      && (moveInterval.Some? ==> moveInterval.value.command == activeCommand.value)
      && (intervalLive ==> moveInterval.Some?)
    }

    constructor ()
      ensures Valid()
      ensures !socketOpen && !connected && power == InitialPower && activeKeys == {}
      ensures commandHistory == [] && fps == 0.0
      ensures activeCommand == None && moveInterval == None && !intervalLive && sent == []
    {
      socketOpen := false;
      connected := false;
      power := InitialPower;
      activeKeys := {};
      commandHistory := [];
      fps := 0.0;
      activeCommand := None;
      moveInterval := None;
      intervalLive := false;
      sent := [];
    }

    /** `socket.onopen`: connected, and the video is requested at once. */
    method OnSocketOpen()
      requires Valid()
      modifies this`socketOpen, this`connected, this`sent
      ensures Valid()
      ensures socketOpen && connected && sent == old(sent) + [StartVideo]
    {
      socketOpen := true;
      connected := true;
      sent := sent + [StartVideo];
    }

    /** `socket.onclose`; nothing can be sent any more. */
    method OnSocketClose()
      requires Valid()
      modifies this`socketOpen, this`connected
      ensures Valid()
      ensures !socketOpen && !connected
    {
      socketOpen := false;
      connected := false;
    }

    /** `socket.onerror`: the indicator goes off; the socket's own state is the browser's business. */
    method OnSocketError()
      requires Valid()
      modifies this`connected
      ensures Valid()
      ensures !connected
    {
      connected := false;
    }

    /** `ws.send` of a movement command with the given power, only while the socket is OPEN. */
    method SendWith(command: string, withPower: int)
      modifies this`sent
      ensures sent == old(sent) + if socketOpen then [MovementCommand(command, Some(withPower))] else []
    {
      if socketOpen {
        sent := sent + [MovementCommand(command, Some(withPower))];
      }
    }

    /** `sendCommand`: the command with the current power, only while the socket is OPEN. */
    method SendCommand(command: string)
      modifies this`sent
      ensures sent == old(sent) + if socketOpen then [MovementCommand(command, Some(power))] else []
    {
      SendWith(command, power);
    }

    /**
     * `startContinuousMove`: any interval in the ref is cleared, the latch
     * takes the command, the command is sent once, and a new interval
     * for it, closing over the current power, starts.
     */
    method StartContinuousMove(command: string)
      requires Valid()
      modifies this`activeCommand, this`moveInterval, this`intervalLive, this`sent
      ensures Valid()
      ensures activeCommand == Some(command)
      ensures moveInterval == Some(Interval(command, power)) && intervalLive
      ensures sent == old(sent) + if socketOpen then [MovementCommand(command, Some(power))] else []
    {
      intervalLive := false;
      activeCommand := Some(command);
      SendCommand(command);
      moveInterval := Some(Interval(command, power));
      intervalLive := true;
    }

    /**
     * One firing of the live interval: it resends its own command, with the
     * power it captured, only while the latch still holds that command.
     */
    method IntervalTick()
      requires Valid() && intervalLive
      modifies this`sent
      ensures Valid()
      ensures var iv := moveInterval.value;
        sent == old(sent) + if activeCommand == Some(iv.command) && socketOpen
          then [MovementCommand(iv.command, Some(iv.power))] else []
    {
      var iv := moveInterval.value;
      if activeCommand == Some(iv.command) {
        SendWith(iv.command, iv.power);
      }
    }

    /** `stopContinuousMove`: releasing the latched command stops it; releasing another changes nothing. */
    method StopContinuousMove(command: string)
      requires Valid()
      modifies this`activeCommand, this`moveInterval, this`intervalLive
      ensures Valid()
      ensures old(activeCommand) == Some(command) ==> activeCommand == None && moveInterval == None && !intervalLive
      ensures old(activeCommand) != Some(command) ==> unchanged(this)
    {
      if activeCommand == Some(command) {
        intervalLive := false;
        moveInterval := None;
        activeCommand := None;
      }
    }

    /**
     * The keyboard effect's cleanup, which runs whenever `activeKeys` (or
     * the callbacks) change: the interval in the ref stops firing, but the
     * ref and the latch keep their values.
     */
    method KeyEffectCleanup()
      requires Valid()
      modifies this`intervalLive
      ensures Valid()
      ensures !intervalLive
    {
      intervalLive := false;
    }

    /**
     * The body of `handleKeyDown`: an arrow key not already held is recorded
     * and starts its command. `changed` says whether `activeKeys` was set,
     * which makes React render again.
     */
    method PressKey(key: string) returns (changed: bool)
      requires Valid()
      modifies this`activeKeys, this`activeCommand, this`moveInterval, this`intervalLive, this`sent
      ensures Valid()
      ensures changed <==> KeyMap(key).Some? && key !in old(activeKeys)
      ensures !changed ==> unchanged(this)
      ensures changed ==>
        && activeKeys == old(activeKeys) + {key}
        && activeCommand == KeyMap(key)
        && moveInterval == Some(Interval(KeyMap(key).value, power)) && intervalLive
        && sent == old(sent) + if socketOpen then [MovementCommand(KeyMap(key).value, Some(power))] else []
    {
      var command := KeyMap(key);
      changed := command.Some? && key !in activeKeys;
      if changed {
        activeKeys := activeKeys + {key};
        StartContinuousMove(command.value);
      }
    }

    /**
     * `handleKeyDown` followed by the render it causes: the new `activeKeys`
     * re-runs the keyboard effect, whose cleanup stops the interval just
     * started. The command is sent once and the latch stays set.
     */
    method HandleKeyDown(key: string)
      requires Valid()
      modifies this`activeKeys, this`activeCommand, this`moveInterval, this`intervalLive, this`sent
      ensures Valid()
      ensures KeyMap(key).None? || key in old(activeKeys) ==> unchanged(this)
      ensures KeyMap(key).Some? && key !in old(activeKeys) ==>
        && activeKeys == old(activeKeys) + {key}
        && activeCommand == KeyMap(key)
        && moveInterval == Some(Interval(KeyMap(key).value, power)) && !intervalLive
        && sent == old(sent) + if socketOpen then [MovementCommand(KeyMap(key).value, Some(power))] else []
    {
      var changed := PressKey(key);
      if changed {
        KeyEffectCleanup();
      }
    }

    /** The body of `handleKeyUp`: an arrow key is dropped from the held keys and releases its command. */
    method ReleaseKey(key: string) returns (changed: bool)
      requires Valid()
      modifies this`activeKeys, this`activeCommand, this`moveInterval, this`intervalLive
      ensures Valid()
      ensures changed <==> KeyMap(key).Some?
      ensures !changed ==> unchanged(this)
      ensures changed ==>
        && activeKeys == old(activeKeys) - {key}
        && (old(activeCommand) == KeyMap(key) ==> activeCommand == None && moveInterval == None && !intervalLive)
        && (old(activeCommand) != KeyMap(key) ==>
              activeCommand == old(activeCommand) && moveInterval == old(moveInterval)
              && intervalLive == old(intervalLive))
    {
      var command := KeyMap(key);
      changed := command.Some?;
      if changed {
        activeKeys := activeKeys - {key};
        StopContinuousMove(command.value);
      }
    }

    /**
     * `handleKeyUp` followed by the render it causes: the released command
     * stops if it is the latched one, and any other interval is stopped by
     * the effect's cleanup while its latch stays set.
     */
    method HandleKeyUp(key: string)
      requires Valid()
      modifies this`activeKeys, this`activeCommand, this`moveInterval, this`intervalLive
      ensures Valid()
      ensures KeyMap(key).None? ==> unchanged(this)
      ensures KeyMap(key).Some? ==>
        && activeKeys == old(activeKeys) - {key}
        && !intervalLive
        && (old(activeCommand) == KeyMap(key) ==> activeCommand == None && moveInterval == None)
        && (old(activeCommand) != KeyMap(key) ==>
              activeCommand == old(activeCommand) && moveInterval == old(moveInterval))
    {
      var changed := ReleaseKey(key);
      if changed {
        KeyEffectCleanup();
      }
    }

    /** The body of `handleButtonPress`: the command itself is recorded as held (no check), and starts. */
    method PressButton(command: string)
      requires Valid()
      modifies this`activeKeys, this`activeCommand, this`moveInterval, this`intervalLive, this`sent
      ensures Valid()
      ensures activeKeys == old(activeKeys) + {command}
      ensures activeCommand == Some(command)
      ensures moveInterval == Some(Interval(command, power)) && intervalLive
      ensures sent == old(sent) + if socketOpen then [MovementCommand(command, Some(power))] else []
    {
      activeKeys := activeKeys + {command};
      StartContinuousMove(command);
    }

    /** `handleButtonPress` followed by the render it causes, whose effect cleanup stops the new interval. */
    method HandleButtonPress(command: string)
      requires Valid()
      modifies this`activeKeys, this`activeCommand, this`moveInterval, this`intervalLive, this`sent
      ensures Valid()
      ensures activeKeys == old(activeKeys) + {command}
      ensures activeCommand == Some(command)
      ensures moveInterval == Some(Interval(command, power)) && !intervalLive
      ensures sent == old(sent) + if socketOpen then [MovementCommand(command, Some(power))] else []
    {
      PressButton(command);
      KeyEffectCleanup();
    }

    /** The body of `handleButtonRelease`: the command is dropped from the held set and released. */
    method ReleaseButton(command: string)
      requires Valid()
      modifies this`activeKeys, this`activeCommand, this`moveInterval, this`intervalLive
      ensures Valid()
      ensures activeKeys == old(activeKeys) - {command}
      ensures old(activeCommand) == Some(command) ==> activeCommand == None && moveInterval == None && !intervalLive
      ensures old(activeCommand) != Some(command) ==>
        activeCommand == old(activeCommand) && moveInterval == old(moveInterval) && intervalLive == old(intervalLive)
    {
      activeKeys := activeKeys - {command};
      StopContinuousMove(command);
    }

    /** `handleButtonRelease` followed by the render it causes: no interval is left firing. */
    method HandleButtonRelease(command: string)
      requires Valid()
      modifies this`activeKeys, this`activeCommand, this`moveInterval, this`intervalLive
      ensures Valid()
      ensures activeKeys == old(activeKeys) - {command}
      ensures !intervalLive
      ensures old(activeCommand) == Some(command) ==> activeCommand == None && moveInterval == None
      ensures old(activeCommand) != Some(command) ==>
        activeCommand == old(activeCommand) && moveInterval == old(moveInterval)
    {
      ReleaseButton(command);
      KeyEffectCleanup();
    }

    /**
     * `handlePowerChange`: the slider value is kept and, while OPEN, sent as
     * a power update. A new value renders again with a new `sendCommand`,
     * which re-runs the keyboard effect and so stops the interval.
     */
    method HandlePowerChange(newPower: int)
      requires Valid()
      modifies this`power, this`sent, this`intervalLive
      ensures Valid()
      ensures power == newPower
      ensures sent == old(sent) + if socketOpen then [PowerUpdate(Some(newPower))] else []
      ensures intervalLive == (old(intervalLive) && newPower == old(power))
    {
      var rerender := newPower != power;
      power := newPower;
      if socketOpen {
        sent := sent + [PowerUpdate(Some(newPower))];
      }
      if rerender {
        KeyEffectCleanup();
      }
    }

    /** A `connection_status` message sets the indicator to whether the status is "connected". */
    method OnConnectionStatus(status: string)
      requires Valid()
      modifies this`connected
      ensures Valid()
      ensures connected <==> status == "connected"
    {
      connected := status == "connected";
    }

    /** A `video_frame` message updates the fps metric. */
    method OnVideoFrame(frameFps: Option<real>)
      requires Valid()
      modifies this`fps
      ensures Valid()
      ensures fps == NextFps(old(fps), frameFps)
    {
      fps := NextFps(fps, frameFps);
    }

    /** A `command_response` message is pushed on the history. */
    method OnCommandResponse(command: string, echoedPower: int)
      requires Valid()
      modifies this`commandHistory
      ensures Valid()
      ensures commandHistory == PushHistory(HistoryEntry(command, echoedPower), old(commandHistory))
    {
      commandHistory := PushHistory(HistoryEntry(command, echoedPower), commandHistory);
    }
  }

  /**
   * An arrow key held down, as the code is written: the command is sent
   * once, and the interval meant to resend it is already stopped, so no
   * resend can follow however long the key is held.
   */
  method HeldKeyAsWritten() returns (sent: seq<Inbound>, live: bool)
    ensures sent == [StartVideo, MovementCommand("forward", Some(InitialPower))]
    ensures !live
  {
    var panel := new ControlPanel();
    panel.OnSocketOpen();
    panel.HandleKeyDown("ArrowUp");
    sent, live := panel.sent, panel.intervalLive;
  }

  /**
   * An arrow key held down, as intended ("every 100ms while key is held"):
   * without the effect's cleanup, each firing of the interval resends the
   * command.
   */
  method HeldKeyIntended() returns (sent: seq<Inbound>)
    ensures sent == [StartVideo] + seq(3, _ => MovementCommand("forward", Some(InitialPower)))
  {
    var panel := new ControlPanel();
    panel.OnSocketOpen();
    var _ := panel.PressKey("ArrowUp");
    panel.IntervalTick();
    panel.IntervalTick();
    sent := panel.sent;
  }

  /**
   * Two arrow keys held together, as the code is written: releasing the
   * first one pressed leaves the second one latched, but no interval is
   * left to resend it.
   */
  method OverlappingKeys() returns (latched: Option<string>, live: bool)
    ensures latched == Some("left")
    ensures !live
  {
    var panel := new ControlPanel();
    panel.OnSocketOpen();
    panel.HandleKeyDown("ArrowUp");
    panel.HandleKeyDown("ArrowLeft");
    panel.HandleKeyUp("ArrowUp");
    latched, live := panel.activeCommand, panel.intervalLive;
  }

  /**
   * Two arrow keys held together, as intended: releasing the first one
   * pressed does not stop the second one's movement, and only the second
   * command is resent.
   */
  method OverlappingKeysIntended() returns (resent: seq<Inbound>, latched: Option<string>)
    ensures latched == Some("left")
    ensures resent == [MovementCommand("left", Some(InitialPower))]
  {
    var panel := new ControlPanel();
    panel.OnSocketOpen();
    var _ := panel.PressKey("ArrowUp");
    var _ := panel.PressKey("ArrowLeft");
    var _ := panel.ReleaseKey("ArrowUp");
    var before := panel.sent;
    panel.IntervalTick();
    resent := panel.sent[|before|..];
    latched := panel.activeCommand;
  }
}
