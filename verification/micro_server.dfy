/**
 * The MicroPython motor server (main.py): motors whose direction and PWM
 * duty are recorded, and `handle_request`, which routes a raw HTTP request
 * by substring tests. The socket loop, Wi-Fi and the file read behind the
 * index page are not modelled.
 */
module MicroServer {
  import opened Common
  import opened PyText

  /** `set_pwm` clamps to the 8-bit duty range [0, 255]. */
  const MaxPwm: int := 255

  /** The separator whose last piece `int()` reads in the pwm route. */
  const ValueKey: string := "value="

  class MotorController {
    const name: string
    var currentState: Direction
    var pwmValue: int

    ghost predicate Valid()
      reads this
    {
      0 <= pwmValue <= MaxPwm
    }

    constructor (name: string)
      ensures Valid()
      ensures this.name == name && currentState == Off && pwmValue == 0
    {
      this.name := name;
      currentState := Off;
      pwmValue := 0;
    }

    /** The direction changes; the duty cycle does not. */
    method MotorForward()
      modifies this`currentState
      ensures currentState == Forward
    {
      currentState := Forward;
    }

    method MotorBackward()
      modifies this`currentState
      ensures currentState == Backward
    {
      currentState := Backward;
    }

    method MotorOff()
      modifies this`currentState
      ensures currentState == Off
    {
      currentState := Off;
    }

    /** The duty cycle becomes the value clamped to [0, 255]; the direction stays. */
    method SetPwm(value: int)
      modifies this`pwmValue
      ensures Valid()
      ensures pwmValue == Clamp(0, MaxPwm, value)
    {
      pwmValue := Max(0, Min(MaxPwm, value));
    }

    /** The motor's JSON state: its name, its direction's label and its duty cycle. */
    function GetState(): (r: MotorReport)
      reads this
      ensures r.name == name && r.state == currentState.Label() && r.level == pwmValue
      ensures Valid() ==> 0 <= r.level <= MaxPwm
    {
      MotorReport(name, currentState.Label(), pwmValue)
    }
  }

  /** What a motor route asks of its motor. */
  datatype Action = GoForward | GoBackward | GoOff | SetPwmTo

  /** The route `handle_request` takes. `k` indexes the motors in dictionary order. */
  datatype Route = IndexRoute | StateRoute | MotorRoute(k: nat, action: Action) | NoRoute

  /** The four tests made for one motor, in order; the pwm route also needs "value=" somewhere in the request. */
  function RouteFor(request: string, name: string): Option<Action>
  {
    if Contains(request, "GET /" + name + "/forward") then Some(GoForward)
    else if Contains(request, "GET /" + name + "/backward") then Some(GoBackward)
    else if Contains(request, "GET /" + name + "/off") then Some(GoOff)
    else if Contains(request, "GET /" + name + "/pwm") && Contains(request, ValueKey) then Some(SetPwmTo)
    else None
  }

  /** The first motor, from index `from` on, that one of its routes matches. */
  function FirstMotorRoute(request: string, names: seq<string>, from: nat): Option<(nat, Action)>
    decreases |names| - from
  {
    if from >= |names| then None
    else match RouteFor(request, names[from])
      case Some(a) => Some((from, a))
      case None => FirstMotorRoute(request, names, from + 1)
  }

  /** The routing decision of `handle_request` for motors named `names`. */
  function Resolve(request: string, names: seq<string>): (r: Route)
    ensures Contains(request, "GET / ") ==> r == IndexRoute
    ensures !Contains(request, "GET / ") && Contains(request, "GET /state") ==> r == StateRoute
    ensures r.MotorRoute? ==> r.k < |names| && RouteFor(request, names[r.k]) == Some(r.action)
  {
    FirstMotorRouteIsFirst(request, names, 0);
    if Contains(request, "GET / ") then IndexRoute
    else if Contains(request, "GET /state") then StateRoute
    else match FirstMotorRoute(request, names, 0)
      case Some((k, a)) => MotorRoute(k, a)
      case None => NoRoute
  }

  /** `FirstMotorRoute` finds the first matching motor at or after `from`, and `None` means none matches. */
  lemma {:induction false} FirstMotorRouteIsFirst(request: string, names: seq<string>, from: nat)
    ensures var r := FirstMotorRoute(request, names, from);
      && (r.Some? ==>
          && from <= r.value.0 < |names|
          && RouteFor(request, names[r.value.0]) == Some(r.value.1)
          && forall j :: from <= j < r.value.0 ==> RouteFor(request, names[j]).None?)
      && (r.None? ==> forall j :: from <= j < |names| ==> RouteFor(request, names[j]).None?)
    decreases |names| - from
  {
    if from < |names| && RouteFor(request, names[from]).None? {
      FirstMotorRouteIsFirst(request, names, from + 1);
    }
  }

  /**
   * Motor `k` is acted on with `a` exactly when neither the index nor the
   * state route matched, `a` is the first of motor `k`'s routes that
   * matches, and no motor before `k` has a matching route.
   */
  lemma ResolveMotorRoute(request: string, names: seq<string>, k: nat, a: Action)
    ensures Resolve(request, names) == MotorRoute(k, a) <==>
      && !Contains(request, "GET / ") && !Contains(request, "GET /state")
      && k < |names| && RouteFor(request, names[k]) == Some(a)
      && forall j :: 0 <= j < k ==> RouteFor(request, names[j]).None?
  {
    FirstMotorRouteIsFirst(request, names, 0);
    var r := FirstMotorRoute(request, names, 0);
    if r.Some? && r.value.0 < k {
      assert RouteFor(request, names[r.value.0]).Some?;
    }
  }

  /** The request gets 404 exactly when no route of any kind matches it. */
  lemma ResolveNoRoute(request: string, names: seq<string>)
    ensures Resolve(request, names) == NoRoute <==>
      && !Contains(request, "GET / ") && !Contains(request, "GET /state")
      && forall j :: 0 <= j < |names| ==> RouteFor(request, names[j]).None?
  {
    FirstMotorRouteIsFirst(request, names, 0);
  }

  /** Two occurrences of "value=" never overlap: its first character, 'v', occurs nowhere else in it. */
  lemma KeysApart(text: string, p: int, q: int)
    requires OccursAt(text, ValueKey, p) && OccursAt(text, ValueKey, q) && p < q
    ensures p + |ValueKey| <= q
  {
    OccursAtMeaning(text, ValueKey, p);
    OccursAtMeaning(text, ValueKey, q);
  }

  /** A "value=" in `head + rest` lies inside `rest` when no character of `head` is a 'v'. */
  lemma NoKeyAcross(head: string, rest: string)
    requires forall k :: 0 <= k < |head| ==> head[k] != 'v'
    requires !Contains(rest, ValueKey)
    ensures !Contains(head + rest, ValueKey)
  {
    var text := head + rest;
    forall q | OccursAt(text, ValueKey, q)
      ensures false
    {
      if q < |head| {
        OccursAtMeaning(text, ValueKey, q);
      } else {
        OccursInRight(head, rest, ValueKey, q);
      }
    }
  }

  /** A suffix of `prefix + "value=" + tail` long enough to hold the final key holds it. */
  lemma KeyInLongSuffix(prefix: string, tail: string, r: string)
    requires var text := prefix + ValueKey + tail;
      |tail| + |ValueKey| <= |r| <= |text| && r == text[|text| - |r|..]
    ensures Contains(r, ValueKey)
  {
    var text := prefix + ValueKey + tail;
    var q := |r| - |tail| - |ValueKey|;
    assert r[q..q + |ValueKey|] == text[|prefix|..|prefix| + |ValueKey|];
    OccursAtMeaning(r, ValueKey, q);
  }

  /** The text after the last "value=" is everything after the final one, when nothing after it holds "value=". */
  lemma SplitLastAfterFinalKey(prefix: string, tail: string)
    requires !Contains(tail, ValueKey)
    ensures SplitLast(prefix + ValueKey + tail, ValueKey) == tail
  {
    var text := prefix + ValueKey + tail;
    SplitLastAfterSeparator(text, ValueKey);
    var r := SplitLast(text, ValueKey);
    assert OccursAt(text, ValueKey, |prefix|) by {
      assert text[|prefix|..|prefix| + |ValueKey|] == ValueKey;
      OccursAtMeaning(text, ValueKey, |prefix|);
    }
    if |r| >= |tail| + |ValueKey| {
      KeyInLongSuffix(prefix, tail, r);
    } else {
      var p := |text| - |r| - |ValueKey|;
      if p < |prefix| {
        KeysApart(text, p, |prefix|);
      } else if p > |prefix| {
        KeysApart(text, |prefix|, p);
        assert text == (prefix + ValueKey) + tail;
        OccursInRight(prefix + ValueKey, tail, ValueKey, p);
      }
      assert text[|text| - |r|..] == tail;
    }
  }

  /**
   * A request that ends with "value=", a number and nothing but whitespace
   * (such as "\r\n") sets that number.
   */
  lemma PwmValueAtEnd(prefix: string, n: int, ws: string)
    requires forall k :: 0 <= k < |ws| ==> IsSpace(ws[k])
    ensures ParseInt(SplitLast(prefix + ValueKey + Show(n) + ws, ValueKey)) == Some(n)
  {
    var s := Show(n);
    ShowEnds(n);
    assert forall k :: 0 <= k < |s + ws| ==> (s + ws)[k] != 'v' by {
      forall k | |s| <= k < |s + ws| ensures (s + ws)[k] != 'v' {
        assert (s + ws)[k] == ws[k - |s|];
      }
    }
    NoKeyAcross(s + ws, []);
    assert (s + ws) + [] == s + ws;
    assert prefix + ValueKey + s + ws == prefix + ValueKey + (s + ws);
    SplitLastAfterFinalKey(prefix, s + ws);
    ParseIntShowPadded(n, ws);
  }

  /**
   * When the number is followed by the rest of a request (a space, then
   * text that starts with a non-space and holds no further "value="),
   * `int()` raises, whatever headers and line ends follow.
   */
  lemma PwmValueBeforeRequestLine(prefix: string, n: int, rest: string)
    requires rest != [] && !IsSpace(rest[0])
    requires !Contains(rest, ValueKey)
    ensures ParseInt(SplitLast(prefix + ValueKey + Show(n) + " " + rest, ValueKey)) == None
  {
    var head := Show(n) + " ";
    var tail := head + rest;
    assert prefix + ValueKey + Show(n) + " " + rest == prefix + ValueKey + tail;
    assert Show(n) + " " + rest == tail;
    ShowEnds(n);
    assert forall k :: 0 <= k < |head| ==> head[k] != 'v' by {
      forall k | 0 <= k < |head| ensures head[k] != 'v' {
        if k < |Show(n)| {
          assert head[k] == Show(n)[k];
        }
      }
    }
    NoKeyAcross(head, rest);
    SplitLastAfterFinalKey(prefix, tail);
    ParseIntRejectsTrailingText(Show(n), rest);
  }

  /** The JSON object of `/state`: each motor's report under its name, in dictionary order. */
  function StatesOf(names: seq<string>, motors: seq<MotorController>): (r: seq<(string, MotorReport)>)
    requires |names| == |motors|
    reads set m | m in motors
    ensures |r| == |names|
    ensures forall i :: 0 <= i < |r| ==> r[i] == (names[i], motors[i].GetState())
  {
    if names == [] then []
    else [(names[0], motors[0].GetState())] + StatesOf(names[1..], motors[1..])
  }

  /** What `handle_request` answers; `ValueError` is the exception `int()` raises out of it. */
  datatype Reply = IndexPage | States(states: seq<(string, MotorReport)>) | MotorState(state: MotorReport) | NotFound | ValueError

  /** The dictionary `motors`: distinct names, distinct controllers. */
  ghost predicate MotorTable(names: seq<string>, motors: seq<MotorController>)
    reads set m | m in motors
  {
    && |names| == |motors|
    && (forall i, j :: 0 <= i < j < |names| ==> names[i] != names[j] && motors[i] != motors[j])
    && (forall i :: 0 <= i < |motors| ==> motors[i].Valid())
  }

  /**
   * What the branch of `handle_request` for `action` did to motor `m`: a
   * direction route sets the direction and keeps the pwm; the pwm route
   * reads the text after the last "value=" with `int()` and either stores
   * it clamped, keeping the direction, or raises `ValueError` and changes
   * nothing. The reply is the motor's new state, or the `ValueError`.
   */
  twostate predicate Acted(m: MotorController, action: Action, request: string, reply: Reply)
    reads m
  {
    && (action == GoForward ==> m.currentState == Forward && m.pwmValue == old(m.pwmValue))
    && (action == GoBackward ==> m.currentState == Backward && m.pwmValue == old(m.pwmValue))
    && (action == GoOff ==> m.currentState == Off && m.pwmValue == old(m.pwmValue))
    && (action == SetPwmTo ==>
          match ParseInt(SplitLast(request, ValueKey))
          case None => unchanged(m)
          case Some(v) => m.currentState == old(m.currentState) && m.pwmValue == Clamp(0, MaxPwm, v))
    && reply == if action == SetPwmTo && ParseInt(SplitLast(request, ValueKey)).None?
                then ValueError else MotorState(m.GetState())
  }

  /** The body of one matching branch of the motor loop in `handle_request`. */
  method ActOn(m: MotorController, action: Action, request: string) returns (reply: Reply)
    requires m.Valid()
    modifies m
    ensures m.Valid()
    ensures Acted(m, action, request, reply)
  {
    match action
    case GoForward =>
      m.MotorForward();
      reply := MotorState(m.GetState());
    case GoBackward =>
      m.MotorBackward();
      reply := MotorState(m.GetState());
    case GoOff =>
      m.MotorOff();
      reply := MotorState(m.GetState());
    case SetPwmTo =>
      var value := ParseInt(SplitLast(request, ValueKey));
      if value.None? {
        return ValueError;
      }
      m.SetPwm(value.value);
      reply := MotorState(m.GetState());
  }

  /**
   * `handle_request`: the index and state routes come first; then the first
   * motor in dictionary order with a matching route is acted on and no
   * other motor changes; a request no route matches gets 404.
   */
  method HandleRequest(request: string, names: seq<string>, motors: seq<MotorController>) returns (reply: Reply)
    requires MotorTable(names, motors)
    modifies set m | m in motors
    ensures MotorTable(names, motors)
    ensures var route := Resolve(request, names);
      && (route == IndexRoute ==> reply == IndexPage && unchanged(set m | m in motors))
      && (route == StateRoute ==> reply == States(StatesOf(names, motors)) && unchanged(set m | m in motors))
      && (route == NoRoute ==> reply == NotFound && unchanged(set m | m in motors))
    ensures var route := Resolve(request, names);
      route.MotorRoute? ==>
        && route.k < |motors|
        && (forall j :: 0 <= j < |motors| && j != route.k ==> unchanged(motors[j]))
        && Acted(motors[route.k], route.action, request, reply)
  {
    if Contains(request, "GET / ") {
      return IndexPage;
    } else if Contains(request, "GET /state") {
      return States(StatesOf(names, motors));
    }
    var i := 0;
    while i < |motors|
      invariant 0 <= i <= |motors|
      invariant FirstMotorRoute(request, names, i) == FirstMotorRoute(request, names, 0)
      invariant unchanged(set m | m in motors)
    {
      var action := RouteFor(request, names[i]);
      if action.Some? {
        reply := ActOn(motors[i], action.value, request);
        return;
      }
      i := i + 1;
    }
    reply := NotFound;
  }
}
