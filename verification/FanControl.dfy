/**
 Fan control in the planter: the sensor thread reads the fan's state and sends
 commands, the main loop receives them, switches the relay and writes the state.
 Every read of the shared state, every send and every half of a command's
 handling is a step of its own, so all interleavings are runs of `Apply`.
 */
module FanControl {
  import opened Bytes

  /** STATE_FAN_*, which are also the commands that lead there. */
  datatype Fan = Off | On | VeryFast

  /** A message in the queue: one for the fan, or one for another device. */
  datatype Cmd = ForFan(fan: Fan) | ForOther(code: nat)

  const BIAS_HUMI := 5
  const BIAS_TEMP := 5

  /** A reading, with the boundaries in force. */
  datatype Reading = Reading(humi: int, temp: int, humiUpperFan: int, tempUpperCooler: int)
  {
    /** boundary_update */
    function HumiUnderFan(): int {
      humiUpperFan - BIAS_HUMI
    }

    function TempUnderCooler(): int {
      tempUpperCooler - BIAS_TEMP
    }
  }

  // ------------------------------------------------- the decisions, undisturbed

  /** What the humidity calls for in this state. */
  function HumiCommand(r: Reading, fan: Fan): Option<Fan> {
    if r.humi > r.humiUpperFan && fan == Off then Some(On)
    else if r.humi < r.HumiUnderFan() && fan == On then Some(Off)
    else None
  }

  /** What the temperature calls for. */
  function TempCommand(r: Reading, fan: Fan): Option<Fan> {
    if r.temp > r.tempUpperCooler && fan != VeryFast then Some(VeryFast)
    else if r.temp < r.TempUnderCooler() && fan == VeryFast then Some(if r.humi < r.HumiUnderFan() then Off else On)
    else None
  }

  function Obeyed(fan: Fan, cmd: Option<Fan>): Fan {
    if cmd.Some? then cmd.value else fan
  }

  function AfterHumi(r: Reading, fan: Fan): Fan {
    Obeyed(fan, HumiCommand(r, fan))
  }

  /** The state one reading leads to when each decision sees the outcome of the one before. */
  function Settled(r: Reading, fan: Fan): Fan {
    Obeyed(AfterHumi(r, fan), TempCommand(r, AfterHumi(r, fan)))
  }

  /**
   Where a reading leads, by its bands: very fast above the temperature limit and,
   once there, until five degrees below it; otherwise off below the humidity band
   of five and, when off already, up to its upper limit; otherwise on.
   */
  lemma SettledByBands(r: Reading, fan: Fan)
    ensures Settled(r, fan) == VeryFast
            <==> r.temp > r.tempUpperCooler || (fan == VeryFast && r.temp >= r.tempUpperCooler - 5)
    ensures Settled(r, fan) == Off
            <==> Settled(r, fan) != VeryFast && (r.humi < r.humiUpperFan - 5 || (fan == Off && r.humi <= r.humiUpperFan))
  {
  }

  /** A settled state calls for no command on the same reading. */
  lemma SettledIsFixed(r: Reading, fan: Fan)
    ensures HumiCommand(r, Settled(r, fan)) == None && TempCommand(r, Settled(r, fan)) == None
  {
  }

  // ----------------------------------------------------------- interleavings

  /** Where the sensor thread is in its handling of one reading. */
  datatype Sensor =
    | HumiHigh               // at the test for humidity above the limit
    | HumiLow                // at the test below it
    | SendHumi(fan: Fan)
    | TempHighOff            // temperature above the limit: at the test of the state for OFF
    | TempHighOn             // and for ON
    | TempLow
    | SendTemp(fan: Fan)
    | Done

  datatype State = State(queue: seq<Cmd>, fan: Fan, relay3: bool, acting: Option<Cmd>, sensor: Sensor)

  datatype Action =
    | Sense                  // the sensor thread's next step
    | OtherSend(code: nat)   // a command for another device, from this or another thread
    | Receive                // the main loop takes a command and switches the device
    | Finish                 // and writes its state

  predicate Enabled(s: State, a: Action) {
    match a
    case Sense => s.sensor != Done
    case OtherSend(_) => true
    case Receive => s.acting.None? && s.queue != []
    case Finish => s.acting.Some?
  }

  function Sensed(r: Reading, s: State): State {
    match s.sensor
    case HumiHigh => s.(sensor := if r.humi > r.humiUpperFan && s.fan == Off then SendHumi(On) else HumiLow)
    case HumiLow => s.(sensor := if r.humi < r.HumiUnderFan() && s.fan == On then SendHumi(Off) else TempHighOff)
    case SendHumi(fan) => s.(queue := s.queue + [ForFan(fan)], sensor := TempHighOff)
    case TempHighOff =>
      if r.temp > r.tempUpperCooler then s.(sensor := if s.fan == Off then SendTemp(VeryFast) else TempHighOn)
      else s.(sensor := TempLow)
    case TempHighOn => s.(sensor := if s.fan == On then SendTemp(VeryFast) else TempLow)
    case TempLow =>
      s.(sensor := if r.temp < r.TempUnderCooler() && s.fan == VeryFast
                   then SendTemp(if r.humi < r.HumiUnderFan() then Off else On) else Done)
    case SendTemp(fan) => s.(queue := s.queue + [ForFan(fan)], sensor := Done)
    case Done => s
  }

  function Apply(r: Reading, s: State, a: Action): State
    requires Enabled(s, a)
  {
    match a
    case Sense => Sensed(r, s)
    case OtherSend(code) => s.(queue := s.queue + [ForOther(code)])
    case Receive =>
      var cmd := s.queue[0];
      s.(queue := s.queue[1..], acting := Some(cmd), relay3 := if cmd.ForFan? then cmd.fan != Off else s.relay3)
    case Finish => s.(acting := None, fan := if s.acting.value.ForFan? then s.acting.value.fan else s.fan)
  }

  /** A reading starts with no fan command pending and the relay as the state has it. */
  predicate Starts(s: State) {
    s.sensor == HumiHigh && InFlight(s) == [] && s.acting.None? && (s.relay3 <==> s.fan != Off)
  }

  function Run(r: Reading, s0: State, h: seq<Action>): Option<State> {
    if h == [] then Some(s0) else
    match Run(r, s0, h[..|h| - 1])
    case None => None
    case Some(s) => if Enabled(s, h[|h| - 1]) then Some(Apply(r, s, h[|h| - 1])) else None
  }

  function FanCmds(q: seq<Cmd>): seq<Fan> {
    if q == [] then [] else
    FanCmds(q[..|q| - 1]) + if q[|q| - 1].ForFan? then [q[|q| - 1].fan] else []
  }

  /** The fan commands sent and not yet carried out. */
  function InFlight(s: State): seq<Fan> {
    (if s.acting.Some? && s.acting.value.ForFan? then [s.acting.value.fan] else []) + FanCmds(s.queue)
  }

  /** Everything sent has been carried out. */
  predicate Drained(s: State) {
    s.sensor == Done && s.acting.None? && InFlight(s) == []
  }

  lemma {:induction false} FanCmdsFirst(q: seq<Cmd>)
    requires q != []
    ensures FanCmds(q) == (if q[0].ForFan? then [q[0].fan] else []) + FanCmds(q[1..])
  {
    if |q| > 1 {
      FanCmdsFirst(q[..|q| - 1]);
      assert q[..|q| - 1][1..] == q[1..][..|q| - 2];
    }
  }

  /** A step of the sensor thread sends at most one command, behind those in flight. */
  lemma FlightAfterSense(r: Reading, s: State)
    ensures Sensed(r, s).fan == s.fan
    ensures InFlight(Sensed(r, s)) == InFlight(s) + (if s.sensor.SendHumi? || s.sensor.SendTemp? then [s.sensor.fan] else [])
  {
    if s.sensor.SendHumi? || s.sensor.SendTemp? {
      assert (s.queue + [ForFan(s.sensor.fan)])[..|s.queue|] == s.queue;
    }
  }

  /** The commands in flight are carried out in order, one when the main loop finishes with it. */
  predicate FlightKept(s: State, t: State) {
    t.sensor == s.sensor
    && ((InFlight(t) == InFlight(s) && t.fan == s.fan)
        || (InFlight(s) != [] && InFlight(t) == InFlight(s)[1..] && t.fan == InFlight(s)[0]))
  }

  lemma FlightAfterOthers(r: Reading, s: State, a: Action)
    requires Enabled(s, a) && a != Sense
    ensures FlightKept(s, Apply(r, s, a))
  {
    match a
    case OtherSend(code) => assert (s.queue + [ForOther(code)])[..|s.queue|] == s.queue;
    case Receive => FanCmdsFirst(s.queue);
    case Finish =>
      if s.acting.value.ForFan? {
        assert InFlight(s)[1..] == FanCmds(s.queue);
      }
  }

  // ---------------------------------------------------------------- the relay

  /** Between commands, relay 3 is connected exactly when the state is not OFF. */
  predicate RelayFollows(s: State) {
    s.relay3 <==> (if s.acting.Some? && s.acting.value.ForFan? then s.acting.value.fan != Off else s.fan != Off)
  }

  lemma {:induction false} RelayFollowsState(r: Reading, s0: State, h: seq<Action>)
    requires Starts(s0) && Run(r, s0, h).Some?
    ensures RelayFollows(Run(r, s0, h).value)
  {
    if h != [] {
      RelayFollowsState(r, s0, h[..|h| - 1]);
    }
  }

  // ------------------------------------------------------- the outcome of a run

  /**
   The case in which the two reads of the temperature test can straddle a change:
   the humidity turns a running fan off while the temperature wants it very fast.
   */
  predicate Torn(r: Reading, fan: Fan) {
    fan == On && r.humi < r.HumiUnderFan() && r.temp > r.tempUpperCooler
  }

  /** The first decision's command is on its way, or carried out. */
  predicate HumiSent(r: Reading, f: Fan, s: State) {
    (InFlight(s) == [] && s.fan == AfterHumi(r, f)) || (HumiCommand(r, f).Some? && InFlight(s) == [AfterHumi(r, f)] && s.fan == f)
  }

  /** What is in flight leads to the settled state. */
  predicate LeadsToSettled(r: Reading, f: Fan, s: State) {
    if InFlight(s) == [] then s.fan == Settled(r, f) else InFlight(s)[|InFlight(s)| - 1] == Settled(r, f)
  }

  predicate Inv(r: Reading, f: Fan, s: State) {
    match s.sensor
    case HumiHigh => InFlight(s) == [] && s.fan == f
    case HumiLow => InFlight(s) == [] && s.fan == f && !(r.humi > r.humiUpperFan && f == Off)
    case SendHumi(c) => InFlight(s) == [] && s.fan == f && HumiCommand(r, f) == Some(c)
    case TempHighOff => HumiSent(r, f, s)
    case TempHighOn => InFlight(s) == [] && s.fan == AfterHumi(r, f) != Off && r.temp > r.tempUpperCooler
    case TempLow => HumiSent(r, f, s) && !(r.temp > r.tempUpperCooler && AfterHumi(r, f) != VeryFast)
    case SendTemp(c) => HumiSent(r, f, s) && TempCommand(r, AfterHumi(r, f)) == Some(c)
    case Done => LeadsToSettled(r, f, s)
  }

  lemma SenseKeeps(r: Reading, f: Fan, s: State)
    requires Inv(r, f, s) && !Torn(r, f)
    ensures Inv(r, f, Sensed(r, s))
  {
    FlightAfterSense(r, s);
  }

  lemma OthersKeep(r: Reading, f: Fan, s: State, t: State)
    requires Inv(r, f, s) && FlightKept(s, t)
    ensures Inv(r, f, t)
  {
  }

  lemma StepKeeps(r: Reading, f: Fan, s: State, a: Action)
    requires Enabled(s, a) && Inv(r, f, s) && !Torn(r, f)
    ensures Inv(r, f, Apply(r, s, a))
  {
    if a == Sense {
      SenseKeeps(r, f, s);
    } else {
      FlightAfterOthers(r, s, a);
      OthersKeep(r, f, s, Apply(r, s, a));
    }
  }

  lemma {:induction false} RunKeeps(r: Reading, s0: State, h: seq<Action>)
    requires Starts(s0) && Run(r, s0, h).Some? && !Torn(r, s0.fan)
    ensures Inv(r, s0.fan, Run(r, s0, h).value)
  {
    if h != [] {
      RunKeeps(r, s0, h[..|h| - 1]);
      StepKeeps(r, s0.fan, Run(r, s0, h[..|h| - 1]).value, h[|h| - 1]);
    }
  }

  /**
   Every interleaving of sends and drains ends in the settled state, whatever
   other commands share the queue, unless the reading is the torn one.
   */
  lemma OutcomeIsSettled(r: Reading, s0: State, h: seq<Action>)
    requires Starts(s0) && Run(r, s0, h).Some? && Drained(Run(r, s0, h).value) && !Torn(r, s0.fan)
    ensures Run(r, s0, h).value.fan == Settled(r, s0.fan)
    ensures Run(r, s0, h).value.relay3 <==> Settled(r, s0.fan) != Off
  {
    RunKeeps(r, s0, h);
    RelayFollowsState(r, s0, h);
  }

  /** The same reading again, from the settled state, sends the fan nothing, in any interleaving. */
  lemma RepeatSendsNothing(r: Reading, f: Fan, s0: State, h: seq<Action>)
    requires Starts(s0) && s0.fan == Settled(r, f) && Run(r, s0, h).Some?
    ensures !Run(r, s0, h).value.sensor.SendHumi? && !Run(r, s0, h).value.sensor.SendTemp?
  {
    SettledIsFixed(r, f);
    RunKeeps(r, s0, h);
  }

  lemma RunMore(r: Reading, s0: State, h: seq<Action>, s: State, a: Action) returns (g: seq<Action>)
    requires Run(r, s0, h) == Some(s) && Enabled(s, a)
    ensures Run(r, s0, g) == Some(Apply(r, s, a))
  {
    g := h + [a];
    assert g[..|g| - 1] == h;
  }

  /** A torn reading: the first read finds the fan on and not off, */
  lemma TornStart(r: Reading) returns (h: seq<Action>)
    requires Torn(r, On)
    ensures Run(r, Fresh(On), h) == Some(State([ForFan(Off)], On, true, None, TempHighOn))
  {
    var s0 := Fresh(On);
    h := RunMore(r, s0, [], s0, Sense);
    h := RunMore(r, s0, h, s0.(sensor := HumiLow), Sense);
    h := RunMore(r, s0, h, s0.(sensor := SendHumi(Off)), Sense);
    var s1 := s0.(queue := [ForFan(Off)], sensor := TempHighOff);
    assert [] + [ForFan(Off)] == [ForFan(Off)];
    h := RunMore(r, s0, h, s1, Sense);
  }

  /** it is turned off, and the second read finds it not on: the temperature sends nothing. */
  lemma TornRun(r: Reading) returns (h: seq<Action>)
    requires Torn(r, On)
    ensures Run(r, Fresh(On), h) == Some(State([], Off, false, None, Done))
  {
    var s0 := Fresh(On);
    h := TornStart(r);
    h := RunMore(r, s0, h, State([ForFan(Off)], On, true, None, TempHighOn), Receive);
    assert [ForFan(Off)][1..] == [];
    h := RunMore(r, s0, h, State([], On, false, Some(ForFan(Off)), TempHighOn), Finish);
    h := RunMore(r, s0, h, State([], Off, false, None, TempHighOn), Sense);
    h := RunMore(r, s0, h, State([], Off, false, None, TempLow), Sense);
  }

  function Fresh(f: Fan): State {
    State([], f, f != Off, None, HumiHigh)
  }

  ghost predicate AlwaysSettles(r: Reading, f: Fan) {
    forall h :: Run(r, Fresh(f), h).Some? && Drained(Run(r, Fresh(f), h).value) ==> Run(r, Fresh(f), h).value.fan == Settled(r, f)
  }

  /**
   So all interleavings of a reading agree on the outcome if and only if the
   reading is not torn; undisturbed, the torn one would end very fast.
   */
  lemma SettlesIffNotTorn(r: Reading, f: Fan)
    ensures AlwaysSettles(r, f) <==> !Torn(r, f)
  {
    var s0 := Fresh(f);
    if Torn(r, f) {
      var h := TornRun(r);
      assert Drained(Run(r, s0, h).value) && Run(r, s0, h).value.fan != Settled(r, f);
    } else {
      forall h | Run(r, s0, h).Some? && Drained(Run(r, s0, h).value) ensures Run(r, s0, h).value.fan == Settled(r, f) {
        OutcomeIsSettled(r, s0, h);
      }
    }
  }

  // ------------------------------------------------------ the shared fields

  const FAN_SPEED_FAST := 6
  const FAN_SPEED_VERY_FAST := 10
  const RELAY_CHANNEL_3 := 3

  /** PWM_FAN_SPEED */
  function PulseWidth(speed: nat): nat {
    4000 * if speed > 10 then 10 else speed
  }

  class Planter {
    var queue: seq<Cmd>
    var g_state_fan: Fan
    const connected: array<bool>   // relay channels 1 to 4, each pin low when connected
    var pulseWidth: nat

    /** The state between two steps of the main loop and of the sensor thread. */
    ghost function Now(sensor: Sensor): State
      requires connected.Length == 4
      reads this, connected
    {
      State(queue, g_state_fan, connected[2], None, sensor)
    }

    /** relay_init and states_init */
    constructor ()
      ensures connected.Length == 4 && queue == [] && Starts(Now(HumiHigh))
      ensures forall c :: 0 <= c < 4 ==> !connected[c]
    {
      queue, g_state_fan, pulseWidth := [], Off, 0;
      connected := new bool[4](_ => false);
    }

    /** relay_connect and relay_disconnect: one channel's pin, or an error for an unknown channel. */
    method RelaySet(channel: int, on: bool) returns (ok: bool)
      requires connected.Length == 4
      modifies connected
      ensures ok <==> 1 <= channel <= 4
      ensures connected[..] == if ok then old(connected[..])[channel - 1 := on] else old(connected[..])
    {
      ok := 1 <= channel <= 4;
      if ok {
        connected[channel - 1] := on;
      }
    }

    /** fan_rotate: the relay is connected even when the speed is refused. */
    method FanRotate(speed: int) returns (ok: bool)
      requires connected.Length == 4
      modifies connected, this`pulseWidth
      ensures connected[..] == old(connected[..])[2 := true]
      ensures ok <==> 0 <= speed < 11
      ensures pulseWidth == if ok then PulseWidth(speed) else old(pulseWidth)
    {
      var known := RelaySet(3, true);
      ok := 0 <= speed < 11;
      if ok {
        pulseWidth := PulseWidth(speed);
      }
    }

    method FanOff()
      requires connected.Length == 4
      modifies connected
      ensures connected[..] == old(connected[..])[2 := false]
    {
      var known := RelaySet(RELAY_CHANNEL_3, false);
    }

    /** One turn of the main loop: mq_receive and message_queue_handler. */
    method HandleNext(ghost sensor: Sensor)
      requires connected.Length == 4 && queue != []
      modifies this, connected
      ensures Now(sensor) == Apply(Reading(0, 0, 0, 0), Apply(Reading(0, 0, 0, 0), old(Now(sensor)), Receive), Finish)
      ensures forall c :: 0 <= c < 4 && c != 2 ==> connected[c] == old(connected[c])
      ensures pulseWidth == (if old(queue)[0] == ForFan(On) then 24000
                             else if old(queue)[0] == ForFan(VeryFast) then 40000 else old(pulseWidth))
    {
      var cmd := queue[0];
      queue := queue[1..];
      if cmd == ForFan(Off) {
        FanOff();
        g_state_fan := Off;
      } else if cmd == ForFan(On) {
        var ok := FanRotate(FAN_SPEED_FAST);
        g_state_fan := On;
      } else if cmd == ForFan(VeryFast) {
        var ok := FanRotate(FAN_SPEED_VERY_FAST);
        g_state_fan := VeryFast;
      }
    }

    /** The fan decisions of humitemp_handler when no command is handled meanwhile. */
    method Decide(r: Reading)
      modifies this`queue
      ensures queue == old(queue) + (if HumiCommand(r, g_state_fan).Some? then [ForFan(HumiCommand(r, g_state_fan).value)] else [])
                       + (if TempCommand(r, g_state_fan).Some? then [ForFan(TempCommand(r, g_state_fan).value)] else [])
    {
      if r.humi > r.humiUpperFan && g_state_fan == Off {
        queue := queue + [ForFan(On)];
      } else if r.humi < r.HumiUnderFan() && g_state_fan == On {
        queue := queue + [ForFan(Off)];
      }
      if r.temp > r.tempUpperCooler && (g_state_fan == Off || g_state_fan == On) {
        queue := queue + [ForFan(VeryFast)];
      } else if r.temp < r.TempUnderCooler() && g_state_fan == VeryFast {
        if r.humi < r.HumiUnderFan() {
          queue := queue + [ForFan(Off)];
        } else {
          queue := queue + [ForFan(On)];
        }
      }
    }
  }
}
