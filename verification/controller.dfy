/** The hydroponic controller of src/core/controller.py: the configuration
    record, sensor merging, the watering decision, gated pump starts, stop-all,
    the emergency-stop input, emergency shutdown, the flood phase and the
    watering cycle, and one pass of the main loop.

    Every exception the source can raise becomes an explicit outcome. The
    world enters through parameters: `faults` are the pins whose library call
    raises during a step, a `Tick` is one look at the clock and at the input
    pins during the flood wait, and `resourcesOk`/`hardwareOk` stand for the
    safety manager's host and hardware probes. */
module Controller {
  import opened Results
  import Gpio
  import Safety
  import Moisture
  import Overflow

  // ---------------------------------------------------------------------------
  // Configuration

  /** The configuration sections the controller reads. */
  datatype Config = Config(
    pumpPins: seq<int>,
    pumpTimeout: real,
    maxDailyRuntime: int,
    moistureThreshold: real,
    targetMoisture: real,
    readingInterval: real,
    floodDuration: real,
    drainDuration: real,
    wateringInterval: int,
    watchdogTimeout: real,
    emergencyPin: int)

  /** _get_default_config. */
  const DefaultConfig: Config := Config(
    [18, 19, 20, 26], 10.0, 1800,
    40.0, 55.0, 5.0,
    300.0, 600.0, 86400,
    30.0, 25)

  /** The default configuration drives four distinct valid output pins, reads a
      valid emergency pin that is not one of them, and waters below a threshold
      lower than its target. */
  lemma DefaultConfigIsConsistent()
    ensures forall i :: 0 <= i < |DefaultConfig.pumpPins| ==> Gpio.ValidPin(DefaultConfig.pumpPins[i])
    ensures forall i, j :: 0 <= i < j < |DefaultConfig.pumpPins| ==> DefaultConfig.pumpPins[i] != DefaultConfig.pumpPins[j]
    ensures Gpio.ValidPin(DefaultConfig.emergencyPin) && DefaultConfig.emergencyPin !in DefaultConfig.pumpPins
    ensures 0.0 <= DefaultConfig.moistureThreshold < DefaultConfig.targetMoisture <= 100.0
  {
  }

  /** The default overflow switches sit on valid pins that the default
      configuration uses for nothing else. */
  lemma DefaultPinsDisjoint()
    ensures forall p :: p in Overflow.SensorPins(None) ==>
              Gpio.ValidPin(p) && p !in DefaultConfig.pumpPins && p != DefaultConfig.emergencyPin
  {
    Overflow.DefaultSensorPins();
    SwitchPinsFree([21, 22, 23, 24]);
  }

  /** The pins 21 to 24 are valid and used by no pump and not by the emergency
      input of the default configuration. */
  lemma SwitchPinsFree(pins: seq<int>)
    requires pins == [21, 22, 23, 24]
    ensures forall p :: p in pins ==> Gpio.ValidPin(p) && p !in DefaultConfig.pumpPins && p != DefaultConfig.emergencyPin
  {
  }

  // ---------------------------------------------------------------------------
  // State

  /** A cached sensor value: a moisture percentage or an overflow flag. */
  datatype Reading = Level(percent: real) | Flag(active: bool)

  /** A reading as Python compares it with a number: a flag counts as 0 or 1. */
  function Numeric(r: Reading): real {
    match r
    case Level(p) => p
    case Flag(b) => if b then 1.0 else 0.0
  }

  /** HydroponicController: configuration, run and emergency flags, the pump
      states it believes, the merged sensor readings, the cycle counter, and the
      components it drives. */
  datatype Ctl = Ctl(
    config: Config,
    running: bool,
    emergencyStop: bool,
    pumpStates: map<int, bool>,
    readings: map<string, Reading>,
    cycleCount: nat,
    safety: Safety.SafetyState,
    gpio: Gpio.Manager,
    moisture: Moisture.MoistureState,
    overflow: Overflow.OverflowState)

  /** HydroponicController.__init__ with the given components, at time `now`. */
  function NewController(config: Config, now: real, gpio: Gpio.Manager,
                         moistureEnv: Option<string>, overflowEnv: Option<string>): (c: Ctl)
    ensures !c.running && !c.emergencyStop && c.cycleCount == 0
    ensures c.pumpStates == map[] && c.readings == map[]
    ensures !c.safety.emergencyStopActive && c.safety.lastWatchdogReset == now
    ensures c.safety.watchdogTimeout == Safety.DefaultWatchdogTimeout
    ensures c.moisture.addresses == Moisture.SensorAddresses(moistureEnv)
    ensures c.overflow.pins == Overflow.SensorPins(overflowEnv)
  {
    Ctl(config, false, false, map[], map[], 0, Safety.NewSafety(now), gpio,
        Moisture.NewMoisture(moistureEnv), Overflow.NewOverflow(overflowEnv))
  }

  /** True when a configured pump is believed off and its pin is LOW. */
  predicate PumpOff(c: Ctl, pin: int) {
    pin in c.pumpStates && !c.pumpStates[pin] && Gpio.MockInput(c.gpio.board, pin) == Gpio.Low
  }

  /** True when a write to `pin` goes through: the pin is valid and the library
      does not raise on it. */
  predicate Writable(g: Gpio.Manager, pin: int, faults: set<int>) {
    Gpio.ValidPin(pin) && !Gpio.Raises(g, pin in faults)
  }

  // ---------------------------------------------------------------------------
  // Sensors and the watering decision

  /** Moisture percentages as cached readings. */
  function Levels(m: map<string, real>): (r: map<string, Reading>)
    ensures forall k :: k in r <==> k in m
    ensures forall k :: k in r ==> r[k] == Level(m[k])
  {
    map k | k in m :: Level(m[k])
  }

  /** Overflow flags as cached readings. */
  function Flags(o: map<string, bool>): (r: map<string, Reading>)
    ensures forall k :: k in r <==> k in o
    ensures forall k :: k in r ==> r[k] == Flag(o[k])
  {
    map k | k in o :: Flag(o[k])
  }

  /** _read_sensors: a moisture sweep and an overflow sweep, both merged into the
      cached readings; keys not read keep their old values. Neither sweep can
      raise (each catches per-sensor failures), so the source's fallback for an
      exception here is never taken. */
  function ReadSensors(c: Ctl, now: real, bus: map<nat, int>, faults: set<int>): (c': Ctl)
    ensures var m := Moisture.ReadAll(c.moisture, now, bus).readings;
            var o := Overflow.ReadAll(c.overflow, c.gpio, faults).readings;
            (forall k :: k in c'.readings <==> k in c.readings || k in m || k in o) &&
            (forall k :: k in m ==> c'.readings[k] == Level(m[k])) &&
            (forall k :: k in o ==> c'.readings[k] == Flag(o[k])) &&
            (forall k :: k in c.readings && k !in m && k !in o ==> c'.readings[k] == c.readings[k])
    ensures c' == c.(readings := c'.readings, moisture := c'.moisture, overflow := c'.overflow)
    ensures c'.moisture == Moisture.ReadAll(c.moisture, now, bus).state
    ensures c'.overflow == Overflow.ReadAll(c.overflow, c.gpio, faults).state
  {
    var ms := Moisture.ReadAll(c.moisture, now, bus);
    var os := Overflow.ReadAll(c.overflow, c.gpio, faults);
    forall k | k in ms.readings ensures k !in os.readings {
      Moisture.ReadAllIds(c.moisture, now, bus, k);
      if k in os.readings {
        Overflow.ReadingsOnly(c.gpio, c.overflow.pins, faults, k);
      }
    }
    c.(readings := c.readings + Levels(ms.readings) + Flags(os.readings),
       moisture := ms.state, overflow := os.state)
  }

  /** True for the ids moisture readings are reported under. */
  predicate IsMoistureId(id: string) {
    |id| >= 9 && id[..9] == "moisture_"
  }

  /** True when some moisture reading is strictly below the threshold. */
  predicate NeedsWater(readings: map<string, Reading>, threshold: real) {
    exists k :: k in readings && IsMoistureId(k) && Numeric(readings[k]) < threshold
  }

  /** A non-empty set of ids has a member. */
  lemma HasKey(keys: set<string>)
    requires keys != {}
    ensures exists k :: k in keys
  {
    if forall k :: k !in keys {
      assert false;
    }
  }

  /** _should_water: scans the cached readings and answers as soon as it finds a
      moisture reading below the threshold. */
  method ShouldWater(readings: map<string, Reading>, threshold: real) returns (water: bool)
    ensures water <==> NeedsWater(readings, threshold)
  {
    var pending := readings.Keys;
    while pending != {}
      invariant pending <= readings.Keys
      invariant forall k :: k in readings && k !in pending ==> !(IsMoistureId(k) && Numeric(readings[k]) < threshold)
      decreases pending
    {
      HasKey(pending);
      var k :| k in pending;
      if IsMoistureId(k) && Numeric(readings[k]) < threshold {
        return true;
      }
      pending := pending - {k};
    }
    return false;
  }

  /** The decisions the unit tests expect at threshold 40: readings of 35 and 45
      call for water, 50 and 55 do not, an empty cache does not, and an overflow
      flag never does. */
  lemma WateringDecisions()
    ensures NeedsWater(map["moisture_20" := Level(35.0), "moisture_21" := Level(45.0)], 40.0)
    ensures !NeedsWater(map["moisture_20" := Level(50.0), "moisture_21" := Level(55.0)], 40.0)
    ensures !NeedsWater(map[], 40.0)
    ensures !NeedsWater(map["overflow_21" := Flag(true), "moisture_20" := Level(40.0)], 40.0)
  {
    var dry := map["moisture_20" := Level(35.0), "moisture_21" := Level(45.0)];
    assert "moisture_20"[..9] == "moisture_";
    assert "moisture_20" in dry && IsMoistureId("moisture_20") && Numeric(dry["moisture_20"]) < 40.0;
    assert "overflow_21"[0] == 'o';
  }

  /** A fresh moisture reading below the threshold makes the next decision water,
      whatever else is cached. */
  lemma DryReadingTriggersWatering(c: Ctl, now: real, bus: map<nat, int>, faults: set<int>, k: string)
    requires var m := Moisture.ReadAll(c.moisture, now, bus).readings;
             k in m && m[k] < c.config.moistureThreshold
    ensures NeedsWater(ReadSensors(c, now, bus, faults).readings, c.config.moistureThreshold)
  {
    Moisture.ReadAllIds(c.moisture, now, bus, k);
    var a :| a in c.moisture.addresses && k == Moisture.SensorId(a);
    assert IsMoistureId(k);
  }

  // ---------------------------------------------------------------------------
  // Pumps

  /** The outcome of an operation that reports success as a boolean. */
  datatype Outcome = Outcome(ok: bool, ctl: Ctl)

  /** True when the safety manager lets `pin` start: no emergency, the host and
      the hardware look fine, and no timeout is registered for the pin. */
  predicate GateOpen(s: Safety.SafetyState, pin: int, resourcesOk: bool, hardwareOk: bool) {
    !s.emergencyStopActive && resourcesOk && hardwareOk && pin !in s.pumpTimeouts
  }

  /** _start_pump: asks the safety manager, then drives the pin HIGH. Every
      failure is caught and reported as false. The pump is never registered with
      the safety manager, and the timer that would force it off later is not
      part of this model. */
  function StartPump(c: Ctl, pin: int, resourcesOk: bool, hardwareOk: bool, faults: set<int>): (r: Outcome)
    ensures r.ok <==> GateOpen(c.safety, pin, resourcesOk, hardwareOk) && Writable(c.gpio, pin, faults)
    ensures r.ok ==> Gpio.MockInput(r.ctl.gpio.board, pin) == Gpio.High
    ensures r.ok ==> r.ctl.gpio == c.gpio.(board := c.gpio.board.(states := c.gpio.board.states[pin := Gpio.High]))
    ensures !r.ok ==> r.ctl.gpio == c.gpio
    ensures r.ctl.safety == c.safety.(violations := r.ctl.safety.violations)
    ensures r.ctl == c.(safety := r.ctl.safety, gpio := r.ctl.gpio)
  {
    var gate := Safety.CheckPumpSafety(c.safety, pin, resourcesOk, hardwareOk);
    var c1 := c.(safety := gate.state);
    if !gate.ok then Outcome(false, c1)
    else match Gpio.SetPin(c1.gpio, pin, true, pin in faults)
      case Ok(g) => Outcome(true, c1.(gpio := g))
      case Err(_) => Outcome(false, c1)
  }

  /** Because _start_pump never registers the pump, the gate that should refuse
      a second start of a running pump lets it through. */
  lemma StartTwiceSucceeds(c: Ctl, pin: int, resourcesOk: bool, hardwareOk: bool, faults: set<int>)
    requires StartPump(c, pin, resourcesOk, hardwareOk, faults).ok
    ensures var once := StartPump(c, pin, resourcesOk, hardwareOk, faults).ctl;
            StartPump(once, pin, resourcesOk, hardwareOk, faults).ok &&
            once.safety.pumpTimeouts == c.safety.pumpTimeouts
  {
  }

  /** _force_stop_pump, the timer's callback: drives the pin LOW and marks the
      pump off; a failing write raises before the pump is marked. */
  function ForceStopPump(c: Ctl, pin: int, faults: set<int>): (r: Result<Ctl, Gpio.GpioError>)
    ensures r.Ok? <==> Writable(c.gpio, pin, faults)
    ensures r.Ok? ==> PumpOff(r.value, pin)
    ensures r.Ok? ==> r.value == c.(gpio := r.value.gpio, pumpStates := c.pumpStates[pin := false])
    ensures r.Err? ==> r.error == Gpio.InvalidPin(pin) || r.error == Gpio.HardwareFault(pin)
  {
    match Gpio.SetPin(c.gpio, pin, false, pin in faults)
    case Ok(g) => Ok(c.(gpio := g, pumpStates := c.pumpStates[pin := false]))
    case Err(e) => Err(e)
  }

  /** True when `pin` reads the same and is believed the same in both states. */
  predicate PinUnchanged(g: Gpio.Manager, states: map<int, bool>, g': Gpio.Manager, states': map<int, bool>, pin: int) {
    && (pin in states' <==> pin in states)
    && (pin in states ==> states'[pin] == states[pin])
    && (pin in g'.board.states <==> pin in g.board.states)
    && (pin in g.board.states ==> g'.board.states[pin] == g.board.states[pin])
  }

  /** Stop-all, corrected: every pump is driven LOW in turn, and a
      pump whose write fails is skipped (and stays believed as it was) instead
      of aborting the loop. */
  function StopPins(g: Gpio.Manager, states: map<int, bool>, pins: seq<int>, faults: set<int>): (r: (Gpio.Manager, map<int, bool>))
    ensures r.0 == g.(board := g.board.(states := r.0.board.states))
    ensures forall p :: p in pins && Writable(g, p, faults) ==>
              p in r.1 && !r.1[p] && Gpio.MockInput(r.0.board, p) == Gpio.Low
    ensures forall p :: p !in pins || !Writable(g, p, faults) ==> PinUnchanged(g, states, r.0, r.1, p)
    decreases |pins|
  {
    if |pins| == 0 then (g, states)
    else
      var pin := pins[0];
      match Gpio.SetPin(g, pin, false, pin in faults)
      case Ok(g1) =>
        var r := StopPins(g1, states[pin := false], pins[1..], faults);
        assert forall p :: p !in pins ==> p != pin && p !in pins[1..];
        assert forall p :: Writable(g1, p, faults) == Writable(g, p, faults);
        r
      case Err(_) => StopPins(g, states, pins[1..], faults)
  }

  /** _stop_all_pumps, with the per-pump skip of StopPins. */
  function StopAllPumps(c: Ctl, faults: set<int>): (c': Ctl)
    ensures c' == c.(gpio := c'.gpio, pumpStates := c'.pumpStates)
    ensures c'.gpio == c.gpio.(board := c.gpio.board.(states := c'.gpio.board.states))
    ensures forall p :: p in c.config.pumpPins && Writable(c.gpio, p, faults) ==> PumpOff(c', p)
    ensures forall p :: p !in c.config.pumpPins || !Writable(c.gpio, p, faults) ==>
              PinUnchanged(c.gpio, c.pumpStates, c'.gpio, c'.pumpStates, p)
  {
    var r := StopPins(c.gpio, c.pumpStates, c.config.pumpPins, faults);
    c.(gpio := r.0, pumpStates := r.1)
  }

  /** _stop_all_pumps as written: the first failing write raises out of the loop,
      so the pumps after it are neither driven LOW nor marked off. The last
      component says whether the loop completed. */
  function StopPinsAsWritten(g: Gpio.Manager, states: map<int, bool>, pins: seq<int>, faults: set<int>)
    : (r: (Gpio.Manager, map<int, bool>, bool))
    ensures r.2 <==> forall i :: 0 <= i < |pins| ==> Writable(g, pins[i], faults)
    ensures r.2 ==> (r.0, r.1) == StopPins(g, states, pins, faults)
    ensures r.0 == g.(board := g.board.(states := r.0.board.states))
    decreases |pins|
  {
    if |pins| == 0 then (g, states, true)
    else
      var pin := pins[0];
      match Gpio.SetPin(g, pin, false, pin in faults)
      case Ok(g1) =>
        var rest := StopPinsAsWritten(g1, states[pin := false], pins[1..], faults);
        assert forall i :: 1 <= i < |pins| ==> pins[1..][i - 1] == pins[i];
        rest
      case Err(_) => (g, states, false)
  }

  /** On real hardware with the pumps on pins 18 and 19 running, a failing write
      to pin 18 leaves pump 19 running as written, while the corrected stop-all
      turns it off. */
  lemma StopAllAbortsAsWritten()
    ensures var g := Gpio.Manager(false, Gpio.MockBoard(map[18 := Gpio.High, 19 := Gpio.High], map[], []), true);
            var states := map[18 := true, 19 := true];
            var w := StopPinsAsWritten(g, states, [18, 19], {18});
            var fixed := StopPins(g, states, [18, 19], {18});
            !w.2 && Gpio.MockInput(w.0.board, 19) == Gpio.High && w.1[19] &&
            Gpio.MockInput(fixed.0.board, 19) == Gpio.Low && !fixed.1[19]
  {
    var g := Gpio.Manager(false, Gpio.MockBoard(map[18 := Gpio.High, 19 := Gpio.High], map[], []), true);
    assert [18, 19][0] == 18 && [18, 19][1] == 19;
    assert Writable(g, 19, {18});
  }

  // ---------------------------------------------------------------------------
  // Emergency stop

  /** The result of looking at the emergency input. */
  datatype Sensed = Sensed(active: bool, ctl: Ctl)

  /** _check_emergency_stop: the input is active low, so a LOW level, and also a
      read the library fails on (reported as LOW), means the button is pressed;
      pressing it latches the controller's emergency flag. An invalid emergency
      pin raises. */
  function CheckEmergencyStop(c: Ctl, faults: set<int>): (r: Result<Sensed, Gpio.GpioError>)
    ensures r.Err? <==> !Gpio.ValidPin(c.config.emergencyPin)
    ensures r.Ok? ==> (r.value.active <==> Gpio.Raises(c.gpio, c.config.emergencyPin in faults)
                                           || Gpio.MockInput(c.gpio.board, c.config.emergencyPin) == Gpio.Low)
    ensures r.Ok? ==> r.value.ctl == c.(emergencyStop := c.emergencyStop || r.value.active)
  {
    var pin := c.config.emergencyPin;
    match Gpio.ReadPin(c.gpio, pin, pin in faults)
    case Err(e) => Err(e)
    case Ok(level) =>
      var active := !level;
      Ok(Sensed(active, if active && !c.emergencyStop then c.(emergencyStop := true) else c))
  }

  /** emergency_shutdown: stops every pump it can, latches the emergency flag,
      ends the main loop and tells the safety manager. */
  function EmergencyShutdown(c: Ctl, faults: set<int>): (c': Ctl)
    ensures c'.emergencyStop && !c'.running
    ensures c'.safety == Safety.EmergencyShutdown(c.safety) && c'.safety.emergencyStopActive
    ensures forall p :: p in c.config.pumpPins && Writable(c.gpio, p, faults) ==> PumpOff(c', p)
    ensures c' == c.(gpio := c'.gpio, pumpStates := c'.pumpStates, emergencyStop := true,
                     running := false, safety := c'.safety)
  {
    var c1 := StopAllPumps(c, faults);
    c1.(emergencyStop := true, running := false, safety := Safety.EmergencyShutdown(c1.safety))
  }

  /** emergency_shutdown as written: stop-all raises at the first failing pump
      write, so the emergency flag, the end of the main loop and the safety
      manager's latch are all skipped. The second component says whether the
      shutdown ran to the end. */
  function EmergencyShutdownAsWritten(c: Ctl, faults: set<int>): (r: (Ctl, bool))
    ensures r.1 <==> forall i :: 0 <= i < |c.config.pumpPins| ==> Writable(c.gpio, c.config.pumpPins[i], faults)
    ensures r.1 ==> r.0 == EmergencyShutdown(c, faults)
    ensures !r.1 ==> r.0.emergencyStop == c.emergencyStop && r.0.running == c.running && r.0.safety == c.safety
  {
    var w := StopPinsAsWritten(c.gpio, c.pumpStates, c.config.pumpPins, faults);
    var c1 := c.(gpio := w.0, pumpStates := w.1);
    if w.2 then (c1.(emergencyStop := true, running := false, safety := Safety.EmergencyShutdown(c1.safety)), true)
    else (c1, false)
  }

  /** When the first pump's write fails on real hardware, the shutdown as
      written leaves the safety manager's emergency latch clear (and the main
      loop flag as it was), while the corrected shutdown sets it. */
  lemma EmergencyShutdownSkipsLatchAsWritten(c: Ctl, faults: set<int>)
    requires !c.gpio.mockMode && !c.safety.emergencyStopActive
    requires |c.config.pumpPins| > 0 && c.config.pumpPins[0] in faults
    ensures !EmergencyShutdownAsWritten(c, faults).1
    ensures !EmergencyShutdownAsWritten(c, faults).0.safety.emergencyStopActive
    ensures EmergencyShutdownAsWritten(c, faults).0.running == c.running
    ensures EmergencyShutdown(c, faults).safety.emergencyStopActive
  {
    assert !Writable(c.gpio, c.config.pumpPins[0], faults);
  }

  // ---------------------------------------------------------------------------
  // Watering cycle

  /** The start loop of _flood_phase: every pump is started in turn; a pump that
      cannot start is skipped. */
  function StartPumps(c: Ctl, pins: seq<int>, resourcesOk: bool, hardwareOk: bool, faults: set<int>): (c': Ctl)
    ensures c' == c.(gpio := c'.gpio, pumpStates := c'.pumpStates, safety := c'.safety)
    ensures c'.safety == c.safety.(violations := c'.safety.violations)
    ensures c'.gpio == c.gpio.(board := c.gpio.board.(states := c'.gpio.board.states))
    decreases |pins|
  {
    if |pins| == 0 then c
    else StartPumps(StartOne(c, pins[0], resourcesOk, hardwareOk, faults), pins[1..], resourcesOk, hardwareOk, faults)
  }

  /** One turn of the start loop: start the pump and mark it on when that works. */
  function StartOne(c: Ctl, pin: int, resourcesOk: bool, hardwareOk: bool, faults: set<int>): (c': Ctl)
    ensures c' == c.(gpio := c'.gpio, pumpStates := c'.pumpStates, safety := c'.safety)
    ensures c'.safety == c.safety.(violations := c'.safety.violations)
    ensures c'.gpio == c.gpio.(board := c.gpio.board.(states := c'.gpio.board.states))
    ensures GateOpen(c.safety, pin, resourcesOk, hardwareOk) && Writable(c.gpio, pin, faults) ==>
              pin in c'.pumpStates && c'.pumpStates[pin] && Gpio.MockInput(c'.gpio.board, pin) == Gpio.High
    ensures !(GateOpen(c.safety, pin, resourcesOk, hardwareOk) && Writable(c.gpio, pin, faults)) ==>
              PinUnchanged(c.gpio, c.pumpStates, c'.gpio, c'.pumpStates, pin)
    ensures forall p :: p != pin ==> PinUnchanged(c.gpio, c.pumpStates, c'.gpio, c'.pumpStates, p)
  {
    var s := StartPump(c, pin, resourcesOk, hardwareOk, faults);
    if s.ok then s.ctl.(pumpStates := s.ctl.pumpStates[pin := true]) else s.ctl
  }

  /** After the start loop a pump is marked on and HIGH exactly when it is in the
      list, its safety gate is open and its write succeeds; any other pin keeps
      its level and its recorded state. */
  lemma {:induction false} StartPumpsPin(c: Ctl, pins: seq<int>, resourcesOk: bool, hardwareOk: bool,
                                         faults: set<int>, p: int)
    ensures var c' := StartPumps(c, pins, resourcesOk, hardwareOk, faults);
            var started := p in pins && GateOpen(c.safety, p, resourcesOk, hardwareOk) && Writable(c.gpio, p, faults);
            (started ==> p in c'.pumpStates && c'.pumpStates[p] && Gpio.MockInput(c'.gpio.board, p) == Gpio.High) &&
            (!started ==> PinUnchanged(c.gpio, c.pumpStates, c'.gpio, c'.pumpStates, p))
    decreases |pins|
  {
    if |pins| > 0 {
      var pin := pins[0];
      var c1 := StartOne(c, pin, resourcesOk, hardwareOk, faults);
      assert StartPumps(c, pins, resourcesOk, hardwareOk, faults) == StartPumps(c1, pins[1..], resourcesOk, hardwareOk, faults);
      assert GateOpen(c1.safety, p, resourcesOk, hardwareOk) == GateOpen(c.safety, p, resourcesOk, hardwareOk);
      assert Writable(c1.gpio, p, faults) == Writable(c.gpio, p, faults);
      assert p in pins <==> p == pin || p in pins[1..];
      StartPumpsPin(c1, pins[1..], resourcesOk, hardwareOk, faults, p);
    }
  }

  /** One look at the world during the flood wait: the seconds since the flood
      started, the levels on the input pins, and the pins whose reads fail. */
  datatype Tick = Tick(elapsed: real, levels: map<int, int>, faults: set<int>)

  /** Why the flood wait ended. */
  datatype FloodExit = TimeUp | OverflowSeen | EmergencySeen | EmergencyReadFailed

  /** A trace of the flood wait that reaches the end of the flood. */
  predicate Complete(ticks: seq<Tick>, duration: real) {
    |ticks| > 0 && ticks[|ticks| - 1].elapsed >= duration
  }

  /** The input levels of a tick as the board shows them. */
  function Sense(g: Gpio.Manager, levels: map<int, int>): (g': Gpio.Manager)
    ensures g' == g.(board := g.board.(states := g.board.states + levels))
    ensures forall p :: p in levels ==> Gpio.MockInput(g'.board, p) == levels[p]
  {
    g.(board := g.board.(states := g.board.states + levels))
  }

  /** The flood wait of _flood_phase: until the flood duration has passed, each
      tick checks for overflow and then for the emergency stop; either ends the
      wait, and an invalid emergency pin raises out of it. */
  function FloodWait(c: Ctl, ticks: seq<Tick>): (r: (FloodExit, Ctl))
    requires Complete(ticks, c.config.floodDuration)
    ensures r.1 == c.(gpio := r.1.gpio, overflow := r.1.overflow, emergencyStop := r.1.emergencyStop)
    ensures r.1.gpio == c.gpio.(board := r.1.gpio.board)
    ensures r.1.overflow.pins == c.overflow.pins && r.1.overflow.callbacks == c.overflow.callbacks
    ensures c.emergencyStop ==> r.1.emergencyStop
    ensures r.0 == OverflowSeen ==> r.1.overflow.overflowDetected
    ensures r.0 == EmergencySeen ==> r.1.emergencyStop
    ensures r.0 == EmergencyReadFailed ==> !Gpio.ValidPin(c.config.emergencyPin)
    ensures ticks[0].elapsed >= c.config.floodDuration ==> r == (TimeUp, c)
    decreases |ticks|
  {
    var t := ticks[0];
    if t.elapsed >= c.config.floodDuration then (TimeUp, c)
    else
      var c1 := c.(gpio := Sense(c.gpio, t.levels));
      var check := Overflow.CheckOverflow(c1.overflow, c1.gpio, t.faults);
      var c2 := c1.(overflow := check.1.state);
      if check.0 then (OverflowSeen, c2)
      else match CheckEmergencyStop(c2, t.faults)
        case Err(_) => (EmergencyReadFailed, c2)
        case Ok(s) =>
          if s.active then (EmergencySeen, s.ctl)
          else FloodWait(s.ctl, ticks[1..])
  }

  /** True when a tick shows every overflow switch and the emergency input
      readable and HIGH: nothing in it can end the flood early. */
  predicate Quiet(c: Ctl, t: Tick) {
    && Gpio.ValidPin(c.config.emergencyPin)
    && c.config.emergencyPin in t.levels && t.levels[c.config.emergencyPin] != Gpio.Low
    && !Gpio.Raises(c.gpio, c.config.emergencyPin in t.faults)
    && forall i :: 0 <= i < |c.overflow.pins| ==>
         && Gpio.ValidPin(c.overflow.pins[i])
         && c.overflow.pins[i] in t.levels && t.levels[c.overflow.pins[i]] != Gpio.Low
         && !Gpio.Raises(c.gpio, c.overflow.pins[i] in t.faults)
  }

  /** With no overflow and no emergency, the flood runs for its full duration. */
  lemma {:induction false} QuietFloodRunsToTime(c: Ctl, ticks: seq<Tick>)
    requires Complete(ticks, c.config.floodDuration)
    requires forall i :: 0 <= i < |ticks| ==> Quiet(c, ticks[i])
    ensures FloodWait(c, ticks).0 == TimeUp
    decreases |ticks|
  {
    var t := ticks[0];
    if t.elapsed < c.config.floodDuration {
      var c1 := c.(gpio := Sense(c.gpio, t.levels));
      assert Quiet(c, t);
      forall i | 0 <= i < |c1.overflow.pins| ensures !Overflow.SensorActive(c1.gpio, c1.overflow.pins[i], t.faults) {
        assert c1.overflow.pins[i] in t.levels;
      }
      var check := Overflow.CheckOverflow(c1.overflow, c1.gpio, t.faults);
      var c2 := c1.(overflow := check.1.state);
      assert !check.0;
      var s := CheckEmergencyStop(c2, t.faults).value;
      assert !s.active;
      assert FloodWait(c, ticks) == FloodWait(s.ctl, ticks[1..]);
      assert s.ctl.config == c.config && s.ctl.overflow.pins == c.overflow.pins;
      assert s.ctl.gpio.mockMode == c.gpio.mockMode;
      forall i | 0 <= i < |ticks[1..]| ensures Quiet(s.ctl, ticks[1..][i]) {
        assert Quiet(c, ticks[i + 1]);
      }
      QuietFloodRunsToTime(s.ctl, ticks[1..]);
    }
  }

  /** A press of the emergency button during the flood ends the wait and latches
      the emergency flag, unless an overflow ends it first. */
  lemma EmergencyEndsFlood(c: Ctl, ticks: seq<Tick>)
    requires Complete(ticks, c.config.floodDuration)
    requires ticks[0].elapsed < c.config.floodDuration
    requires Gpio.ValidPin(c.config.emergencyPin)
    requires c.config.emergencyPin in ticks[0].levels && ticks[0].levels[c.config.emergencyPin] == Gpio.Low
    ensures FloodWait(c, ticks).0 in {OverflowSeen, EmergencySeen}
    ensures FloodWait(c, ticks).0 == EmergencySeen ==> FloodWait(c, ticks).1.emergencyStop
  {
  }

  /** _flood_phase: starts the pumps, waits, and stops every pump, unless the wait
      raised, which leaves the stop to the caller. */
  function FloodPhase(c: Ctl, resourcesOk: bool, hardwareOk: bool, faults: set<int>, ticks: seq<Tick>): (r: (FloodExit, Ctl))
    requires Complete(ticks, c.config.floodDuration)
    ensures r.1.config == c.config && r.1.running == c.running && r.1.cycleCount == c.cycleCount
    ensures r.1.safety == c.safety.(violations := r.1.safety.violations)
    ensures r.1.gpio == c.gpio.(board := r.1.gpio.board)
    ensures c.emergencyStop ==> r.1.emergencyStop
    ensures r.0 != EmergencyReadFailed ==>
              forall p :: p in c.config.pumpPins && Writable(c.gpio, p, faults) ==> PumpOff(r.1, p)
  {
    var c1 := StartPumps(c, c.config.pumpPins, resourcesOk, hardwareOk, faults);
    var w := FloodWait(c1, ticks);
    assert forall p :: Writable(w.1.gpio, p, faults) == Writable(c.gpio, p, faults);
    if w.0 == EmergencyReadFailed then w else (w.0, StopAllPumps(w.1, faults))
  }

  /** The inputs of one pass of the main loop: the time, the pins whose writes
      and reads fail during it, the values on the I2C bus, the safety manager's
      host and hardware probes, and the flood wait's trace should it water. */
  datatype Pass = Pass(now: real, faults: set<int>, bus: map<nat, int>,
                       resourcesOk: bool, hardwareOk: bool, ticks: seq<Tick>)

  /** _execute_watering_cycle: a failed pre-flight check aborts it; otherwise a
      flood and a drain, and the cycle is counted unless the flood raised, in
      which case every pump is stopped instead. The drain is a pause with the
      pumps off. */
  function ExecuteWateringCycle(c: Ctl, p: Pass): (c': Ctl)
    requires Complete(p.ticks, c.config.floodDuration)
    ensures c'.config == c.config && c'.running == c.running
    ensures c'.safety == c.safety.(violations := c'.safety.violations)
    ensures c'.gpio == c.gpio.(board := c'.gpio.board)
    ensures c.emergencyStop ==> c'.emergencyStop
    ensures !Safety.CheckAllSafetyConditions(c.safety, p.resourcesOk, p.hardwareOk).ok ==>
              c'.gpio == c.gpio && c'.pumpStates == c.pumpStates && c'.cycleCount == c.cycleCount
    ensures Safety.CheckAllSafetyConditions(c.safety, p.resourcesOk, p.hardwareOk).ok ==>
              forall pin :: pin in c.config.pumpPins && Writable(c.gpio, pin, p.faults) ==> PumpOff(c', pin)
    ensures c'.cycleCount == c.cycleCount || c'.cycleCount == c.cycleCount + 1
    ensures Gpio.ValidPin(c.config.emergencyPin) ==>
              (c'.cycleCount == c.cycleCount + 1 <==> Safety.CheckAllSafetyConditions(c.safety, p.resourcesOk, p.hardwareOk).ok)
  {
    var pre := Safety.CheckAllSafetyConditions(c.safety, p.resourcesOk, p.hardwareOk);
    var c1 := c.(safety := pre.state);
    if !pre.ok then c1
    else
      var f := FloodPhase(c1, p.resourcesOk, p.hardwareOk, p.faults, p.ticks);
      if f.0 == EmergencyReadFailed then
        assert forall pin :: Writable(f.1.gpio, pin, p.faults) == Writable(c.gpio, pin, p.faults);
        StopAllPumps(f.1, p.faults)
      else f.1.(cycleCount := f.1.cycleCount + 1)
  }

  // ---------------------------------------------------------------------------
  // Main loop

  /** True when the emergency input reads as pressed. */
  predicate Pressed(c: Ctl, faults: set<int>) {
    Gpio.Raises(c.gpio, c.config.emergencyPin in faults) || Gpio.MockInput(c.gpio.board, c.config.emergencyPin) == Gpio.Low
  }

  /** One pass of _main_loop as written, once the loop condition holds: the
      emergency input, then the sensors, a watering cycle when some moisture
      reading is below the threshold, and the safety check, which stops every
      pump when it fails. An invalid emergency pin raises at the top of the
      pass, which the loop catches. The watchdog is not fed. */
  function LoopBody(c: Ctl, p: Pass): (c': Ctl)
    requires Complete(p.ticks, c.config.floodDuration)
    ensures c'.config == c.config
    ensures c'.gpio == c.gpio.(board := c'.gpio.board)
    ensures !c.running || c.emergencyStop ==> c' == c
    ensures c.emergencyStop ==> c'.emergencyStop
    ensures c.safety.emergencyStopActive ==> c'.safety.emergencyStopActive
    ensures c'.safety.lastWatchdogReset == c.safety.lastWatchdogReset
    ensures c'.safety.watchdogTimeout == c.safety.watchdogTimeout
    ensures c.running && !c.emergencyStop && Gpio.ValidPin(c.config.emergencyPin) && Pressed(c, p.faults) ==>
              c'.emergencyStop && !c'.running && c'.safety.emergencyStopActive &&
              forall pin :: pin in c.config.pumpPins && Writable(c.gpio, pin, p.faults) ==> PumpOff(c', pin)
    ensures c.running && !c.emergencyStop && Gpio.ValidPin(c.config.emergencyPin) && !Pressed(c, p.faults) &&
            !Safety.CheckAllSafetyConditions(c.safety, p.resourcesOk, p.hardwareOk).ok ==>
              forall pin :: pin in c.config.pumpPins && Writable(c.gpio, pin, p.faults) ==> PumpOff(c', pin)
  {
    if !c.running || c.emergencyStop then c
    else match CheckEmergencyStop(c, p.faults)
      case Err(_) => c
      case Ok(s) =>
        if s.active then EmergencyShutdown(s.ctl, p.faults) else Tend(s.ctl, p)
  }

  /** The rest of a pass once the button is not pressed: read the sensors, water
      if needed, and stop every pump when the safety check then fails. */
  function Tend(c: Ctl, p: Pass): (c': Ctl)
    requires Complete(p.ticks, c.config.floodDuration)
    ensures c'.config == c.config && c'.running == c.running
    ensures c.emergencyStop ==> c'.emergencyStop
    ensures c'.gpio == c.gpio.(board := c'.gpio.board)
    ensures c'.safety == c.safety.(violations := c'.safety.violations)
    ensures !Safety.CheckAllSafetyConditions(c.safety, p.resourcesOk, p.hardwareOk).ok ==>
              forall pin :: pin in c.config.pumpPins && Writable(c.gpio, pin, p.faults) ==> PumpOff(c', pin)
  {
    var c2 := WaterIfDry(ReadSensors(c, p.now, p.bus, p.faults), p);
    var post := Safety.CheckAllSafetyConditions(c2.safety, p.resourcesOk, p.hardwareOk);
    var c3 := c2.(safety := post.state);
    assert post.ok == Safety.CheckAllSafetyConditions(c.safety, p.resourcesOk, p.hardwareOk).ok;
    assert forall pin :: Writable(c3.gpio, pin, p.faults) == Writable(c.gpio, pin, p.faults);
    if post.ok then c3 else StopAllPumps(c3, p.faults)
  }

  /** The watering step of a pass: a cycle when some moisture reading is below
      the threshold, nothing otherwise. */
  function WaterIfDry(c: Ctl, p: Pass): (c': Ctl)
    requires Complete(p.ticks, c.config.floodDuration)
    ensures c'.config == c.config && c'.running == c.running
    ensures c.emergencyStop ==> c'.emergencyStop
    ensures c'.gpio == c.gpio.(board := c'.gpio.board)
    ensures c'.safety == c.safety.(violations := c'.safety.violations)
    ensures !NeedsWater(c.readings, c.config.moistureThreshold) ==> c' == c
  {
    if NeedsWater(c.readings, c.config.moistureThreshold) then ExecuteWateringCycle(c, p) else c
  }

  /** True when every pass of a trace has a complete flood-wait trace. */
  predicate AllComplete(passes: seq<Pass>, duration: real) {
    forall i :: 0 <= i < |passes| ==> Complete(passes[i].ticks, duration)
  }

  /** The main loop as written, over a trace of passes. */
  function RunAsWritten(c: Ctl, passes: seq<Pass>): (c': Ctl)
    requires AllComplete(passes, c.config.floodDuration)
    ensures c'.config == c.config
    ensures c.emergencyStop ==> c'.emergencyStop
    ensures c.safety.emergencyStopActive ==> c'.safety.emergencyStopActive
    ensures c'.gpio.mockMode == c.gpio.mockMode
    decreases |passes|
  {
    if |passes| == 0 then c
    else
      var c1 := LoopBody(c, passes[0]);
      assert AllComplete(passes[1..], c1.config.floodDuration);
      RunAsWritten(c1, passes[1..])
  }

  /** As written, no pass of the main loop ever feeds the safety watchdog. */
  lemma {:induction false} RunAsWrittenStarvesWatchdog(c: Ctl, passes: seq<Pass>)
    requires AllComplete(passes, c.config.floodDuration)
    ensures RunAsWritten(c, passes).safety.lastWatchdogReset == c.safety.lastWatchdogReset
    ensures RunAsWritten(c, passes).safety.watchdogTimeout == c.safety.watchdogTimeout
    decreases |passes|
  {
    if |passes| > 0 {
      var c1 := LoopBody(c, passes[0]);
      assert AllComplete(passes[1..], c1.config.floodDuration);
      RunAsWrittenStarvesWatchdog(c1, passes[1..]);
    }
  }

  /** Consequence: however healthy the loop, the safety monitor's watchdog check
      fails once the timeout has passed since the last reset (for a new
      controller, its construction); it then latches the emergency, and every
      later watering cycle aborts at its pre-flight check. */
  lemma WatchdogTripsAsWritten(c: Ctl, passes: seq<Pass>, now: real, next: Pass)
    requires AllComplete(passes, c.config.floodDuration) && Complete(next.ticks, c.config.floodDuration)
    requires now - c.safety.lastWatchdogReset > c.safety.watchdogTimeout
    ensures var c1 := RunAsWritten(c, passes);
            var check := Safety.CheckWatchdogTimeout(c1.safety, now);
            !check.ok && check.state.emergencyStopActive &&
            var c' := ExecuteWateringCycle(c1.(safety := check.state), next);
            c'.cycleCount == c1.cycleCount && c'.gpio == c1.gpio && c'.pumpStates == c1.pumpStates
  {
    RunAsWrittenStarvesWatchdog(c, passes);
  }

  /** One pass of the main loop, corrected: the watchdog is fed at
      the top of every pass that runs, then the pass proceeds as written. */
  function MainLoopStep(c: Ctl, p: Pass): (c': Ctl)
    requires Complete(p.ticks, c.config.floodDuration)
    ensures c'.config == c.config
    ensures !c.running || c.emergencyStop ==> c' == c
    ensures c.running && !c.emergencyStop ==> c'.safety.lastWatchdogReset == p.now
    ensures c.emergencyStop ==> c'.emergencyStop
    ensures c.safety.emergencyStopActive ==> c'.safety.emergencyStopActive
    ensures c'.safety.watchdogTimeout == c.safety.watchdogTimeout
    ensures c'.gpio == c.gpio.(board := c'.gpio.board)
  {
    if !c.running || c.emergencyStop then c
    else LoopBody(c.(safety := Safety.ResetWatchdog(c.safety, p.now)), p)
  }

  /** With the watchdog fed, the monitor's check passes for the whole timeout
      after any pass that ran. */
  lemma FedWatchdogPasses(c: Ctl, p: Pass, later: real)
    requires Complete(p.ticks, c.config.floodDuration)
    requires c.running && !c.emergencyStop
    requires p.now <= later <= p.now + c.safety.watchdogTimeout
    ensures Safety.CheckWatchdogTimeout(MainLoopStep(c, p).safety, later).ok
  {
  }

  /** The main loop over a trace of passes. */
  function Run(c: Ctl, passes: seq<Pass>): (c': Ctl)
    requires AllComplete(passes, c.config.floodDuration)
    ensures c'.config == c.config
    ensures c.emergencyStop ==> c'.emergencyStop
    ensures c.safety.emergencyStopActive ==> c'.safety.emergencyStopActive
    ensures c'.gpio.mockMode == c.gpio.mockMode
    decreases |passes|
  {
    if |passes| == 0 then c
    else
      var c1 := MainLoopStep(c, passes[0]);
      assert AllComplete(passes[1..], c1.config.floodDuration);
      Run(c1, passes[1..])
  }

  /** A loop still running after a trace last fed the watchdog at the trace's
      last pass, so the watchdog only trips when the passes stop coming. */
  lemma {:induction false} RunFeedsWatchdog(c: Ctl, passes: seq<Pass>)
    requires AllComplete(passes, c.config.floodDuration)
    requires |passes| > 0
    requires Run(c, passes).running && !Run(c, passes).emergencyStop
    ensures Run(c, passes).safety.lastWatchdogReset == passes[|passes| - 1].now
    decreases |passes|
  {
    var c1 := MainLoopStep(c, passes[0]);
    assert AllComplete(passes[1..], c1.config.floodDuration);
    if |passes| == 1 {
      assert Run(c, passes) == Run(c1, []) == c1;
    } else {
      RunFeedsWatchdog(c1, passes[1..]);
      assert passes[1..][|passes[1..]| - 1] == passes[|passes| - 1];
    }
  }

  /** Once the emergency flag is latched the loop does nothing more. */
  lemma {:induction false} EmergencyEndsLoop(c: Ctl, passes: seq<Pass>)
    requires AllComplete(passes, c.config.floodDuration)
    requires c.emergencyStop || !c.running
    ensures Run(c, passes) == c
    decreases |passes|
  {
    if |passes| > 0 {
      assert AllComplete(passes[1..], c.config.floodDuration);
      EmergencyEndsLoop(c, passes[1..]);
    }
  }

  // ---------------------------------------------------------------------------
  // Start and stop

  /** True when the library can set `pin` up. */
  predicate Configurable(g: Gpio.Manager, pin: int, faults: set<int>) {
    Gpio.ValidPin(pin) && !Gpio.Raises(g, pin in faults)
  }

  /** The pump loop of _initialize_hardware: each pin becomes a LOW output and is
      marked off; the first failure raises out of the loop. */
  function SetupPumps(g: Gpio.Manager, states: map<int, bool>, pins: seq<int>, faults: set<int>)
    : (r: (bool, Gpio.Manager, map<int, bool>))
    ensures r.0 <==> forall i :: 0 <= i < |pins| ==> Configurable(g, pins[i], faults)
    ensures r.1 == g.(board := r.1.board)
    ensures r.0 ==> forall p :: p in pins ==> p in r.2 && !r.2[p] && Gpio.MockInput(r.1.board, p) == Gpio.Low
    ensures forall p :: p !in pins ==> PinUnchanged(g, states, r.1, r.2, p)
    decreases |pins|
  {
    if |pins| == 0 then (true, g, states)
    else
      var pin := pins[0];
      match Gpio.SetupOutputPin(g, pin, false, pin in faults)
      case Err(_) => (false, g, states)
      case Ok(g1) =>
        var rest := SetupPumps(g1, states[pin := false], pins[1..], faults);
        assert forall i :: 1 <= i < |pins| ==> pins[1..][i - 1] == pins[i];
        assert forall p :: p in pins ==> p == pin || p in pins[1..];
        assert forall p :: p !in pins ==> p != pin && p !in pins[1..];
        rest
  }

  /** OverflowSensorManager.initialize: each switch becomes an input; the first
      failure raises. Levels are left as they are. */
  function SetupInputs(g: Gpio.Manager, pins: seq<int>, faults: set<int>): (r: (bool, Gpio.Manager))
    ensures r.0 <==> forall i :: 0 <= i < |pins| ==> Configurable(g, pins[i], faults)
    ensures r.1 == g.(board := r.1.board) && r.1.board.states == g.board.states
    decreases |pins|
  {
    if |pins| == 0 then (true, g)
    else
      var pin := pins[0];
      match Gpio.SetupInputPin(g, pin, true, pin in faults)
      case Err(_) => (false, g)
      case Ok(g1) =>
        var rest := SetupInputs(g1, pins[1..], faults);
        assert forall i :: 1 <= i < |pins| ==> pins[1..][i - 1] == pins[i];
        rest
  }

  /** _initialize_hardware: the pump outputs, the emergency input, the moisture
      bus (`busOk` stands for opening it) and the overflow inputs, in that order;
      any failure raises and ends the initialisation where it stands. */
  function InitializeHardware(c: Ctl, faults: set<int>, busOk: bool): (r: Outcome)
    ensures r.ok <==> (forall i :: 0 <= i < |c.config.pumpPins| ==> Configurable(c.gpio, c.config.pumpPins[i], faults))
                      && Configurable(c.gpio, c.config.emergencyPin, faults) && busOk
                      && (forall i :: 0 <= i < |c.overflow.pins| ==> Configurable(c.gpio, c.overflow.pins[i], faults))
    ensures r.ok ==> forall p :: p in c.config.pumpPins ==> PumpOff(r.ctl, p)
    ensures r.ctl == c.(gpio := r.ctl.gpio, pumpStates := r.ctl.pumpStates)
    ensures r.ctl.gpio == c.gpio.(board := r.ctl.gpio.board)
  {
    var pumps := SetupPumps(c.gpio, c.pumpStates, c.config.pumpPins, faults);
    var c1 := c.(gpio := pumps.1, pumpStates := pumps.2);
    if !pumps.0 then Outcome(false, c1)
    else
      var pin := c.config.emergencyPin;
      match Gpio.SetupInputPin(c1.gpio, pin, true, pin in faults)
      case Err(_) => Outcome(false, c1)
      case Ok(g) =>
        var c2 := c1.(gpio := g);
        if !busOk then Outcome(false, c2)
        else
          var inputs := SetupInputs(c2.gpio, c2.overflow.pins, faults);
          Outcome(inputs.0, c2.(gpio := inputs.1))
  }

  /** start, up to the main loop: nothing when already running; otherwise the
      controller is marked running, the hardware is set up and the safety
      monitor started. A failing setup triggers the emergency shutdown. */
  function Start(c: Ctl, faults: set<int>, busOk: bool): (c': Ctl)
    ensures c.running ==> c' == c
    ensures c'.config == c.config && c'.gpio.mockMode == c.gpio.mockMode
    ensures !c.running && InitializeHardware(c.(running := true), faults, busOk).ok ==>
              c'.running && c'.safety.monitoring && c'.emergencyStop == c.emergencyStop &&
              forall p :: p in c.config.pumpPins ==> PumpOff(c', p)
    ensures !c.running && !InitializeHardware(c.(running := true), faults, busOk).ok ==>
              !c'.running && c'.emergencyStop && c'.safety.emergencyStopActive
  {
    if c.running then c
    else
      var init := InitializeHardware(c.(running := true), faults, busOk);
      if init.ok then init.ctl.(safety := Safety.StartMonitoring(init.ctl.safety))
      else EmergencyShutdown(init.ctl, faults)
  }

  /** stop: ends the loop, stops every pump it can, releases the GPIO library
      (a failing release is swallowed) and stops the safety monitor. */
  function Stop(c: Ctl, faults: set<int>, cleanupFault: bool): (c': Ctl)
    ensures !c'.running && !c'.safety.monitoring
    ensures c'.config == c.config && c'.emergencyStop == c.emergencyStop && c'.cycleCount == c.cycleCount
    ensures c'.gpio.mockMode == c.gpio.mockMode
    ensures forall p :: p in c.config.pumpPins && Writable(c.gpio, p, faults) ==> PumpOff(c', p)
    ensures c.gpio.initialized && !Gpio.Raises(c.gpio, cleanupFault) ==>
              !c'.gpio.initialized && c'.gpio.board == Gpio.EmptyBoard
  {
    var c1 := StopAllPumps(c.(running := false), faults);
    c1.(gpio := Gpio.Cleanup(c1.gpio, cleanupFault), safety := Safety.StopMonitoring(c1.safety))
  }

  /** stop as written: the loop flag is cleared first, but a failing pump write
      raises out of stop-all, so neither the GPIO clean-up nor stop_monitoring
      runs. The second component says whether stop ran to the end. */
  function StopAsWritten(c: Ctl, faults: set<int>, cleanupFault: bool): (r: (Ctl, bool))
    ensures !r.0.running
    ensures r.1 <==> forall i :: 0 <= i < |c.config.pumpPins| ==> Writable(c.gpio, c.config.pumpPins[i], faults)
    ensures r.1 ==> r.0 == Stop(c, faults, cleanupFault)
    ensures !r.1 ==> r.0.safety == c.safety && r.0.gpio.initialized == c.gpio.initialized
  {
    var c0 := c.(running := false);
    var w := StopPinsAsWritten(c0.gpio, c0.pumpStates, c0.config.pumpPins, faults);
    var c1 := c0.(gpio := w.0, pumpStates := w.1);
    if w.2 then (c1.(gpio := Gpio.Cleanup(c1.gpio, cleanupFault), safety := Safety.StopMonitoring(c1.safety)), true)
    else (c1, false)
  }

  /** The whole of start: set-up, the main loop over a trace of passes, and the
      final stop, which runs whether the loop ended or a set-up step failed. */
  function Session(c: Ctl, faults: set<int>, busOk: bool, passes: seq<Pass>, stopFaults: set<int>, cleanupFault: bool): (c': Ctl)
    requires AllComplete(passes, c.config.floodDuration)
    ensures c.running ==> c' == c
    ensures !c.running ==> !c'.running && !c'.safety.monitoring
    ensures !c.running ==> forall p :: p in c.config.pumpPins && Writable(c.gpio, p, stopFaults) ==> PumpOff(c', p)
  {
    if c.running then c
    else
      var c1 := Start(c, faults, busOk);
      var c2 := Run(c1, passes);
      assert forall p :: Writable(c2.gpio, p, stopFaults) == Writable(c.gpio, p, stopFaults);
      Stop(c2, stopFaults, cleanupFault)
  }
}
