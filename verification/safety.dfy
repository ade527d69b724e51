/** The safety manager of src/core/safety.py: the pump-deadline map, the latched
    emergency flag, the watchdog and the pump-start gate.

    Time is the `now` argument (seconds, as `time.time()` returns). The host
    resource check (psutil) and the hardware-connection check are the boolean
    outcomes `resourcesOk` and `hardwareOk`. The monitor thread is one explicit
    `MonitorPass` per call. */
module Safety {
  import opened Results
  import Gpio

  /** Defaults set by SafetyManager.__init__ (seconds). */
  const DefaultWatchdogTimeout: real := 30.0
  const DefaultMaxPumpRuntime: real := 600.0

  /** The conditions `check_all_safety_conditions` reports, in its fixed order. */
  datatype Violation = EmergencyStopActivated | ResourceLimitsExceeded | HardwareConnectionIssues

  /** SafetyManager's state. */
  datatype SafetyState = SafetyState(
    monitoring: bool,
    emergencyStopActive: bool,
    pumpTimeouts: map<int, real>,
    lastWatchdogReset: real,
    violations: seq<Violation>,
    watchdogTimeout: real,
    maxPumpRuntime: real)

  /** A check's answer together with the state it leaves behind. */
  datatype Checked = Checked(ok: bool, state: SafetyState)

  /** SafetyManager.__init__ at time `now`. */
  function NewSafety(now: real): (s: SafetyState)
    ensures !s.emergencyStopActive && !s.monitoring
    ensures s.pumpTimeouts == map[] && s.violations == []
    ensures s.lastWatchdogReset == now
    ensures s.watchdogTimeout == 30.0 && s.maxPumpRuntime == 600.0
  {
    SafetyState(false, false, map[], now, [], DefaultWatchdogTimeout, DefaultMaxPumpRuntime)
  }

  /** The position of a violation in the reported list. */
  function Rank(v: Violation): nat {
    match v
    case EmergencyStopActivated => 0
    case ResourceLimitsExceeded => 1
    case HardwareConnectionIssues => 2
  }

  /** True when the condition behind `v` currently fails. */
  predicate Fails(v: Violation, emergency: bool, resourcesOk: bool, hardwareOk: bool) {
    match v
    case EmergencyStopActivated => emergency
    case ResourceLimitsExceeded => !resourcesOk
    case HardwareConnectionIssues => !hardwareOk
  }

  /** The violations of one evaluation, each failing condition once, in fixed order. */
  function CurrentViolations(emergency: bool, resourcesOk: bool, hardwareOk: bool): (vs: seq<Violation>)
    ensures EmergencyStopActivated in vs <==> emergency
    ensures ResourceLimitsExceeded in vs <==> !resourcesOk
    ensures HardwareConnectionIssues in vs <==> !hardwareOk
    ensures forall i, j :: 0 <= i < j < |vs| ==> Rank(vs[i]) < Rank(vs[j])
  {
    (if emergency then [EmergencyStopActivated] else [])
    + (if !resourcesOk then [ResourceLimitsExceeded] else [])
    + (if !hardwareOk then [HardwareConnectionIssues] else [])
  }

  /** SafetyManager.check_all_safety_conditions: safe exactly when the emergency
      flag is clear and both the resource and the hardware checks pass. The
      violation list becomes exactly the failing conditions; nothing else changes,
      in particular the watchdog is not consulted. */
  function CheckAllSafetyConditions(s: SafetyState, resourcesOk: bool, hardwareOk: bool): (c: Checked)
    ensures c.ok <==> !s.emergencyStopActive && resourcesOk && hardwareOk
    ensures c.ok <==> c.state.violations == []
    ensures forall v :: v in c.state.violations <==> Fails(v, s.emergencyStopActive, resourcesOk, hardwareOk)
    ensures c.state == s.(violations := c.state.violations)
  {
    var current := CurrentViolations(s.emergencyStopActive, resourcesOk, hardwareOk);
    Checked(|current| == 0, s.(violations := current))
  }

  /** SafetyManager.check_pump_safety: the general check passes and the pump has no
      registered deadline. */
  function CheckPumpSafety(s: SafetyState, pin: int, resourcesOk: bool, hardwareOk: bool): (c: Checked)
    ensures c.ok <==> !s.emergencyStopActive && resourcesOk && hardwareOk && pin !in s.pumpTimeouts
    ensures c.state == CheckAllSafetyConditions(s, resourcesOk, hardwareOk).state
  {
    var general := CheckAllSafetyConditions(s, resourcesOk, hardwareOk);
    if !general.ok then general
    else Checked(pin !in s.pumpTimeouts, general.state)
  }

  /** SafetyManager.register_pump_start: the deadline is `now` plus the timeout,
      or plus `max_pump_runtime` when none is given. An existing entry is
      overwritten; every other pin's entry is untouched. */
  function RegisterPumpStart(s: SafetyState, pin: int, now: real, timeout: Option<real>): (s': SafetyState)
    ensures pin in s'.pumpTimeouts
    ensures timeout.None? ==> s'.pumpTimeouts[pin] == now + s.maxPumpRuntime
    ensures timeout.Some? ==> s'.pumpTimeouts[pin] == now + timeout.value
    ensures forall p :: p != pin ==> (p in s'.pumpTimeouts <==> p in s.pumpTimeouts)
    ensures forall p :: p != pin && p in s.pumpTimeouts ==> s'.pumpTimeouts[p] == s.pumpTimeouts[p]
    ensures s' == s.(pumpTimeouts := s'.pumpTimeouts)
  {
    s.(pumpTimeouts := s.pumpTimeouts[pin := now + timeout.GetOr(s.maxPumpRuntime)])
  }

  /** SafetyManager.register_pump_stop: drops the pin's entry only; no effect when
      the pin has none. */
  function RegisterPumpStop(s: SafetyState, pin: int): (s': SafetyState)
    ensures s'.pumpTimeouts.Keys == s.pumpTimeouts.Keys - {pin}
    ensures forall p :: p in s'.pumpTimeouts ==> s'.pumpTimeouts[p] == s.pumpTimeouts[p]
    ensures pin !in s.pumpTimeouts ==> s' == s
    ensures s' == s.(pumpTimeouts := s'.pumpTimeouts)
  {
    if pin in s.pumpTimeouts then s.(pumpTimeouts := s.pumpTimeouts - {pin}) else s
  }

  /** SafetyManager.reset_watchdog: from the reset on, the watchdog check passes
      for exactly `watchdog_timeout` seconds; nothing but the reset time changes. */
  function ResetWatchdog(s: SafetyState, now: real): (s': SafetyState)
    ensures forall t :: CheckWatchdogTimeout(s', t).ok <==> t - now <= s.watchdogTimeout
    ensures forall t :: CheckWatchdogTimeout(s', t).ok ==> CheckWatchdogTimeout(s', t).state == s'
    ensures s' == s.(lastWatchdogReset := now)
  {
    s.(lastWatchdogReset := now)
  }

  /** SafetyManager.emergency_shutdown: latches the emergency flag and forgets every
      pump deadline. */
  function EmergencyShutdown(s: SafetyState): (s': SafetyState)
    ensures s'.emergencyStopActive && s'.pumpTimeouts == map[]
    ensures s' == s.(emergencyStopActive := true, pumpTimeouts := map[])
  {
    s.(emergencyStopActive := true, pumpTimeouts := map[])
  }

  /** True when more than `watchdog_timeout` seconds have passed since the last reset. */
  predicate WatchdogExpired(s: SafetyState, now: real) {
    now - s.lastWatchdogReset > s.watchdogTimeout
  }

  /** SafetyManager._check_watchdog_timeout: on expiry (strictly more than the
      timeout since the last reset) performs the emergency shutdown and fails;
      otherwise passes and changes nothing. */
  function CheckWatchdogTimeout(s: SafetyState, now: real): (c: Checked)
    ensures !c.ok <==> now - s.lastWatchdogReset > s.watchdogTimeout
    ensures !c.ok ==> c.state == EmergencyShutdown(s)
    ensures c.ok ==> c.state == s
  {
    if WatchdogExpired(s, now) then Checked(false, EmergencyShutdown(s)) else Checked(true, s)
  }

  /** The pins whose deadline lies strictly before `now`. */
  function Expired(timeouts: map<int, real>, now: real): set<int> {
    set p | p in timeouts && now > timeouts[p]
  }

  /** The deadlines that survive a sweep at `now`: those at or after `now`. */
  function Unexpired(timeouts: map<int, real>, now: real): (t: map<int, real>)
    ensures forall p :: p in t <==> p in timeouts && timeouts[p] >= now
    ensures forall p :: p in t ==> t[p] == timeouts[p]
  {
    map p | p in timeouts && timeouts[p] >= now :: timeouts[p]
  }

  /** True when `g'` is `g` with every pin in `off` driven LOW, except pins whose
      write raised (invalid pin numbers, or hardware faults on a real board), which
      keep their level; nothing else differs. */
  ghost predicate ForcedOff(g: Gpio.Manager, g': Gpio.Manager, off: set<int>, faults: set<int>) {
    && g'.mockMode == g.mockMode && g'.initialized == g.initialized
    && g'.board.modes == g.board.modes && g'.board.setupPins == g.board.setupPins
    && (forall p :: p in off && Gpio.SetPin(g, p, false, p in faults).Ok? ==>
          p in g'.board.states && g'.board.states[p] == Gpio.Low)
    && (forall p :: (p !in off || Gpio.SetPin(g, p, false, p in faults).Err?) ==>
          (p in g'.board.states <==> p in g.board.states)
          && (p in g.board.states ==> g'.board.states[p] == g.board.states[p]))
  }

  /** A non-empty set of pins has a member. */
  lemma HasMember(pins: set<int>)
    requires pins != {}
    ensures exists p :: p in pins
  {
    if forall p :: p !in pins {
      assert false;
    }
  }

  /** SafetyManager._check_pump_timeouts: every pin whose deadline has passed
      (strictly) is driven LOW and its entry removed, even when the write fails;
      entries whose deadline is at or after `now` stay. The order in which the
      expired pins are visited does not matter. */
  method CheckPumpTimeouts(s: SafetyState, g: Gpio.Manager, now: real, faults: set<int>)
    returns (s': SafetyState, g': Gpio.Manager)
    ensures s' == s.(pumpTimeouts := Unexpired(s.pumpTimeouts, now))
    ensures ForcedOff(g, g', Expired(s.pumpTimeouts, now), faults)
    ensures Expired(s.pumpTimeouts, now) == {} ==> g' == g
  {
    var expired := Expired(s.pumpTimeouts, now);
    var pending := expired;
    var timeouts := s.pumpTimeouts;
    g' := g;
    while pending != {}
      invariant pending <= expired
      invariant forall p :: p in timeouts <==> p in s.pumpTimeouts && (p !in expired || p in pending)
      invariant forall p :: p in timeouts ==> timeouts[p] == s.pumpTimeouts[p]
      invariant ForcedOff(g, g', expired - pending, faults)
      invariant expired == {} ==> g' == g
      decreases pending
    {
      HasMember(pending);
      var pin :| pin in pending;
      match Gpio.SetPin(g', pin, false, pin in faults) {
        case Ok(written) => g' := written;
        case Err(_) =>
      }
      timeouts := timeouts - {pin};
      pending := pending - {pin};
    }
    var survivors := Unexpired(s.pumpTimeouts, now);
    assert forall p :: p in timeouts <==> p in survivors by {
      forall p ensures p in timeouts <==> p in survivors {
        assert p in expired <==> p in s.pumpTimeouts && now > s.pumpTimeouts[p];
      }
    }
    forall p | p in timeouts ensures p in survivors {}
    forall p | p in survivors ensures p in timeouts {}
    assert timeouts.Keys == survivors.Keys;
    forall p | p in timeouts ensures timeouts[p] == survivors[p] {}
    assert timeouts == survivors;
    s' := s.(pumpTimeouts := timeouts);
  }

  /** One pass of SafetyManager._monitor_loop: the general check, the watchdog,
      then the pump-deadline sweep. */
  method MonitorPass(s: SafetyState, g: Gpio.Manager, now: real, resourcesOk: bool, hardwareOk: bool, faults: set<int>)
    returns (s': SafetyState, g': Gpio.Manager)
    ensures s.emergencyStopActive ==> s'.emergencyStopActive
    ensures WatchdogExpired(s, now) ==> s'.emergencyStopActive && s'.pumpTimeouts == map[]
    ensures !WatchdogExpired(s, now) ==>
              s'.emergencyStopActive == s.emergencyStopActive
              && s'.pumpTimeouts == Unexpired(s.pumpTimeouts, now)
    ensures forall v :: v in s'.violations <==> Fails(v, s.emergencyStopActive, resourcesOk, hardwareOk)
    ensures s'.lastWatchdogReset == s.lastWatchdogReset
    ensures WatchdogExpired(s, now) ==> g' == g
    ensures !WatchdogExpired(s, now) ==> ForcedOff(g, g', Expired(s.pumpTimeouts, now), faults)
  {
    var general := CheckAllSafetyConditions(s, resourcesOk, hardwareOk);
    var watchdog := CheckWatchdogTimeout(general.state, now);
    s', g' := CheckPumpTimeouts(watchdog.state, g, now, faults);
  }

  /** SafetyManager.start_monitoring: no effect when already monitoring; starting
      the monitor neither clears the emergency latch nor changes what any check
      reports. */
  function StartMonitoring(s: SafetyState): (s': SafetyState)
    ensures s'.monitoring
    ensures s.monitoring ==> s' == s
    ensures s'.emergencyStopActive == s.emergencyStopActive && s'.pumpTimeouts == s.pumpTimeouts
    ensures forall r: bool, h: bool :: CheckAllSafetyConditions(s', r, h).ok == CheckAllSafetyConditions(s, r, h).ok
    ensures s' == s.(monitoring := true)
  {
    if s.monitoring then s else s.(monitoring := true)
  }

  /** SafetyManager.stop_monitoring: stopping the monitor does not clear the
      emergency latch nor change what any check reports. */
  function StopMonitoring(s: SafetyState): (s': SafetyState)
    ensures !s'.monitoring
    ensures s'.emergencyStopActive == s.emergencyStopActive && s'.pumpTimeouts == s.pumpTimeouts
    ensures forall r: bool, h: bool :: CheckAllSafetyConditions(s', r, h).ok == CheckAllSafetyConditions(s, r, h).ok
    ensures s' == s.(monitoring := false)
  {
    s.(monitoring := false)
  }

  /** What SafetyManager.get_safety_status reports. */
  datatype SafetyStatus = SafetyStatus(
    monitoring: bool,
    emergencyStop: bool,
    activeViolations: seq<Violation>,
    pumpTimeouts: map<int, real>,
    watchdogLastReset: real,
    watchdogTimeRemaining: real)

  /** The larger of two reals. */
  function Max(a: real, b: real): real {
    if a >= b then a else b
  }

  /** SafetyManager.get_safety_status at time `now`: the remaining watchdog time is
      never negative, is positive exactly while the watchdog is strictly inside its
      timeout, and is zero once the watchdog check would fire. */
  function GetSafetyStatus(s: SafetyState, now: real): (st: SafetyStatus)
    ensures st.watchdogTimeRemaining >= 0.0
    ensures st.watchdogTimeRemaining > 0.0 <==> now - s.lastWatchdogReset < s.watchdogTimeout
    ensures WatchdogExpired(s, now) ==> st.watchdogTimeRemaining == 0.0
    ensures st.emergencyStop == s.emergencyStopActive && st.activeViolations == s.violations
    ensures st.pumpTimeouts == s.pumpTimeouts && st.monitoring == s.monitoring
    ensures st.watchdogLastReset == s.lastWatchdogReset
    ensures !WatchdogExpired(s, now) ==> st.watchdogTimeRemaining == s.watchdogTimeout - (now - s.lastWatchdogReset)
    ensures st.watchdogLastReset + s.watchdogTimeout - now <= st.watchdogTimeRemaining
  {
    SafetyStatus(
      s.monitoring, s.emergencyStopActive, s.violations, s.pumpTimeouts, s.lastWatchdogReset,
      Max(0.0, s.watchdogTimeout - (now - s.lastWatchdogReset)))
  }

  // ---------------------------------------------------------------------------
  // The emergency latch over any sequence of operations

  /** Every state-changing operation of SafetyManager, with its arguments. */
  datatype SafetyOp =
    | CheckAll(resourcesOk: bool, hardwareOk: bool)
    | CheckPump(pin: int, resourcesOk: bool, hardwareOk: bool)
    | RegisterStart(pin: int, now: real, timeout: Option<real>)
    | RegisterStop(pin: int)
    | Reset(now: real)
    | Shutdown
    | Watchdog(now: real)
    | Sweep(now: real)
    | StartMonitor
    | StopMonitor

  /** The safety state after one operation. */
  function Apply(s: SafetyState, op: SafetyOp): SafetyState {
    match op
    case CheckAll(r, h) => CheckAllSafetyConditions(s, r, h).state
    case CheckPump(pin, r, h) => CheckPumpSafety(s, pin, r, h).state
    case RegisterStart(pin, now, t) => RegisterPumpStart(s, pin, now, t)
    case RegisterStop(pin) => RegisterPumpStop(s, pin)
    case Reset(now) => ResetWatchdog(s, now)
    case Shutdown => EmergencyShutdown(s)
    case Watchdog(now) => CheckWatchdogTimeout(s, now).state
    case Sweep(now) => s.(pumpTimeouts := Unexpired(s.pumpTimeouts, now))
    case StartMonitor => StartMonitoring(s)
    case StopMonitor => StopMonitoring(s)
  }

  /** The safety state after a sequence of operations. */
  function Run(s: SafetyState, ops: seq<SafetyOp>): SafetyState
    decreases |ops|
  {
    if |ops| == 0 then s else Run(Apply(s, ops[0]), ops[1..])
  }

  /** Nothing resets the emergency flag: once set, it stays set through any
      sequence of operations, and from then on neither the general check nor the
      pump gate ever passes, for any pin and any resource or hardware outcome. */
  lemma {:induction false} EmergencyIsLatched(s: SafetyState, ops: seq<SafetyOp>, pin: int, resourcesOk: bool, hardwareOk: bool)
    requires s.emergencyStopActive
    ensures Run(s, ops).emergencyStopActive
    ensures !CheckAllSafetyConditions(Run(s, ops), resourcesOk, hardwareOk).ok
    ensures !CheckPumpSafety(Run(s, ops), pin, resourcesOk, hardwareOk).ok
    decreases |ops|
  {
    if |ops| > 0 {
      EmergencyIsLatched(Apply(s, ops[0]), ops[1..], pin, resourcesOk, hardwareOk);
    }
  }

  /** Emergency shutdown is idempotent. */
  lemma EmergencyShutdownIdempotent(s: SafetyState)
    ensures EmergencyShutdown(EmergencyShutdown(s)) == EmergencyShutdown(s)
  {
  }

  /** Right after a watchdog reset the watchdog check passes, for any positive
      timeout, and changes nothing. */
  lemma ResetThenWatchdogPasses(s: SafetyState, now: real)
    requires s.watchdogTimeout >= 0.0
    ensures CheckWatchdogTimeout(ResetWatchdog(s, now), now) == Checked(true, ResetWatchdog(s, now))
  {
  }

  /** A pin registered as running blocks its own gate until it is registered as
      stopped; registering and then stopping gives back the deadlines without it. */
  lemma RegisterBlocksGateUntilStop(s: SafetyState, pin: int, now: real, timeout: Option<real>, r: bool, h: bool)
    ensures !CheckPumpSafety(RegisterPumpStart(s, pin, now, timeout), pin, r, h).ok
    ensures RegisterPumpStop(RegisterPumpStart(s, pin, now, timeout), pin).pumpTimeouts == s.pumpTimeouts - {pin}
    ensures CheckPumpSafety(RegisterPumpStop(RegisterPumpStart(s, pin, now, timeout), pin), pin, r, h).ok
            <==> CheckAllSafetyConditions(s, r, h).ok
  {
  }

  /** The sweep is exact: the expired pins and the surviving entries partition the
      registered pins, so a second sweep at the same moment removes nothing. */
  lemma SweepPartitions(timeouts: map<int, real>, now: real)
    ensures Expired(timeouts, now) !! Unexpired(timeouts, now).Keys
    ensures Expired(timeouts, now) + Unexpired(timeouts, now).Keys == timeouts.Keys
    ensures Unexpired(Unexpired(timeouts, now), now) == Unexpired(timeouts, now)
    ensures Expired(Unexpired(timeouts, now), now) == {}
  {
  }
}
