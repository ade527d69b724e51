# OrchidBot fail-safe irrigation core in Dafny

This project models the safety-gated control core of the OrchidBot
hydroponic controller and proves properties of it. It covers:

- the GPIO manager and its mock board (`gpio.dfy`);
- the safety manager, with its latched emergency flag, watchdog, pump
  deadlines and start gate (`safety.dfy`);
- the moisture and overflow sensor managers (`moisture.dfy`, `overflow.dfy`);
- the hydroponic controller that ties them together (`controller.dfy`).

Two helper modules hold what the Python code takes from the language:
`results.dfy` has `Option`/`Result` for `None` and exceptions, and
`numerals.dfy` has `str.strip`, `str.split`, `",".join`, `int(s)`,
`int(s, 0)`, `str(n)` and `"%02x"`.

Every state record is an immutable datatype and every operation is a pure
function or a short method. The world enters as parameters:

- `now` and elapsed seconds for the clock;
- a map from I2C address to raw value for the bus;
- the board's pin levels, which the mock and the real library share;
- `faults`, the set of pins whose library call raises during a step;
- booleans for the safety manager's host and hardware probes.

The two cooperative loops are step functions:

- one pass of the main loop (`Controller.LoopBody`, `Controller.MainLoopStep`)
  with a run over a trace of passes;
- the flood wait over a trace of ticks (`Controller.FloodWait`);
- one pass of the safety monitor thread (`Safety.MonitorPass`).

The model keeps these behaviours of the code exactly as written:

- `register_pump_start` overwrites an existing entry;
- `_start_pump` never registers the pump with the safety manager;
- `check_all_safety_conditions` ignores the watchdog;
- nothing ever clears the safety manager's emergency flag;
- the controller's `watchdog_timeout` setting never reaches the safety manager,
  which always uses 30 s;
- the main loop has no escalation after repeated failing passes. An invalid
  emergency pin makes a pass raise at its first statement, so that pass changes
  nothing (`Controller.LoopBody`).

The two places where the code is evidently wrong are listed under
"## Findings". Each is modelled both as written and corrected, and the rest of
the model uses the corrected versions.

## Model

| member | source | states |
|---|---|---|
| Results.Somes | src/sensors/moisture.py:77-84 | Dropping unparseable entries never adds entries, keeps every entry when all parse and yields nothing when none does |
| Results.SomesAppend | src/sensors/moisture.py:77-84 | Dropping absent entries distributes over concatenation, so the parsed list of a joined list is the join of the parsed lists |
| Results.SomesFrom | src/sensors/moisture.py:77-84 | Every kept value comes from some present entry of the input |
| Numerals.Strip | src/sensors/moisture.py:79 | The stripped token is an infix of the input, neither starting nor ending with white space |
| Numerals.Split | src/sensors/moisture.py:77 | Splitting on commas yields at least one piece and no piece contains a comma |
| Numerals.SplitNoComma | src/sensors/moisture.py:77 | A string without a comma is a single piece |
| Numerals.SplitAppend | src/sensors/moisture.py:77 | The pieces of `a + "," + b` are the pieces of `a` followed by the pieces of `b` |
| Numerals.JoinSplit | src/sensors/moisture.py:77 | Joining the pieces of a split with commas gives back the input string |
| Numerals.SplitJoin | src/sensors/overflow.py:46 | Splitting a comma-join of comma-free pieces gives back the pieces |
| Numerals.ParseList | src/sensors/moisture.py:77-82 | The list loop of both sensor managers yields at most one value per comma-separated piece |
| Numerals.ParseListAppend | src/sensors/moisture.py:77-82 | For any token parser and any strings, the values of `a + "," + b` are those of `a` followed by those of `b`, so values keep the order of their pieces |
| Numerals.ParseListPiece | src/sensors/overflow.py:46-51 | A comma-free piece yields the parse of the stripped piece when it succeeds and nothing otherwise |
| Numerals.ParseListSound | src/sensors/overflow.py:46-51 | Every value in the list is the parse of some stripped piece |
| Numerals.ParseListJoin | src/sensors/moisture.py:77-82 | Comma-free pieces that each parse, stripped, to a value are read back from their comma-join as exactly those values |
| Numerals.DecimalCanonical | src/sensors/overflow.py:48 | A decimal digit run without a leading zero, or the single digit 0, is the shortest rendering of its own value, so such runs and numbers correspond one to one |
| Numerals.DigitsRoundTrip | src/sensors/overflow.py:82 | The shortest rendering of a number in base 10 or 16 parses back to the number |
| Numerals.Hex2RoundTrip | src/sensors/moisture.py:144 | The two-digit lower-case hex rendering parses back to the number |
| Numerals.Hex2 | src/sensors/moisture.py:144 | `%02x` gives at least two hex digits, exactly two below 256, and no padding from 16 up |
| Numerals.DecimalRoundTrip | src/sensors/overflow.py:82 | `int(str(n)) == n` for every integer, negative ones included |
| Numerals.ParseInt10 | src/sensors/overflow.py:48 | `int(s)` accepts exactly an ASCII digit run, optionally after one `+` or `-`; the value is that of the digit run, negated after a minus; a leading minus never gives a positive value and no minus never a negative one |
| Numerals.ParseInt10Spellings | src/sensors/overflow.py:48 | a leading `+` or a leading zero leaves the value of a digit run unchanged, so `"+18"`, `"018"` and `"18"` are all read as 18 |
| Numerals.Decimal | src/sensors/overflow.py:82 | `str(n)` is non-empty, starts with `-` exactly for negative numbers, and is otherwise all decimal digits |
| Numerals.ParseInt0Canonical | src/sensors/moisture.py:79 | An ASCII decimal token that `int(s, 0)` accepts is the canonical rendering of its value or a run of zeros worth 0, because a leading zero is rejected otherwise |
| Numerals.HexKeyRoundTrip | src/sensors/moisture.py:259-282 | A calibration key written as `0x%02x` reads back through `int(key, 0)` as the same address |
| Numerals.DecimalShape | src/sensors/overflow.py:46-48 | A rendered pin holds no comma and no surrounding white space |
| Gpio.ValidatePin | src/hardware/gpio_manager.py:117-134 | A pin is accepted exactly when it lies in 2..27, and a rejected pin is named in the error |
| Gpio.NewManager | src/hardware/gpio_manager.py:68-94 | The mock is used when asked for, when the environment asks for it, or when the library is missing; the manager starts with an empty board |
| Gpio.Initialize | src/hardware/gpio_manager.py:96-115 | Initialising is a no-op once initialised; otherwise it fails when the real library raises, and success only sets the flag |
| Gpio.SetupOutputPin | src/hardware/gpio_manager.py:136-157 | An invalid pin is rejected before any change; set-up succeeds exactly for a valid pin and a non-raising library, a raising library gives the hardware error, and success is the library's set-up with the requested initial level, changing nothing else |
| Gpio.SetupInputPin | src/hardware/gpio_manager.py:159-180 | An invalid pin is rejected before any change; set-up succeeds exactly for a valid pin and a non-raising library, a raising library gives the hardware error, and success is the library's set-up without a level, so every level stays as it was |
| Gpio.SetPin | src/hardware/gpio_manager.py:182-203 | A write succeeds exactly for a valid pin and a non-raising library, and then changes that pin's level only, true to HIGH and false to LOW |
| Gpio.ReadPin | src/hardware/gpio_manager.py:205-229 | An invalid pin raises; a valid pin always yields a value: false when the read fails, and otherwise true exactly when the pin's level is not LOW |
| Gpio.Cleanup | src/hardware/gpio_manager.py:231-241 | Cleanup does nothing when not initialised; a cleanup that does not raise empties the board and clears the flag; the mode never changes |
| Gpio.PinStates | src/hardware/gpio_manager.py:243-252 | In mock mode every recorded pin maps to whether its level is non-zero; otherwise the map is empty |
| Gpio.InvalidPinTouchesNothing | src/hardware/gpio_manager.py:147-193 | Set-up, writes and reads on an invalid pin all fail with the validation error |
| Gpio.SetThenRead | src/hardware/gpio_manager.py:182-229 | After a successful write, reading the pin gives back the written value, and other pins read as before |
| Gpio.MockSetupAndInput | src/hardware/gpio_manager.py:37-51 | A never-written pin reads 0; set-up with an initial level records it; set-up without one keeps the old level and records the pin as set up |
| Gpio.MockSetup | src/hardware/gpio_manager.py:37-42 | Set-up records the mode and appends the pin; the pin then reads the given level, or its old one when none is given; other pins read as before |
| Gpio.MockOutput | src/hardware/gpio_manager.py:44-46 | After a write the pin reads the written level, other pins read as before, and modes and set-up list are kept |
| Gpio.MockCleanup | src/hardware/gpio_manager.py:53-57 | After cleanup every pin reads 0 and no mode or set-up is remembered |
| Gpio.CleanupAndInitializeIdempotent | src/hardware/gpio_manager.py:96-115 | A second cleanup and a second initialise change nothing, and a mock cleanup empties the board |
| Gpio.PinStatesAgreeWithReads | src/hardware/gpio_manager.py:243-252 | The pin-state report agrees with what reading each recorded pin returns |
| Safety.NewSafety | src/core/safety.py:29-51 | A new manager is not monitoring and has no emergency, no deadlines and no violations; its watchdog was reset at construction; the timeout is 30 s and the longest run 600 s |
| Safety.CurrentViolations | src/core/safety.py:100-116 | Each violation is listed exactly when its condition fails, in the fixed order emergency, resources, hardware, without repeats |
| Safety.CheckAllSafetyConditions | src/core/safety.py:93-126 | The check passes exactly when there is no emergency and both probes pass; the violation list becomes exactly the failing conditions and is empty exactly when the check passes |
| Safety.CheckPumpSafety | src/core/safety.py:128-150 | The gate opens exactly when the general check passes and the pin has no deadline; it updates the violations as the general check does |
| Safety.RegisterPumpStart | src/core/safety.py:152-164 | The pin's deadline becomes now plus the timeout, or now plus 600 s by default, overwriting an old entry and leaving other pins' entries alone |
| Safety.RegisterPumpStop | src/core/safety.py:166-175 | Only the pin's entry is removed, and an absent pin changes nothing |
| Safety.ResetWatchdog | src/core/safety.py:177-179 | After a reset at `now`, the watchdog check at time t passes, changing nothing, exactly when t is at most the timeout past `now` |
| Safety.EmergencyShutdown | src/core/safety.py:181-191 | The emergency flag is set and the deadlines are cleared, nothing else |
| Safety.CheckWatchdogTimeout | src/core/safety.py:199-205 | The watchdog check fails exactly when more than the timeout has passed since the last reset, and then performs the emergency shutdown; otherwise it changes nothing |
| Safety.Unexpired | src/core/safety.py:207-226 | The surviving deadlines are exactly those not yet passed, with their values |
| Safety.CheckPumpTimeouts | src/core/safety.py:207-226 | The sweep removes exactly the expired entries, even when the forced-off write fails, and drives every expired pin that can be written LOW |
| Safety.MonitorPass | src/core/safety.py:73-91 | A monitor pass keeps a latched emergency; an expired watchdog latches it, clears the deadlines and writes no pin; otherwise exactly the expired pumps that can be written are driven LOW and the rest of the board is kept; the violations are the failing conditions; the watchdog time is never touched |
| Safety.StartMonitoring | src/core/safety.py:52-63 | Starting turns monitoring on, is a no-op when already on, and neither clears the emergency latch nor changes what the general check reports |
| Safety.StopMonitoring | src/core/safety.py:65-70 | Stopping turns monitoring off and neither clears the emergency latch nor changes what the general check reports |
| Safety.GetSafetyStatus | src/core/safety.py:265-276 | The reported remaining watchdog time is never negative, is the timeout minus the time since the last reset until the watchdog expires, and is zero after it; the last reset and the other fields report the state |
| Safety.EmergencyIsLatched | src/core/safety.py:181-197 | After an emergency, no sequence of safety operations clears the flag, and the general check and every pump gate stay closed |
| Safety.EmergencyShutdownIdempotent | src/core/safety.py:181-191 | A second emergency shutdown gives the same state as the first |
| Safety.ResetThenWatchdogPasses | src/core/safety.py:177-205 | Immediately after a reset the watchdog check passes and changes nothing |
| Safety.RegisterBlocksGateUntilStop | src/core/safety.py:128-175 | A registered pump closes its own gate, and unregistering it restores the old deadlines and reopens the gate |
| Safety.SweepPartitions | src/core/safety.py:207-226 | Expired and surviving pins partition the deadlines, and a second sweep at the same time removes nothing more |
| Moisture.AddressLabel | src/sensors/moisture.py:280-282 | The `0x%02x` label of an address reads back as the address and carries the `0x` prefix |
| Moisture.SensorId | src/sensors/moisture.py:144 | A reading id is `moisture_` followed by at least two hex digits that read back as the address |
| Moisture.SensorIdInjective | src/sensors/moisture.py:140-145 | Distinct sensors report under distinct ids |
| Moisture.ParseAddresses | src/sensors/moisture.py:72-84 | The parsed address list is never longer than the list of pieces; it is the list loop `Numerals.ParseList` with `int(s, 0)`, so the order, piece and soundness lemmas there apply |
| Moisture.FormatThenParse | src/sensors/moisture.py:72-84 | Any address list written as its comma-joined labels parses back to the same list |
| Moisture.DefaultSensorAddresses | src/sensors/moisture.py:74 | Without the environment variable the sensors are at 0x20, 0x21, 0x22 and 0x23 |
| Moisture.NewMoisture | src/sensors/moisture.py:54-70 | A new manager has the configured addresses, no calibrations, empty caches and a 5 s cache window |
| Moisture.ConvertToPercentage | src/sensors/moisture.py:196-220 | The percentage always lies in [0, 100]; equal dry and wet calibration gives 50; otherwise the dry reading gives 0 and the wet reading 100 |
| Moisture.ConvertMonotone | src/sensors/moisture.py:213-220 | With dry above wet, a higher raw value never gives a higher percentage, and readings beyond the endpoints clamp to 0 and 100 |
| Moisture.ConvertedIsValid | src/sensors/moisture.py:217-232 | Every converted value passes validation |
| Moisture.ReadSensor | src/sensors/moisture.py:154-194 | Within the cache window the cached reading is returned and nothing changes; otherwise a missing bus value gives None, and a fresh read gives the converted value and records the read time |
| Moisture.ReadEach | src/sensors/moisture.py:140-149 | A partial sweep changes only the read times of the state |
| Moisture.ReadAll | src/sensors/moisture.py:131-152 | A sweep merges its readings into the cache and keeps the addresses, calibrations and cache window |
| Moisture.ReadSensorFrame | src/sensors/moisture.py:164-194 | A read depends only on the sensor's own read time, the cache, the calibration and the bus |
| Moisture.ReadEachFrame | src/sensors/moisture.py:140-149 | Sensors not yet read keep their read time and their id's entry |
| Moisture.ReadEachSensor | src/sensors/moisture.py:140-149 | Over distinct sensors, each sensor's entry is what reading it on its own gives, or the earlier entry when that read gives nothing |
| Moisture.ReadEachSensorTime | src/sensors/moisture.py:140-149 | Over distinct sensors, a sweep leaves each sensor's read time as reading it on its own does |
| Moisture.ReadEachIds | src/sensors/moisture.py:140-149 | A partial sweep adds only ids of the sensors it reads |
| Moisture.ReadAllIds | src/sensors/moisture.py:140-145 | A sweep reports nothing but configured sensors |
| Moisture.ReadAllReportsEachSensor | src/sensors/moisture.py:140-152 | A configured sensor is reported exactly when reading it gives a value, and with that value |
| Moisture.ReadAllThenCached | src/sensors/moisture.py:164-190 | A fresh read is served from cache with the same value until the cache window has passed |
| Moisture.CalibrateSensor | src/sensors/moisture.py:234-247 | Calibration replaces that sensor's entry only |
| Moisture.CalibrationTakesEffect | src/sensors/moisture.py:207-243 | After calibration the new dry reading converts to 0 and the new wet reading to 100, and other sensors convert as before |
| Overflow.ParsePins | src/sensors/overflow.py:41-53 | The parsed pin list is never longer than the list of pieces; it is the list loop `Numerals.ParseList` with `int(s)`, so the order, piece and soundness lemmas there apply |
| Overflow.FormatThenParsePins | src/sensors/overflow.py:41-53 | Any pin list written as comma-joined decimals parses back to the same list |
| Overflow.DefaultSensorPins | src/sensors/overflow.py:43 | Without the environment variable the switches are on pins 21, 22, 23 and 24 |
| Overflow.SensorId | src/sensors/overflow.py:82 | A switch id is `overflow_` followed by the pin in decimal, which reads back as the pin |
| Overflow.SensorIdInjective | src/sensors/overflow.py:82-83 | Distinct pins report under distinct ids |
| Overflow.NewOverflow | src/sensors/overflow.py:26-39 | A new manager has the configured pins, no readings, no overflow and no callbacks |
| Overflow.SensorActive | src/sensors/overflow.py:78-93 | A switch is active when its pin reads LOW, and also when the pin is invalid or the read fails, so a fault never reads as dry |
| Overflow.ReadingsCover | src/sensors/overflow.py:78-83 | Every configured switch is reported under its own id with its own reading |
| Overflow.ReadingsOnly | src/sensors/overflow.py:78-92 | Only configured switches are reported |
| Overflow.ReadingsExact | src/sensors/overflow.py:78-93 | The readings map is exactly the configured switches with their readings |
| Overflow.AlertFor | src/sensors/overflow.py:96-105 | The overflow alert fires exactly on a false-to-true change, the clear alert exactly on true-to-false, and nothing when the flag is unchanged |
| Overflow.ReadAll | src/sensors/overflow.py:68-107 | The aggregate flag is the any-of of the switches; the overflow alert fires only on false to true and the clear alert only on true to false, each notifying every callback; the readings merge into the cache |
| Overflow.CheckOverflow | src/sensors/overflow.py:109-117 | The quick check answers whether any reading of a full sweep is true, which is the sweep's aggregate flag, and is false with no switches |
| Overflow.AnyReadingIsFlag | src/sensors/overflow.py:96-117 | Some reading of a sweep is true exactly when the sweep sets the aggregate flag |
| Overflow.InvalidPinAlwaysOverflows | src/sensors/overflow.py:89-93 | A configured pin outside 2..27 makes every sweep report overflow |
| Overflow.MockDrySwitches | src/sensors/overflow.py:78-97 | On the mock with valid pins, no overflow is reported exactly when no switch reads LOW |
| Overflow.SecondSweepIsQuiet | src/sensors/overflow.py:99-103 | A second sweep of an unchanged board raises no alert and notifies nobody |
| Overflow.AddAlertCallback | src/sensors/overflow.py:145-153 | Adding a callback appends it and keeps the earlier ones |
| Overflow.RemoveFirst | src/sensors/overflow.py:162-164 | Removal drops exactly the first occurrence and keeps everything else in order |
| Overflow.RemoveAlertCallback | src/sensors/overflow.py:155-164 | Removing an unregistered callback does nothing; otherwise exactly one occurrence goes and the others stay |
| Overflow.AddThenRemove | src/sensors/overflow.py:145-164 | Adding a new callback and removing it again gives back the original list |
| Controller.DefaultConfigIsConsistent | src/core/controller.py:113-135 | The default pumps are four distinct valid pins, the emergency pin is valid and not a pump, and the threshold lies below the target |
| Controller.DefaultPinsDisjoint | src/core/controller.py:113-135 | The default overflow switches are valid pins used by no pump and not by the emergency input |
| Controller.NewController | src/core/controller.py:63-97 | A new controller is stopped, has no emergency, no pump states, no readings and no cycles, and its safety manager's watchdog starts at construction with a 30 s timeout |
| Controller.ReadSensors | src/core/controller.py:212-228 | Fresh moisture and overflow readings overwrite their ids, other cached readings are kept, and nothing else changes |
| Controller.ShouldWater | src/core/controller.py:230-247 | Watering is needed exactly when some `moisture_` reading is strictly below the threshold |
| Controller.WateringDecisions | tests/unit/test_controller.py:95-116 | At threshold 40, readings 35/45 water and 50/55 do not; an empty cache, an equal reading and an overflow flag never water |
| Controller.DryReadingTriggersWatering | src/core/controller.py:212-247 | A fresh moisture reading below the threshold makes the next decision water |
| Controller.StartPump | src/core/controller.py:317-345 | A pump starts exactly when the safety gate opens and the write succeeds, and is then HIGH; otherwise no level changes; no deadline is registered |
| Controller.StartTwiceSucceeds | src/core/controller.py:317-345 | Because no deadline is registered, a running pump passes the gate and starts again |
| Controller.ForceStopPump | src/core/controller.py:347-351 | The forced stop succeeds exactly when the pin can be written, and then leaves the pump off; a failing write raises |
| Controller.StopPins | src/core/controller.py:353-359 | Corrected stop-all loop: every pump that can be written is driven LOW and marked off; failing pumps and other pins are unchanged |
| Controller.StopAllPumps | src/core/controller.py:353-359 | Every configured pump that can be written ends off; nothing but levels and pump states changes |
| Controller.StopPinsAsWritten | src/core/controller.py:353-359 | The as-written loop completes exactly when every pump can be written, and then agrees with the corrected one |
| Controller.StopAllAbortsAsWritten | src/core/controller.py:353-359 | With pumps 18 and 19 running and the write to 18 failing, the as-written loop leaves 19 running while the corrected one stops it |
| Controller.CheckEmergencyStop | src/core/controller.py:361-370 | An invalid emergency pin raises; otherwise the button reads pressed on a LOW level or a failing read, and a press latches the emergency flag |
| Controller.EmergencyShutdown | src/core/controller.py:372-386 | Emergency shutdown leaves the flag set, the loop stopped, every pump that can be written off, and the safety manager in emergency |
| Controller.EmergencyShutdownAsWritten | src/core/controller.py:353-386 | As written, the shutdown completes exactly when every pump can be written, and then equals the corrected one; otherwise the controller's emergency flag, the loop flag and the safety state are left as they were |
| Controller.EmergencyShutdownSkipsLatchAsWritten | src/core/controller.py:372-386 | On real hardware with the first pump's write failing, the as-written shutdown leaves the safety latch clear and the loop flag unchanged, while the corrected one sets the latch |
| Controller.StartPumps | src/core/controller.py:284-287 | The start loop changes only pin levels, pump states and the safety violation list |
| Controller.StartPumpsPin | src/core/controller.py:284-287 | A pump is marked on and HIGH exactly when it is listed, its gate opens and its write succeeds; every other pin keeps its level and recorded state |
| Controller.FloodWait | src/core/controller.py:289-301 | The wait ends on time, on overflow (with the flag set), on a press (with the emergency latched) or by raising on an invalid emergency pin; with no time left it does nothing |
| Controller.EmergencyEndsFlood | src/core/controller.py:290-299 | A LOW emergency input during the flood ends the wait by overflow or by emergency, and an emergency end latches the flag |
| Controller.QuietFloodRunsToTime | src/core/controller.py:289-301 | With every switch and the emergency input readable and HIGH, the flood runs for its full duration |
| Controller.FloodPhase | src/core/controller.py:279-305 | Unless the wait raised, every pump that can be written ends off; the safety state keeps its flag, deadlines and watchdog |
| Controller.ExecuteWateringCycle | src/core/controller.py:249-277 | A failed pre-flight check starts nothing and counts nothing; otherwise every pump that can be written ends off; with a valid emergency pin the cycle is counted exactly when the pre-flight check passes |
| Controller.WaterIfDry | src/core/controller.py:196-198 | Without a moisture reading below the threshold nothing changes; a cycle keeps the configuration, the loop flag and a latched emergency, and changes the safety state only in its violations |
| Controller.LoopBody | src/core/controller.py:182-210 | As written, a pass does nothing once stopped or in emergency; a press shuts everything down; a failed safety check leaves every pump off; the watchdog time never changes |
| Controller.Tend | src/core/controller.py:193-203 | After the sensors and a possible cycle, a failing safety check leaves every pump that can be written off; the configuration, the loop flag and the safety state apart from its violations are kept |
| Controller.RunAsWritten | src/core/controller.py:182-210 | Over any trace the configuration is kept and both emergency flags stay latched |
| Controller.RunAsWrittenStarvesWatchdog | src/core/controller.py:182-210 | No run of the as-written loop changes the watchdog's last reset or timeout |
| Controller.WatchdogTripsAsWritten | src/core/safety.py:199-205 | After any as-written run, a watchdog check more than the timeout past the last reset fails and latches the emergency, and the next watering cycle then aborts |
| Controller.MainLoopStep | src/core/controller.py:182-210 | Corrected pass: a pass that runs feeds the watchdog at its own time, and otherwise behaves as written |
| Controller.FedWatchdogPasses | src/core/safety.py:177-205 | After a pass that ran, the watchdog check passes for the whole timeout |
| Controller.Run | src/core/controller.py:182-210 | Over any trace the configuration is kept and both emergency flags stay latched |
| Controller.RunFeedsWatchdog | src/core/controller.py:182-210 | A loop still running after a trace was last fed at that trace's last pass |
| Controller.EmergencyEndsLoop | src/core/controller.py:186 | Once stopped or in emergency, no further pass changes anything |
| Controller.SetupPumps | src/core/controller.py:166-170 | Setting up the pumps succeeds exactly when every pin can be configured, and then leaves each pump LOW and marked off |
| Controller.SetupInputs | src/sensors/overflow.py:55-66 | Setting up the switches succeeds exactly when every pin can be configured, and never changes a level |
| Controller.InitializeHardware | src/core/controller.py:162-180 | Initialisation succeeds exactly when every pump, the emergency input, the bus and every switch can be set up, and then every pump is off |
| Controller.Start | src/core/controller.py:137-160 | Start does nothing when already running; a successful set-up leaves the loop running, the monitor on and every pump off; a failed one ends in emergency shutdown |
| Controller.Stop | src/core/controller.py:388-402 | Stop leaves the loop and the monitor stopped and every pump that can be written off, and releases the library unless that fails |
| Controller.StopAsWritten | src/core/controller.py:388-402 | As written, stop clears the loop flag; it completes exactly when every pump can be written, and then equals the corrected stop; otherwise the library is not released and monitoring is not stopped |
| Controller.Session | src/core/controller.py:137-160 | From a stopped controller, whatever the set-up outcome and the trace, the session ends with the loop and the monitor stopped and every pump the final stop can write off |

## Left out

- Threads: the safety monitor thread is modelled as one pass at a time (`Safety.MonitorPass`). The `threading.Timer` that should force a pump off is modelled only as its callback (`Controller.ForceStopPump`), without scheduling. The GPIO lock is not modelled.
- Async scheduling and wall-clock time: `asyncio.sleep`, `time.time()` and `datetime`. Time is the `now`/`elapsed` parameter. The drain phase is a pause with the pumps off, so it changes no state.
- Host probes: psutil memory and CPU queries and the hardware-connection placeholder are the booleans `resourcesOk` and `hardwareOk`.
- Bus and board I/O: smbus2 and RPi.GPIO calls, and `MockI2C`'s random values. Bus values are a map from address to raw reading, input levels are the board's levels, and failing library calls are the `faults` set.
- Moisture set-up: `initialize` and `_detect_sensors` are reduced to whether the bus opens (`busOk`). The detection result is only logged.
- Calibration file: `_load_calibration` and `_save_calibration` are left out. They are file I/O; only the key format is kept (`Numerals.HexKeyRoundTrip`).
- Configuration and environment: YAML loading and `os.getenv`. The configuration is a record parameter with `DefaultConfig` as its default, and each environment variable is an `Option<string>`.
- Side channels: logging, signal handlers, `get_status` (its uptime comes from the wall clock), the sensor managers' `get_sensor_status`, the safety manager's `check_overflow` stub and its public `check_emergency_stop` wrapper.
- Numbers: floating point is exact `real`. Python `int()` corner cases are left out: underscores between digits, non-ASCII decimal digits (such as Arabic-Indic or full-width digits), `0o`/`0b` prefixes, and signs under base 0.
- Numerals.ParseInt10: rejects tokens that Python's `int()` accepts: digits separated by underscores (`"1_0"`) and non-ASCII decimal digits. The exact characterisation holds only for ASCII tokens without underscores.
- Numerals.ParseInt0Canonical: stated for the model's `int(s, 0)`, which rejects underscores, non-ASCII digits, `0o`/`0b` prefixes and signs, all of which Python accepts.
- Callbacks: a callback is a number. Async and plain callbacks are treated alike, and a callback's own exception is swallowed, so it has no effect.
- Controller.ReadSensors: neither sweep can raise in the model, so the source's fallback for a failed read is never taken.
- Moisture.ReadAllReportsEachSensor: stated only for address lists without duplicates. With a duplicate, the second read of an address is served from cache.
- Moisture.ReadAllThenCached: stated only for address lists without duplicates, for the same reason.
- Controller.FloodWait: needs a tick trace that reaches the end of the flood. The trace stands for the clock, which does move on.
- Controller.LoopBody: all reads and writes of one pass share one `faults` set, and all safety checks of a pass share one pair of probe results. Its shutdown and stop-all use the corrected stop-all, so a failing pump write does not abort the pass.
- Controller.EmergencyShutdown: uses the corrected stop-all. As written, a failing pump write skips setting the emergency flag, clearing `running` and `safety_manager.emergency_shutdown()` (lines 377-386); `Controller.EmergencyShutdownAsWritten` models that.
- Controller.Stop: uses the corrected stop-all. As written, a failing pump write skips `cleanup()` and `stop_monitoring()` (lines 394-400); `Controller.StopAsWritten` models that.
- Controller.Session: built from the corrected shutdown and stop, so its promise that monitoring ends does not hold as written when a pump write fails.
- Controller.FloodWait and Controller.Run: the tick and pass traces are unconstrained. Levels may name any pin and elapsed times need not grow. Every property is stated for all such traces.
- Controller.ExecuteWateringCycle: the exact count of a cycle is stated for a valid emergency pin. With an invalid one, the flood raises at its first tick unless time is already up. It also uses the corrected stop-all: as written, a failing pump write makes the flood's stop-all raise (line 304), so the count at lines 266-270 is skipped, and the handler's stop-all at line 277 raises again and leaves the later pumps running.
- Controller.FloodPhase: uses the corrected stop-all. As written, the stop-all at line 304 raises at the first failing pump write, so the pumps after it stay HIGH and marked on.
- Controller.Tend: uses the corrected stop-all after a failed safety check. As written, the stop-all at line 203 raises at the first failing pump write, leaving the later pumps on, and the main loop's handler at line 208 swallows the error.
- Controller.Start: uses the corrected shutdown after a failed set-up. As written, when a pump write also fails, `emergency_shutdown` raises at line 377, before the emergency flags are set at lines 380-386, and the final `stop` raises at line 394.
- Escalation of repeated failing passes to an emergency: the code has none, so there is nothing to model.

## Findings

| source | as written | input that shows it | evidently intended | confidence | as-written member | corrected member |
|---|---|---|---|---|---|---|
| src/core/controller.py:182-210 | No code path calls `reset_watchdog`, so the watchdog's last reset stays at construction time | Any healthy running controller and a monitor pass more than 30 s after construction: the watchdog check fails and latches the emergency, and no watering cycle runs afterwards | The main loop feeds the watchdog once per pass, so that only a stuck loop trips it | medium, not executed | Controller.WatchdogTripsAsWritten | Controller.MainLoopStep |
| src/core/controller.py:353-400 | Stop-all raises out of its loop at the first failing write, so the pumps after it keep running; in `emergency_shutdown` and `stop` the steps after it are skipped too | Real hardware, pumps on pins 18 and 19 both HIGH, and the write to pin 18 failing: pin 19 stays HIGH and marked on; the emergency shutdown leaves the safety latch clear | A failure on one pump is logged and the remaining pumps are still stopped | medium, not executed | Controller.StopAllAbortsAsWritten | Controller.StopPins |

Even with the corrected loop, one watering cycle blocks the loop for the flood
and drain durations: 300 s and 600 s by default. That is far longer than the
30 s watchdog timeout, so the monitor can still trip during a cycle.
`Controller.FedWatchdogPasses` states the guarantee only for the timeout after
a pass.
