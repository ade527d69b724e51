/** The float-switch overflow sensors of src/sensors/overflow.py: pin-list
    configuration, active-low reading through the GPIO manager, the any-of
    aggregation, edge-triggered alerts and the alert callback list.

    A callback is identified by a number; invoking the callbacks is represented
    by the sequence of (callback, message) notifications in call order. A
    callback that raises is swallowed by the source and so changes nothing here. */
module Overflow {
  import opened Results
  import opened Numerals
  import Gpio

  /** Pin list used when OVERFLOW_SENSOR_PINS is not set. */
  const DefaultPinList: string := "21,22,23,24"

  /** What the callbacks are called with. */
  const OverflowMessage: string := "overflow_detected"
  const ClearMessage: string := "overflow_cleared"

  datatype Alert = NoAlert | OverflowAlert | ClearAlert

  /** OverflowSensorManager: configured pins, cached readings by sensor id, the
      aggregate flag of the last sweep, and the registered callbacks in order. */
  datatype OverflowState = OverflowState(
    pins: seq<int>,
    lastReadings: map<string, bool>,
    overflowDetected: bool,
    callbacks: seq<nat>)

  /** A sweep: readings by sensor id, the alert raised, the callbacks notified,
      and the new state. */
  datatype Sweep = Sweep(
    readings: map<string, bool>,
    alert: Alert,
    notified: seq<(nat, string)>,
    state: OverflowState)

  // ---------------------------------------------------------------------------
  // Pins and identifiers

  /** _get_sensor_pins on a given list: each comma-separated piece, stripped and
      parsed with Python's `int`; pieces that do not parse are skipped. */
  function ParsePins(s: string): (pins: seq<int>)
    ensures |pins| <= |Split(s)|
  {
    ParseList(s, ParseInt10)
  }

  /** The configured pin list: the environment's, or the default one. */
  function SensorPins(env: Option<string>): seq<int> {
    ParsePins(env.GetOr(DefaultPinList))
  }

  /** The decimal renderings of a list of pins. */
  function PinLabels(pins: seq<int>): (labels: seq<string>)
    ensures |labels| == |pins|
    ensures forall i :: 0 <= i < |pins| ==> labels[i] == Decimal(pins[i])
  {
    seq(|pins|, i requires 0 <= i < |pins| => Decimal(pins[i]))
  }

  /** A pin list written the way the environment variable expects it. */
  function FormatPins(pins: seq<int>): string {
    Join(PinLabels(pins))
  }

  /** Each rendered pin is comma-free and parses back, stripped, as that pin. */
  lemma ParsePinLabels(pins: seq<int>)
    ensures var labels := PinLabels(pins);
            forall i :: 0 <= i < |labels| ==> ',' !in labels[i] && ParseInt10(Strip(labels[i])) == Some(pins[i])
  {
    forall i | 0 <= i < |pins| ensures ',' !in PinLabels(pins)[i] && ParseInt10(Strip(PinLabels(pins)[i])) == Some(pins[i]) {
      DecimalShape(pins[i]);
      DecimalRoundTrip(pins[i]);
    }
  }

  /** Writing a pin list and parsing it again gives back the list. */
  lemma {:induction false} FormatThenParsePins(pins: seq<int>)
    ensures ParsePins(FormatPins(pins)) == pins
  {
    var labels := PinLabels(pins);
    if |pins| == 0 {
      assert Join(labels) == "";
      StripEmpty();
      assert ParseInt10("") == None;
      ParseListPiece("", ParseInt10);
    } else {
      ParsePinLabels(pins);
      ParseListJoin(labels, pins, ParseInt10);
    }
  }

  /** A number with two decimal digits renders as exactly those two digits. */
  lemma TwoDecimalDigits(hi: nat, lo: nat)
    requires 1 <= hi < 10 && lo < 10
    ensures Decimal(10 * hi + lo) == [DigitChar(hi), DigitChar(lo)]
  {
    var n := 10 * hi + lo;
    assert n / 10 == hi && n % 10 == lo;
    assert Digits(hi, Base10) == [DigitChar(hi)];
    assert Digits(n, Base10) == [DigitChar(hi)] + [DigitChar(lo)];
  }

  /** The default list is the four default pins joined by commas. */
  lemma DefaultListJoined()
    ensures Join(["21", "22", "23", "24"]) == DefaultPinList
  {
    JoinFour("21", "22", "23", "24");
  }

  /** The decimal rendering of 20 + `lo` for a single digit `lo` from 1 to 4. */
  lemma DefaultLabel(pin: int, lo: nat, digit: char)
    requires 1 <= lo <= 4 && pin == 20 + lo && digit == DigitChar(lo)
    ensures Decimal(pin) == ['2', digit]
  {
    TwoDecimalDigits(2, lo);
    assert DigitChar(2) == '2';
  }

  /** Without OVERFLOW_SENSOR_PINS the switches are on pins 21 to 24. */
  lemma DefaultSensorPins()
    ensures SensorPins(None) == [21, 22, 23, 24]
  {
    var pins: seq<int> := [21, 22, 23, 24];
    DefaultLabel(21, 1, '1');
    DefaultLabel(22, 2, '2');
    DefaultLabel(23, 3, '3');
    DefaultLabel(24, 4, '4');
    var labels := PinLabels(pins);
    assert labels == ["21", "22", "23", "24"];
    DefaultListJoined();
    assert FormatPins(pins) == DefaultPinList;
    FormatThenParsePins(pins);
  }

  /** The id a switch is reported under: `overflow_` and the pin in decimal. */
  function SensorId(pin: int): (id: string)
    ensures |id| > 9 && id[..9] == "overflow_"
    ensures ParseInt10(id[9..]) == Some(pin)
  {
    DecimalRoundTrip(pin);
    var id := "overflow_" + Decimal(pin);
    assert id[9..] == Decimal(pin);
    id
  }

  /** Distinct pins report under distinct ids. */
  lemma SensorIdInjective(p: int, q: int)
    ensures SensorId(p) == SensorId(q) ==> p == q
  {
    if SensorId(p) == SensorId(q) {
      assert SensorId(p)[9..] == SensorId(q)[9..];
    }
  }

  /** OverflowSensorManager.__init__ for a given pin list. */
  function NewOverflow(env: Option<string>): (st: OverflowState)
    ensures st.pins == SensorPins(env)
    ensures st.lastReadings == map[] && !st.overflowDetected && st.callbacks == []
  {
    OverflowState(SensorPins(env), map[], false, [])
  }

  // ---------------------------------------------------------------------------
  // Reading

  /** One switch as read_all sees it: the switch is active low, and a read the
      GPIO manager rejects counts as overflow. A read the library fails on is
      reported as LOW by the GPIO manager and so also counts as overflow. */
  function SensorActive(g: Gpio.Manager, pin: int, faults: set<int>): (active: bool)
    ensures active <==> !Gpio.ValidPin(pin) || Gpio.Raises(g, pin in faults)
                        || Gpio.MockInput(g.board, pin) == Gpio.Low
  {
    match Gpio.ReadPin(g, pin, pin in faults)
    case Ok(level) => !level
    case Err(_) => true
  }

  /** The readings collected by read_all over `pins`, later pins overwriting
      earlier ones with the same id. */
  function Readings(g: Gpio.Manager, pins: seq<int>, faults: set<int>): map<string, bool>
    decreases |pins|
  {
    if |pins| == 0 then map[]
    else Readings(g, pins[..|pins| - 1], faults)[SensorId(pins[|pins| - 1]) := SensorActive(g, pins[|pins| - 1], faults)]
  }

  /** read_all reports every configured switch under its own id with its own
      reading. */
  lemma {:induction false} ReadingsCover(g: Gpio.Manager, pins: seq<int>, faults: set<int>, i: nat)
    requires i < |pins|
    ensures SensorId(pins[i]) in Readings(g, pins, faults)
    ensures Readings(g, pins, faults)[SensorId(pins[i])] == SensorActive(g, pins[i], faults)
    decreases |pins|
  {
    var init := pins[..|pins| - 1];
    var last := pins[|pins| - 1];
    if i < |pins| - 1 {
      ReadingsCover(g, init, faults, i);
      assert init[i] == pins[i];
      SensorIdInjective(pins[i], last);
    }
  }

  /** read_all reports nothing but the configured switches. */
  lemma {:induction false} ReadingsOnly(g: Gpio.Manager, pins: seq<int>, faults: set<int>, k: string)
    requires k in Readings(g, pins, faults)
    ensures exists i :: 0 <= i < |pins| && k == SensorId(pins[i])
    decreases |pins|
  {
    var init := pins[..|pins| - 1];
    var last := pins[|pins| - 1];
    if k != SensorId(last) {
      ReadingsOnly(g, init, faults, k);
      var i :| 0 <= i < |init| && k == SensorId(init[i]);
      assert k == SensorId(pins[i]);
    }
  }

  /** Both halves together, for every switch and every key. */
  lemma ReadingsExact(g: Gpio.Manager, pins: seq<int>, faults: set<int>)
    ensures var r := Readings(g, pins, faults);
            (forall i :: 0 <= i < |pins| ==>
               SensorId(pins[i]) in r && r[SensorId(pins[i])] == SensorActive(g, pins[i], faults)) &&
            (forall k :: k in r ==> exists i :: 0 <= i < |pins| && k == SensorId(pins[i]))
  {
    forall i | 0 <= i < |pins| ensures SensorId(pins[i]) in Readings(g, pins, faults)
                                  && Readings(g, pins, faults)[SensorId(pins[i])] == SensorActive(g, pins[i], faults) {
      ReadingsCover(g, pins, faults, i);
    }
    forall k | k in Readings(g, pins, faults) ensures exists i :: 0 <= i < |pins| && k == SensorId(pins[i]) {
      ReadingsOnly(g, pins, faults, k);
    }
  }

  /** True when some configured switch is active. */
  predicate AnyActive(g: Gpio.Manager, pins: seq<int>, faults: set<int>) {
    exists i :: 0 <= i < |pins| && SensorActive(g, pins[i], faults)
  }

  /** The alert a change of the aggregate flag raises. */
  function AlertFor(before: bool, after: bool): (a: Alert)
    ensures a == OverflowAlert <==> after && !before
    ensures a == ClearAlert <==> before && !after
    ensures a == NoAlert <==> before == after
  {
    if after && !before then OverflowAlert
    else if !after && before then ClearAlert
    else NoAlert
  }

  /** Each registered callback, in order, called with `message`. */
  function Notify(callbacks: seq<nat>, message: string): (n: seq<(nat, string)>)
    ensures |n| == |callbacks|
    ensures forall i :: 0 <= i < |n| ==> n[i] == (callbacks[i], message)
  {
    seq(|callbacks|, i requires 0 <= i < |callbacks| => (callbacks[i], message))
  }

  /** read_all: every switch read once, the aggregate flag replaced by this
      sweep's any-of, an alert raised only when the flag changes, and the
      readings merged into the cache. */
  function ReadAll(st: OverflowState, g: Gpio.Manager, faults: set<int>): (r: Sweep)
    ensures r.state.overflowDetected <==> exists i :: 0 <= i < |st.pins| && SensorActive(g, st.pins[i], faults)
    ensures r.alert == OverflowAlert <==> r.state.overflowDetected && !st.overflowDetected
    ensures r.alert == ClearAlert <==> !r.state.overflowDetected && st.overflowDetected
    ensures r.alert == NoAlert <==> r.state.overflowDetected == st.overflowDetected
    ensures r.alert == NoAlert ==> r.notified == []
    ensures r.alert == OverflowAlert ==> r.notified == Notify(st.callbacks, OverflowMessage)
    ensures r.alert == ClearAlert ==> r.notified == Notify(st.callbacks, ClearMessage)
    ensures forall i :: 0 <= i < |st.pins| ==>
              SensorId(st.pins[i]) in r.readings && r.readings[SensorId(st.pins[i])] == SensorActive(g, st.pins[i], faults)
    ensures r.state.lastReadings == st.lastReadings + r.readings
    ensures r.state == st.(lastReadings := r.state.lastReadings, overflowDetected := r.state.overflowDetected)
  {
    var readings := Readings(g, st.pins, faults);
    ReadingsExact(g, st.pins, faults);
    var detected := AnyActive(g, st.pins, faults);
    var alert := AlertFor(st.overflowDetected, detected);
    var notified :=
      match alert
      case OverflowAlert => Notify(st.callbacks, OverflowMessage)
      case ClearAlert => Notify(st.callbacks, ClearMessage)
      case NoAlert => [];
    Sweep(readings, alert, notified, st.(overflowDetected := detected, lastReadings := st.lastReadings + readings))
  }

  /** Python's `any(readings.values())`. */
  predicate AnyValue(readings: map<string, bool>) {
    exists k :: k in readings && readings[k]
  }

  /** check_overflow: a full sweep, answering whether any reading of it is true. */
  function CheckOverflow(st: OverflowState, g: Gpio.Manager, faults: set<int>): (r: (bool, Sweep))
    ensures r.1 == ReadAll(st, g, faults)
    ensures r.0 <==> r.1.state.overflowDetected
    ensures |st.pins| == 0 ==> !r.0
  {
    var sweep := ReadAll(st, g, faults);
    AnyReadingIsFlag(st, g, faults);
    (AnyValue(sweep.readings), sweep)
  }

  /** Some reading of a sweep is true exactly when the sweep's aggregate flag is set. */
  lemma AnyReadingIsFlag(st: OverflowState, g: Gpio.Manager, faults: set<int>)
    ensures AnyValue(ReadAll(st, g, faults).readings) <==> ReadAll(st, g, faults).state.overflowDetected
  {
    var sweep := ReadAll(st, g, faults);
    ReadingsExact(g, st.pins, faults);
    if AnyValue(sweep.readings) {
      var k :| k in sweep.readings && sweep.readings[k];
      var i :| 0 <= i < |st.pins| && k == SensorId(st.pins[i]);
      assert SensorActive(g, st.pins[i], faults);
    }
    if sweep.state.overflowDetected {
      var i :| 0 <= i < |st.pins| && SensorActive(g, st.pins[i], faults);
      assert sweep.readings[SensorId(st.pins[i])];
    }
  }

  /** A configured pin outside 2..27 is rejected on every read, so the manager
      reports overflow on every sweep whatever the switches say. */
  lemma InvalidPinAlwaysOverflows(st: OverflowState, g: Gpio.Manager, faults: set<int>, i: nat)
    requires i < |st.pins| && !Gpio.ValidPin(st.pins[i])
    ensures ReadAll(st, g, faults).state.overflowDetected
    ensures CheckOverflow(st, g, faults).0
  {
  }

  /** In mock mode with every switch on a valid pin reading HIGH, no overflow is
      reported; with any of them LOW, overflow is reported. */
  lemma MockDrySwitches(st: OverflowState, g: Gpio.Manager, faults: set<int>)
    requires g.mockMode
    requires forall i :: 0 <= i < |st.pins| ==> Gpio.ValidPin(st.pins[i])
    ensures !ReadAll(st, g, faults).state.overflowDetected <==>
              forall i :: 0 <= i < |st.pins| ==> Gpio.MockInput(g.board, st.pins[i]) != Gpio.Low
  {
  }

  /** Alerts are edge-triggered: a second sweep of an unchanged board raises no
      alert and notifies nobody. */
  lemma SecondSweepIsQuiet(st: OverflowState, g: Gpio.Manager, faults: set<int>)
    ensures var again := ReadAll(ReadAll(st, g, faults).state, g, faults);
            again.alert == NoAlert && again.notified == []
  {
  }

  // ---------------------------------------------------------------------------
  // Callbacks

  /** add_alert_callback: appends, duplicates allowed. */
  function AddAlertCallback(st: OverflowState, callback: nat): (st': OverflowState)
    ensures |st'.callbacks| == |st.callbacks| + 1 && st'.callbacks[|st.callbacks|] == callback
    ensures st'.callbacks[..|st.callbacks|] == st.callbacks
    ensures st' == st.(callbacks := st'.callbacks)
  {
    st.(callbacks := st.callbacks + [callback])
  }

  /** Where `x` first occurs in `xs`. */
  function FirstIndex(xs: seq<nat>, x: nat): (i: nat)
    requires x in xs
    ensures i < |xs| && xs[i] == x && x !in xs[..i]
    decreases |xs|
  {
    if xs[0] == x then 0
    else
      var j := FirstIndex(xs[1..], x);
      assert xs[..j + 1] == [xs[0]] + xs[1..][..j];
      j + 1
  }

  /** Python's `list.remove` on a list known to hold `x`: drops its first
      occurrence and nothing else. */
  function RemoveFirst(xs: seq<nat>, x: nat): (r: seq<nat>)
    requires x in xs
    ensures |r| == |xs| - 1
    ensures r == xs[..FirstIndex(xs, x)] + xs[FirstIndex(xs, x) + 1..]
    ensures multiset(r) == multiset(xs) - multiset{x}
  {
    var i := FirstIndex(xs, x);
    assert xs == xs[..i] + [x] + xs[i + 1..];
    xs[..i] + xs[i + 1..]
  }

  /** remove_alert_callback: removes the first occurrence, or does nothing when
      the callback is not registered. */
  function RemoveAlertCallback(st: OverflowState, callback: nat): (st': OverflowState)
    ensures callback !in st.callbacks ==> st' == st
    ensures callback in st.callbacks ==> |st'.callbacks| == |st.callbacks| - 1
    ensures multiset(st'.callbacks) == multiset(st.callbacks) - multiset{callback}
    ensures st' == st.(callbacks := st'.callbacks)
  {
    if callback in st.callbacks then st.(callbacks := RemoveFirst(st.callbacks, callback))
    else st
  }

  /** Adding a callback that was not registered and removing it again gives back
      the original list. */
  lemma {:induction false} AddThenRemove(st: OverflowState, callback: nat)
    requires callback !in st.callbacks
    ensures RemoveAlertCallback(AddAlertCallback(st, callback), callback) == st
  {
    var xs := st.callbacks + [callback];
    var i := FirstIndex(xs, callback);
    assert xs[..|st.callbacks|] == st.callbacks;
    assert i == |st.callbacks|;
    assert xs[..i] == st.callbacks;
  }
}
