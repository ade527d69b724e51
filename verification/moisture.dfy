/** The capacitive soil-moisture sensors of src/sensors/moisture.py: address
    configuration, conversion of raw capacitance to a percentage through a
    per-sensor calibration, and the five-second read cache.

    The I2C bus is a map from address to the raw value the sensor would return;
    an address missing from it is a bus transfer that raises. The clock is the
    explicit `now` argument. */
module Moisture {
  import opened Results
  import opened Numerals

  /** Calibration used for a sensor that has none of its own. */
  const DefaultDry: int := 500
  const DefaultWet: int := 200

  /** Seconds during which a sensor's last good reading is served from cache. */
  const DefaultCacheDuration: real := 5.0

  /** Address list used when MOISTURE_SENSOR_ADDRESSES is not set. */
  const DefaultAddressList: string := "0x20,0x21,0x22,0x23"

  /** Raw readings of a sensor in completely dry and in saturated soil. */
  datatype Calibration = Calibration(dry: int, wet: int)

  /** MoistureSensorManager: configured addresses, calibrations, cached readings
      keyed by sensor id, and the time of each sensor's last good read. */
  datatype MoistureState = MoistureState(
    addresses: seq<nat>,
    calibration: map<nat, Calibration>,
    lastReadings: map<string, real>,
    lastReadTime: map<nat, real>,
    cacheDuration: real)

  /** A single read: the percentage (None when unavailable) and the new state. */
  datatype SensorRead = SensorRead(value: Option<real>, state: MoistureState)

  /** A sweep over all sensors: the readings obtained and the new state. */
  datatype Sweep = Sweep(readings: map<string, real>, state: MoistureState)

  // ---------------------------------------------------------------------------
  // Addresses and identifiers

  /** The `0x%02x` label of an address, used for calibration keys and in the status report. */
  function AddressLabel(address: nat): (s: string)
    ensures ParseInt0(s) == Some(address)
    ensures |s| >= 4 && s[0] == '0' && s[1] == 'x'
  {
    HexKeyRoundTrip(address);
    "0x" + Hex2(address)
  }

  /** The id a reading is reported under: `moisture_` and two or more hex digits. */
  function SensorId(address: nat): (id: string)
    ensures |id| >= 11 && id[..9] == "moisture_"
    ensures ParseDigits(id[9..], Base16) == Some(address)
  {
    Hex2RoundTrip(address);
    var id := "moisture_" + Hex2(address);
    assert id[9..] == Hex2(address);
    id
  }

  /** Distinct sensors report under distinct ids. */
  lemma SensorIdInjective(a: nat, b: nat)
    ensures SensorId(a) == SensorId(b) ==> a == b
  {
    if SensorId(a) == SensorId(b) {
      assert SensorId(a)[9..] == SensorId(b)[9..];
    }
  }

  /** _get_sensor_addresses on a given list: each comma-separated piece, stripped,
      parsed with Python's base-0 `int`; pieces that do not parse are skipped. */
  function ParseAddresses(s: string): (addrs: seq<nat>)
    ensures |addrs| <= |Split(s)|
  {
    ParseList(s, ParseInt0)
  }

  /** The configured address list: the environment's, or the default one. */
  function SensorAddresses(env: Option<string>): seq<nat> {
    ParseAddresses(env.GetOr(DefaultAddressList))
  }

  /** The address labels of get_sensor_status, comma-joined. */
  function FormatAddresses(addrs: seq<nat>): string {
    Join(Labels(addrs))
  }

  /** A label is never blank at either end and never contains a comma. */
  lemma LabelShape(address: nat)
    ensures ',' !in AddressLabel(address)
    ensures Strip(AddressLabel(address)) == AddressLabel(address)
  {
    var s := AddressLabel(address);
    var h := Hex2(address);
    assert s == "0x" + h;
    forall k | 0 <= k < |s| ensures s[k] != ',' {
      if k >= 2 {
        assert s[k] == h[k - 2];
        assert IsDigitIn(h[k - 2], Base16);
      }
    }
    assert IsDigitIn(h[|h| - 1], Base16);
    assert s[|s| - 1] == h[|h| - 1];
    StripNoSpace(s);
  }

  /** The labels of a list of addresses, as get_sensor_status reports them. */
  function Labels(addrs: seq<nat>): (labels: seq<string>)
    ensures |labels| == |addrs|
    ensures forall i :: 0 <= i < |addrs| ==> labels[i] == AddressLabel(addrs[i])
  {
    seq(|addrs|, i requires 0 <= i < |addrs| => AddressLabel(addrs[i]))
  }

  /** Parsing each label of a list of addresses gives back each address. */
  lemma ParseLabels(addrs: seq<nat>)
    ensures var labels := Labels(addrs);
            forall i :: 0 <= i < |labels| ==> ParseInt0(Strip(labels[i])) == Some(addrs[i])
  {
    forall i | 0 <= i < |addrs| ensures ParseInt0(Strip(Labels(addrs)[i])) == Some(addrs[i]) {
      LabelShape(addrs[i]);
    }
  }

  /** Formatting a list of addresses and parsing it again gives back the list. */
  lemma {:induction false} FormatThenParse(addrs: seq<nat>)
    ensures ParseAddresses(FormatAddresses(addrs)) == addrs
  {
    var labels := Labels(addrs);
    assert FormatAddresses(addrs) == Join(labels);
    if |addrs| == 0 {
      assert Join(labels) == "";
      StripEmpty();
      assert ParseInt0("") == None;
      ParseListPiece("", ParseInt0);
    } else {
      forall i | 0 <= i < |labels| ensures ',' !in labels[i] {
        LabelShape(addrs[i]);
      }
      ParseLabels(addrs);
      ParseListJoin(labels, addrs, ParseInt0);
    }
  }

  /** A number with two hex digits renders as exactly those two digits. */
  lemma TwoHexDigits(hi: nat, lo: nat)
    requires 1 <= hi < 16 && lo < 16
    ensures Hex2(16 * hi + lo) == [DigitChar(hi), DigitChar(lo)]
  {
    var n := 16 * hi + lo;
    assert n / 16 == hi && n % 16 == lo;
    assert Digits(hi, Base16) == [DigitChar(hi)];
    assert Digits(n, Base16) == [DigitChar(hi)] + [DigitChar(lo)];
  }

  /** The labels of 0x20 to 0x23. */
  lemma DefaultLabels()
    ensures AddressLabel(0x20) == "0x20" && AddressLabel(0x21) == "0x21"
    ensures AddressLabel(0x22) == "0x22" && AddressLabel(0x23) == "0x23"
  {
    DefaultLabel(0x20, 0, '0');
    DefaultLabel(0x21, 1, '1');
    DefaultLabel(0x22, 2, '2');
    DefaultLabel(0x23, 3, '3');
  }

  /** The label of 0x20 + `lo` for a single hex digit `lo` below 4. */
  lemma DefaultLabel(address: nat, lo: nat, digit: char)
    requires lo < 4 && address == 0x20 + lo && digit == DigitChar(lo)
    ensures AddressLabel(address) == ['0', 'x', '2', digit]
  {
    TwoHexDigits(2, lo);
    assert DigitChar(2) == '2';
  }

  /** The default list is the four default labels joined by commas. */
  lemma DefaultListJoined()
    ensures Join(["0x20", "0x21", "0x22", "0x23"]) == DefaultAddressList
  {
    JoinFour("0x20", "0x21", "0x22", "0x23");
  }

  /** Without MOISTURE_SENSOR_ADDRESSES the sensors are at 0x20 to 0x23. */
  lemma DefaultSensorAddresses()
    ensures SensorAddresses(None) == [0x20, 0x21, 0x22, 0x23]
  {
    var addrs: seq<nat> := [0x20, 0x21, 0x22, 0x23];
    DefaultLabels();
    var labels := Labels(addrs);
    assert labels == ["0x20", "0x21", "0x22", "0x23"];
    assert Join(labels) == Join(["0x20", "0x21", "0x22", "0x23"]);
    DefaultListJoined();
    assert FormatAddresses(addrs) == DefaultAddressList;
    FormatThenParse(addrs);
  }

  /** MoistureSensorManager.__init__ for a given address list. */
  function NewMoisture(env: Option<string>): (st: MoistureState)
    ensures st.addresses == SensorAddresses(env)
    ensures st.calibration == map[] && st.lastReadings == map[] && st.lastReadTime == map[]
    ensures st.cacheDuration == 5.0
  {
    MoistureState(SensorAddresses(env), map[], map[], map[], DefaultCacheDuration)
  }

  // ---------------------------------------------------------------------------
  // Conversion

  /** The calibration in force for an address. */
  function CalibrationFor(cal: map<nat, Calibration>, address: nat): Calibration {
    if address in cal then cal[address] else Calibration(DefaultDry, DefaultWet)
  }

  function Min(a: real, b: real): real { if a <= b then a else b }
  function Max(a: real, b: real): real { if a >= b then a else b }

  /** _convert_to_percentage: the reading's position from dry (0 %) to wet (100 %),
      clamped to 0..100; 50 % when the calibration has no range. */
  function ConvertToPercentage(cal: map<nat, Calibration>, address: nat, raw: int): (pct: real)
    ensures 0.0 <= pct <= 100.0
    ensures CalibrationFor(cal, address).dry == CalibrationFor(cal, address).wet ==> pct == 50.0
    ensures CalibrationFor(cal, address).dry != CalibrationFor(cal, address).wet ==>
              (raw == CalibrationFor(cal, address).dry ==> pct == 0.0) &&
              (raw == CalibrationFor(cal, address).wet ==> pct == 100.0)
  {
    var c := CalibrationFor(cal, address);
    if c.dry == c.wet then 50.0
    else
      Max(0.0, Min(100.0, Scaled(c.dry - raw, c.dry - c.wet)))
  }

  /** `num` as a percentage of `den`. */
  function Scaled(num: int, den: int): real
    requires den != 0
  {
    (num as real / den as real) * 100.0
  }

  /** Scaling by a positive range preserves order, sends 0 to 0 and the range to 100. */
  lemma ScaledMonotone(a: int, b: int, d: int)
    requires d > 0 && a <= b
    ensures Scaled(a, d) <= Scaled(b, d)
    ensures a <= 0 ==> Scaled(a, d) <= 0.0
    ensures b >= d ==> Scaled(b, d) >= 100.0
  {
    var x := a as real / d as real;
    var y := b as real / d as real;
    assert x * d as real == a as real;
    assert y * d as real == b as real;
    assert x <= y;
  }

  /** With the usual calibration (dry reads higher than wet), a higher raw
      capacitance never gives a higher moisture percentage; at or beyond the dry
      reading it is 0 % and at or beyond the wet reading 100 %. */
  lemma {:induction false} ConvertMonotone(cal: map<nat, Calibration>, address: nat, r1: int, r2: int)
    requires CalibrationFor(cal, address).dry > CalibrationFor(cal, address).wet
    requires r1 <= r2
    ensures ConvertToPercentage(cal, address, r2) <= ConvertToPercentage(cal, address, r1)
    ensures r1 >= CalibrationFor(cal, address).dry ==> ConvertToPercentage(cal, address, r1) == 0.0
    ensures r2 <= CalibrationFor(cal, address).wet ==> ConvertToPercentage(cal, address, r2) == 100.0
  {
    var c := CalibrationFor(cal, address);
    ScaledMonotone(c.dry - r2, c.dry - r1, c.dry - c.wet);
    if r1 >= c.dry {
      ScaledMonotone(c.dry - r1, 0, c.dry - c.wet);
    }
    if r2 <= c.wet {
      ScaledMonotone(c.dry - c.wet, c.dry - r2, c.dry - c.wet);
    }
  }

  /** _validate_reading: a percentage between 0 and 100 inclusive. */
  predicate ValidateReading(value: real) {
    0.0 <= value <= 100.0
  }

  /** Every converted value passes validation, so a sensor that answers always
      yields a reading. */
  lemma ConvertedIsValid(cal: map<nat, Calibration>, address: nat, raw: int)
    ensures ValidateReading(ConvertToPercentage(cal, address, raw))
  {
  }

  // ---------------------------------------------------------------------------
  // Reading

  /** True when the sensor's last good read is younger than the cache duration. */
  predicate Cached(st: MoistureState, address: nat, now: real) {
    address in st.lastReadTime && now - st.lastReadTime[address] < st.cacheDuration
  }

  /** read_sensor: within the cache window the cached reading (possibly none);
      otherwise a bus read converted and validated, which stamps the read time;
      a failing bus read gives no reading and changes nothing. The cached
      readings themselves are only written by `ReadAll`. */
  function ReadSensor(st: MoistureState, address: nat, now: real, bus: map<nat, int>): (r: SensorRead)
    ensures r.state == st || r.state == st.(lastReadTime := st.lastReadTime[address := now])
    ensures Cached(st, address, now) ==>
              r.state == st &&
              r.value == (if SensorId(address) in st.lastReadings then Some(st.lastReadings[SensorId(address)]) else None)
    ensures !Cached(st, address, now) ==>
              (r.value.Some? <==> address in bus) &&
              (address in bus ==> r.value == Some(ConvertToPercentage(st.calibration, address, bus[address]))
                                  && r.state.lastReadTime == st.lastReadTime[address := now]) &&
              (address !in bus ==> r.state == st)
  {
    if Cached(st, address, now) then
      SensorRead(if SensorId(address) in st.lastReadings then Some(st.lastReadings[SensorId(address)]) else None, st)
    else if address !in bus then
      SensorRead(None, st)
    else
      var pct := ConvertToPercentage(st.calibration, address, bus[address]);
      if ValidateReading(pct) then SensorRead(Some(pct), st.(lastReadTime := st.lastReadTime[address := now]))
      else SensorRead(None, st)
  }

  /** The loop of read_all from a given point: each sensor read in turn, good
      readings collected under the sensor's id. */
  function ReadEach(st: MoistureState, addrs: seq<nat>, now: real, bus: map<nat, int>, acc: map<string, real>): (r: Sweep)
    ensures r.state == st.(lastReadTime := r.state.lastReadTime)
    decreases |addrs|
  {
    if |addrs| == 0 then Sweep(acc, st)
    else
      var one := ReadSensor(st, addrs[0], now, bus);
      var acc' := if one.value.Some? then acc[SensorId(addrs[0]) := one.value.value] else acc;
      ReadEach(one.state, addrs[1..], now, bus, acc')
  }

  /** read_all: one sweep over the configured sensors at time `now`, after which
      the readings obtained are merged into the cache. */
  function ReadAll(st: MoistureState, now: real, bus: map<nat, int>): (r: Sweep)
    ensures r.state.lastReadings == st.lastReadings + r.readings
    ensures r.state.addresses == st.addresses && r.state.calibration == st.calibration
    ensures r.state.cacheDuration == st.cacheDuration
  {
    var each := ReadEach(st, st.addresses, now, bus, map[]);
    Sweep(each.readings, each.state.(lastReadings := st.lastReadings + each.readings))
  }

  /** True when no address occurs twice. */
  predicate NoDup(addrs: seq<nat>) {
    forall i, j :: 0 <= i < j < |addrs| ==> addrs[i] != addrs[j]
  }

  /** A read depends only on the sensor's own read time, the cache, the
      calibrations and the cache duration. */
  lemma ReadSensorFrame(st: MoistureState, st': MoistureState, address: nat, now: real, bus: map<nat, int>)
    requires st'.lastReadings == st.lastReadings && st'.calibration == st.calibration
    requires st'.cacheDuration == st.cacheDuration
    requires address in st'.lastReadTime <==> address in st.lastReadTime
    requires address in st.lastReadTime ==> st'.lastReadTime[address] == st.lastReadTime[address]
    ensures ReadSensor(st', address, now, bus).value == ReadSensor(st, address, now, bus).value
  {
  }

  /** Sensors outside the remaining list leave their read time and their id in the
      collected readings as they were. */
  lemma {:induction false} ReadEachFrame(st: MoistureState, addrs: seq<nat>, now: real, bus: map<nat, int>,
                                         acc: map<string, real>, a: nat)
    requires a !in addrs
    ensures var r := ReadEach(st, addrs, now, bus, acc);
            (SensorId(a) in r.readings <==> SensorId(a) in acc) &&
            (SensorId(a) in acc ==> r.readings[SensorId(a)] == acc[SensorId(a)]) &&
            (a in r.state.lastReadTime <==> a in st.lastReadTime) &&
            (a in st.lastReadTime ==> r.state.lastReadTime[a] == st.lastReadTime[a])
    decreases |addrs|
  {
    if |addrs| > 0 {
      var one := ReadSensor(st, addrs[0], now, bus);
      var acc' := if one.value.Some? then acc[SensorId(addrs[0]) := one.value.value] else acc;
      SensorIdInjective(a, addrs[0]);
      assert a !in addrs[1..];
      ReadEachFrame(one.state, addrs[1..], now, bus, acc', a);
    }
  }

  /** Over distinct sensors, a sweep's entry for a sensor is what reading that
      sensor on its own gives, or the earlier entry when the read gives nothing. */
  lemma {:induction false} ReadEachSensor(st: MoistureState, addrs: seq<nat>, now: real, bus: map<nat, int>,
                                          acc: map<string, real>, a: nat)
    requires NoDup(addrs) && a in addrs
    ensures var r := ReadEach(st, addrs, now, bus, acc);
            var one := ReadSensor(st, a, now, bus);
            (one.value.Some? ==> SensorId(a) in r.readings && r.readings[SensorId(a)] == one.value.value) &&
            (one.value.None? ==> (SensorId(a) in r.readings <==> SensorId(a) in acc) &&
                                 (SensorId(a) in acc ==> r.readings[SensorId(a)] == acc[SensorId(a)]))
    decreases |addrs|
  {
    var first := ReadSensor(st, addrs[0], now, bus);
    var acc' := if first.value.Some? then acc[SensorId(addrs[0]) := first.value.value] else acc;
    assert ReadEach(st, addrs, now, bus, acc) == ReadEach(first.state, addrs[1..], now, bus, acc');
    if addrs[0] == a {
      assert a !in addrs[1..];
      ReadEachFrame(first.state, addrs[1..], now, bus, acc', a);
    } else {
      assert a in addrs[1..];
      assert NoDup(addrs[1..]);
      ReadSensorFrame(st, first.state, a, now, bus);
      ReadEachSensor(first.state, addrs[1..], now, bus, acc', a);
      SensorIdInjective(a, addrs[0]);
    }
  }

  /** Over distinct sensors, a sweep leaves a sensor's read time as reading that
      sensor on its own does. */
  lemma {:induction false} ReadEachSensorTime(st: MoistureState, addrs: seq<nat>, now: real, bus: map<nat, int>,
                                              acc: map<string, real>, a: nat)
    requires NoDup(addrs) && a in addrs
    ensures var r := ReadEach(st, addrs, now, bus, acc);
            var one := ReadSensor(st, a, now, bus);
            (a in r.state.lastReadTime <==> a in one.state.lastReadTime) &&
            (a in one.state.lastReadTime ==> r.state.lastReadTime[a] == one.state.lastReadTime[a])
    decreases |addrs|
  {
    var first := ReadSensor(st, addrs[0], now, bus);
    var acc' := if first.value.Some? then acc[SensorId(addrs[0]) := first.value.value] else acc;
    assert ReadEach(st, addrs, now, bus, acc) == ReadEach(first.state, addrs[1..], now, bus, acc');
    if addrs[0] == a {
      assert a !in addrs[1..];
      ReadEachFrame(first.state, addrs[1..], now, bus, acc', a);
    } else {
      assert a in addrs[1..];
      assert NoDup(addrs[1..]);
      assert a in first.state.lastReadTime <==> a in st.lastReadTime;
      assert a in st.lastReadTime ==> first.state.lastReadTime[a] == st.lastReadTime[a];
      ReadSensorFrame(st, first.state, a, now, bus);
      ReadEachSensorTime(first.state, addrs[1..], now, bus, acc', a);
    }
  }

  /** A sweep adds nothing but ids of the sensors it reads. */
  lemma {:induction false} ReadEachIds(st: MoistureState, addrs: seq<nat>, now: real, bus: map<nat, int>,
                                       acc: map<string, real>, k: string)
    requires k in ReadEach(st, addrs, now, bus, acc).readings && k !in acc
    ensures exists i :: 0 <= i < |addrs| && k == SensorId(addrs[i])
    decreases |addrs|
  {
    var first := ReadSensor(st, addrs[0], now, bus);
    var acc' := if first.value.Some? then acc[SensorId(addrs[0]) := first.value.value] else acc;
    if k != SensorId(addrs[0]) {
      ReadEachIds(first.state, addrs[1..], now, bus, acc', k);
      var i :| 0 <= i < |addrs[1..]| && k == SensorId(addrs[1..][i]);
      assert k == SensorId(addrs[i + 1]);
    }
  }

  /** read_all reports nothing but configured sensors. */
  lemma ReadAllIds(st: MoistureState, now: real, bus: map<nat, int>, k: string)
    requires k in ReadAll(st, now, bus).readings
    ensures exists a :: a in st.addresses && k == SensorId(a)
  {
    ReadEachIds(st, st.addresses, now, bus, map[], k);
  }

  /** read_all over distinct sensors reports a sensor exactly when reading it on
      its own would give a value, and reports that value. */
  lemma ReadAllReportsEachSensor(st: MoistureState, now: real, bus: map<nat, int>, a: nat)
    requires NoDup(st.addresses) && a in st.addresses
    ensures var one := ReadSensor(st, a, now, bus);
            (SensorId(a) in ReadAll(st, now, bus).readings <==> one.value.Some?) &&
            (one.value.Some? ==> ReadAll(st, now, bus).readings[SensorId(a)] == one.value.value)
  {
    ReadEachSensor(st, st.addresses, now, bus, map[], a);
  }

  /** A sensor read freshly by read_all is served from cache, with the same value,
      by any read less than the cache duration later, whatever the bus says then. */
  lemma ReadAllThenCached(st: MoistureState, now: real, bus: map<nat, int>, a: nat, later: real, bus': map<nat, int>)
    requires NoDup(st.addresses) && a in st.addresses
    requires !Cached(st, a, now) && a in bus
    requires later - now < st.cacheDuration
    ensures ReadSensor(ReadAll(st, now, bus).state, a, later, bus').value == ReadSensor(st, a, now, bus).value
  {
    ReadEachSensor(st, st.addresses, now, bus, map[], a);
    ReadEachSensorTime(st, st.addresses, now, bus, map[], a);
  }

  /** calibrate_sensor: replaces one sensor's calibration. */
  function CalibrateSensor(st: MoistureState, address: nat, dry: int, wet: int): (st': MoistureState)
    ensures CalibrationFor(st'.calibration, address) == Calibration(dry, wet)
    ensures forall b :: b != address ==> CalibrationFor(st'.calibration, b) == CalibrationFor(st.calibration, b)
    ensures st'.calibration.Keys == st.calibration.Keys + {address}
    ensures st' == st.(calibration := st'.calibration)
  {
    st.(calibration := st.calibration[address := Calibration(dry, wet)])
  }

  /** After calibration the sensor's dry and wet readings convert to 0 % and
      100 %, and every other sensor converts as before. */
  lemma CalibrationTakesEffect(st: MoistureState, address: nat, dry: int, wet: int, other: nat, raw: int)
    requires dry != wet && other != address
    ensures ConvertToPercentage(CalibrateSensor(st, address, dry, wet).calibration, address, dry) == 0.0
    ensures ConvertToPercentage(CalibrateSensor(st, address, dry, wet).calibration, address, wet) == 100.0
    ensures ConvertToPercentage(CalibrateSensor(st, address, dry, wet).calibration, other, raw)
         == ConvertToPercentage(st.calibration, other, raw)
  {
  }
}
