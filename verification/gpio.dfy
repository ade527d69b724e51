/** The GPIO abstraction of src/hardware/gpio_manager.py: the mock pin board and
    the manager that validates pin numbers before touching it.

    The physical board behind RPi.GPIO is represented by the same pin record as
    the mock; only `PinStates` tells the two modes apart. A hardware call that
    raises is an explicit `fault` argument; the mock never raises, so a fault only
    has an effect outside mock mode. */
module Gpio {
  import opened Results

  /** Lowest and highest BCM pin number the manager accepts. */
  const MinPin: int := 2
  const MaxPin: int := 27

  /** The mock's logic levels. */
  const High: int := 1
  const Low: int := 0

  datatype Mode = Output | Input
  datatype GpioError = InvalidPin(pin: int) | HardwareFault(pin: int) | SetupFault

  /** MockGPIO: logic level and mode per pin, and every `setup` call in order. */
  datatype MockBoard = MockBoard(states: map<int, int>, modes: map<int, Mode>, setupPins: seq<int>)

  const EmptyBoard: MockBoard := MockBoard(map[], map[], [])

  /** MockGPIO.setup: records the pin and its mode, and its level only when one is given. */
  function MockSetup(b: MockBoard, pin: int, mode: Mode, initial: Option<int>): (b': MockBoard)
    ensures MockInput(b', pin) == (if initial.Some? then initial.value else MockInput(b, pin))
    ensures forall p :: p != pin ==> MockInput(b', p) == MockInput(b, p)
    ensures pin in b'.modes && b'.modes[pin] == mode
    ensures b'.setupPins == b.setupPins + [pin]
  {
    MockBoard(
      if initial.Some? then b.states[pin := initial.value] else b.states,
      b.modes[pin := mode],
      b.setupPins + [pin])
  }

  /** MockGPIO.output: only the written pin changes, and it then reads the written level. */
  function MockOutput(b: MockBoard, pin: int, level: int): (b': MockBoard)
    ensures MockInput(b', pin) == level
    ensures forall p :: p != pin ==> MockInput(b', p) == MockInput(b, p)
    ensures b'.modes == b.modes && b'.setupPins == b.setupPins
  {
    b.(states := b.states[pin := level])
  }

  /** MockGPIO.input: a pin never written reads LOW. */
  function MockInput(b: MockBoard, pin: int): int {
    if pin in b.states then b.states[pin] else Low
  }

  /** MockGPIO.cleanup: every pin reads LOW again and no set-up is remembered. */
  function MockCleanup(b: MockBoard): (b': MockBoard)
    ensures forall p :: MockInput(b', p) == Low
    ensures b'.modes == map[] && b'.setupPins == []
    ensures b' == EmptyBoard
  {
    MockBoard(map[], map[], [])
  }

  /** GPIOManager: mock or hardware mode, the pin board, and the initialised flag. */
  datatype Manager = Manager(mockMode: bool, board: MockBoard, initialized: bool)

  /** True when `pin` is one of BCM pins 2..27. */
  predicate ValidPin(pin: int) {
    MinPin <= pin <= MaxPin
  }

  /** GPIOManager._validate_pin: accepts exactly the BCM pins 2..27 and otherwise
      fails with InvalidPin for that pin. */
  function ValidatePin(pin: int): (r: Result<(), GpioError>)
    ensures r.Ok? <==> 2 <= pin <= 27
    ensures r.Err? ==> r.error == InvalidPin(pin)
  {
    if ValidPin(pin) then Ok(()) else Err(InvalidPin(pin))
  }

  /** True when a call into the pin library raises: only the real library can. */
  predicate Raises(m: Manager, fault: bool) {
    fault && !m.mockMode
  }

  /** GPIOManager.__init__ before `_initialize`: the mock is used when asked for,
      when the environment asks for it, or when RPi.GPIO cannot be imported. */
  function NewManager(mock: bool, envMock: bool, libraryAvailable: bool): (m: Manager)
    ensures m.mockMode <==> mock || envMock || !libraryAvailable
    ensures !m.initialized && m.board == EmptyBoard
  {
    Manager(mock || envMock || !libraryAvailable, EmptyBoard, false)
  }

  /** GPIOManager._initialize: a no-op once initialised; otherwise sets the pin
      numbering mode, which only the real library can fail. */
  function Initialize(m: Manager, fault: bool): (r: Result<Manager, GpioError>)
    ensures m.initialized ==> r == Ok(m)
    ensures !m.initialized && Raises(m, fault) ==> r == Err(SetupFault)
    ensures r.Ok? ==> r.value == m.(initialized := true)
  {
    if m.initialized then Ok(m)
    else if Raises(m, fault) then Err(SetupFault)
    else Ok(m.(initialized := true))
  }

  /** GPIOManager.setup_output_pin: validates, then sets the pin up as an output
      at the requested level. */
  function SetupOutputPin(m: Manager, pin: int, initialHigh: bool, fault: bool): (r: Result<Manager, GpioError>)
    ensures !ValidPin(pin) ==> r == Err(InvalidPin(pin))
    ensures r.Ok? <==> ValidPin(pin) && !Raises(m, fault)
    ensures ValidPin(pin) && Raises(m, fault) ==> r == Err(HardwareFault(pin))
    ensures r.Ok? ==> r.value.board.states == m.board.states[pin := if initialHigh then High else Low]
    ensures r.Ok? ==> r.value == m.(board := MockSetup(m.board, pin, Output, Some(if initialHigh then High else Low)))
  {
    match ValidatePin(pin)
    case Err(e) => Err(e)
    case Ok(_) =>
      if Raises(m, fault) then Err(HardwareFault(pin))
      else Ok(m.(board := MockSetup(m.board, pin, Output, Some(if initialHigh then High else Low))))
  }

  /** GPIOManager.setup_input_pin: validates, then sets the pin up as an input; the
      pull resistor has no effect on the board and the level is left as it was. */
  function SetupInputPin(m: Manager, pin: int, pullUp: bool, fault: bool): (r: Result<Manager, GpioError>)
    ensures !ValidPin(pin) ==> r == Err(InvalidPin(pin))
    ensures r.Ok? <==> ValidPin(pin) && !Raises(m, fault)
    ensures ValidPin(pin) && Raises(m, fault) ==> r == Err(HardwareFault(pin))
    ensures r.Ok? ==> r.value.board.states == m.board.states
    ensures r.Ok? ==> r.value == m.(board := MockSetup(m.board, pin, Input, None))
  {
    match ValidatePin(pin)
    case Err(e) => Err(e)
    case Ok(_) =>
      if Raises(m, fault) then Err(HardwareFault(pin))
      else Ok(m.(board := MockSetup(m.board, pin, Input, None)))
  }

  /** GPIOManager.set_pin: validates, then drives the pin HIGH for true and LOW for false. */
  function SetPin(m: Manager, pin: int, high: bool, fault: bool): (r: Result<Manager, GpioError>)
    ensures !ValidPin(pin) ==> r == Err(InvalidPin(pin))
    ensures r.Ok? <==> ValidPin(pin) && !Raises(m, fault)
    ensures r.Ok? ==> r.value == m.(board := m.board.(states := m.board.states[pin := if high then High else Low]))
  {
    match ValidatePin(pin)
    case Err(e) => Err(e)
    case Ok(_) =>
      if Raises(m, fault) then Err(HardwareFault(pin))
      else Ok(m.(board := MockOutput(m.board, pin, if high then High else Low)))
  }

  /** GPIOManager.read_pin: validation errors propagate, but a failing read is
      reported as LOW (false) rather than raised. */
  function ReadPin(m: Manager, pin: int, fault: bool): (r: Result<bool, GpioError>)
    ensures !ValidPin(pin) ==> r == Err(InvalidPin(pin))
    ensures ValidPin(pin) ==> r.Ok?
    ensures ValidPin(pin) && Raises(m, fault) ==> r == Ok(false)
    ensures ValidPin(pin) && !Raises(m, fault) ==> r == Ok(MockInput(m.board, pin) != Low)
  {
    match ValidatePin(pin)
    case Err(e) => Err(e)
    case Ok(_) =>
      if Raises(m, fault) then Ok(false)
      else Ok(MockInput(m.board, pin) != Low)
  }

  /** GPIOManager.cleanup: acts only when initialised; a failing library cleanup is
      swallowed and leaves the manager initialised. */
  function Cleanup(m: Manager, fault: bool): (m': Manager)
    ensures !m.initialized ==> m' == m
    ensures m.initialized && !Raises(m, fault) ==> m' == m.(board := EmptyBoard, initialized := false)
    ensures m'.mockMode == m.mockMode
  {
    if !m.initialized then m
    else if Raises(m, fault) then m
    else m.(board := MockCleanup(m.board), initialized := false)
  }

  /** GPIOManager.get_pin_states: in mock mode every recorded pin with its level
      read as a boolean; nothing otherwise. */
  function PinStates(m: Manager): (r: map<int, bool>)
    ensures m.mockMode ==> r.Keys == m.board.states.Keys
    ensures m.mockMode ==> forall p :: p in r ==> (r[p] <==> m.board.states[p] != 0)
    ensures !m.mockMode ==> r == map[]
  {
    if m.mockMode then map p | p in m.board.states :: m.board.states[p] != Low
    else map[]
  }

  // ---------------------------------------------------------------------------
  // Properties

  /** An invalid pin is rejected by every pin operation before any state is
      touched. */
  lemma InvalidPinTouchesNothing(m: Manager, pin: int, level: bool, fault: bool)
    requires !ValidPin(pin)
    ensures SetPin(m, pin, level, fault) == Err(InvalidPin(pin))
    ensures SetupOutputPin(m, pin, level, fault) == Err(InvalidPin(pin))
    ensures SetupInputPin(m, pin, level, fault) == Err(InvalidPin(pin))
    ensures ReadPin(m, pin, fault) == Err(InvalidPin(pin))
  {
  }

  /** Writing a pin and reading it back returns the written level; every other
      pin keeps its level. */
  lemma SetThenRead(m: Manager, pin: int, high: bool, other: int, fault: bool, readFault: bool)
    requires ValidPin(pin) && !Raises(m, fault) && !Raises(m, readFault)
    ensures SetPin(m, pin, high, fault).Ok?
    ensures ReadPin(SetPin(m, pin, high, fault).value, pin, readFault) == Ok(high)
    ensures other != pin ==>
              MockInput(SetPin(m, pin, high, fault).value.board, other) == MockInput(m.board, other)
  {
  }

  /** On the mock a pin that was never written reads LOW, a setup with an initial
      level records it, and a setup without one leaves the level alone. */
  lemma MockSetupAndInput(b: MockBoard, pin: int, mode: Mode, level: int)
    ensures pin !in b.states ==> MockInput(b, pin) == Low
    ensures MockInput(MockSetup(b, pin, mode, Some(level)), pin) == level
    ensures MockInput(MockSetup(b, pin, mode, None), pin) == MockInput(b, pin)
    ensures MockSetup(b, pin, mode, None).setupPins == b.setupPins + [pin]
  {
  }

  /** A second cleanup after a successful one changes nothing, and likewise a
      second initialisation. */
  lemma CleanupAndInitializeIdempotent(m: Manager, f1: bool, f2: bool)
    ensures !Cleanup(m, f1).initialized ==> Cleanup(Cleanup(m, f1), f2) == Cleanup(m, f1)
    ensures Initialize(m, f1).Ok? ==> Initialize(Initialize(m, f1).value, f2) == Initialize(m, f1)
    ensures m.mockMode && m.initialized ==> Cleanup(m, f1).board == EmptyBoard
  {
  }

  /** In mock mode the reported pin states agree with what `read_pin` returns. */
  lemma PinStatesAgreeWithReads(m: Manager, pin: int, fault: bool)
    requires m.mockMode && ValidPin(pin) && pin in m.board.states
    ensures pin in PinStates(m) && ReadPin(m, pin, fault) == Ok(PinStates(m)[pin])
  {
  }
}
