/**
 * The whole state of the keyboard-processor emulator as one value, grouped
 * as the C globals are: the KeyboardProcessor record (absolute mouse,
 * mouse, joysticks, modes), the Keyboard record, the reset-quirk flags and
 * counter, the clock, the four joypads, the host scancode table, the
 * key-state table, the memory-load and custom-code state, the statics that
 * a reboot does not touch, and the bytes handed to the ACIA so far.
 *
 * The functions of this module and of the modules built on it define what
 * each operation does to a State; the class IkbdEmulator.Ikbd performs the
 * same changes on its fields and is proved to agree with them.
 */
module IkbdState {
  import opened IkbdTypes
  import opened IkbdMemory

  /** KeyboardProcessor.Abs: the absolute position, its limits, and the last reported buttons. */
  datatype AbsMouse = AbsMouse(x: int, y: int, maxX: int, maxY: int, prevButtons: bv8)

  /** KeyboardProcessor.Mouse (the unused dx/dy left out). */
  datatype Mouse = Mouse(deltaX: int, deltaY: int, xScale: int, yScale: int,
                         xThreshold: int, yThreshold: int,
                         keyCodeDeltaX: bv8, keyCodeDeltaY: bv8, yAxis: int, action: bv8)

  /** KeyboardProcessor.Joy: JoyData and PrevJoyData, joystick 0 then joystick 1. */
  datatype Joy = Joy(data0: bv8, data1: bv8, prev0: bv8, prev1: bv8)

  datatype Processor = Processor(abs: AbsMouse, mouse: Mouse, joy: Joy,
                                 mouseMode: MouseMode, joystickMode: JoystickMode)

  /** Keyboard: output pause, the command input buffer, the button masks (AutoSendCycles left out). */
  datatype Keyboard = Keyboard(pauseOutput: bool, inputBuffer: seq<bv8>,
                               lButton: bv8, rButton: bv8, oldLButton: bv8, oldRButton: bv8)

  /** The flags and the counter of the reset window. */
  datatype ResetWindow = ResetWindow(mouseDisabled: bool, joystickDisabled: bool, criticalTime: bool,
                                     bothMouseAndJoy: bool, mouseEnabledDuringReset: bool, counter: int)

  /** The memory-load counters and CRC, the installed handlers and execute mode. */
  datatype Loader = Loader(addr: int, total: int, left: int, crc: bv32, exeNbBytes: int,
                           readHandler: ReadHandler, writeHandler: WriteHandler, exeMode: bool)

  /** Function statics: the tick's previous host buttons, and the Chaos A.D. and Audio Sculpture handlers' state. */
  datatype Statics = Statics(mousebOld: bv8, chaosFirstCall: bool, chaosIgnore: int, chaosIndex: int,
                             chaosCount: int, asMagic: bool, asReadCount: int)

  /** A write that resolved one byte past an array (see IkbdMemory.OutOfRange). */
  datatype StrayWrite = StrayWrite(addr: int, value: bv8)

  datatype State = State(
    proc: Processor, kbd: Keyboard, reset: ResetWindow,
    clock: seq<bv8>,
    pads: seq<Joypad>, hostScancodes: seq<bv8>, scanCodeState: seq<bv8>,
    load: Loader, statics: Statics,
    out: seq<bv8>, strayWrites: seq<StrayWrite>)

  /** The limits and the position fit 16 bits. */
  predicate ValidProcessor(p: Processor)
  {
    0 <= p.abs.maxX < 0x1_0000 && 0 <= p.abs.maxY < 0x1_0000
    && 0 <= p.abs.x < 0x1_0000 && 0 <= p.abs.y < 0x1_0000
  }

  /** Four joypads, each with its 32-byte map. */
  predicate ValidPads(pads: seq<Joypad>)
  {
    |pads| == 4 && forall p :: 0 <= p < 4 ==> |pads[p].memory| == 32
  }

  /**
   * The shapes of the fixed-size arrays and the ranges the code keeps: the
   * input buffer holds at most 8 bytes, the reset counter starts at 40, the
   * load count is one byte, the Chaos A.D. index is masked to 3 bits.
   */
  predicate ValidState(s: State)
  {
    ValidProcessor(s.proc) && |s.kbd.inputBuffer| <= 8 && 0 <= s.reset.counter <= ResetTicks
    && |s.clock| == 6 && ValidPads(s.pads)
    && |s.hostScancodes| == 128 && |s.scanCodeState| == 128
    && 0 <= s.load.left <= 255 && 0 <= s.statics.chaosIndex < 8
  }

  /** The state after sending some more bytes to the ACIA. */
  function Emit(s: State, bytes: seq<bv8>): (t: State)
    ensures t.out == s.out + bytes && ValidState(t) == ValidState(s)
  {
    s.(out := s.out + bytes)
  }

  /** The key-state table with every key up. */
  function Released(): (r: seq<bv8>)
    ensures |r| == 128 && forall k :: 0 <= k < 128 ==> r[k] == 0
  {
    seq(128, k => 0)
  }

  /** The KeyboardProcessor record as the ROM's reset leaves it, apart from JoyData. */
  const ResetProcessor: Processor :=
    Processor(AbsMouse(0, 0, 320, 200, AbsPrevButtons), Mouse(0, 0, 0, 0, 1, 1, 1, 1, 1, 0),
              Joy(0, 0, 0, 0), MouseRel, JoystickAuto)

  /**
   * IKBD_Boot_ROM: the ROM's reset sequence.  The clock is zeroed only when
   * all RAM is cleared; JoyData, the pads and the host table are kept; the
   * custom handlers are removed only when a load is pending or custom code
   * is running.
   */
  function BootRom(s: State, clearAllRam: bool): (r: State)
    ensures r.out == s.out && r.strayWrites == s.strayWrites && r.pads == s.pads
    ensures r.hostScancodes == s.hostScancodes && r.statics == s.statics
    ensures r.proc.joy.data0 == s.proc.joy.data0 && r.proc.joy.data1 == s.proc.joy.data1
    ensures r.load.left == 0 && !r.load.exeMode
    ensures r.load.addr == s.load.addr && r.load.crc == s.load.crc
    ensures r.reset.criticalTime && r.kbd.inputBuffer == []
  {
    s.(clock := if clearAllRam then [0, 0, 0, 0, 0, 0] else s.clock,
       proc := ResetProcessor.(joy := Joy(s.proc.joy.data0, s.proc.joy.data1, 0, 0)),
       scanCodeState := Released(),
       kbd := Keyboard(false, [], 0, 0, 0, 0),
       reset := ResetWindow(false, false, true, false, false, ResetTicks),
       load := if s.load.left != 0 || s.load.exeMode
               then s.load.(left := 0, readHandler := NoRead, writeHandler := NoWrite, exeMode := false)
               else s.load)
  }

  /** The state of the statics before IKBD_Init runs: C zero-initialisation and the declared initial values. */
  const Unset: State := State(
    Processor(AbsMouse(0, 0, 0, 0, 0), Mouse(0, 0, 0, 0, 0, 0, 0, 0, 0, 0), Joy(0, 0, 0, 0), MouseOff, JoystickOff),
    Keyboard(false, [], 0, 0, 0, 0),
    ResetWindow(false, false, false, false, false, 0),
    [0, 0, 0, 0, 0, 0], [DefaultPad0, DefaultPad1, DefaultPad0, DefaultPad1], DefaultScancodes, Released(),
    Loader(0, 0, 0, 0xffff_ffff, 0, NoRead, NoWrite, false),
    Statics(0, true, 8, 0, 0, false, 0),
    [], [])

  /** IKBD_Init followed by IKBD_Reset(true), as the machine start-up code runs them. */
  const PowerOn: State := BootRom(Unset, true)

  /** IKBD_Boot_ROM's promises: the documented defaults, the clock rule and the handler rule. */
  lemma BootRomDefaults(s: State, cold: bool)
    requires ValidState(s)
    ensures ValidState(BootRom(s, cold))
    ensures BootRom(s, cold).proc.mouseMode == MouseRel && BootRom(s, cold).proc.joystickMode == JoystickAuto
    ensures BootRom(s, cold).proc.abs.x == 0 && BootRom(s, cold).proc.abs.y == 0
    ensures BootRom(s, cold).proc.abs.maxX == 320 && BootRom(s, cold).proc.abs.maxY == 200
    ensures BootRom(s, cold).proc.mouse.xThreshold == 1 && BootRom(s, cold).proc.mouse.yThreshold == 1
    ensures BootRom(s, cold).proc.mouse.yAxis == 1
    ensures forall k :: 0 <= k < 128 ==> BootRom(s, cold).scanCodeState[k] == 0
    ensures BootRom(s, cold).kbd.inputBuffer == [] && !BootRom(s, cold).kbd.pauseOutput
    ensures BootRom(s, cold).reset.counter == 40 && BootRom(s, cold).reset.criticalTime
    ensures BootRom(s, cold).load.left == 0 && !BootRom(s, cold).load.exeMode
    ensures cold ==> BootRom(s, cold).clock == [0, 0, 0, 0, 0, 0]
    ensures !cold ==> BootRom(s, cold).clock == s.clock
    ensures BootRom(s, cold).out == s.out && BootRom(s, cold).pads == s.pads
  {
  }

  /** The custom handlers survive a reboot exactly when no load is pending and no custom code runs, or none is installed. */
  lemma BootRomKeepsHandlers(s: State, cold: bool)
    ensures (BootRom(s, cold).load.readHandler == s.load.readHandler &&
             BootRom(s, cold).load.writeHandler == s.load.writeHandler) <==>
            (s.load.left == 0 && !s.load.exeMode) || (s.load.readHandler == NoRead && s.load.writeHandler == NoWrite)
  {
  }

  /** The power-on state: valid, cold-booted, with the default tables installed and nothing sent. */
  lemma PowerOnState()
    ensures ValidState(PowerOn)
    ensures PowerOn.clock == [0, 0, 0, 0, 0, 0] && PowerOn.out == []
    ensures PowerOn.load.readHandler == NoRead && PowerOn.load.writeHandler == NoWrite && !PowerOn.load.exeMode
    ensures PowerOn.hostScancodes == DefaultScancodes && PowerOn.reset.counter == 40
  {
    BootRomDefaults(Unset, true);
  }

  /** The byte at a location, for command 0x21; past an array and unmapped both read as 0 here. */
  function Peek(s: State, loc: Location): bv8
    requires ValidState(s)
  {
    match loc
    case PadByte(p, o) => if p < 4 && o < 32 then s.pads[p].memory[o] else 0
    case ScancodeByte(i) => if i < 128 then s.hostScancodes[i] else 0
    case OutOfRange => 0
    case Unmapped => 0
  }

  /** Storing a byte at an address, for a loaded byte: past an array it is only recorded, unmapped it is dropped. */
  function Poke(s: State, addr: int, v: bv8): (t: State)
    requires ValidState(s)
    ensures ValidState(t)
    ensures t.proc == s.proc && t.kbd == s.kbd && t.reset == s.reset && t.load == s.load && t.out == s.out
  {
    ResolveInBounds(addr);
    match Resolve(addr)
    case PadByte(p, o) =>
      s.(pads := s.pads[p := s.pads[p].(memory := s.pads[p].memory[o := v])])
    case ScancodeByte(i) => s.(hostScancodes := s.hostScancodes[i := v])
    case OutOfRange => s.(strayWrites := s.strayWrites + [StrayWrite(addr, v)])
    case Unmapped => s
  }

  /** A stored byte reads back at the same address; a write past an array is recorded, an unmapped one vanishes. */
  lemma PokePeek(s: State, addr: int, v: bv8)
    requires ValidState(s)
    ensures Resolve(addr).PadByte? || Resolve(addr).ScancodeByte? ==> Peek(Poke(s, addr, v), Resolve(addr)) == v
    ensures Resolve(addr) == OutOfRange ==> Poke(s, addr, v) == s.(strayWrites := s.strayWrites + [StrayWrite(addr, v)])
    ensures Resolve(addr) == Unmapped ==> Poke(s, addr, v) == s
  {
    ResolveInBounds(addr);
  }

  /** A store changes only the byte it addresses. */
  lemma PokeOthers(s: State, addr: int, v: bv8, other: int)
    requires ValidState(s) && Resolve(other) != Resolve(addr)
    ensures Peek(Poke(s, addr, v), Resolve(other)) == Peek(s, Resolve(other))
  {
    ResolveInBounds(addr);
    ResolveInBounds(other);
  }

  /**
   * IKBD_CheckResetDisableBug: disabling both the mouse and the joysticks
   * inside the reset window turns relative mouse and joystick reports back on.
   */
  function ResetDisableBug(s: State): (r: State)
    ensures r.(proc := s.proc, reset := s.reset) == s
    ensures r.proc.abs == s.proc.abs && r.proc.mouse == s.proc.mouse && r.proc.joy == s.proc.joy
    ensures r != s <==> s.reset.mouseDisabled && s.reset.joystickDisabled && s.reset.criticalTime
                        && !(s.proc.mouseMode == MouseRel && s.proc.joystickMode == JoystickAuto && s.reset.bothMouseAndJoy)
    ensures r != s ==> r.proc.mouseMode == MouseRel && r.proc.joystickMode == JoystickAuto && r.reset.bothMouseAndJoy
  {
    if s.reset.mouseDisabled && s.reset.joystickDisabled && s.reset.criticalTime
    then s.(proc := s.proc.(mouseMode := MouseRel, joystickMode := JoystickAuto),
            reset := s.reset.(bothMouseAndJoy := true))
    else s
  }
}
