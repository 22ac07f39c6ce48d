/**
 * Values and constant tables of the HD6301 keyboard-processor emulator:
 * reporting modes, the command table the input framer consults, the table
 * of recognised custom 6301 programs and the memory windows that the
 * load/read-memory commands address.
 */
module IkbdTypes {

  datatype Option<T> = None | Some(value: T)

  /** The byte that travels to the ACIA when a wider value is handed to acia_ikbd_rx: its low eight bits. */
  function Low8(n: int): (b: bv8)
    ensures b as int == n % 256
  {
    ByteValue(n % 256);
    ByteOf(n % 256)
  }

  /** The byte of value m, counted up from zero. */
  function ByteOf(m: nat): bv8
    requires m < 256
  {
    if m == 0 then 0 else ByteOf(m - 1) + 1
  }

  /** Counting up to m gives the byte of value m. */
  lemma {:induction false} ByteValue(m: nat)
    requires m < 256
    ensures ByteOf(m) as int == m
  {
    if m > 0 {
      ByteValue(m - 1);
      ByteSucc(ByteOf(m - 1));
    }
  }

  /** Adding one to a byte below 255 does not wrap. */
  lemma ByteSucc(x: bv8)
    requires x < 255
    ensures (x + 1) as int == x as int + 1
  {
  }

  /** Values congruent modulo 256 travel as the same byte. */
  lemma Low8Congruent(a: int, b: int)
    requires (a - b) % 256 == 0
    ensures Low8(a) == Low8(b)
  {
    assert a % 256 == b % 256;
  }

  /** The C cast (int8_t)n: the low byte read as a two's-complement value. */
  function Int8(n: int): (r: int)
    ensures -128 <= r <= 127
    ensures (n - r) % 256 == 0
    ensures -128 <= n <= 127 ==> r == n
  {
    (n + 128) % 256 - 128
  }

  /** A value and its signed-byte wrap travel as the same byte. */
  lemma Low8Int8(n: int)
    ensures Low8(Int8(n)) == Low8(n)
  {
    Low8Congruent(Int8(n), n);
  }

  /** A 16-bit big-endian value made of two command bytes, (hi << 8) | lo. */
  function Word(hi: bv8, lo: bv8): (w: int)
    ensures 0 <= w < 0x1_0000
    ensures w / 256 == hi as int && w % 256 == lo as int
  {
    hi as int * 256 + lo as int
  }

  /** A 16-bit value splits into a high and a low byte that Word joins back. */
  lemma WordOfBytes(n: int)
    requires 0 <= n < 0x1_0000
    ensures Word(Low8(n / 256), Low8(n)) == n
  {
    assert (n / 256) % 256 == n / 256;
  }

  /** Mouse reporting modes (AUTOMODE_OFF, _MOUSEREL, _MOUSEABS, _MOUSECURSOR). */
  datatype MouseMode = MouseOff | MouseRel | MouseAbs | MouseCursor

  /** Joystick reporting modes (AUTOMODE_OFF, _JOYSTICK, _JOYSTICK_MONITORING). */
  datatype JoystickMode = JoystickOff | JoystickAuto | JoystickMonitoring

  /** Button masks: a button can be held by the mouse, and the right one also by joystick 1's fire. */
  const ButtonMouse: bv8 := 0x01
  const ButtonJoystick: bv8 := 0x02

  const FireMask: bv8 := 0x80

  /** Bytes the processor sends on its own. */
  const RomVersion: bv8 := 0xF1
  const ResetTicks: int := 40
  const AbsPrevButtons: bv8 := 0x0A

  /**
   * A joypad: its 32-byte map (16 scancodes, then 16 joystick masks, one per
   * input bit), the last sampled input word and the derived joystick byte.
   */
  datatype Joypad = Joypad(memory: seq<bv8>, state: bv16, joystick: bv8)

  const Zero16: seq<bv8> := [0, 0, 0, 0, 0, 0, 0, 0, 0, 0, 0, 0, 0, 0, 0, 0]

  /** defaults[0]: no scancodes; bit 0 fire, bits 12..15 down/right/up/left. */
  const DefaultPad0: Joypad := Joypad(Zero16 + [0x80, 0, 0, 0, 0, 0, 0, 0, 0, 0, 0, 0, 0x02, 0x08, 0x01, 0x04], 0, 0)

  /** defaults[1]: bits 4..11 send scancodes 20..31; bits 0..3 fire/up combinations. */
  const DefaultPad1: Joypad :=
    Joypad([0, 0, 0, 0, 20, 21, 22, 23, 24, 25, 30, 31, 0, 0, 0, 0]
           + [0x80, 0x01, 0x81, 0x82, 0, 0, 0, 0, 0, 0, 0, 0, 0x02, 0x08, 0x01, 0x04], 0, 0)

  /** The host-to-ST scancode table installed by IKBD_Init. */
  const DefaultScancodes: seq<bv8> :=
    [0x5b, 0x02, 0x03, 0x04, 0x05, 0x06, 0x07, 0x08, 0x09, 0x0a, 0x0b, 0x0c, 0x0d, 0x29, 0x00, 0x70,
     0x10, 0x11, 0x12, 0x13, 0x14, 0x15, 0x16, 0x17, 0x18, 0x19, 0x1a, 0x1b, 0x00, 0x6d, 0x6e, 0x6f,
     0x1e, 0x1f, 0x20, 0x21, 0x22, 0x23, 0x24, 0x25, 0x26, 0x27, 0x28, 0x2b, 0x00, 0x6a, 0x6b, 0x6c,
     0x60, 0x2c, 0x2d, 0x2e, 0x2f, 0x30, 0x31, 0x32, 0x33, 0x34, 0x35, 0x00, 0x71, 0x67, 0x68, 0x69,
     0x39, 0x0e, 0x0f, 0x72, 0x1c, 0x01, 0x53, 0x00, 0x00, 0x00, 0x4a, 0x62, 0x48, 0x50, 0x4d, 0x4b,
     0x3b, 0x3c, 0x3d, 0x3e, 0x3f, 0x40, 0x41, 0x42, 0x43, 0x44, 0x63, 0x64, 0x65, 0x66, 0x4e, 0x62,
     0x2a, 0x36, 0x3a, 0x1d, 0x38, 0x4c, 0x56, 0x57, 0x00, 0x00, 0x00, 0x00, 0x00, 0x00, 0x00, 0x61,
     0x47, 0x52, 0x00, 0x00, 0x00, 0x00, 0x00, 0x00, 0x00, 0x00, 0x59, 0x5a, 0x5c, 0x5d, 0x37, 0x00]

  /** The command handlers of the keyboard ROM. */
  datatype Command =
    | Reset | MouseAction | RelMouseMode | AbsMouseMode | MouseCursorKeycodes
    | SetMouseThreshold | SetMouseScale | ReadAbsMousePos | SetInternalMousePos
    | SetYAxisDown | SetYAxisUp | StartKeyboardTransfer | TurnMouseOff
    | StopKeyboardTransfer | ReturnJoystickAuto | StopJoystick | ReturnJoystick
    | SetJoystickMonitoring | SetJoystickFireDuration | SetCursorForJoystick
    | DisableJoysticks | SetClock | ReadClock | LoadMemory | ReadMemory | Execute
    | ReportMouseAction | ReportMouseMode | ReportMouseThreshold | ReportMouseScale
    | ReportMouseVertical | ReportMouseAvailability | ReportJoystickMode
    | ReportJoystickAvailability

  /** One row of KeyboardCommands: opcode, message length counting the opcode, handler. */
  datatype CommandEntry = CommandEntry(opcode: bv8, length: nat, command: Command)

  /**
   * KeyboardCommands without its 0xFF terminator row: the search stops at
   * the end of this sequence, which is where the source stops at 0xFF.
   */
  const KeyboardCommands: seq<CommandEntry> := [CommandEntry(0x80, 2, Reset)] + MouseCommands + JoystickCommands + StatusCommands

  const MouseCommands: seq<CommandEntry> := [
    CommandEntry(0x07, 2, MouseAction),
    CommandEntry(0x08, 1, RelMouseMode),
    CommandEntry(0x09, 5, AbsMouseMode),
    CommandEntry(0x0A, 3, MouseCursorKeycodes),
    CommandEntry(0x0B, 3, SetMouseThreshold),
    CommandEntry(0x0C, 3, SetMouseScale),
    CommandEntry(0x0D, 1, ReadAbsMousePos),
    CommandEntry(0x0E, 6, SetInternalMousePos),
    CommandEntry(0x0F, 1, SetYAxisDown),
    CommandEntry(0x10, 1, SetYAxisUp),
    CommandEntry(0x11, 1, StartKeyboardTransfer),
    CommandEntry(0x12, 1, TurnMouseOff),
    CommandEntry(0x13, 1, StopKeyboardTransfer)
  ]

  const JoystickCommands: seq<CommandEntry> := [
    CommandEntry(0x14, 1, ReturnJoystickAuto),
    CommandEntry(0x15, 1, StopJoystick),
    CommandEntry(0x16, 1, ReturnJoystick),
    CommandEntry(0x17, 2, SetJoystickMonitoring),
    CommandEntry(0x18, 1, SetJoystickFireDuration),
    CommandEntry(0x19, 7, SetCursorForJoystick),
    CommandEntry(0x1A, 1, DisableJoysticks),
    CommandEntry(0x1B, 7, SetClock),
    CommandEntry(0x1C, 1, ReadClock),
    CommandEntry(0x20, 4, LoadMemory),
    CommandEntry(0x21, 3, ReadMemory),
    CommandEntry(0x22, 3, Execute)
  ]

  const StatusCommands: seq<CommandEntry> := [
    CommandEntry(0x87, 1, ReportMouseAction),
    CommandEntry(0x88, 1, ReportMouseMode),
    CommandEntry(0x89, 1, ReportMouseMode),
    CommandEntry(0x8A, 1, ReportMouseMode),
    CommandEntry(0x8B, 1, ReportMouseThreshold),
    CommandEntry(0x8C, 1, ReportMouseScale),
    CommandEntry(0x8F, 1, ReportMouseVertical),
    CommandEntry(0x90, 1, ReportMouseVertical),
    CommandEntry(0x92, 1, ReportMouseAvailability),
    CommandEntry(0x94, 1, ReportJoystickMode),
    CommandEntry(0x95, 1, ReportJoystickMode),
    CommandEntry(0x99, 1, ReportJoystickMode),
    CommandEntry(0x9A, 1, ReportJoystickAvailability)
  ]

  /** Custom read handlers (pIKBD_CustomCodeHandler_Read); NoRead is NULL. */
  datatype ReadHandler =
    | NoRead | FroggiesRead | Transbeauce2Read | DragonnelsRead | ChaosADRead
    | AudioSculptureColorRead | AudioSculptureMonoRead

  /** Custom write handlers (pIKBD_CustomCodeHandler_Write); NoWrite is NULL. */
  datatype WriteHandler =
    | NoWrite | CommonBootWrite | FroggiesWrite | Transbeauce2Write | DragonnelsWrite
    | ChaosADWrite | AudioSculptureWrite

  /** One row of CustomCodeDefinitions (the display name is left out). */
  datatype CustomCode = CustomCode(loadMemCrc: bv32, bootHandler: WriteHandler,
                                   mainProgNbBytes: int, mainProgCrc: bv32,
                                   mainRead: ReadHandler, mainWrite: WriteHandler)

  const CustomCodeDefinitions: seq<CustomCode> := [
    CustomCode(0x2efb11b1, CommonBootWrite, 167, 0xe7110b6d, FroggiesRead, FroggiesWrite),
    CustomCode(0xadb6b503, CommonBootWrite, 165, 0x5617c33c, Transbeauce2Read, Transbeauce2Write),
    CustomCode(0x33c23cdf, CommonBootWrite, 83, 0xdf3e5a88, DragonnelsRead, DragonnelsWrite),
    CustomCode(0x9ad7fcdf, CommonBootWrite, 109, 0xa11d8be5, ChaosADRead, ChaosADWrite),
    CustomCode(0xbc0c206d, CommonBootWrite, 91, 0x119b26ed, AudioSculptureColorRead, AudioSculptureWrite),
    CustomCode(0xbc0c206d, CommonBootWrite, 91, 0x63b5f4df, AudioSculptureMonoRead, AudioSculptureWrite)
  ]

  /** The ChaosAD decoder's fixed 8-byte XOR key. */
  const ChaosKey: seq<bv8> := [0xca, 0x0a, 0xbc, 0x00, 0xde, 0xde, 0xfe, 0xca]
  const ChaosLastCount: int := 6080
}
