/**
 * The keyboard ROM's commands (the IKBD_Cmd_* handlers), the framer that
 * runs them (IKBD_RunKeyboardCommand) and the routing of a host byte
 * (IKBD_Process_RDR): to the custom write handler in execute mode, to the
 * memory loader while a 0x20 load is pending, to the framer otherwise.
 *
 * A handler gets the complete message, opcode first, as the input buffer
 * holds it when the handler runs.  The two joystick words are the host
 * inputs command 0x14 samples.
 */
module IkbdCommands {
  import opened IkbdTypes
  import opened IkbdBcd
  import opened IkbdCrc32
  import opened IkbdFramer
  import opened IkbdMemory
  import opened IkbdReplies
  import opened IkbdState
  import opened IkbdInput
  import opened IkbdHandlers

  /** 0x07: the button action is stored and the absolute-report button memory is reset. */
  function CmdMouseAction(s: State, msg: seq<bv8>): (t: State)
    requires ValidState(s) && |msg| == 2
    ensures ValidState(t) && t.kbd == s.kbd && t.out == s.out && t.load == s.load
  {
    s.(proc := s.proc.(mouse := s.proc.mouse.(action := msg[1]),
                       abs := s.proc.abs.(prevButtons := AbsPrevButtons)))
  }

  /** 0x08: relative reports; inside the reset window this is remembered. */
  function CmdRelMouseMode(s: State): (t: State)
    requires ValidState(s)
    ensures ValidState(t) && t.kbd == s.kbd && t.out == s.out && t.load == s.load
  {
    s.(proc := s.proc.(mouseMode := MouseRel),
       reset := if s.reset.criticalTime then s.reset.(mouseEnabledDuringReset := true) else s.reset)
  }

  /** 0x09: absolute reports within the inclusive maxima of bytes 1-2 and 3-4. */
  function CmdAbsMouseMode(s: State, msg: seq<bv8>): (t: State)
    requires ValidState(s) && |msg| == 5
    ensures ValidState(t) && t.kbd == s.kbd && t.out == s.out && t.load == s.load
  {
    s.(proc := s.proc.(mouseMode := MouseAbs,
                       abs := s.proc.abs.(maxX := Word(msg[1], msg[2]), maxY := Word(msg[3], msg[4]))))
  }

  /** 0x0A: cursor-key reports every byte 1 (X) and byte 2 (Y) mouse clicks. */
  function CmdMouseCursorKeycodes(s: State, msg: seq<bv8>): (t: State)
    requires ValidState(s) && |msg| == 3
    ensures ValidState(t) && t.kbd == s.kbd && t.out == s.out && t.load == s.load
  {
    s.(proc := s.proc.(mouseMode := MouseCursor,
                       mouse := s.proc.mouse.(keyCodeDeltaX := msg[1], keyCodeDeltaY := msg[2])))
  }

  /** 0x0B */
  function CmdSetMouseThreshold(s: State, msg: seq<bv8>): (t: State)
    requires ValidState(s) && |msg| == 3
    ensures ValidState(t) && t.kbd == s.kbd && t.out == s.out && t.load == s.load
  {
    s.(proc := s.proc.(mouse := s.proc.mouse.(xThreshold := msg[1] as int, yThreshold := msg[2] as int)))
  }

  /** 0x0C */
  function CmdSetMouseScale(s: State, msg: seq<bv8>): (t: State)
    requires ValidState(s) && |msg| == 3
    ensures ValidState(t) && t.kbd == s.kbd && t.out == s.out && t.load == s.load
  {
    s.(proc := s.proc.(mouse := s.proc.mouse.(xScale := msg[1] as int, yScale := msg[2] as int)))
  }

  /** 0x0E: bytes 2-3 and 4-5 become the position, unclamped until the next tick (byte 1 is filler). */
  function CmdSetInternalMousePos(s: State, msg: seq<bv8>): (t: State)
    requires ValidState(s) && |msg| == 6
    ensures ValidState(t) && t.kbd == s.kbd && t.out == s.out && t.load == s.load
  {
    s.(proc := s.proc.(abs := s.proc.abs.(x := Word(msg[2], msg[3]), y := Word(msg[4], msg[5]))))
  }

  /** 0x0F (Y = 0 at the bottom) and 0x10 (Y = 0 at the top). */
  function CmdSetYAxis(s: State, yAxis: int): (t: State)
    requires ValidState(s)
    ensures ValidState(t) && t.kbd == s.kbd && t.out == s.out && t.load == s.load
  {
    s.(proc := s.proc.(mouse := s.proc.mouse.(yAxis := yAxis)))
  }

  /** 0x11 */
  function CmdStartKeyboardTransfer(s: State): (t: State)
    requires ValidState(s)
    ensures ValidState(t) && !t.kbd.pauseOutput && t.out == s.out && t.load == s.load
  {
    s.(kbd := s.kbd.(pauseOutput := false))
  }

  /** 0x12: mouse off, remembered for the reset-window quirk. */
  function CmdTurnMouseOff(s: State): (t: State)
    requires ValidState(s)
    ensures ValidState(t) && t.kbd == s.kbd && t.out == s.out && t.load == s.load
  {
    ResetDisableBug(s.(proc := s.proc.(mouseMode := MouseOff), reset := s.reset.(mouseDisabled := true)))
  }

  /** 0x13: pause the output, except inside the reset window. */
  function CmdStopKeyboardTransfer(s: State): (t: State)
    requires ValidState(s)
    ensures ValidState(t) && t.kbd.inputBuffer == s.kbd.inputBuffer && t.out == s.out && t.load == s.load
  {
    if s.reset.criticalTime then s else s.(kbd := s.kbd.(pauseOutput := true))
  }

  /**
   * 0x14: joystick events, the mouse off unless it was enabled (0x08) or
   * disabled (0x12) inside the reset window, in which case both report; the
   * previous joystick bytes are forgotten, the joysticks are sampled and
   * their changes sent at once.
   */
  function CmdReturnJoystickAuto(s: State, w0: bv16, w1: bv16): (t: State)
    requires ValidState(s)
    ensures ValidState(t) && t.kbd == s.kbd && t.load == s.load && t.proc.joystickMode == IkbdTypes.JoystickAuto
    ensures var both := s.reset.criticalTime && (s.reset.mouseEnabledDuringReset || s.reset.mouseDisabled);
            t.proc.mouseMode == (if both then MouseRel else MouseOff) &&
            t.reset == (if both then s.reset.(bothMouseAndJoy := true) else s.reset)
  {
    var both := s.reset.criticalTime && (s.reset.mouseEnabledDuringReset || s.reset.mouseDisabled);
    var m := s.(proc := s.proc.(joystickMode := IkbdTypes.JoystickAuto,
                                mouseMode := if both then MouseRel else MouseOff,
                                joy := s.proc.joy.(prev0 := 0, prev1 := 0)),
                reset := if both then s.reset.(bothMouseAndJoy := true) else s.reset);
    SendAutoJoysticks(GetJoystickData(m, w0, w1))
  }

  /** 0x15 */
  function CmdStopJoystick(s: State): (t: State)
    requires ValidState(s)
    ensures ValidState(t) && t.kbd == s.kbd && t.out == s.out && t.load == s.load
  {
    s.(proc := s.proc.(joystickMode := JoystickOff))
  }

  /** 0x17: monitoring mode, the mouse off (the sample rate is not modelled). */
  function CmdSetJoystickMonitoring(s: State): (t: State)
    requires ValidState(s)
    ensures ValidState(t) && t.kbd == s.kbd && t.out == s.out && t.load == s.load
  {
    s.(proc := s.proc.(joystickMode := JoystickMonitoring, mouseMode := MouseOff))
  }

  /** 0x1A: joysticks off, remembered for the reset-window quirk. */
  function CmdDisableJoysticks(s: State): (t: State)
    requires ValidState(s)
    ensures ValidState(t) && t.kbd == s.kbd && t.out == s.out && t.load == s.load
  {
    ResetDisableBug(s.(proc := s.proc.(joystickMode := JoystickOff), reset := s.reset.(joystickDisabled := true)))
  }

  /** The clock after the SetClock loop has handled clock bytes i to 5: each takes its message byte when that is BCD. */
  function StoreClock(clock: seq<bv8>, msg: seq<bv8>, i: nat): (r: seq<bv8>)
    requires |clock| == 6 && |msg| == 7 && i <= 6
    ensures |r| == 6
    decreases 6 - i
  {
    if i == 6 then clock
    else StoreClock(if Check(msg[i + 1]) then clock[i := msg[i + 1]] else clock, msg, i + 1)
  }

  /** 0x1B */
  function CmdSetClock(s: State, msg: seq<bv8>): (t: State)
    requires ValidState(s) && |msg| == 7
    ensures ValidState(t) && t.kbd == s.kbd && t.out == s.out && t.load == s.load
  {
    s.(clock := StoreClock(s.clock, msg, 0))
  }

  /** 0x20: a load of byte 3 bytes (0 to 255) at the address in bytes 1-2, its CRC reset. */
  function CmdLoadMemory(s: State, msg: seq<bv8>): (t: State)
    requires ValidState(s) && |msg| == 4
    ensures ValidState(t) && t.kbd == s.kbd && t.out == s.out
  {
    s.(load := s.load.(addr := Word(msg[1], msg[2]), total := msg[3] as int, left := msg[3] as int, crc := ResetValue))
  }

  /** The six bytes command 0x21 sends from addr on, each address resolved on its own. */
  function MemoryBytes(s: State, addr: int): (r: seq<bv8>)
    requires ValidState(s)
    ensures |r| == 6
  {
    seq(6, k requires 0 <= k < 6 => Peek(s, Resolve(addr + k)))
  }

  /** 0x22: execute mode, only when a custom write handler is installed. */
  function CmdExecute(s: State): (t: State)
    requires ValidState(s)
    ensures ValidState(t) && t.kbd == s.kbd && t.out == s.out
  {
    if s.load.writeHandler != NoWrite then s.(load := s.load.(exeMode := true)) else s
  }

  /** The reply of a status report command (0x87-0x9A); the other commands send none. */
  function Report(p: Processor, c: Command): seq<bv8>
  {
    match c
    case ReportMouseAction => IkbdReplies.ReportMouseAction(p.mouse.action)
    case ReportMouseMode =>
      IkbdReplies.ReportMouseMode(p.mouseMode, p.abs.maxX, p.abs.maxY, p.mouse.keyCodeDeltaX, p.mouse.keyCodeDeltaY)
    case ReportMouseThreshold => IkbdReplies.ReportMouseThreshold(p.mouse.xThreshold, p.mouse.yThreshold)
    case ReportMouseScale => IkbdReplies.ReportMouseScale(p.mouse.xScale, p.mouse.yScale)
    case ReportMouseVertical => IkbdReplies.ReportMouseVertical(p.mouse.yAxis)
    case ReportMouseAvailability => IkbdReplies.ReportMouseAvailability(p.mouseMode)
    case ReportJoystickMode => IkbdReplies.ReportJoystickMode(p.joystickMode)
    case ReportJoystickAvailability => IkbdReplies.ReportJoystickAvailability(p.joystickMode)
    case _ => []
  }

  /** The handler of command c run on the complete message msg. */
  function Handle(s: State, c: Command, msg: seq<bv8>, w0: bv16, w1: bv16): (t: State)
    requires ValidState(s) && |msg| == Arity(c)
    ensures ValidState(t)
  {
    var p := s.proc;
    match c
    case Reset => if msg[1] == 0x01 then (BootRomDefaults(s, false); BootRom(s, false)) else s
    case MouseAction => CmdMouseAction(s, msg)
    case RelMouseMode => CmdRelMouseMode(s)
    case AbsMouseMode => CmdAbsMouseMode(s, msg)
    case MouseCursorKeycodes => CmdMouseCursorKeycodes(s, msg)
    case SetMouseThreshold => CmdSetMouseThreshold(s, msg)
    case SetMouseScale => CmdSetMouseScale(s, msg)
    case ReadAbsMousePos => ReadAbs(s)
    case SetInternalMousePos => CmdSetInternalMousePos(s, msg)
    case SetYAxisDown => CmdSetYAxis(s, -1)
    case SetYAxisUp => CmdSetYAxis(s, 1)
    case StartKeyboardTransfer => CmdStartKeyboardTransfer(s)
    case TurnMouseOff => CmdTurnMouseOff(s)
    case StopKeyboardTransfer => CmdStopKeyboardTransfer(s)
    case ReturnJoystickAuto => CmdReturnJoystickAuto(s, w0, w1)
    case StopJoystick => CmdStopJoystick(s)
    case ReturnJoystick => Emit(s, [0xFD, p.joy.data0, p.joy.data1])
    case SetJoystickMonitoring => CmdSetJoystickMonitoring(s)
    case SetJoystickFireDuration => s
    case SetCursorForJoystick => s
    case DisableJoysticks => CmdDisableJoysticks(s)
    case SetClock => CmdSetClock(s, msg)
    case ReadClock => Emit(s, ReadClockReply(s.clock))
    case LoadMemory => CmdLoadMemory(s, msg)
    case ReadMemory => Emit(s, [0xF6, 0x20] + MemoryBytes(s, Word(msg[1], msg[2])))
    case Execute => CmdExecute(s)
    case _ => Emit(s, Report(p, c))
  }

  /** The state a handler starts from: the complete message in the buffer, the output unpaused. */
  function Begin(s: State, full: seq<bv8>): (t: State)
    requires ValidState(s) && |full| <= 8
    ensures ValidState(t)
  {
    s.(kbd := s.kbd.(pauseOutput := false, inputBuffer := full))
  }

  /**
   * IKBD_RunKeyboardCommand: the byte is buffered; a complete message of a
   * known opcode runs its handler, and an unknown opcode or a finished
   * command empties the buffer.
   */
  function RunCommand(s: State, b: bv8, w0: bv16, w1: bv16): (t: State)
    requires ValidState(s)
    ensures ValidState(t)
    ensures t.kbd.inputBuffer == After(s.kbd.inputBuffer, b)
  {
    var full := Buffered(s.kbd.inputBuffer, b);
    match Frame(s.kbd.inputBuffer, b)
    case Dropped => s.(kbd := s.kbd.(inputBuffer := []))
    case Waiting => s.(kbd := s.kbd.(inputBuffer := full))
    case Complete(e) =>
      LookupArity(full[0], 0);
      Finish(Handle(Begin(s, full), e.command, full, w0, w1))
  }

  /**
   * IKBD_Process_RDR: a host byte goes to the custom write handler in
   * execute mode, to the memory loader while a load is pending, and to the
   * command framer otherwise; the framer's buffer stays Pending throughout.
   */
  function ProcessRdr(s: State, b: bv8, w0: bv16, w1: bv16): (t: State)
    requires ValidState(s) && Pending(s.kbd.inputBuffer)
    ensures ValidState(t) && Pending(t.kbd.inputBuffer)
  {
    FrameKeepsPending(s.kbd.inputBuffer, b);
    if s.load.exeMode && s.load.writeHandler != NoWrite then RunWrite(s, b)
    else if s.load.left == 0 then RunCommand(s, b, w0, w1)
    else LoadMemoryByte(s, b)
  }

  /** The state once a handler has run: the buffer is emptied. */
  function Finish(t: State): State
  {
    t.(kbd := t.kbd.(inputBuffer := []))
  }

  /** The three outcomes of RunCommand, by what the table says of the first buffered byte. */
  lemma RunCommandCases(s: State, b: bv8, w0: bv16, w1: bv16)
    requires ValidState(s)
    ensures var full := Buffered(s.kbd.inputBuffer, b);
            (Lookup(full[0]).None? ==> RunCommand(s, b, w0, w1) == s.(kbd := s.kbd.(inputBuffer := []))) &&
            (Lookup(full[0]).Some? && Lookup(full[0]).value.length != |full| ==>
               RunCommand(s, b, w0, w1) == s.(kbd := s.kbd.(inputBuffer := full))) &&
            (Lookup(full[0]).Some? && Lookup(full[0]).value.length == |full| ==>
               |full| == Arity(Lookup(full[0]).value.command) &&
               RunCommand(s, b, w0, w1) == Finish(Handle(Begin(s, full), Lookup(full[0]).value.command, full, w0, w1)))
  {
    LookupArity(Buffered(s.kbd.inputBuffer, b)[0], 0);
  }

  /** Command 0x80 on its message: a cold-start reset only when the second byte is 0x01. */
  lemma HandleReset(s: State, msg: seq<bv8>, w0: bv16, w1: bv16)
    requires ValidState(s) && |msg| == 2
    ensures Handle(s, Reset, msg, w0, w1) == if msg[1] == 0x01 then BootRom(s, false) else s
  {
  }

  /** Command 0x1B on its message. */
  lemma HandleSetClock(s: State, msg: seq<bv8>, w0: bv16, w1: bv16)
    requires ValidState(s) && |msg| == 7
    ensures Handle(s, SetClock, msg, w0, w1) == CmdSetClock(s, msg)
  {
  }

  /** Command 0x21 on its message. */
  lemma HandleReadMemory(s: State, msg: seq<bv8>, w0: bv16, w1: bv16)
    requires ValidState(s) && |msg| == 3
    ensures Handle(s, ReadMemory, msg, w0, w1) == Emit(s, [0xF6, 0x20] + MemoryBytes(s, Word(msg[1], msg[2])))
  {
  }

  /** A message completed by byte b runs its handler on the whole message, unpaused, and empties the buffer. */
  lemma Completes(s: State, b: bv8, w0: bv16, w1: bv16, i: nat)
    requires ValidState(s) && i < |KeyboardCommands| && Frame(s.kbd.inputBuffer, b) == Complete(KeyboardCommands[i])
    ensures |Buffered(s.kbd.inputBuffer, b)| == Arity(KeyboardCommands[i].command)
    ensures RunCommand(s, b, w0, w1) ==
              Finish(Handle(Begin(s, Buffered(s.kbd.inputBuffer, b)), KeyboardCommands[i].command,
                            Buffered(s.kbd.inputBuffer, b), w0, w1))
  {
    LookupArity(Buffered(s.kbd.inputBuffer, b)[0], 0);
  }

  /** A one-byte command sent to an empty buffer runs at once. */
  lemma OneByte(s: State, i: nat, w0: bv16, w1: bv16)
    requires ValidState(s) && s.kbd.inputBuffer == [] && i < |KeyboardCommands| && KeyboardCommands[i].length == 1
    ensures Arity(KeyboardCommands[i].command) == 1
    ensures RunCommand(s, KeyboardCommands[i].opcode, w0, w1) ==
              Finish(Handle(Begin(s, [KeyboardCommands[i].opcode]), KeyboardCommands[i].command,
                            [KeyboardCommands[i].opcode], w0, w1))
  {
    var op := KeyboardCommands[i].opcode;
    LookupRow(i);
    assert Buffered([], op) == [op];
    Completes(s, op, w0, w1, i);
  }

  /** An opcode missing from the table (0xFF among them) sent to an empty buffer changes nothing and sends nothing. */
  lemma UnknownOpcodeIgnored(s: State, b: bv8, w0: bv16, w1: bv16)
    requires ValidState(s) && s.kbd.inputBuffer == [] && Lookup(b).None?
    ensures RunCommand(s, b, w0, w1) == s
  {
    UnknownOpcodeDropped(b);
  }

  /** A byte that does not complete the message is only buffered. */
  lemma PartialMessageWaits(s: State, b: bv8, w0: bv16, w1: bv16)
    requires ValidState(s) && Pending(s.kbd.inputBuffer) && Frame(s.kbd.inputBuffer, b) == Waiting
    ensures RunCommand(s, b, w0, w1) == s.(kbd := s.kbd.(inputBuffer := s.kbd.inputBuffer + [b]))
  {
    FrameKeepsPending(s.kbd.inputBuffer, b);
  }

  /** The commands the reset-window lemmas send, as the table has them. */
  lemma WindowRows()
    ensures KeyboardCommands[2] == CommandEntry(0x08, 1, RelMouseMode)
    ensures KeyboardCommands[12] == CommandEntry(0x12, 1, TurnMouseOff)
    ensures KeyboardCommands[13] == CommandEntry(0x13, 1, StopKeyboardTransfer)
    ensures KeyboardCommands[14] == CommandEntry(0x14, 1, ReturnJoystickAuto)
    ensures KeyboardCommands[20] == CommandEntry(0x1A, 1, DisableJoysticks)
  {
  }

  /** 0x14 inside the reset window after the mouse was enabled or disabled there: both mouse and joystick report. */
  lemma JoystickAutoInWindow(s: State, w0: bv16, w1: bv16)
    requires ValidState(s) && s.kbd.inputBuffer == [] && s.reset.criticalTime
    requires s.reset.mouseEnabledDuringReset || s.reset.mouseDisabled
    ensures RunCommand(s, 0x14, w0, w1).proc.mouseMode == MouseRel
    ensures RunCommand(s, 0x14, w0, w1).proc.joystickMode == IkbdTypes.JoystickAuto
    ensures RunCommand(s, 0x14, w0, w1).reset.bothMouseAndJoy
  {
    WindowRows();
    OneByte(s, 14, w0, w1);
  }

  /** 0x14 outside the reset window turns the mouse off. */
  lemma JoystickAutoOutsideWindow(s: State, w0: bv16, w1: bv16)
    requires ValidState(s) && s.kbd.inputBuffer == [] && !s.reset.criticalTime
    ensures RunCommand(s, 0x14, w0, w1).proc.mouseMode == MouseOff
    ensures RunCommand(s, 0x14, w0, w1).proc.joystickMode == IkbdTypes.JoystickAuto
    ensures RunCommand(s, 0x14, w0, w1).reset == s.reset
  {
    WindowRows();
    OneByte(s, 14, w0, w1);
  }

  /** 0x08 followed by 0x14 inside the reset window: relative mouse and joystick events together. */
  lemma RelThenJoystickInWindow(s: State, w0: bv16, w1: bv16)
    requires ValidState(s) && s.kbd.inputBuffer == [] && s.reset.criticalTime
    ensures var t := RunCommand(RunCommand(s, 0x08, w0, w1), 0x14, w0, w1);
            t.proc.mouseMode == MouseRel && t.proc.joystickMode == IkbdTypes.JoystickAuto && t.reset.bothMouseAndJoy
  {
    WindowRows();
    OneByte(s, 2, w0, w1);
    var m := RunCommand(s, 0x08, w0, w1);
    assert m.reset.criticalTime && m.reset.mouseEnabledDuringReset && m.kbd.inputBuffer == [];
    JoystickAutoInWindow(m, w0, w1);
  }

  /** 0x12 inside the reset window: the mouse is off and that is remembered. */
  lemma MouseOffInWindow(s: State, w0: bv16, w1: bv16)
    requires ValidState(s) && s.kbd.inputBuffer == [] && s.reset.criticalTime
    ensures RunCommand(s, 0x12, w0, w1).reset.criticalTime && RunCommand(s, 0x12, w0, w1).reset.mouseDisabled
    ensures RunCommand(s, 0x12, w0, w1).kbd.inputBuffer == []
  {
    WindowRows();
    OneByte(s, 12, w0, w1);
  }

  /** 0x1A inside the reset window after 0x12: disabling both turns relative mouse and joystick events on. */
  lemma JoysticksOffInWindow(s: State, w0: bv16, w1: bv16)
    requires ValidState(s) && s.kbd.inputBuffer == [] && s.reset.criticalTime && s.reset.mouseDisabled
    ensures RunCommand(s, 0x1A, w0, w1).proc.mouseMode == MouseRel
    ensures RunCommand(s, 0x1A, w0, w1).proc.joystickMode == IkbdTypes.JoystickAuto
    ensures RunCommand(s, 0x1A, w0, w1).reset.bothMouseAndJoy
  {
    WindowRows();
    OneByte(s, 20, w0, w1);
  }

  /** 0x12 followed by 0x14 inside the reset window: the mouse comes back in relative mode beside the joystick. */
  lemma OffThenJoystickInWindow(s: State, w0: bv16, w1: bv16)
    requires ValidState(s) && s.kbd.inputBuffer == [] && s.reset.criticalTime
    ensures var t := RunCommand(RunCommand(s, 0x12, w0, w1), 0x14, w0, w1);
            t.proc.mouseMode == MouseRel && t.proc.joystickMode == IkbdTypes.JoystickAuto && t.reset.bothMouseAndJoy
  {
    MouseOffInWindow(s, w0, w1);
    JoystickAutoInWindow(RunCommand(s, 0x12, w0, w1), w0, w1);
  }

  /** 0x12 followed by 0x1A inside the reset window: relative mouse and joystick events together. */
  lemma OffThenJoysticksOffInWindow(s: State, w0: bv16, w1: bv16)
    requires ValidState(s) && s.kbd.inputBuffer == [] && s.reset.criticalTime
    ensures var t := RunCommand(RunCommand(s, 0x12, w0, w1), 0x1A, w0, w1);
            t.proc.mouseMode == MouseRel && t.proc.joystickMode == IkbdTypes.JoystickAuto && t.reset.bothMouseAndJoy
  {
    MouseOffInWindow(s, w0, w1);
    JoysticksOffInWindow(RunCommand(s, 0x12, w0, w1), w0, w1);
  }

  /** 0x13 pauses the output, except inside the reset window, where it only unpauses as every command does. */
  lemma PauseOutsideWindow(s: State, w0: bv16, w1: bv16)
    requires ValidState(s) && s.kbd.inputBuffer == []
    ensures RunCommand(s, 0x13, w0, w1) == s.(kbd := s.kbd.(pauseOutput := !s.reset.criticalTime))
  {
    WindowRows();
    OneByte(s, 13, w0, w1);
  }

  /**
   * 0x80 then 0x01 reboots the ROM (warm: the clock is kept); 0x80 followed
   * by any other byte only unpauses the output.
   */
  lemma ResetCommand(s: State, x: bv8, w0: bv16, w1: bv16)
    requires ValidState(s) && s.kbd.inputBuffer == []
    ensures x == 0x01 ==> RunCommand(RunCommand(s, 0x80, w0, w1), x, w0, w1) == BootRom(s, false)
    ensures x != 0x01 ==> RunCommand(RunCommand(s, 0x80, w0, w1), x, w0, w1) == s.(kbd := s.kbd.(pauseOutput := false))
  {
    assert KeyboardCommands[0] == CommandEntry(0x80, 2, Reset);
    LookupRow(0);
    assert Buffered([], 0x80) == [0x80];
    var m := RunCommand(s, 0x80, w0, w1);
    assert m == s.(kbd := s.kbd.(inputBuffer := [0x80]));
    assert Buffered([0x80], x) == [0x80, x];
    assert Frame([0x80], x) == Complete(KeyboardCommands[0]);
    Completes(m, x, w0, w1, 0);
  }

  /** The SetClock loop from byte i on: earlier bytes are kept, later ones replaced by their message byte when it is BCD. */
  lemma {:induction false} StoreClockFrom(clock: seq<bv8>, msg: seq<bv8>, i: nat)
    requires |clock| == 6 && |msg| == 7 && i <= 6
    ensures forall k :: 0 <= k < i ==> StoreClock(clock, msg, i)[k] == clock[k]
    ensures forall k :: i <= k < 6 ==> StoreClock(clock, msg, i)[k] == if Check(msg[k + 1]) then msg[k + 1] else clock[k]
    decreases 6 - i
  {
    if i < 6 {
      var c := if Check(msg[i + 1]) then clock[i := msg[i + 1]] else clock;
      StoreClockFrom(c, msg, i + 1);
    }
  }

  /**
   * 0x1B stores each of the six bytes on its own, when both of its nibbles
   * are decimal digits, and leaves the other clock bytes as they were.
   */
  lemma SetClockBytes(s: State, msg: seq<bv8>)
    requires ValidState(s) && |msg| == 7
    ensures forall k :: 0 <= k < 6 ==>
              CmdSetClock(s, msg).clock[k] == if Check(msg[k + 1]) then msg[k + 1] else s.clock[k]
  {
    StoreClockFrom(s.clock, msg, 0);
  }

  /** Setting the clock never stores a non-BCD byte, so a BCD clock stays BCD. */
  lemma SetClockKeepsBcd(s: State, msg: seq<bv8>)
    requires ValidState(s) && |msg| == 7 && forall k :: 0 <= k < 6 ==> Check(s.clock[k])
    ensures forall k :: 0 <= k < 6 ==> Check(CmdSetClock(s, msg).clock[k])
  {
    SetClockBytes(s, msg);
  }

  /** A clock set from six BCD bytes reads back (0x1C) as the header 0xFC and those bytes. */
  lemma SetThenReadClock(s: State, msg: seq<bv8>)
    requires ValidState(s) && |msg| == 7 && forall k :: 1 <= k < 7 ==> Check(msg[k])
    ensures CmdSetClock(s, msg).clock == msg[1..]
    ensures Handle(CmdSetClock(s, msg), ReadClock, [0x1C], 0, 0).out == s.out + [0xFC] + msg[1..]
  {
    SetClockBytes(s, msg);
    var t := CmdSetClock(s, msg);
    assert forall k :: 0 <= k < 6 ==> t.clock[k] == msg[1..][k];
  }

  /** Command 0x21 on pad p's map: the six bytes from offset o, when they all lie in the map. */
  lemma MemoryBytesPad(s: State, p: nat, o: nat)
    requires ValidState(s) && p < 4 && o + 6 <= 32
    ensures MemoryBytes(s, PadBase(p) + o) == s.pads[p].memory[o..o + 6]
  {
    var r := MemoryBytes(s, PadBase(p) + o);
    var m := s.pads[p].memory[o..o + 6];
    forall k | 0 <= k < 6
      ensures r[k] == m[k]
    {
      ResolvePads(PadBase(p) + o + k);
      assert Resolve(PadBase(p) + o + k) == PadByte(p, o + k);
      assert r[k] == Peek(s, Resolve(PadBase(p) + o + k));
    }
  }

  /** Command 0x21 on the scancode table: the six entries from index i. */
  lemma MemoryBytesHost(s: State, i: nat)
    requires ValidState(s) && i + 6 <= 128
    ensures MemoryBytes(s, 0xa000 + i) == s.hostScancodes[i..i + 6]
  {
    var r := MemoryBytes(s, 0xa000 + i);
    var m := s.hostScancodes[i..i + 6];
    forall k | 0 <= k < 6
      ensures r[k] == m[k]
    {
      ResolveHost(0xa000 + i + k);
      assert r[k] == Peek(s, Resolve(0xa000 + i + k));
    }
  }

  /**
   * 0x20: the load count is the whole third byte (up to 255), the CRC
   * starts from its reset value, and until the count runs out every host
   * byte goes to the loader.
   */
  lemma LoadMemoryStarts(s: State, msg: seq<bv8>, b: bv8, w0: bv16, w1: bv16)
    requires ValidState(s) && |msg| == 4 && Pending(s.kbd.inputBuffer) && msg[3] != 0
    requires !(s.load.exeMode && s.load.writeHandler != NoWrite)
    ensures var t := CmdLoadMemory(s, msg);
            && t.load.left == msg[3] as int <= 255
            && t.load.addr == msg[1] as int * 256 + msg[2] as int
            && t.load.crc == ResetValue
            && ProcessRdr(t, b, w0, w1) == LoadMemoryByte(t, b)
  {
    var t := CmdLoadMemory(s, msg);
    ProcessRdrRoutes(t, b, w0, w1);
  }

  /** 0x22 turns execute mode on exactly when a custom write handler is installed. */
  lemma ExecuteNeedsHandler(s: State, msg: seq<bv8>, w0: bv16, w1: bv16)
    requires ValidState(s) && |msg| == 3
    ensures Handle(s, Execute, msg, w0, w1).load.exeMode == (s.load.exeMode || s.load.writeHandler != NoWrite)
    ensures Handle(s, Execute, msg, w0, w1).load.writeHandler == s.load.writeHandler
  {
  }

  /** 0x0E stores the position without clamping; the next position update brings it back within the maxima. */
  lemma SetPositionUnclamped(s: State, msg: seq<bv8>, mx: int, my: int)
    requires ValidState(s) && |msg| == 6
    ensures CmdSetInternalMousePos(s, msg).proc.abs.x == msg[2] as int * 256 + msg[3] as int
    ensures CmdSetInternalMousePos(s, msg).proc.abs.y == msg[4] as int * 256 + msg[5] as int
    ensures UpdatePosition(CmdSetInternalMousePos(s, msg), mx, my).proc.abs.x <= s.proc.abs.maxX
    ensures UpdatePosition(CmdSetInternalMousePos(s, msg), mx, my).proc.abs.y <= s.proc.abs.maxY
  {
  }

  /**
   * The routing of IKBD_Process_RDR: the custom write handler in execute
   * mode, else the framer when no load is pending, else the loader.
   */
  lemma ProcessRdrRoutes(s: State, b: bv8, w0: bv16, w1: bv16)
    requires ValidState(s) && Pending(s.kbd.inputBuffer)
    ensures s.load.exeMode && s.load.writeHandler != NoWrite ==> ProcessRdr(s, b, w0, w1) == RunWrite(s, b)
    ensures !(s.load.exeMode && s.load.writeHandler != NoWrite) && s.load.left == 0 ==>
              ProcessRdr(s, b, w0, w1) == RunCommand(s, b, w0, w1)
    ensures !(s.load.exeMode && s.load.writeHandler != NoWrite) && s.load.left != 0 ==>
              ProcessRdr(s, b, w0, w1) == LoadMemoryByte(s, b)
  {
  }
}
