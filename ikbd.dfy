/**
 * The keyboard-processor emulator as the object the C file keeps in its
 * globals: one field per group of statics, updated in place by its two
 * entry points, ProcessRdr (a byte from the host) and Tick (the periodic
 * report), and by the helpers they call.  Every method is proved to leave
 * the fields as the State function of the same name says, so the lemmas
 * proved about those functions hold of the object.
 */
module IkbdEmulator {
  import opened IkbdTypes
  import opened IkbdCrc32
  import opened IkbdBcd
  import opened IkbdMemory
  import opened IkbdMouse
  import opened IkbdJoystick
  import opened IkbdCustom
  import opened IkbdFramer
  import opened IkbdState
  import IkbdInput
  import IkbdHandlers
  import IkbdCommands
  import IkbdTick

  class Ikbd {
    var proc: Processor
    var kbd: Keyboard
    var reset: ResetWindow
    var clock: seq<bv8>
    var pads: seq<Joypad>
    var hostScancodes: seq<bv8>
    var scanCodeState: seq<bv8>
    var load: Loader
    var statics: Statics
    var out: seq<bv8>
    var strayWrites: seq<StrayWrite>

    /** The fields as one State value. */
    function Snapshot(): State
      reads this
    {
      State(proc, kbd, reset, clock, pads, hostScancodes, scanCodeState, load, statics, out, strayWrites)
    }

    predicate Valid()
      reads this
    {
      ValidState(Snapshot())
    }

    /** Stores a whole state, for the stages that are straight-line updates of a State function. */
    method Become(t: State)
      modifies this
      ensures Snapshot() == t
    {
      proc, kbd, reset, clock, pads := t.proc, t.kbd, t.reset, t.clock, t.pads;
      hostScancodes, scanCodeState, load, statics := t.hostScancodes, t.scanCodeState, t.load, t.statics;
      out, strayWrites := t.out, t.strayWrites;
    }

    /** IKBD_Init then IKBD_Reset(true): the zeroed statics, the default tables, and a cold boot of the ROM. */
    constructor ()
      ensures Valid() && Snapshot() == PowerOn
    {
      proc, kbd, reset, clock := Unset.proc, Unset.kbd, Unset.reset, Unset.clock;
      pads, hostScancodes, scanCodeState := Unset.pads, Unset.hostScancodes, Unset.scanCodeState;
      load, statics, out, strayWrites := Unset.load, Unset.statics, Unset.out, Unset.strayWrites;
      new;
      BootRom(true);
      PowerOnState();
    }

    /** IKBD_Boot_ROM, field by field. */
    method BootRom(clearAllRam: bool)
      modifies this
      ensures Snapshot() == IkbdState.BootRom(old(Snapshot()), clearAllRam)
    {
      if clearAllRam {
        clock := [0, 0, 0, 0, 0, 0];
      }
      proc := ResetProcessor.(joy := Joy(proc.joy.data0, proc.joy.data1, 0, 0));
      scanCodeState := Released();
      kbd := Keyboard(false, [], 0, 0, 0, 0);
      reset := ResetWindow(false, false, true, false, false, ResetTicks);
      if load.left != 0 || load.exeMode {
        load := load.(left := 0, readHandler := NoRead, writeHandler := NoWrite, exeMode := false);
      }
    }

    /** The custom read handler after an event, when custom code runs. */
    method AfterEvent()
      requires Valid()
      modifies this
      ensures Valid() && Snapshot() == IkbdTick.AfterEvent(old(Snapshot()))
    {
      if load.exeMode {
        Become(IkbdHandlers.RunRead(Snapshot()));
      }
    }

    /** IKBD_PressSTKey. */
    method PressKey(code: bv8)
      requires Valid()
      modifies this
      ensures Valid() && Snapshot() == IkbdTick.PressKey(old(Snapshot()), code)
    {
      if proc.joystickMode == JoystickMonitoring {
        return;
      }
      scanCodeState := scanCodeState[(code & 0x7f) as int := IkbdTick.KeyState(code)];
      out := out + [code];
      AfterEvent();
    }

    /** Key events one after the other. */
    method PressKeys(codes: seq<bv8>)
      requires Valid()
      modifies this
      ensures Valid() && Snapshot() == IkbdTick.PressKeys(old(Snapshot()), codes)
    {
      var i := 0;
      while i < |codes|
        invariant 0 <= i <= |codes| && Valid()
        invariant IkbdTick.PressKeys(Snapshot(), codes[i..]) == IkbdTick.PressKeys(old(Snapshot()), codes)
      {
        assert codes[i..][1..] == codes[i + 1..];
        PressKey(codes[i]);
        i := i + 1;
      }
    }

    /** The first wheel loop: a positive count is run down to zero, one upward notch sequence per unit. */
    method WheelUp(w0: int)
      requires Valid() && w0 >= 0
      modifies this
      ensures Valid() && Snapshot() == IkbdTick.Wheel(old(Snapshot()), w0)
    {
      var w := w0;
      while w > 0
        invariant w >= 0 && Valid() && IkbdTick.Wheel(Snapshot(), w) == IkbdTick.Wheel(old(Snapshot()), w0)
      {
        IkbdTick.WheelStep(Snapshot(), w);
        PressKeys(IkbdTick.WheelKeys(w > 0));
        w := w - 1;
      }
    }

    /** The second wheel loop: a negative count is run up to zero, one downward notch sequence per unit. */
    method WheelDown(w0: int)
      requires Valid() && w0 <= 0
      modifies this
      ensures Valid() && Snapshot() == IkbdTick.Wheel(old(Snapshot()), w0)
    {
      var w := w0;
      while w < 0
        invariant w <= 0 && Valid() && IkbdTick.Wheel(Snapshot(), w) == IkbdTick.Wheel(old(Snapshot()), w0)
      {
        IkbdTick.WheelStep(Snapshot(), w);
        PressKeys(IkbdTick.WheelKeys(w > 0));
        w := w + 1;
      }
    }

    /** The two wheel loops of the tick; only one of them runs. */
    method Wheel(w: int)
      requires Valid()
      modifies this
      ensures Valid() && Snapshot() == IkbdTick.Wheel(old(Snapshot()), w)
    {
      if w > 0 {
        WheelUp(w);
      } else {
        WheelDown(w);
      }
    }

    /**
     * The extra buttons of the tick, against the remembered host mask: the
     * key events of the changed buttons 3, 4 and 5, in that order.
     */
    method ExtraButtons(mb: bv8)
      requires Valid()
      modifies this
      ensures Valid() && Snapshot() == IkbdTick.ExtraButtons(old(Snapshot()), mb)
    {
      PressKeys(IkbdTick.ExtraKeys(statics.mousebOld, mb));
      statics := statics.(mousebOld := mb);
    }

    /** IKBD_GetJoystickData: each pad is scanned, sends its key events and remembers its word and byte. */
    method GetJoystickData(w0: bv16, w1: bv16)
      requires Valid()
      modifies this
      ensures Valid() && Snapshot() == IkbdInput.GetJoystickData(old(Snapshot()), w0, w1)
    {
      var s := Snapshot();
      var pad0, pad1 := s.pads[0], s.pads[1];
      var joy0, events0 := SamplePad(pad0.memory, pad0.state, w0);
      var joy1, events1 := SamplePad(pad1.memory, pad1.state, w1);
      var connected := proc.mouseMode == MouseOff || (reset.bothMouseAndJoy && proc.mouseMode == MouseRel);
      IkbdInput.JoystickDataFrom(s, w0, w1, joy0, events0, joy1, events1);
      Become(s.(pads := s.pads[0 := pad0.(state := w0, joystick := joy0)][1 := pad1.(state := w1, joystick := joy1)],
                out := s.out + events0 + events1,
                proc := s.proc.(joy := s.proc.joy.(data0 := if connected then joy0 else 0, data1 := joy1))));
    }

    /** IKBD_SendRelMousePacket: the packet loop on the current deltas and buttons. */
    method SendRel()
      requires Valid()
      modifies this
      ensures Valid() && Snapshot() == IkbdInput.SendRel(old(Snapshot()))
    {
      var m := proc.mouse;
      var packet, dx, dy, oldL, oldR :=
        RelLoop(m.deltaX, m.deltaY, m.xThreshold, m.yThreshold, m.yAxis, kbd.oldLButton, kbd.lButton, kbd.oldRButton, kbd.rButton);
      out := out + packet;
      proc := proc.(mouse := m.(deltaX := dx, deltaY := dy));
      kbd := kbd.(oldLButton := oldL, oldRButton := oldR);
    }

    /** IKBD_SendCursorMousePacket: up to 10 passes of cursor and button keys. */
    method SendCursor()
      requires Valid()
      modifies this
      ensures Valid() && Snapshot() == IkbdInput.SendCursor(old(Snapshot()))
    {
      var m := proc.mouse;
      var res, ran := CursorLoop(m.deltaX, m.deltaY, m.keyCodeDeltaX as int, m.keyCodeDeltaY as int,
                                 kbd.oldLButton, kbd.lButton, kbd.oldRButton, kbd.rButton);
      out := out + res.keys;
      proc := proc.(mouse := m.(deltaX := res.dx, deltaY := res.dy));
      if ran {
        kbd := kbd.(oldLButton := kbd.lButton, oldRButton := kbd.rButton);
      }
    }

    /** IKBD_Cmd_SetClock: message bytes 1 to 6 go to clock bytes 0 to 5, each only when it is valid BCD. */
    method SetClock(msg: seq<bv8>)
      requires Valid() && |msg| == 7
      modifies this
      ensures Valid() && Snapshot() == IkbdCommands.CmdSetClock(old(Snapshot()), msg)
    {
      var c := clock;
      var i := 1;
      while i <= 6
        invariant 1 <= i <= 7 && |c| == 6
        invariant IkbdCommands.StoreClock(c, msg, i - 1) == IkbdCommands.StoreClock(clock, msg, 0)
      {
        var val := msg[i];
        if Check(val) {
          c := c[i - 1 := val];
        }
        i := i + 1;
      }
      clock := c;
    }

    /** IKBD_Cmd_ReadMemory: the header, then the byte at each of the six addresses from addr on, 0 where nothing is mapped. */
    method ReadMemory(addr0: int)
      requires Valid()
      modifies this
      ensures Valid() && Snapshot() == Emit(old(Snapshot()), [0xF6, 0x20] + IkbdCommands.MemoryBytes(old(Snapshot()), addr0))
    {
      var s := Snapshot();
      var sent: seq<bv8> := [];
      var addr := addr0;
      var i := 0;
      while i < 6
        invariant 0 <= i <= 6 && addr == addr0 + i
        invariant sent == IkbdCommands.MemoryBytes(s, addr0)[..i]
      {
        var loc := ResolveAddress(addr);
        sent := sent + [Peek(s, loc)];
        addr := addr + 1;
        i := i + 1;
      }
      assert sent == IkbdCommands.MemoryBytes(s, addr0);
      Become(Emit(s, [0xF6, 0x20] + sent));
    }

    /** IKBD_LoadMemoryByte: the byte enters the CRC and is stored; the last byte looks the upload up in the table of known programs. */
    method LoadMemoryByte(b: bv8)
      requires Valid() && load.left > 0
      modifies this
      ensures Valid() && Snapshot() == IkbdHandlers.LoadMemoryByte(old(Snapshot()), b)
    {
      var crc := AddByteLoop(load.crc, b);
      var addr := load.addr;
      Become(Poke(Snapshot(), addr, b));
      load := load.(crc := crc, addr := addr + 1, left := load.left - 1);
      if load.left == 0 {
        var i := FindLoadMatch(crc);
        if i < |CustomCodeDefinitions| {
          load := load.(crc := ResetValue, exeNbBytes := 0, readHandler := NoRead,
                        writeHandler := CustomCodeDefinitions[i].bootHandler);
        } else {
          load := load.(readHandler := NoRead, writeHandler := NoWrite);
        }
      }
    }

    /** The handler of command c on the complete message in the buffer. */
    method RunHandler(c: Command, w0: bv16, w1: bv16)
      requires Valid() && |kbd.inputBuffer| == Arity(c)
      modifies this
      ensures Valid() && Snapshot() == IkbdCommands.Handle(old(Snapshot()), c, old(kbd.inputBuffer), w0, w1)
    {
      var msg := kbd.inputBuffer;
      if c.Reset? {
        IkbdCommands.HandleReset(Snapshot(), msg, w0, w1);
        if msg[1] == 0x01 {
          BootRom(false);
        }
      } else if c.SetClock? {
        IkbdCommands.HandleSetClock(Snapshot(), msg, w0, w1);
        SetClock(msg);
      } else if c.ReadMemory? {
        IkbdCommands.HandleReadMemory(Snapshot(), msg, w0, w1);
        ReadMemory(Word(msg[1], msg[2]));
      } else {
        Become(IkbdCommands.Handle(Snapshot(), c, msg, w0, w1));
      }
    }

    /** IKBD_RunKeyboardCommand: buffer the byte, look its opcode up, and run a complete message. */
    method RunCommand(b: bv8, w0: bv16, w1: bv16)
      requires Valid()
      modifies this
      ensures Valid() && Snapshot() == IkbdCommands.RunCommand(old(Snapshot()), b, w0, w1)
    {
      IkbdCommands.RunCommandCases(Snapshot(), b, w0, w1);
      if |kbd.inputBuffer| < 8 {
        kbd := kbd.(inputBuffer := kbd.inputBuffer + [b]);
      }
      var found := FindCommand(kbd.inputBuffer[0]);
      if found.None? {
        kbd := kbd.(inputBuffer := []);
      } else if found.value.length == |kbd.inputBuffer| {
        kbd := kbd.(pauseOutput := false);
        RunHandler(found.value.command, w0, w1);
        kbd := kbd.(inputBuffer := []);
      }
    }

    /** The installed write handler on a host byte. */
    method RunWrite(b: bv8)
      requires Valid()
      modifies this
      ensures Valid() && Snapshot() == IkbdHandlers.RunWrite(old(Snapshot()), b)
    {
      Become(IkbdHandlers.RunWrite(Snapshot(), b));
    }

    /** IKBD_Process_RDR: a byte from the host. */
    method ProcessRdr(b: bv8, w0: bv16, w1: bv16)
      requires Valid() && Pending(kbd.inputBuffer)
      modifies this
      ensures Valid() && Pending(kbd.inputBuffer)
      ensures Snapshot() == IkbdCommands.ProcessRdr(old(Snapshot()), b, w0, w1)
    {
      IkbdCommands.ProcessRdrRoutes(Snapshot(), b, w0, w1);
      FrameKeepsPending(kbd.inputBuffer, b);
      if load.exeMode && load.writeHandler != NoWrite {
        RunWrite(b);
        return;
      }
      if load.left == 0 {
        RunCommand(b, w0, w1);
      } else {
        LoadMemoryByte(b);
      }
    }

    /** The reset countdown of the tick. */
    method Countdown()
      requires Valid() && reset.counter != 0
      modifies this
      ensures Valid() && Snapshot() == IkbdTick.Countdown(old(Snapshot()))
    {
      reset := reset.(counter := reset.counter - 1);
      if reset.counter == 0 {
        reset := reset.(criticalTime := false, mouseEnabledDuringReset := false);
        out := out + [RomVersion];
      }
    }

    /** The tick from the button sample to the position update; the host deltas are consumed. */
    method Sample(inp: IkbdTick.HostInput)
      requires Valid()
      modifies this
      ensures Valid() && Snapshot() == IkbdTick.Sample(old(Snapshot()), inp)
    {
      kbd := kbd.(lButton := if inp.buttons & 0x02 != 0 then ButtonMouse else 0,
                  rButton := if inp.buttons & 0x01 != 0 then ButtonMouse else 0);
      GetJoystickData(inp.joy0, inp.joy1);
      Become(IkbdInput.DuplicateFire(Snapshot()));
      Become(IkbdInput.MouseAction(Snapshot()));
      Become(IkbdInput.UpdatePosition(Snapshot(), inp.mouseX, inp.mouseY));
    }

    /** The automatic reports of the tick, then the buttons are stored for next time. */
    method Reports()
      requires Valid()
      modifies this
      ensures Valid() && Snapshot() == IkbdTick.Reports(old(Snapshot()))
    {
      if proc.joystickMode == JoystickAuto {
        Become(IkbdInput.SendAutoJoysticks(Snapshot()));
      }
      if proc.mouseMode == MouseRel {
        SendRel();
      } else if proc.mouseMode == MouseCursor {
        SendCursor();
      }
      kbd := kbd.(oldLButton := kbd.lButton, oldRButton := kbd.rButton);
    }

    /**
     * IKBD_SendAutoKeyboardCommands: one periodic tick.  The result is what
     * is left of the host inputs: the mouse deltas are taken unless the
     * countdown runs, the wheel count when the tick gets to the wheel.
     */
    method Tick(inp: IkbdTick.HostInput) returns (residual: IkbdTick.HostInput)
      requires Valid()
      modifies this
      ensures Valid() && Snapshot() == IkbdTick.Tick(old(Snapshot()), inp)
      ensures residual == IkbdTick.Residual(old(Snapshot()), inp)
    {
      if reset.counter != 0 {
        Countdown();
        return inp;
      }
      Sample(inp);
      residual := inp.(mouseX := 0, mouseY := 0);
      if proc.joystickMode == JoystickMonitoring {
        Become(IkbdInput.Monitor(Snapshot()));
        return;
      }
      Reports();
      Wheel(inp.wheel);
      residual := residual.(wheel := 0);
      ExtraButtons(inp.buttons);
      AfterEvent();
    }
  }
}
