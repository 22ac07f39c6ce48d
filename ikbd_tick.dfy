/**
 * IKBD_SendAutoKeyboardCommands, the tick, and IKBD_PressSTKey, as what
 * they do to a State.  The volatile host inputs the tick reads (mouse
 * deltas, buttons, wheel count, joystick words) are a HostInput value;
 * the tick consumes some of them, and Residual says what is left.
 */
module IkbdTick {
  import opened IkbdTypes
  import opened IkbdState
  import opened IkbdInput
  import opened IkbdHandlers

  /** v4sa_mousex/y, v4sa_mouseb, v4sa_mousew and v4sa_joyb0/1 as one tick sees them. */
  datatype HostInput = HostInput(mouseX: int, mouseY: int, buttons: bv8, wheel: int, joy0: bv16, joy1: bv16)

  /** After a key or tick event the custom read handler runs, when custom code is executing. */
  function AfterEvent(s: State): (t: State)
    requires ValidState(s)
    ensures ValidState(t)
  {
    if s.load.exeMode then RunRead(s) else s
  }

  /** The key-state entry a scancode leaves: 0 for a release (bit 7 set), 1 for a press. */
  function KeyState(code: bv8): bv8
  {
    if code & 0x80 != 0 then 0 else 1
  }

  /**
   * IKBD_PressSTKey: nothing while monitoring joysticks; otherwise the key
   * state is recorded, the scancode is sent, and the read handler runs.
   */
  function PressKey(s: State, code: bv8): (t: State)
    requires ValidState(s)
    ensures ValidState(t)
    ensures s.proc.joystickMode == JoystickMonitoring ==> t == s
  {
    if s.proc.joystickMode == JoystickMonitoring then s
    else AfterEvent(Emit(s.(scanCodeState := s.scanCodeState[(code & 0x7f) as int := KeyState(code)]), [code]))
  }

  /** Several key events in order. */
  function PressKeys(s: State, codes: seq<bv8>): (t: State)
    requires ValidState(s)
    ensures ValidState(t)
    decreases |codes|
  {
    if codes == [] then s else PressKeys(PressKey(s, codes[0]), codes[1..])
  }

  /** The eight key events of one wheel notch: the 0xF6 0x05 header, five zeros, then 0x59 (up) or 0x5A (down). */
  function WheelKeys(up: bool): (r: seq<bv8>)
    ensures |r| == 8 && r[7] == (if up then 0x59 else 0x5a)
  {
    [0xf6, 0x05, 0x00, 0x00, 0x00, 0x00, 0x00, if up then 0x59 else 0x5a]
  }

  /** The two wheel loops: a notch sequence per unit of the count, towards zero. */
  function Wheel(s: State, w: int): (t: State)
    requires ValidState(s)
    ensures ValidState(t)
    decreases if w < 0 then -w else w
  {
    if w > 0 then Wheel(PressKeys(s, WheelKeys(true)), w - 1)
    else if w < 0 then Wheel(PressKeys(s, WheelKeys(false)), w + 1)
    else s
  }

  /** One turn of either wheel loop: a notch sequence, and the count one step nearer zero. */
  lemma WheelStep(s: State, w: int)
    requires ValidState(s) && w != 0
    ensures Wheel(s, w) == Wheel(PressKeys(s, WheelKeys(w > 0)), if w > 0 then w - 1 else w + 1)
  {
  }

  /** The extra-button key for a bit of the host mask: the key code, with bit 7 set when the button is up. */
  function ExtraKey(code: bv8, mb: bv8, bit: bv8): bv8
  {
    code | (if mb & bit != 0 then 0x00 else 0x80)
  }

  /**
   * The key one extra button sends: none when its bit did not change,
   * otherwise its key code, a press (bit 7 clear) exactly when the bit is now set.
   */
  function ExtraEdge(diff: bv8, mb: bv8, bit: bv8, code: bv8): (r: seq<bv8>)
    requires code < 0x80
    ensures |r| <= 1 && (r == [] <==> diff & bit == 0)
    ensures r != [] ==> r[0] & 0x7f == code && (r[0] < 0x80 <==> mb & bit != 0)
  {
    if diff & bit != 0 then [ExtraKey(code, mb, bit)] else []
  }

  /** The keys of buttons 3, 4 and 5, in that order, for the previous mask prev and the new mask mb. */
  function ExtraKeys(prev: bv8, mb: bv8): (r: seq<bv8>)
    ensures |r| <= 3
    ensures r == [] <==> (prev ^ mb) & 0x1c == 0
  {
    var diff := mb ^ prev;
    ExtraEdge(diff, mb, 0x04, 0x37) + ExtraEdge(diff, mb, 0x08, 0x5e) + ExtraEdge(diff, mb, 0x10, 0x5f)
  }

  /**
   * Buttons 3, 4 and 5 (mask bits 2, 3, 4) become keys 0x37, 0x5E and 0x5F
   * when they change, one key event each in that order; the mask is then
   * remembered.
   */
  function ExtraButtons(s: State, mb: bv8): (t: State)
    requires ValidState(s)
    ensures ValidState(t)
  {
    var c := PressKeys(s, ExtraKeys(s.statics.mousebOld, mb));
    c.(statics := c.statics.(mousebOld := mb))
  }

  /** One step of the reset countdown; the step that reaches 0 closes the window and sends the ROM version. */
  function Countdown(s: State): (t: State)
    requires ValidState(s) && s.reset.counter != 0
    ensures ValidState(t) && t.reset.counter == s.reset.counter - 1
  {
    var r := s.reset.(counter := s.reset.counter - 1);
    if r.counter == 0
    then Emit(s.(reset := r.(criticalTime := false, mouseEnabledDuringReset := false)), [RomVersion])
    else s.(reset := r)
  }

  /** The report stage outside joystick monitoring: auto joysticks, then the relative or cursor report, then the buttons become the old ones. */
  function Reports(s: State): (t: State)
    requires ValidState(s)
    ensures ValidState(t)
  {
    var f := if s.proc.joystickMode == JoystickAuto then SendAutoJoysticks(s) else s;
    var g := if f.proc.mouseMode == MouseRel then SendRel(f)
             else if f.proc.mouseMode == MouseCursor then SendCursor(f)
             else f;
    g.(kbd := g.kbd.(oldLButton := g.kbd.lButton, oldRButton := g.kbd.rButton))
  }

  /** The tick's stages from the button sample to the position update. */
  function Sample(s: State, inp: HostInput): (t: State)
    requires ValidState(s)
    ensures ValidState(t)
  {
    var a := SampleButtons(s, inp.buttons);
    var b := GetJoystickData(a, inp.joy0, inp.joy1);
    UpdatePosition(IkbdInput.MouseAction(DuplicateFire(b)), inp.mouseX, inp.mouseY)
  }

  /** IKBD_SendAutoKeyboardCommands. */
  function Tick(s: State, inp: HostInput): (t: State)
    requires ValidState(s)
    ensures ValidState(t)
  {
    if s.reset.counter != 0 then Countdown(s)
    else
      var e := Sample(s, inp);
      if e.proc.joystickMode == JoystickMonitoring then Monitor(e)
      else AfterEvent(ExtraButtons(Wheel(Reports(e), inp.wheel), inp.buttons))
  }

  /** The host inputs after a tick: the mouse deltas are taken unless the countdown runs, the wheel only when the tick gets past monitoring. */
  function Residual(s: State, inp: HostInput): (r: HostInput)
    requires ValidState(s)
    ensures r.buttons == inp.buttons && r.joy0 == inp.joy0 && r.joy1 == inp.joy1
    ensures s.reset.counter == 0 ==> r.mouseX == 0 && r.mouseY == 0
    ensures r.wheel == 0 || r.wheel == inp.wheel
  {
    if s.reset.counter != 0 then inp
    else if Sample(s, inp).proc.joystickMode == JoystickMonitoring then inp.(mouseX := 0, mouseY := 0)
    else inp.(mouseX := 0, mouseY := 0, wheel := 0)
  }

  /** While the reset counter runs the inputs are not looked at and the deltas stay with the host. */
  lemma CountdownIgnoresInput(s: State, inp: HostInput, other: HostInput)
    requires ValidState(s) && s.reset.counter != 0
    ensures Tick(s, inp) == Tick(s, other) && Residual(s, inp) == inp
    ensures s.reset.counter > 1 ==> Tick(s, inp) == s.(reset := s.reset.(counter := s.reset.counter - 1))
    ensures s.reset.counter == 1 ==>
              Tick(s, inp).out == s.out + [0xF1] && !Tick(s, inp).reset.criticalTime &&
              !Tick(s, inp).reset.mouseEnabledDuringReset && Tick(s, inp).reset.counter == 0
  {
  }

  /** Several ticks in order. */
  function Ticks(s: State, inps: seq<HostInput>): (t: State)
    requires ValidState(s)
    ensures ValidState(t)
    decreases |inps|
  {
    if inps == [] then s else Ticks(Tick(s, inps[0]), inps[1..])
  }

  /**
   * The reset window: from counter n, the n ticks that follow only count
   * down, and together they send exactly one byte, the ROM version 0xF1,
   * and close the window; nothing else changes.
   */
  lemma {:induction false} ResetWindowCloses(s: State, inps: seq<HostInput>)
    requires ValidState(s) && s.reset.counter == |inps| > 0
    decreases |inps|
    ensures Ticks(s, inps) ==
              s.(reset := s.reset.(counter := 0, criticalTime := false, mouseEnabledDuringReset := false),
                 out := s.out + [RomVersion])
  {
    var t := Tick(s, inps[0]);
    assert Ticks(s, inps) == Ticks(t, inps[1..]);
    if |inps| == 1 {
      assert Ticks(t, inps[1..]) == t;
    } else {
      assert t == s.(reset := s.reset.(counter := s.reset.counter - 1));
      ResetWindowCloses(t, inps[1..]);
    }
  }

  /** A key event outside monitoring, with no custom code running: the scancode is sent and only its key-state entry changes. */
  lemma PressKeyRecords(s: State, code: bv8)
    requires ValidState(s) && s.proc.joystickMode != JoystickMonitoring && !s.load.exeMode
    ensures PressKey(s, code).out == s.out + [code]
    ensures PressKey(s, code).scanCodeState[(code & 0x7f) as int] == (if code < 0x80 then 1 else 0)
    ensures forall k :: 0 <= k < 128 && k != (code & 0x7f) as int ==>
              PressKey(s, code).scanCodeState[k] == s.scanCodeState[k]
    ensures PressKey(s, code).(scanCodeState := s.scanCodeState, out := s.out) == s
  {
    assert (code & 0x80 != 0) == (code >= 0x80);
  }

  /** Key events with no custom code running and no monitoring: the codes go out in order. */
  lemma {:induction false} PressKeysSend(s: State, codes: seq<bv8>)
    requires ValidState(s) && s.proc.joystickMode != JoystickMonitoring && !s.load.exeMode
    ensures PressKeys(s, codes).out == s.out + codes
    ensures PressKeys(s, codes).load == s.load && PressKeys(s, codes).proc == s.proc
    decreases |codes|
  {
    if codes != [] {
      var t := PressKey(s, codes[0]);
      PressKeyRecords(s, codes[0]);
      PressKeysSend(t, codes[1..]);
      assert t.out + codes[1..] == s.out + codes;
    }
  }

  lemma Concat(a: seq<bv8>, b: seq<bv8>, c: seq<bv8>)
    ensures (a + b) + c == a + (b + c)
  {
  }

  /** The notch sequence, |w| times. */
  function Notches(w: int): (r: seq<bv8>)
    ensures |r| == 8 * (if w < 0 then -w else w)
    decreases if w < 0 then -w else w
  {
    if w > 0 then WheelKeys(true) + Notches(w - 1)
    else if w < 0 then WheelKeys(false) + Notches(w + 1)
    else []
  }

  /**
   * The wheel loops, with no custom code running: one eight-key sequence
   * per notch, ending in 0x59 for a positive count and 0x5A for a negative
   * one, and nothing else changes but the key states.
   */
  lemma {:induction false} WheelSends(s: State, w: int)
    requires ValidState(s) && s.proc.joystickMode != JoystickMonitoring && !s.load.exeMode
    ensures Wheel(s, w).out == s.out + Notches(w)
    ensures Wheel(s, w).load == s.load && Wheel(s, w).proc == s.proc
    decreases if w < 0 then -w else w
  {
    if w != 0 {
      var up := w > 0;
      var next := if up then w - 1 else w + 1;
      var keys := WheelKeys(up);
      assert Wheel(s, w) == Wheel(PressKeys(s, keys), next) && Notches(w) == keys + Notches(next);
      PressKeysSend(s, keys);
      WheelSends(PressKeys(s, keys), next);
      Concat(s.out, keys, Notches(next));
    }
  }

  /** No change sends nothing; a change of button 3 alone sends its key. */
  lemma ExtraKeysCases(prev: bv8, mb: bv8)
    ensures mb == prev ==> ExtraKeys(prev, mb) == []
    ensures mb ^ prev == 0x04 ==> ExtraKeys(prev, mb) == [if mb & 0x04 != 0 then 0x37 else 0xb7]
  {
    assert mb ^ mb == 0;
  }

  /**
   * The extra buttons send ExtraKeys: a key for each changed bit among 0x04,
   * 0x08 and 0x10, in that order, a press when the bit is now set; the mask
   * is remembered, so a repeat sends nothing.
   */
  lemma ExtraButtonsSend(s: State, mb: bv8)
    requires ValidState(s) && s.proc.joystickMode != JoystickMonitoring && !s.load.exeMode
    ensures ExtraButtons(s, mb).out == s.out + ExtraKeys(s.statics.mousebOld, mb)
    ensures mb == s.statics.mousebOld ==> ExtraButtons(s, mb).out == s.out
    ensures mb ^ s.statics.mousebOld == 0x04
            ==> ExtraButtons(s, mb).out == s.out + [if mb & 0x04 != 0 then 0x37 else 0xb7]
    ensures ExtraButtons(s, mb).statics.mousebOld == mb
    ensures ExtraButtons(ExtraButtons(s, mb), mb).out == ExtraButtons(s, mb).out
  {
    PressKeysSend(s, ExtraKeys(s.statics.mousebOld, mb));
    ExtraKeysCases(s.statics.mousebOld, mb);
    var t := ExtraButtons(s, mb);
    ExtraKeysCases(mb, mb);
    PressKeysSend(t, []);
  }

  /** The reports change the joystick bytes, the deltas and the buttons, not the position, the modes or the loader. */
  lemma ReportsKeepAbs(e: State)
    requires ValidState(e)
    ensures Reports(e).proc.abs == e.proc.abs && Reports(e).load == e.load
    ensures Reports(e).proc.joystickMode == e.proc.joystickMode
  {
  }

  /** The extra buttons, with no custom code running, change only key states, the output and the remembered mask. */
  lemma ExtraButtonsKeepProc(s: State, mb: bv8)
    requires ValidState(s) && s.proc.joystickMode != JoystickMonitoring && !s.load.exeMode
    ensures ExtraButtons(s, mb).proc == s.proc && ExtraButtons(s, mb).load == s.load
  {
    PressKeysSend(s, ExtraKeys(s.statics.mousebOld, mb));
  }

  /** The rest of a tick after the position update keeps the position and its limits, when no custom code runs. */
  lemma AfterSampleKeepsAbs(e: State, inp: HostInput)
    requires ValidState(e) && e.proc.joystickMode != JoystickMonitoring && !e.load.exeMode
    ensures AfterEvent(ExtraButtons(Wheel(Reports(e), inp.wheel), inp.buttons)).proc.abs == e.proc.abs
  {
    var r := Reports(e);
    ReportsKeepAbs(e);
    WheelSends(r, inp.wheel);
    ExtraButtonsKeepProc(Wheel(r, inp.wheel), inp.buttons);
  }

  /** The absolute position within its limits. */
  predicate InLimits(s: State)
  {
    0 <= s.proc.abs.x <= s.proc.abs.maxX && 0 <= s.proc.abs.y <= s.proc.abs.maxY
  }

  /** A read handler keeps the position, or reboots the ROM, which puts it at 0,0 within 320x200. */
  lemma RunReadKeepsLimits(s: State)
    requires ValidState(s) && InLimits(s)
    ensures InLimits(RunRead(s))
  {
    match s.load.readHandler
    case AudioSculptureColorRead => AudioSculptureKeepsLimits(s, true);
    case AudioSculptureMonoRead => AudioSculptureKeepsLimits(s, false);
    case _ => assert RunRead(s).proc == s.proc;
  }

  lemma AudioSculptureKeepsLimits(s: State, color: bool)
    requires ValidState(s) && InLimits(s)
    ensures InLimits(AudioSculptureRead(s, color))
  {
    BootRomDefaults(s, false);
  }

  lemma AfterEventKeepsLimits(s: State)
    requires ValidState(s) && InLimits(s)
    ensures InLimits(AfterEvent(s))
  {
    if s.load.exeMode {
      RunReadKeepsLimits(s);
    }
  }

  /** A key event keeps the position within its limits, custom code or not. */
  lemma PressKeyKeepsLimits(s: State, code: bv8)
    requires ValidState(s) && InLimits(s)
    ensures InLimits(PressKey(s, code))
  {
    if s.proc.joystickMode != JoystickMonitoring {
      AfterEventKeepsLimits(Emit(s.(scanCodeState := s.scanCodeState[(code & 0x7f) as int := KeyState(code)]), [code]));
    }
  }

  lemma {:induction false} PressKeysKeepLimits(s: State, codes: seq<bv8>)
    requires ValidState(s) && InLimits(s)
    ensures InLimits(PressKeys(s, codes))
    decreases |codes|
  {
    if codes != [] {
      PressKeyKeepsLimits(s, codes[0]);
      PressKeysKeepLimits(PressKey(s, codes[0]), codes[1..]);
    }
  }

  lemma {:induction false} WheelKeepsLimits(s: State, w: int)
    requires ValidState(s) && InLimits(s)
    ensures InLimits(Wheel(s, w))
    decreases if w < 0 then -w else w
  {
    if w != 0 {
      var t := PressKeys(s, WheelKeys(w > 0));
      PressKeysKeepLimits(s, WheelKeys(w > 0));
      var w' := if w > 0 then w - 1 else w + 1;
      WheelKeepsLimits(t, w');
      assert Wheel(s, w) == Wheel(t, w');
    }
  }

  lemma ExtraButtonsKeepLimits(s: State, mb: bv8)
    requires ValidState(s) && InLimits(s)
    ensures InLimits(ExtraButtons(s, mb))
  {
    PressKeysKeepLimits(s, ExtraKeys(s.statics.mousebOld, mb));
  }

  /**
   * After a tick past the reset window the absolute position lies within
   * its limits: the position update clamps it, and what follows either
   * keeps it or, through a custom read handler, reboots the ROM.
   */
  lemma TickPositionInRange(s: State, inp: HostInput)
    requires ValidState(s) && s.reset.counter == 0
    ensures 0 <= Tick(s, inp).proc.abs.x <= Tick(s, inp).proc.abs.maxX
    ensures 0 <= Tick(s, inp).proc.abs.y <= Tick(s, inp).proc.abs.maxY
  {
    var e := Sample(s, inp);
    if e.proc.joystickMode != JoystickMonitoring {
      var r := Reports(e);
      ReportsKeepAbs(e);
      WheelKeepsLimits(r, inp.wheel);
      ExtraButtonsKeepLimits(Wheel(r, inp.wheel), inp.buttons);
      AfterEventKeepsLimits(ExtraButtons(Wheel(r, inp.wheel), inp.buttons));
    }
  }
}
