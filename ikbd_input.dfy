/**
 * The stages of a tick that read the mouse and the joysticks, each as what
 * it does to a State: the button sample, the joystick read with its key
 * events, the fire-button coupling, the mouse-action reports, the
 * absolute-position integration, and the joystick, relative and cursor
 * reports.
 */
module IkbdInput {
  import opened IkbdTypes
  import opened IkbdMouse
  import opened IkbdJoystick
  import opened IkbdState

  /** The button sample at the head of a tick: left from bit 1, right from bit 0 of the host mask. */
  function SampleButtons(s: State, mb: bv8): (t: State)
    requires ValidState(s)
    ensures ValidState(t) && t.kbd.inputBuffer == s.kbd.inputBuffer && t.out == s.out
    ensures t.kbd.lButton & 0xFE == 0 && t.kbd.rButton & 0xFE == 0
    ensures Down(t.kbd.lButton) == (mb & 0x02 != 0) && Down(t.kbd.rButton) == (mb & 0x01 != 0)
  {
    s.(kbd := s.kbd.(lButton := if mb & 0x02 != 0 then ButtonMouse else 0,
                     rButton := if mb & 0x01 != 0 then ButtonMouse else 0))
  }

  /** Joystick 0 shares its port with the mouse: it is read only when the mouse is off, or in the reset-window REL+joystick mode. */
  predicate Joystick0Connected(s: State)
  {
    s.proc.mouseMode == MouseOff || (s.reset.bothMouseAndJoy && s.proc.mouseMode == MouseRel)
  }

  /** The sample of pad p against its host word. */
  function PadRead(s: State, p: nat, w: bv16): Sample
    requires ValidState(s) && p < 4
  {
    PadSample(s.pads[p].memory, s.pads[p].state, w)
  }

  /**
   * IKBD_GetJoystickData: pads 0 and 1 are sampled, pad 0's key events are
   * sent first, both pads remember their words, and JoyData gets pad 1's
   * byte and, when connected, pad 0's.
   */
  function GetJoystickData(s: State, w0: bv16, w1: bv16): (t: State)
    requires ValidState(s)
    ensures ValidState(t) && t.kbd == s.kbd && t.load == s.load && t.reset == s.reset
    ensures t.proc.mouseMode == s.proc.mouseMode && t.proc.joystickMode == s.proc.joystickMode
  {
    var p0 := PadRead(s, 0, w0);
    var p1 := PadRead(s, 1, w1);
    var pads := s.pads[0 := s.pads[0].(state := w0, joystick := p0.joystick)]
                      [1 := s.pads[1].(state := w1, joystick := p1.joystick)];
    s.(pads := pads, out := s.out + p0.events + p1.events,
       proc := s.proc.(joy := s.proc.joy.(data0 := if Joystick0Connected(s) then p0.joystick else 0,
                                          data1 := p1.joystick)))
  }

  /** GetJoystickData from the two pad samples. */
  lemma JoystickDataFrom(s: State, w0: bv16, w1: bv16, j0: bv8, e0: seq<bv8>, j1: bv8, e1: seq<bv8>)
    requires ValidState(s) && Sample(j0, e0) == PadRead(s, 0, w0) && Sample(j1, e1) == PadRead(s, 1, w1)
    ensures GetJoystickData(s, w0, w1) ==
              s.(pads := s.pads[0 := s.pads[0].(state := w0, joystick := j0)][1 := s.pads[1].(state := w1, joystick := j1)],
                 out := s.out + e0 + e1,
                 proc := s.proc.(joy := s.proc.joy.(data0 := if Joystick0Connected(s) then j0 else 0, data1 := j1)))
  {
  }

  /** The joystick read: JoyData[1] is pad 1's byte, JoyData[0] is pad 0's byte or 0 when the mouse holds the port. */
  lemma JoystickBytes(s: State, w0: bv16, w1: bv16)
    requires ValidState(s)
    ensures GetJoystickData(s, w0, w1).proc.joy.data1 == JoyFrom(s.pads[1].memory, WordValue(w1), 0)
    ensures GetJoystickData(s, w0, w1).proc.joy.data0 ==
              if Joystick0Connected(s) then JoyFrom(s.pads[0].memory, WordValue(w0), 0) else 0
  {
  }

  /**
   * The key events of a joystick read: pad 0's, then pad 1's, at most 32 in
   * all, and none when neither pad's word changed.
   */
  lemma JoystickEvents(s: State, w0: bv16, w1: bv16)
    requires ValidState(s)
    ensures GetJoystickData(s, w0, w1).out == s.out + PadRead(s, 0, w0).events + PadRead(s, 1, w1).events
    ensures |GetJoystickData(s, w0, w1).out| <= |s.out| + 32
    ensures w0 == s.pads[0].state && w1 == s.pads[1].state ==> GetJoystickData(s, w0, w1).out == s.out
  {
    var e0, e1 := PadRead(s, 0, w0).events, PadRead(s, 1, w1).events;
    assert GetJoystickData(s, w0, w1).out == s.out + e0 + e1;
    SampleBounded(s.pads[0].memory, s.pads[0].state, w0);
    SampleBounded(s.pads[1].memory, s.pads[1].state, w1);
    if w0 == s.pads[0].state && w1 == s.pads[1].state {
      UnchangedSendsNothing(s.pads[0].memory, w0);
      UnchangedSendsNothing(s.pads[1].memory, w1);
    }
  }

  /** A joystick read records the two words in pads 0 and 1 and changes no map and neither of pads 2 and 3. */
  lemma JoystickPads(s: State, w0: bv16, w1: bv16)
    requires ValidState(s)
    ensures GetJoystickData(s, w0, w1).pads[0].state == w0 && GetJoystickData(s, w0, w1).pads[1].state == w1
    ensures forall p :: 0 <= p < 4 ==> GetJoystickData(s, w0, w1).pads[p].memory == s.pads[p].memory
    ensures GetJoystickData(s, w0, w1).pads[2] == s.pads[2] && GetJoystickData(s, w0, w1).pads[3] == s.pads[3]
  {
  }

  /** The joystick bytes and the right button after IKBD_DuplicateMouseFireButtons. */
  datatype Coupled = Coupled(data0: bv8, data1: bv8, rButton: bv8)

  /**
   * The fire-button coupling on values: with the mouse off the mouse
   * buttons press the joystick fire buttons, with the mouse on joystick 1's
   * fire and the right button are merged.
   */
  function Couple(mouseOff: bool, j0: bv8, j1: bv8, l: bv8, r: bv8): Coupled
  {
    if mouseOff then
      Coupled(if l & ButtonMouse != 0 then j0 | FireMask else j0, if r & ButtonMouse != 0 then j1 | FireMask else j1, r)
    else if j1 & FireMask != 0 || r & ButtonMouse != 0 then Coupled(j0, j1 | FireMask, r | ButtonJoystick)
    else Coupled(j0, j1 & !FireMask, r & !ButtonJoystick)
  }

  /**
   * With the mouse on, joystick 1's fire and the right button become one
   * button, held in both places, set exactly when either was pressed; all
   * other bits and joystick 0 are kept.
   */
  lemma FireCouplingOn(j0: bv8, j1: bv8, l: bv8, r: bv8)
    ensures var c := Couple(false, j0, j1, l, r);
      (c.data1 & FireMask != 0) == (c.rButton & ButtonJoystick != 0) == (j1 & FireMask != 0 || r & ButtonMouse != 0)
    ensures var c := Couple(false, j0, j1, l, r);
      c.data1 & 0x7F == j1 & 0x7F && c.rButton & 0xFD == r & 0xFD && c.data0 == j0
  {
    if j1 & FireMask != 0 || r & ButtonMouse != 0 {
      assert (j1 | 0x80) & 0x80 != 0 && (r | 2) & 2 != 0;
      assert (j1 | 0x80) & 0x7F == j1 & 0x7F && (r | 2) & 0xFD == r & 0xFD;
    } else {
      assert (j1 & 0x7F) & 0x80 == 0 && (r & 0xFD) & 2 == 0;
    }
  }

  /**
   * With the mouse off the right button is left alone, the direction bits
   * are kept, and each joystick's fire bit is set when it or its mouse
   * button (left for joystick 0, right for joystick 1) was pressed.
   */
  lemma FireCouplingOff(j0: bv8, j1: bv8, l: bv8, r: bv8)
    ensures var c := Couple(true, j0, j1, l, r);
      c.rButton == r && c.data0 & 0x7F == j0 & 0x7F && c.data1 & 0x7F == j1 & 0x7F
    ensures (Couple(true, j0, j1, l, r).data0 & FireMask != 0) == (j0 & FireMask != 0 || l & ButtonMouse != 0)
    ensures (Couple(true, j0, j1, l, r).data1 & FireMask != 0) == (j1 & FireMask != 0 || r & ButtonMouse != 0)
  {
  }

  /** IKBD_DuplicateMouseFireButtons on the state. */
  function DuplicateFire(s: State): (t: State)
    requires ValidState(s)
    ensures ValidState(t) && t.kbd.inputBuffer == s.kbd.inputBuffer && t.out == s.out && t.load == s.load
  {
    var c := Couple(s.proc.mouseMode == MouseOff, s.proc.joy.data0, s.proc.joy.data1, s.kbd.lButton, s.kbd.rButton);
    s.(proc := s.proc.(joy := s.proc.joy.(data0 := c.data0, data1 := c.data1)),
       kbd := s.kbd.(rButton := c.rButton))
  }

  /** IKBD_Cmd_ReadAbsMousePos: the absolute report, whose button state becomes the previous one. */
  function ReadAbs(s: State): (t: State)
    requires ValidState(s)
    ensures ValidState(t) && t.kbd == s.kbd && t.load == s.load
    ensures t.out == s.out + AbsReport(s.kbd.lButton, s.kbd.rButton, s.proc.abs.prevButtons, s.proc.abs.x, s.proc.abs.y)
    ensures t.proc.abs.prevButtons == AbsButtons(s.kbd.lButton, s.kbd.rButton)
  {
    Emit(s, AbsReport(s.kbd.lButton, s.kbd.rButton, s.proc.abs.prevButtons, s.proc.abs.x, s.proc.abs.y))
      .(proc := s.proc.(abs := s.proc.abs.(prevButtons := AbsButtons(s.kbd.lButton, s.kbd.rButton))))
  }

  /** The button went down since the last tick. */
  predicate Pressed(was: bv8, now: bv8)
  {
    Down(now) && !Down(was)
  }

  /**
   * The mouse-action bookkeeping on the previous-buttons mask: a press
   * under action bit 0 clears that button's down bit, a release under bit 1
   * clears its up bit, so that the next absolute report shows the edge.
   */
  function ActionPrev(action: bv8, prev: bv8, oldL: bv8, l: bv8, oldR: bv8, r: bv8): bv8
  {
    var p1 := if action & 1 != 0 && Pressed(oldL, l) then (prev & !0x04) | 0x02 else prev;
    var p2 := if action & 1 != 0 && Pressed(oldR, r) then (p1 & !0x01) | 0x08 else p1;
    var p3 := if action & 2 != 0 && Pressed(l, oldL) then (p2 & !0x08) | 0x01 else p2;
    if action & 2 != 0 && Pressed(r, oldR) then (p3 & !0x02) | 0x04 else p3
  }

  /** A press is reported under action bit 0, a release under action bit 1. */
  predicate ActionEdge(action: bv8, oldL: bv8, l: bv8, oldR: bv8, r: bv8)
  {
    (action & 1 != 0 && (Pressed(oldL, l) || Pressed(oldR, r)))
    || (action & 2 != 0 && (Pressed(l, oldL) || Pressed(r, oldR)))
  }

  /**
   * IKBD_SendOnMouseAction: with action bit 2 the button edges go out as
   * keys 0x74/0x75 and nothing else happens; otherwise, with bit 0 or 1, a
   * matching edge updates the previous-buttons mask and, in absolute mode,
   * sends an absolute report.
   */
  function MouseAction(s: State): (t: State)
    requires ValidState(s)
    ensures ValidState(t) && t.kbd == s.kbd && t.load == s.load
  {
    var k := s.kbd;
    if s.proc.mouse.action & 4 != 0 then Emit(s, ButtonKeys(k.oldLButton, k.lButton, k.oldRButton, k.rButton))
    else if s.proc.mouse.action & 3 == 0 then s
    else
      var prev := ActionPrev(s.proc.mouse.action, s.proc.abs.prevButtons, k.oldLButton, k.lButton, k.oldRButton, k.rButton);
      var u := s.(proc := s.proc.(abs := s.proc.abs.(prevButtons := prev)));
      if ActionEdge(s.proc.mouse.action, k.oldLButton, k.lButton, k.oldRButton, k.rButton) && s.proc.mouseMode == MouseAbs
      then ReadAbs(u) else u
  }

  /**
   * Pressing the left button: under "buttons as keys" the single key 0x74
   * is sent; under "report on press" in absolute mode one absolute report
   * is sent whose button byte shows the left button down; with no action
   * bit set nothing happens.
   */
  lemma MouseActionReportsPress(s: State)
    requires ValidState(s) && Pressed(s.kbd.oldLButton, s.kbd.lButton) && ButtonsEqual(s.kbd.oldRButton, s.kbd.rButton)
    ensures s.proc.mouse.action & 4 != 0 ==> MouseAction(s).out == s.out + [0x74]
    ensures s.proc.mouse.action & 7 == 1 && s.proc.mouseMode == MouseAbs ==>
              |MouseAction(s).out| == |s.out| + 6 && MouseAction(s).out[|s.out|] == 0xF7 &&
              MouseAction(s).out[|s.out| + 1] & 0x04 != 0
    ensures s.proc.mouse.action & 7 == 0 ==> MouseAction(s) == s
    ensures s.proc.mouse.action & 7 == 2 ==> MouseAction(s).out == s.out
    ensures s.proc.mouse.action & 7 == 1 && s.proc.mouseMode != MouseAbs ==> MouseAction(s).out == s.out
  {
    if s.proc.mouse.action & 7 == 1 && s.proc.mouseMode == MouseAbs {
      var prev := ActionPrev(s.proc.mouse.action, s.proc.abs.prevButtons, s.kbd.oldLButton, s.kbd.lButton, s.kbd.oldRButton, s.kbd.rButton);
      assert prev & 0x04 == 0;
    }
  }

  /**
   * Releasing the left button: under "buttons as keys" the break code 0xF4
   * is sent; under "report on release" in absolute mode one absolute report
   * is sent whose button byte shows the left button up; "report on press"
   * alone sends nothing.
   */
  lemma MouseActionReportsRelease(s: State)
    requires ValidState(s) && Pressed(s.kbd.lButton, s.kbd.oldLButton) && ButtonsEqual(s.kbd.oldRButton, s.kbd.rButton)
    ensures s.proc.mouse.action & 4 != 0 ==> MouseAction(s).out == s.out + [0xF4]
    ensures s.proc.mouse.action & 7 == 2 && s.proc.mouseMode == MouseAbs ==>
              |MouseAction(s).out| == |s.out| + 6 && MouseAction(s).out[|s.out|] == 0xF7 &&
              MouseAction(s).out[|s.out| + 1] & 0x08 != 0
    ensures s.proc.mouse.action & 7 == 1 ==> MouseAction(s).out == s.out
  {
    if s.proc.mouse.action & 7 == 2 && s.proc.mouseMode == MouseAbs {
      var prev := ActionPrev(s.proc.mouse.action, s.proc.abs.prevButtons, s.kbd.oldLButton, s.kbd.lButton, s.kbd.oldRButton, s.kbd.rButton);
      assert prev & 0x08 == 0;
    }
  }

  /**
   * Under "buttons as keys" the right button sends 0x75 when it goes down
   * and 0xF5 when it comes up, after the left button's key if that changed
   * too; the previous-buttons mask is left alone.
   */
  lemma MouseActionRightKeys(s: State)
    requires ValidState(s) && s.proc.mouse.action & 4 != 0
    ensures Pressed(s.kbd.oldRButton, s.kbd.rButton) && ButtonsEqual(s.kbd.oldLButton, s.kbd.lButton)
            ==> MouseAction(s).out == s.out + [0x75]
    ensures Pressed(s.kbd.rButton, s.kbd.oldRButton) && ButtonsEqual(s.kbd.oldLButton, s.kbd.lButton)
            ==> MouseAction(s).out == s.out + [0xF5]
    ensures Pressed(s.kbd.oldLButton, s.kbd.lButton) && Pressed(s.kbd.oldRButton, s.kbd.rButton)
            ==> MouseAction(s).out == s.out + [0x74, 0x75]
    ensures MouseAction(s).proc == s.proc
  {
  }

  /**
   * IKBD_UpdateInternalMousePosition: the host deltas become Mouse.DeltaX/Y,
   * and the absolute position moves by them (Y times YAxis, each scaled
   * only when its scale exceeds 1), clamped to 0..Max.
   */
  function UpdatePosition(s: State, mx: int, my: int): (t: State)
    requires ValidState(s)
    ensures ValidState(t) && t.kbd == s.kbd && t.out == s.out && t.load == s.load
    ensures t.proc.mouse.deltaX == mx && t.proc.mouse.deltaY == my
    ensures 0 <= t.proc.abs.x <= s.proc.abs.maxX && 0 <= t.proc.abs.y <= s.proc.abs.maxY
  {
    var m := s.proc.mouse;
    var a := s.proc.abs;
    s.(proc := s.proc.(mouse := m.(deltaX := mx, deltaY := my),
                       abs := a.(x := Clamp(a.x + Scaled(mx, m.xScale), a.maxX),
                                 y := Clamp(a.y + Scaled(my * m.yAxis, m.yScale), a.maxY))))
  }

  /** The position moves exactly by the (scaled) delta when that stays in range, and stops at the edges otherwise. */
  lemma PositionMovesByDelta(s: State, mx: int, my: int)
    requires ValidState(s)
    ensures s.proc.mouse.xScale <= 1 && 0 <= s.proc.abs.x + mx <= s.proc.abs.maxX ==>
              UpdatePosition(s, mx, my).proc.abs.x == s.proc.abs.x + mx
    ensures s.proc.mouse.xScale > 1 && 0 <= s.proc.abs.x + mx * s.proc.mouse.xScale <= s.proc.abs.maxX ==>
              UpdatePosition(s, mx, my).proc.abs.x == s.proc.abs.x + mx * s.proc.mouse.xScale
    ensures s.proc.mouse.yScale <= 1 && 0 <= s.proc.abs.y + my * s.proc.mouse.yAxis <= s.proc.abs.maxY ==>
              UpdatePosition(s, mx, my).proc.abs.y == s.proc.abs.y + my * s.proc.mouse.yAxis
    ensures s.proc.abs.x + Scaled(mx, s.proc.mouse.xScale) < 0 ==> UpdatePosition(s, mx, my).proc.abs.x == 0
    ensures s.proc.abs.x + Scaled(mx, s.proc.mouse.xScale) > s.proc.abs.maxX ==>
              UpdatePosition(s, mx, my).proc.abs.x == s.proc.abs.maxX
  {
    Integrate(s.proc.abs.x, mx, s.proc.mouse.xScale, s.proc.abs.maxX);
    Integrate(s.proc.abs.y, my * s.proc.mouse.yAxis, s.proc.mouse.yScale, s.proc.abs.maxY);
  }

  /** IKBD_SendAutoJoysticks: a packet per stick whose byte changed; then every byte is the previous one. */
  function SendAutoJoysticks(s: State): (t: State)
    requires ValidState(s)
    ensures ValidState(t) && t.kbd == s.kbd && t.load == s.load && t.reset == s.reset
    ensures t.proc.mouseMode == s.proc.mouseMode && t.proc.joystickMode == s.proc.joystickMode
    ensures t.proc.joy.prev0 == s.proc.joy.data0 && t.proc.joy.prev1 == s.proc.joy.data1
  {
    var j := s.proc.joy;
    Emit(s, AutoPacket(0xFE, j.prev0, j.data0) + AutoPacket(0xFF, j.prev1, j.data1))
      .(proc := s.proc.(joy := j.(prev0 := j.data0, prev1 := j.data1)))
  }

  /**
   * An unchanged stick sends nothing, a changed one sends its header and
   * byte, stick 0 first; a second report with nothing changed is silent.
   */
  lemma AutoJoysticksOnChange(s: State)
    requires ValidState(s)
    ensures s.proc.joy.data0 == s.proc.joy.prev0 && s.proc.joy.data1 == s.proc.joy.prev1 ==>
              SendAutoJoysticks(s).out == s.out
    ensures s.proc.joy.data0 != s.proc.joy.prev0 && s.proc.joy.data1 == s.proc.joy.prev1 ==>
              SendAutoJoysticks(s).out == s.out + [0xFE, s.proc.joy.data0]
    ensures s.proc.joy.data0 == s.proc.joy.prev0 && s.proc.joy.data1 != s.proc.joy.prev1 ==>
              SendAutoJoysticks(s).out == s.out + [0xFF, s.proc.joy.data1]
    ensures s.proc.joy.data0 != s.proc.joy.prev0 && s.proc.joy.data1 != s.proc.joy.prev1 ==>
              SendAutoJoysticks(s).out == s.out + [0xFE, s.proc.joy.data0, 0xFF, s.proc.joy.data1]
    ensures SendAutoJoysticks(SendAutoJoysticks(s)).out == SendAutoJoysticks(s).out
  {
  }

  /** IKBD_SendAutoJoysticksMonitoring: the two-byte fire and direction summary. */
  function Monitor(s: State): (t: State)
    requires ValidState(s)
    ensures ValidState(t) && t.kbd == s.kbd && t.load == s.load
    ensures t.out == s.out + MonitorBytes(s.proc.joy.data0, s.proc.joy.data1)
  {
    Emit(s, MonitorBytes(s.proc.joy.data0, s.proc.joy.data1))
  }

  /** The loop test of IKBD_SendRelMousePacket on the state. */
  predicate RelDue(s: State)
  {
    RelTrigger(s.proc.mouse.deltaX, s.proc.mouse.deltaY, s.proc.mouse.xThreshold, s.proc.mouse.yThreshold,
               s.kbd.oldLButton, s.kbd.lButton, s.kbd.oldRButton, s.kbd.rButton)
  }

  /**
   * IKBD_SendRelMousePacket: when a wrapped delta reaches its threshold or a
   * button changed, one packet; each delta then loses the byte sent and the
   * buttons become the old buttons.
   */
  function SendRel(s: State): (t: State)
    requires ValidState(s)
    ensures ValidState(t) && t.kbd.inputBuffer == s.kbd.inputBuffer && t.load == s.load
  {
    var m := s.proc.mouse;
    if RelDue(s)
    then Emit(s, RelPacket(m.deltaX, m.deltaY, m.yAxis, s.kbd.lButton, s.kbd.rButton))
           .(proc := s.proc.(mouse := m.(deltaX := m.deltaX - Int8(m.deltaX), deltaY := m.deltaY - Int8(m.deltaY))),
             kbd := s.kbd.(oldLButton := s.kbd.lButton, oldRButton := s.kbd.rButton))
    else s
  }

  /**
   * The relative report: nothing when both wrapped deltas are below their
   * thresholds and the buttons are unchanged; otherwise exactly one
   * three-byte packet with the header, the wrapped X and the wrapped Y
   * times YAxis, after which both deltas are multiples of 256 and the loop
   * test is false, so a second report sends nothing.
   */
  lemma RelReport(s: State)
    requires ValidState(s)
    ensures !RelDue(s) ==> SendRel(s) == s
    ensures RelDue(s) ==>
              SendRel(s).out == s.out + [RelHeader(s.kbd.lButton, s.kbd.rButton), Low8(s.proc.mouse.deltaX),
                                         Low8(Int8(s.proc.mouse.deltaY) * s.proc.mouse.yAxis)] &&
              SendRel(s).proc.mouse.deltaX % 256 == 0 && SendRel(s).proc.mouse.deltaY % 256 == 0
    ensures !RelDue(SendRel(s))
  {
    var m := s.proc.mouse;
    if RelDue(s) {
      Residue(m.deltaX);
      Residue(m.deltaY);
      AtMostOnePacket(m.deltaX, m.deltaY, m.xThreshold, m.yThreshold, s.kbd.lButton, s.kbd.rButton);
    }
  }

  /** The cursor-key loop of IKBD_SendCursorMousePacket, from the current deltas and buttons. */
  function CursorRun(s: State): CursorResult
  {
    CursorFrom(0, s.proc.mouse.deltaX, s.proc.mouse.deltaY, s.proc.mouse.keyCodeDeltaX as int, s.proc.mouse.keyCodeDeltaY as int,
               s.kbd.oldLButton, s.kbd.lButton, s.kbd.oldRButton, s.kbd.rButton)
  }

  /** The loop test of IKBD_SendCursorMousePacket on the state. */
  predicate CursorDue(s: State)
  {
    CursorMoving(s.proc.mouse.deltaX, s.proc.mouse.deltaY, s.kbd.oldLButton, s.kbd.lButton, s.kbd.oldRButton, s.kbd.rButton)
  }

  /**
   * IKBD_SendCursorMousePacket: the keys of up to 10 iterations go out, the
   * deltas keep what the steps did not convert, and the buttons become the
   * old buttons when the loop ran at all.
   */
  function SendCursor(s: State): (t: State)
    requires ValidState(s)
    ensures ValidState(t) && t.kbd.inputBuffer == s.kbd.inputBuffer && t.load == s.load
    ensures t.out == s.out + CursorRun(s).keys
  {
    var c := CursorRun(s);
    Emit(s, c.keys).(proc := s.proc.(mouse := s.proc.mouse.(deltaX := c.dx, deltaY := c.dy)),
                     kbd := if CursorDue(s) then s.kbd.(oldLButton := s.kbd.lButton, oldRButton := s.kbd.rButton)
                            else s.kbd)
  }

  /** With steps of at least 1 the cursor keys never overshoot: each delta moves towards 0 without changing sign. */
  lemma CursorTowardsZero(s: State)
    requires ValidState(s) && s.proc.mouse.keyCodeDeltaX >= 1 && s.proc.mouse.keyCodeDeltaY >= 1
    ensures s.proc.mouse.deltaX >= 0 ==> 0 <= SendCursor(s).proc.mouse.deltaX <= s.proc.mouse.deltaX
    ensures s.proc.mouse.deltaX <= 0 ==> s.proc.mouse.deltaX <= SendCursor(s).proc.mouse.deltaX <= 0
    ensures s.proc.mouse.deltaY >= 0 ==> 0 <= SendCursor(s).proc.mouse.deltaY <= s.proc.mouse.deltaY
    ensures s.proc.mouse.deltaY <= 0 ==> s.proc.mouse.deltaY <= SendCursor(s).proc.mouse.deltaY <= 0
  {
    var m := s.proc.mouse;
    CursorNeverOvershoots(0, m.deltaX, m.deltaY, m.keyCodeDeltaX as int, m.keyCodeDeltaY as int,
                          s.kbd.oldLButton, s.kbd.lButton, s.kbd.oldRButton, s.kbd.rButton);
  }

  /** With the buttons unchanged, deltas smaller than their steps are kept whole and no key is sent. */
  lemma CursorSmallMove(s: State)
    requires ValidState(s) && s.proc.mouse.keyCodeDeltaX >= 1 && s.proc.mouse.keyCodeDeltaY >= 1
    requires -(s.proc.mouse.keyCodeDeltaX as int) < s.proc.mouse.deltaX < s.proc.mouse.keyCodeDeltaX as int
    requires -(s.proc.mouse.keyCodeDeltaY as int) < s.proc.mouse.deltaY < s.proc.mouse.keyCodeDeltaY as int
    requires s.kbd.oldLButton == s.kbd.lButton && s.kbd.oldRButton == s.kbd.rButton
    ensures SendCursor(s).out == s.out && SendCursor(s).proc.mouse == s.proc.mouse
  {
    var m := s.proc.mouse;
    CursorSmallMoveKept(0, m.deltaX, m.deltaY, m.keyCodeDeltaX as int, m.keyCodeDeltaY as int, s.kbd.lButton, s.kbd.rButton);
  }
}
