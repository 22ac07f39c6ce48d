/**
 * Set, then ask: each status report (0x87..0x9A) sent after the command
 * that sets the reported value is Status of that very command message,
 * the header 0xF6, the message and zero padding, so a host can save the
 * keyboard processor's settings and replay them.  The dispatch lemmas
 * say which function Handle runs for a setter and for a report; the
 * lemmas after them say what that report sends after that setter.
 */
module IkbdStatus {
  import opened IkbdTypes
  import opened IkbdState
  import opened IkbdFramer
  import opened IkbdCommands
  import IkbdReplies

  /** Two bytes of equal value are equal. */
  lemma SameByte(a: bv8, b: bv8)
    requires a as int == b as int
    ensures a == b
  {
    assert a == (a as int) as bv8;
    assert b == (b as int) as bv8;
  }

  /** A byte stored as a number travels back as itself. */
  lemma ByteBack(b: bv8)
    ensures Low8(b as int) == b
  {
    var n := b as int;
    assert 0 <= n < 256;
    assert n % 256 == n;
    SameByte(Low8(n), b);
  }

  /** The two bytes of a 16-bit word travel back as themselves, high byte first. */
  lemma WordBack(hi: bv8, lo: bv8)
    ensures Low8(Word(hi, lo) / 256) == hi && Low8(Word(hi, lo)) == lo
  {
    var w := Word(hi, lo);
    var h, l := hi as int, lo as int;
    assert 0 <= h < 256 && 0 <= l < 256;
    assert w / 256 == h && w % 256 == l;
    assert h % 256 == h;
    SameByte(Low8(w / 256), hi);
    SameByte(Low8(w), lo);
  }

  /** A mouse status report command sends Report of the processor record and changes nothing else. */
  lemma HandleMouseReports(s: State, c: Command, msg: seq<bv8>, w0: bv16, w1: bv16)
    requires ValidState(s) && |msg| == 1
    requires c.ReportMouseAction? || c.ReportMouseMode? || c.ReportMouseThreshold? || c.ReportMouseScale?
    ensures Handle(s, c, msg, w0, w1) == s.(out := s.out + Report(s.proc, c))
  {
  }

  /** The other status report commands send Report of the processor record and change nothing else. */
  lemma HandleModeReports(s: State, c: Command, msg: seq<bv8>, w0: bv16, w1: bv16)
    requires ValidState(s) && |msg| == 1
    requires c.ReportMouseVertical? || c.ReportMouseAvailability? || c.ReportJoystickMode? || c.ReportJoystickAvailability?
    ensures Handle(s, c, msg, w0, w1) == s.(out := s.out + Report(s.proc, c))
  {
  }

  /** 0x07, 0x08 and 0x09 run their command functions. */
  lemma HandleModeSetters(s: State, c: Command, msg: seq<bv8>, w0: bv16, w1: bv16)
    requires ValidState(s) && |msg| == Arity(c)
    ensures c == MouseAction ==> Handle(s, c, msg, w0, w1) == CmdMouseAction(s, msg)
    ensures c == RelMouseMode ==> Handle(s, c, msg, w0, w1) == CmdRelMouseMode(s)
    ensures c == AbsMouseMode ==> Handle(s, c, msg, w0, w1) == CmdAbsMouseMode(s, msg)
  {
  }

  /** 0x0A, 0x0B and 0x0C run their command functions. */
  lemma HandleMouseSetters(s: State, c: Command, msg: seq<bv8>, w0: bv16, w1: bv16)
    requires ValidState(s) && |msg| == Arity(c)
    ensures c == MouseCursorKeycodes ==> Handle(s, c, msg, w0, w1) == CmdMouseCursorKeycodes(s, msg)
    ensures c == SetMouseThreshold ==> Handle(s, c, msg, w0, w1) == CmdSetMouseThreshold(s, msg)
    ensures c == SetMouseScale ==> Handle(s, c, msg, w0, w1) == CmdSetMouseScale(s, msg)
  {
  }

  /** 0x0F, 0x10 and 0x12 run their command functions. */
  lemma HandleAxisSetters(s: State, c: Command, msg: seq<bv8>, w0: bv16, w1: bv16)
    requires ValidState(s) && |msg| == Arity(c)
    ensures c == SetYAxisDown ==> Handle(s, c, msg, w0, w1) == CmdSetYAxis(s, -1)
    ensures c == SetYAxisUp ==> Handle(s, c, msg, w0, w1) == CmdSetYAxis(s, 1)
    ensures c == TurnMouseOff ==> Handle(s, c, msg, w0, w1) == CmdTurnMouseOff(s)
  {
  }

  /** 0x14 runs its command function on the two joystick ports. */
  lemma HandleJoystickAuto(s: State, c: Command, msg: seq<bv8>, w0: bv16, w1: bv16)
    requires ValidState(s) && c.ReturnJoystickAuto? && |msg| == 1
    ensures Handle(s, c, msg, w0, w1) == CmdReturnJoystickAuto(s, w0, w1)
  {
  }

  /** 0x15 and 0x1A run their command functions. */
  lemma HandleJoystickSetters(s: State, c: Command, msg: seq<bv8>, w0: bv16, w1: bv16)
    requires ValidState(s) && |msg| == Arity(c)
    ensures c == StopJoystick ==> Handle(s, c, msg, w0, w1) == CmdStopJoystick(s)
    ensures c == DisableJoysticks ==> Handle(s, c, msg, w0, w1) == CmdDisableJoysticks(s)
  {
  }

  /** 0x07 then 0x87: the reply replays the 0x07 message. */
  lemma ActionReported(s: State, msg: seq<bv8>)
    requires ValidState(s) && |msg| == 2 && msg[0] == 0x07
    ensures Report(CmdMouseAction(s, msg).proc, ReportMouseAction) == IkbdReplies.Status(msg)
  {
    assert msg == [0x07, msg[1]];
  }

  /** 0x08 then 0x88: the reply replays 0x08. */
  lemma RelReported(s: State)
    requires ValidState(s)
    ensures Report(CmdRelMouseMode(s).proc, ReportMouseMode) == IkbdReplies.Status([0x08])
  {
  }

  /** 0x09 then 0x88: the reply replays the 0x09 message, the two maxima byte for byte as they were set. */
  lemma AbsReported(s: State, msg: seq<bv8>)
    requires ValidState(s) && |msg| == 5 && msg[0] == 0x09
    ensures Report(CmdAbsMouseMode(s, msg).proc, ReportMouseMode) == IkbdReplies.Status(msg)
  {
    var p := CmdAbsMouseMode(s, msg).proc;
    AbsReply(msg, p.mouse.keyCodeDeltaX, p.mouse.keyCodeDeltaY);
  }

  /** The absolute-mode report sends each maximum as the two bytes of the 0x09 message it was built from. */
  lemma AbsReply(msg: seq<bv8>, kx: bv8, ky: bv8)
    requires |msg| == 5 && msg[0] == 0x09
    ensures IkbdReplies.ReportMouseMode(MouseAbs, Word(msg[1], msg[2]), Word(msg[3], msg[4]), kx, ky)
         == IkbdReplies.Status(msg)
  {
    WordBack(msg[1], msg[2]);
    WordBack(msg[3], msg[4]);
    assert msg == [0x09, msg[1], msg[2], msg[3], msg[4]];
  }

  /** 0x0A then 0x88: the reply replays the 0x0A message with the two step sizes. */
  lemma CursorReported(s: State, msg: seq<bv8>)
    requires ValidState(s) && |msg| == 3 && msg[0] == 0x0A
    ensures Report(CmdMouseCursorKeycodes(s, msg).proc, ReportMouseMode) == IkbdReplies.Status(msg)
  {
    assert msg == [0x0A, msg[1], msg[2]];
  }

  /** 0x0B then 0x8B: the reply replays the 0x0B message with the two thresholds. */
  lemma ThresholdReported(s: State, msg: seq<bv8>)
    requires ValidState(s) && |msg| == 3 && msg[0] == 0x0B
    ensures Report(CmdSetMouseThreshold(s, msg).proc, ReportMouseThreshold) == IkbdReplies.Status(msg)
  {
    ThresholdReply(msg);
  }

  /** The threshold report sends the thresholds of a 0x0B message as they were sent. */
  lemma ThresholdReply(msg: seq<bv8>)
    requires |msg| == 3 && msg[0] == 0x0B
    ensures IkbdReplies.ReportMouseThreshold(msg[1] as int, msg[2] as int) == IkbdReplies.Status(msg)
  {
    ByteBack(msg[1]);
    ByteBack(msg[2]);
    assert msg == [0x0B, msg[1], msg[2]];
  }

  /** 0x0C then 0x8C: the reply replays the 0x0C message with the two scales. */
  lemma ScaleReported(s: State, msg: seq<bv8>)
    requires ValidState(s) && |msg| == 3 && msg[0] == 0x0C
    ensures Report(CmdSetMouseScale(s, msg).proc, ReportMouseScale) == IkbdReplies.Status(msg)
  {
    ScaleReply(msg);
  }

  /** The scale report sends the scales of a 0x0C message as they were sent. */
  lemma ScaleReply(msg: seq<bv8>)
    requires |msg| == 3 && msg[0] == 0x0C
    ensures IkbdReplies.ReportMouseScale(msg[1] as int, msg[2] as int) == IkbdReplies.Status(msg)
  {
    ByteBack(msg[1]);
    ByteBack(msg[2]);
    assert msg == [0x0C, msg[1], msg[2]];
  }

  /** 0x0F then 0x8F: the reply replays 0x0F. */
  lemma DownReported(s: State)
    requires ValidState(s)
    ensures Report(CmdSetYAxis(s, -1).proc, ReportMouseVertical) == IkbdReplies.Status([0x0F])
  {
  }

  /** 0x10 then 0x8F: the reply replays 0x10. */
  lemma UpReported(s: State)
    requires ValidState(s)
    ensures Report(CmdSetYAxis(s, 1).proc, ReportMouseVertical) == IkbdReplies.Status([0x10])
  {
  }

  /** 0x14 then 0x94: the reply replays 0x14. */
  lemma AutoReported(s: State, w0: bv16, w1: bv16)
    requires ValidState(s)
    ensures Report(CmdReturnJoystickAuto(s, w0, w1).proc, ReportJoystickMode) == IkbdReplies.Status([0x14])
  {
    AutoModeReply(CmdReturnJoystickAuto(s, w0, w1).proc);
  }

  /** In automatic mode the joystick-mode report is 0x14. */
  lemma AutoModeReply(p: Processor)
    requires p.joystickMode == IkbdTypes.JoystickAuto
    ensures Report(p, ReportJoystickMode) == IkbdReplies.Status([0x14])
  {
  }

  /** 0x15 then 0x94: the reply replays 0x15. */
  lemma StopReported(s: State)
    requires ValidState(s)
    ensures Report(CmdStopJoystick(s).proc, ReportJoystickMode) == IkbdReplies.Status([0x15])
  {
  }

  /** Outside the reset window, 0x12 then 0x92: the reply replays 0x12. */
  lemma MouseOffReported(s: State)
    requires ValidState(s) && !s.reset.criticalTime
    ensures Report(CmdTurnMouseOff(s).proc, ReportMouseAvailability) == IkbdReplies.Status([0x12])
  {
  }

  /** Outside the reset window, 0x1A then 0x9A: the reply replays 0x1A. */
  lemma JoysticksOffReported(s: State)
    requires ValidState(s) && !s.reset.criticalTime
    ensures Report(CmdDisableJoysticks(s).proc, ReportJoystickAvailability) == IkbdReplies.Status([0x1A])
  {
  }

  /**
   * Everything sent once Handle has run setter c on message msg and then
   * report command r on its one-byte message ask.
   */
  function Exchange(s: State, c: Command, msg: seq<bv8>, r: Command, ask: bv8, w0: bv16, w1: bv16): seq<bv8>
    requires ValidState(s) && |msg| == Arity(c) && Arity(r) == 1
  {
    var t := Handle(s, c, msg, w0, w1);
    Handle(t, r, [ask], w0, w1).out
  }

  /** 0x07 a, then 0x87: the reply is 0xF6, the 0x07 message as sent, and zero padding. */
  lemma ActionThenReport(s: State, msg: seq<bv8>, w0: bv16, w1: bv16)
    requires ValidState(s) && |msg| == 2 && msg[0] == 0x07
    ensures Exchange(s, MouseAction, msg, ReportMouseAction, 0x87, w0, w1)
         == Handle(s, MouseAction, msg, w0, w1).out + IkbdReplies.Status(msg)
  {
    var t := Handle(s, MouseAction, msg, w0, w1);
    HandleModeSetters(s, MouseAction, msg, w0, w1);
    ActionReported(s, msg);
    HandleMouseReports(t, ReportMouseAction, [0x87], w0, w1);
  }

  /** 0x08, then 0x88: the reply is 0xF6 0x08 and zero padding. */
  lemma RelThenReport(s: State, w0: bv16, w1: bv16)
    requires ValidState(s)
    ensures Exchange(s, RelMouseMode, [0x08], ReportMouseMode, 0x88, w0, w1)
         == Handle(s, RelMouseMode, [0x08], w0, w1).out + IkbdReplies.Status([0x08])
  {
    var t := Handle(s, RelMouseMode, [0x08], w0, w1);
    HandleModeSetters(s, RelMouseMode, [0x08], w0, w1);
    RelReported(s);
    HandleMouseReports(t, ReportMouseMode, [0x88], w0, w1);
  }

  /** 0x09 and the two maxima, then 0x88: the reply is 0xF6, the 0x09 message as sent, and zero padding. */
  lemma AbsThenReport(s: State, msg: seq<bv8>, w0: bv16, w1: bv16)
    requires ValidState(s) && |msg| == 5 && msg[0] == 0x09
    ensures Exchange(s, AbsMouseMode, msg, ReportMouseMode, 0x88, w0, w1)
         == Handle(s, AbsMouseMode, msg, w0, w1).out + IkbdReplies.Status(msg)
  {
    var t := Handle(s, AbsMouseMode, msg, w0, w1);
    HandleModeSetters(s, AbsMouseMode, msg, w0, w1);
    AbsReported(s, msg);
    HandleMouseReports(t, ReportMouseMode, [0x88], w0, w1);
  }

  /** 0x0A dx dy, then 0x88: the reply is 0xF6, the 0x0A message as sent, and zero padding. */
  lemma CursorThenReport(s: State, msg: seq<bv8>, w0: bv16, w1: bv16)
    requires ValidState(s) && |msg| == 3 && msg[0] == 0x0A
    ensures Exchange(s, MouseCursorKeycodes, msg, ReportMouseMode, 0x88, w0, w1)
         == Handle(s, MouseCursorKeycodes, msg, w0, w1).out + IkbdReplies.Status(msg)
  {
    var t := Handle(s, MouseCursorKeycodes, msg, w0, w1);
    HandleMouseSetters(s, MouseCursorKeycodes, msg, w0, w1);
    CursorReported(s, msg);
    HandleMouseReports(t, ReportMouseMode, [0x88], w0, w1);
  }

  /** 0x0B x y, then 0x8B: the reply is 0xF6, the 0x0B message as sent, and zero padding. */
  lemma ThresholdThenReport(s: State, msg: seq<bv8>, w0: bv16, w1: bv16)
    requires ValidState(s) && |msg| == 3 && msg[0] == 0x0B
    ensures Exchange(s, SetMouseThreshold, msg, ReportMouseThreshold, 0x8B, w0, w1)
         == Handle(s, SetMouseThreshold, msg, w0, w1).out + IkbdReplies.Status(msg)
  {
    var t := Handle(s, SetMouseThreshold, msg, w0, w1);
    HandleMouseSetters(s, SetMouseThreshold, msg, w0, w1);
    ThresholdReported(s, msg);
    HandleMouseReports(t, ReportMouseThreshold, [0x8B], w0, w1);
  }

  /** 0x0C x y, then 0x8C: the reply is 0xF6, the 0x0C message as sent, and zero padding. */
  lemma ScaleThenReport(s: State, msg: seq<bv8>, w0: bv16, w1: bv16)
    requires ValidState(s) && |msg| == 3 && msg[0] == 0x0C
    ensures Exchange(s, SetMouseScale, msg, ReportMouseScale, 0x8C, w0, w1)
         == Handle(s, SetMouseScale, msg, w0, w1).out + IkbdReplies.Status(msg)
  {
    var t := Handle(s, SetMouseScale, msg, w0, w1);
    HandleMouseSetters(s, SetMouseScale, msg, w0, w1);
    ScaleReported(s, msg);
    HandleMouseReports(t, ReportMouseScale, [0x8C], w0, w1);
  }

  /** 0x0F, then 0x8F: the reply is 0xF6 0x0F and zero padding. */
  lemma DownThenReport(s: State, w0: bv16, w1: bv16)
    requires ValidState(s)
    ensures Exchange(s, SetYAxisDown, [0x0F], ReportMouseVertical, 0x8F, w0, w1)
         == Handle(s, SetYAxisDown, [0x0F], w0, w1).out + IkbdReplies.Status([0x0F])
  {
    var t := Handle(s, SetYAxisDown, [0x0F], w0, w1);
    HandleAxisSetters(s, SetYAxisDown, [0x0F], w0, w1);
    DownReported(s);
    HandleModeReports(t, ReportMouseVertical, [0x8F], w0, w1);
  }

  /** 0x10, then 0x8F: the reply is 0xF6 0x10 and zero padding. */
  lemma UpThenReport(s: State, w0: bv16, w1: bv16)
    requires ValidState(s)
    ensures Exchange(s, SetYAxisUp, [0x10], ReportMouseVertical, 0x8F, w0, w1)
         == Handle(s, SetYAxisUp, [0x10], w0, w1).out + IkbdReplies.Status([0x10])
  {
    var t := Handle(s, SetYAxisUp, [0x10], w0, w1);
    HandleAxisSetters(s, SetYAxisUp, [0x10], w0, w1);
    UpReported(s);
    HandleModeReports(t, ReportMouseVertical, [0x8F], w0, w1);
  }

  /** Outside the reset window, 0x12, then 0x92: the reply is 0xF6 0x12 and zero padding. */
  lemma MouseOffThenReport(s: State, w0: bv16, w1: bv16)
    requires ValidState(s) && !s.reset.criticalTime
    ensures Exchange(s, TurnMouseOff, [0x12], ReportMouseAvailability, 0x92, w0, w1)
         == Handle(s, TurnMouseOff, [0x12], w0, w1).out + IkbdReplies.Status([0x12])
  {
    var t := Handle(s, TurnMouseOff, [0x12], w0, w1);
    HandleAxisSetters(s, TurnMouseOff, [0x12], w0, w1);
    MouseOffReported(s);
    HandleModeReports(t, ReportMouseAvailability, [0x92], w0, w1);
  }

  /** 0x14, then 0x94: after the joystick records 0x14 sends, the reply is 0xF6 0x14 and zero padding. */
  lemma AutoThenReport(s: State, w0: bv16, w1: bv16)
    requires ValidState(s)
    ensures Exchange(s, ReturnJoystickAuto, [0x14], ReportJoystickMode, 0x94, w0, w1)
         == Handle(s, ReturnJoystickAuto, [0x14], w0, w1).out + IkbdReplies.Status([0x14])
  {
    var t := Handle(s, ReturnJoystickAuto, [0x14], w0, w1);
    HandleJoystickAuto(s, ReturnJoystickAuto, [0x14], w0, w1);
    AutoReported(s, w0, w1);
    HandleModeReports(t, ReportJoystickMode, [0x94], w0, w1);
  }

  /** 0x15, then 0x94: the reply is 0xF6 0x15 and zero padding. */
  lemma StopThenReport(s: State, w0: bv16, w1: bv16)
    requires ValidState(s)
    ensures Exchange(s, StopJoystick, [0x15], ReportJoystickMode, 0x94, w0, w1)
         == Handle(s, StopJoystick, [0x15], w0, w1).out + IkbdReplies.Status([0x15])
  {
    var t := Handle(s, StopJoystick, [0x15], w0, w1);
    HandleJoystickSetters(s, StopJoystick, [0x15], w0, w1);
    StopReported(s);
    HandleModeReports(t, ReportJoystickMode, [0x94], w0, w1);
  }

  /** Outside the reset window, 0x1A, then 0x9A: the reply is 0xF6 0x1A and zero padding. */
  lemma JoysticksOffThenReport(s: State, w0: bv16, w1: bv16)
    requires ValidState(s) && !s.reset.criticalTime
    ensures Exchange(s, DisableJoysticks, [0x1A], ReportJoystickAvailability, 0x9A, w0, w1)
         == Handle(s, DisableJoysticks, [0x1A], w0, w1).out + IkbdReplies.Status([0x1A])
  {
    var t := Handle(s, DisableJoysticks, [0x1A], w0, w1);
    HandleJoystickSetters(s, DisableJoysticks, [0x1A], w0, w1);
    JoysticksOffReported(s);
    HandleModeReports(t, ReportJoystickAvailability, [0x9A], w0, w1);
  }
}
