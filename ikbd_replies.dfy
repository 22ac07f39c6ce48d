/**
 * The replies of the interrogation commands.  A status reply (0x87..0x9A)
 * is the header 0xF6 followed by the command that would put the keyboard
 * processor into its current state, padded with zeros to 8 bytes; the
 * lemmas below show that each reply replays as that command through the
 * framer's command table.
 */
module IkbdReplies {
  import opened IkbdTypes
  import opened IkbdFramer

  /** Header, then the setter message, padded with zeros to 8 bytes. */
  function Status(msg: seq<bv8>): (r: seq<bv8>)
    requires |msg| <= 7
    ensures |r| == 8 && r[0] == 0xF6 && r[1..1 + |msg|] == msg
    ensures forall k :: 1 + |msg| <= k < 8 ==> r[k] == 0
  {
    [0xF6] + msg + seq(7 - |msg|, _ => 0)
  }

  /** 0x87: the mouse-action setting, as command 0x07. */
  function ReportMouseAction(action: bv8): seq<bv8>
  {
    Status([0x07, action])
  }

  /** 0x88/0x89/0x8A: the mouse mode; with the mouse off the switch has no case and only the header is sent. */
  function ReportMouseMode(mode: MouseMode, maxX: int, maxY: int, kx: bv8, ky: bv8): (r: seq<bv8>)
    ensures mode == MouseOff <==> r == [0xF6]
    ensures mode != MouseOff ==> |r| == 8 && r[0] == 0xF6
  {
    match mode
    case MouseOff => [0xF6]
    case MouseRel => Status([0x08])
    case MouseAbs => Status([0x09, Low8(maxX / 256), Low8(maxX), Low8(maxY / 256), Low8(maxY)])
    case MouseCursor => Status([0x0A, kx, ky])
  }

  function ReportMouseThreshold(xt: int, yt: int): seq<bv8>
  {
    Status([0x0B, Low8(xt), Low8(yt)])
  }

  function ReportMouseScale(xs: int, ys: int): seq<bv8>
  {
    Status([0x0C, Low8(xs), Low8(ys)])
  }

  /** 0x8F/0x90: 0x0F when Y runs upwards (YAxis -1), 0x10 otherwise. */
  function ReportMouseVertical(yAxis: int): seq<bv8>
  {
    Status([if yAxis == -1 then 0x0F else 0x10])
  }

  /** 0x92: 0x12 when the mouse is off, 0x00 otherwise. */
  function ReportMouseAvailability(mode: MouseMode): seq<bv8>
  {
    Status([if mode == MouseOff then 0x12 else 0x00])
  }

  /** 0x94/0x95/0x99: 0x14 in automatic mode, 0x15 in every other mode. */
  function ReportJoystickMode(mode: JoystickMode): seq<bv8>
  {
    Status([if mode == JoystickAuto then 0x14 else 0x15])
  }

  /** 0x9A: 0x1A when joystick reporting is off, 0x00 otherwise. */
  function ReportJoystickAvailability(mode: JoystickMode): seq<bv8>
  {
    Status([if mode == JoystickOff then 0x1A else 0x00])
  }

  /** 0x1C: the header 0xFC and the six clock bytes as stored. */
  function ReadClockReply(clock: seq<bv8>): (r: seq<bv8>)
    requires |clock| == 6
    ensures |r| == 7 && r[0] == 0xFC && r[1..] == clock
  {
    [0xFC] + clock
  }

  /** The command a replayed message runs when the framer gets it whole. */
  function Replays(msg: seq<bv8>): Option<Command>
    requires msg != []
  {
    match Lookup(msg[0])
    case Some(e) => if e.length == |msg| then Some(e.command) else None
    case None => None
  }

  /** The row of the table at index i, replayed: the message with that row's opcode and length. */
  lemma ReplaysRow(msg: seq<bv8>, i: nat)
    requires i < |KeyboardCommands| && msg != []
    requires msg[0] == KeyboardCommands[i].opcode && |msg| == KeyboardCommands[i].length
    ensures Replays(msg) == Some(KeyboardCommands[i].command)
  {
    LookupRow(i);
  }

  /** The message of a mouse-mode reply, without header and padding. */
  lemma MouseModeReplays(mode: MouseMode, maxX: int, maxY: int, kx: bv8, ky: bv8)
    requires mode != MouseOff && 0 <= maxX < 0x1_0000 && 0 <= maxY < 0x1_0000
    ensures var r := ReportMouseMode(mode, maxX, maxY, kx, ky);
            match mode
            case MouseRel => Replays(r[1..2]) == Some(RelMouseMode)
            case MouseAbs => Replays(r[1..6]) == Some(AbsMouseMode)
                             && Word(r[2], r[3]) == maxX && Word(r[4], r[5]) == maxY
            case MouseCursor => Replays(r[1..4]) == Some(MouseCursorKeycodes) && r[2] == kx && r[3] == ky
            case MouseOff => true
  {
    var r := ReportMouseMode(mode, maxX, maxY, kx, ky);
    match mode
    case MouseRel =>
      assert KeyboardCommands[2] == CommandEntry(0x08, 1, RelMouseMode);
      ReplaysRow(r[1..2], 2);
    case MouseAbs =>
      WordOfBytes(maxX);
      WordOfBytes(maxY);
      assert KeyboardCommands[3] == CommandEntry(0x09, 5, AbsMouseMode);
      ReplaysRow(r[1..6], 3);
    case MouseCursor =>
      assert KeyboardCommands[4] == CommandEntry(0x0A, 3, MouseCursorKeycodes);
      ReplaysRow(r[1..4], 4);
    case MouseOff =>
  }

  /** The mouse-action reply replays as command 0x07 with the stored action. */
  lemma ActionReplays(action: bv8)
    ensures Replays(ReportMouseAction(action)[1..3]) == Some(MouseAction) && ReportMouseAction(action)[2] == action
  {
    assert KeyboardCommands[1] == CommandEntry(0x07, 2, MouseAction);
    ReplaysRow(ReportMouseAction(action)[1..3], 1);
  }

  /** The threshold and scale replies replay as commands 0x0B and 0x0C with the stored values. */
  lemma ThresholdScaleReplay(xt: int, yt: int, xs: int, ys: int)
    requires 0 <= xt < 256 && 0 <= yt < 256 && 0 <= xs < 256 && 0 <= ys < 256
    ensures Replays(ReportMouseThreshold(xt, yt)[1..4]) == Some(SetMouseThreshold)
    ensures ReportMouseThreshold(xt, yt)[2] as int == xt && ReportMouseThreshold(xt, yt)[3] as int == yt
    ensures Replays(ReportMouseScale(xs, ys)[1..4]) == Some(SetMouseScale)
    ensures ReportMouseScale(xs, ys)[2] as int == xs && ReportMouseScale(xs, ys)[3] as int == ys
  {
    var th := ReportMouseThreshold(xt, yt);
    var sc := ReportMouseScale(xs, ys);
    assert th[2] == Low8(xt) && th[3] == Low8(yt) && sc[2] == Low8(xs) && sc[3] == Low8(ys);
    assert KeyboardCommands[5] == CommandEntry(0x0B, 3, SetMouseThreshold);
    assert KeyboardCommands[6] == CommandEntry(0x0C, 3, SetMouseScale);
    ReplaysRow(th[1..4], 5);
    ReplaysRow(sc[1..4], 6);
  }

  /** The vertical reply replays as the command that selects the stored Y direction. */
  lemma VerticalReplays(yAxis: int)
    ensures Replays(ReportMouseVertical(yAxis)[1..2]) == Some(if yAxis == -1 then SetYAxisDown else SetYAxisUp)
  {
    var m := ReportMouseVertical(yAxis)[1..2];
    if yAxis == -1 {
      assert KeyboardCommands[9] == CommandEntry(0x0F, 1, SetYAxisDown);
      ReplaysRow(m, 9);
    } else {
      assert KeyboardCommands[10] == CommandEntry(0x10, 1, SetYAxisUp);
      ReplaysRow(m, 10);
    }
  }

  /** The joystick and availability replies replay as the setter of the reported mode, when there is one. */
  lemma ModesReplay(mmode: MouseMode, jmode: JoystickMode)
    ensures Replays(ReportJoystickMode(jmode)[1..2]) == Some(if jmode == JoystickAuto then ReturnJoystickAuto else StopJoystick)
    ensures mmode == MouseOff ==> Replays(ReportMouseAvailability(mmode)[1..2]) == Some(TurnMouseOff)
    ensures jmode == JoystickOff ==> Replays(ReportJoystickAvailability(jmode)[1..2]) == Some(DisableJoysticks)
    ensures mmode != MouseOff ==> ReportMouseAvailability(mmode)[1] == 0
    ensures jmode != JoystickOff ==> ReportJoystickAvailability(jmode)[1] == 0
  {
    if jmode == JoystickAuto {
      assert KeyboardCommands[14] == CommandEntry(0x14, 1, ReturnJoystickAuto);
      ReplaysRow(ReportJoystickMode(jmode)[1..2], 14);
    } else {
      assert KeyboardCommands[15] == CommandEntry(0x15, 1, StopJoystick);
      ReplaysRow(ReportJoystickMode(jmode)[1..2], 15);
    }
    if mmode == MouseOff {
      assert KeyboardCommands[12] == CommandEntry(0x12, 1, TurnMouseOff);
      ReplaysRow(ReportMouseAvailability(mmode)[1..2], 12);
    }
    if jmode == JoystickOff {
      assert KeyboardCommands[20] == CommandEntry(0x1A, 1, DisableJoysticks);
      ReplaysRow(ReportJoystickAvailability(jmode)[1..2], 20);
    }
  }
}
