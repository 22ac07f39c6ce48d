/**
 * The command framer of IKBD_RunKeyboardCommand: host bytes accumulate in
 * an 8-byte input buffer until the opcode in its first byte has received
 * as many bytes as KeyboardCommands says; an opcode missing from the table
 * empties the buffer without effect.
 */
module IkbdFramer {
  import opened IkbdTypes

  /** The first row of KeyboardCommands, at index i or later, whose opcode is b. */
  function LookupFrom(b: bv8, i: nat): Option<CommandEntry>
    decreases |KeyboardCommands| - i
  {
    if i >= |KeyboardCommands| then None
    else if KeyboardCommands[i].opcode == b then Some(KeyboardCommands[i])
    else LookupFrom(b, i + 1)
  }

  /** The search of IKBD_RunKeyboardCommand: the row for opcode b, if the table has one. */
  function Lookup(b: bv8): Option<CommandEntry>
  {
    LookupFrom(b, 0)
  }

  /** The search loop of IKBD_RunKeyboardCommand over the command table. */
  method FindCommand(b: bv8) returns (found: Option<CommandEntry>)
    ensures found == Lookup(b)
    ensures found.Some? ==> found.value.opcode == b
    ensures found.None? ==> forall k :: 0 <= k < |KeyboardCommands| ==> KeyboardCommands[k].opcode != b
  {
    var i := 0;
    LookupSound(b, 0);
    while i < |KeyboardCommands|
      invariant 0 <= i <= |KeyboardCommands|
      invariant LookupFrom(b, i) == Lookup(b)
    {
      if KeyboardCommands[i].opcode == b {
        return Some(KeyboardCommands[i]);
      }
      i := i + 1;
    }
    forall k | 0 <= k < |KeyboardCommands|
      ensures KeyboardCommands[k].opcode != b
    {
      LookupNoneAbsent(b, 0, k);
    }
    return None;
  }

  /** A failed search from index i means no row from i on has the opcode. */
  lemma {:induction false} LookupNoneAbsent(b: bv8, i: nat, k: nat)
    requires LookupFrom(b, i).None? && i <= k < |KeyboardCommands|
    ensures KeyboardCommands[k].opcode != b
    decreases k - i
  {
    if i < k {
      LookupNoneAbsent(b, i + 1, k);
    }
  }

  /** Every table row is a message of 1 to 7 bytes whose opcode is not the 0xFF terminator. */
  lemma TableShape()
    ensures forall k :: 0 <= k < |KeyboardCommands| ==>
              1 <= KeyboardCommands[k].length <= 7 && KeyboardCommands[k].opcode != 0xFF
  {
    var t := KeyboardCommands;
    assert forall k :: 0 <= k < 14 ==> 1 <= t[k].length <= 7 && t[k].opcode != 0xFF;
    assert forall k :: 14 <= k < 26 ==> 1 <= t[k].length <= 7 && t[k].opcode != 0xFF;
    assert forall k :: 26 <= k < 39 ==> 1 <= t[k].length <= 7 && t[k].opcode != 0xFF;
  }

  /** A found row has the opcode searched for and a length between 1 and 7. */
  lemma {:induction false} LookupSound(b: bv8, i: nat)
    ensures LookupFrom(b, i).Some? ==> LookupFrom(b, i).value.opcode == b
    ensures LookupFrom(b, i).Some? ==> 1 <= LookupFrom(b, i).value.length <= 7
    decreases |KeyboardCommands| - i
  {
    TableShape();
    if i < |KeyboardCommands| && KeyboardCommands[i].opcode != b {
      LookupSound(b, i + 1);
    }
  }

  /** The number of bytes each handler reads from the input buffer, the opcode included. */
  function Arity(c: Command): nat
  {
    match c
    case Reset => 2
    case MouseAction => 2
    case AbsMouseMode => 5
    case MouseCursorKeycodes => 3
    case SetMouseThreshold => 3
    case SetMouseScale => 3
    case SetInternalMousePos => 6
    case SetJoystickMonitoring => 2
    case SetCursorForJoystick => 7
    case SetClock => 7
    case LoadMemory => 4
    case ReadMemory => 3
    case Execute => 3
    case _ => 1
  }

  /** A row whose length is the number of bytes its handler reads. */
  predicate Fits(e: CommandEntry)
  {
    e.length == Arity(e.command)
  }

  lemma MouseCommandsFit()
    ensures forall k :: 0 <= k < |MouseCommands| ==> Fits(MouseCommands[k])
  {
  }

  lemma JoystickCommandsFit()
    ensures forall k :: 0 <= k < |JoystickCommands| ==> Fits(JoystickCommands[k])
  {
  }

  lemma StatusCommandsFit()
    ensures forall k :: 0 <= k < |StatusCommands| ==> Fits(StatusCommands[k])
  {
  }

  /** Every row's length is the number of bytes its handler reads. */
  lemma TableArity()
    ensures forall k :: 0 <= k < |KeyboardCommands| ==> Fits(KeyboardCommands[k])
  {
    MouseCommandsFit();
    JoystickCommandsFit();
    StatusCommandsFit();
    var t := KeyboardCommands;
    assert t[1..14] == MouseCommands && t[14..26] == JoystickCommands && t[26..] == StatusCommands;
    forall k | 0 <= k < |t|
      ensures Fits(t[k])
    {
      if 1 <= k < 14 {
        assert t[k] == MouseCommands[k - 1];
      } else if 14 <= k < 26 {
        assert t[k] == JoystickCommands[k - 14];
      } else if k >= 26 {
        assert t[k] == StatusCommands[k - 26];
      }
    }
  }

  /** So a handler run on a complete message never reads past it. */
  lemma {:induction false} LookupArity(b: bv8, i: nat)
    ensures LookupFrom(b, i).Some? ==> Fits(LookupFrom(b, i).value)
    decreases |KeyboardCommands| - i
  {
    TableArity();
    if i < |KeyboardCommands| && KeyboardCommands[i].opcode != b {
      LookupArity(b, i + 1);
    }
  }

  /** 0xFF, the terminator, is not a command. */
  lemma TerminatorUnknown()
    ensures Lookup(0xFF).None?
  {
    TableShape();
    LookupAbsent(0xFF, 0);
  }

  lemma {:induction false} LookupAbsent(b: bv8, i: nat)
    requires forall k :: 0 <= k < |KeyboardCommands| ==> KeyboardCommands[k].opcode != b
    ensures LookupFrom(b, i).None?
    decreases |KeyboardCommands| - i
  {
    if i < |KeyboardCommands| {
      LookupAbsent(b, i + 1);
    }
  }

  /**
   * After the reset row 0x80, the rows are in strictly increasing opcode
   * order, all of them above 0x80 or below it.
   */
  /** Rows lo to hi - 1 are in ascending opcode order. */
  predicate AscendingBetween(lo: nat, hi: nat)
    requires lo <= hi < |KeyboardCommands|
  {
    forall k :: lo <= k < hi ==> KeyboardCommands[k].opcode < KeyboardCommands[k + 1].opcode
  }

  lemma AscendingLow()
    ensures AscendingBetween(1, 13)
  {
    var t := KeyboardCommands;
    assert forall k :: 1 <= k < 5 ==> t[k].opcode < t[k + 1].opcode;
    assert forall k :: 5 <= k < 9 ==> t[k].opcode < t[k + 1].opcode;
    assert forall k :: 9 <= k < 13 ==> t[k].opcode < t[k + 1].opcode;
  }

  lemma AscendingMiddle()
    ensures AscendingBetween(13, 26)
  {
    var t := KeyboardCommands;
    assert forall k :: 13 <= k < 17 ==> t[k].opcode < t[k + 1].opcode;
    assert forall k :: 17 <= k < 21 ==> t[k].opcode < t[k + 1].opcode;
    assert forall k :: 21 <= k < 26 ==> t[k].opcode < t[k + 1].opcode;
  }

  lemma AscendingHigh()
    ensures AscendingBetween(26, 38)
  {
    var t := KeyboardCommands;
    assert forall k :: 26 <= k < 30 ==> t[k].opcode < t[k + 1].opcode;
    assert forall k :: 30 <= k < 34 ==> t[k].opcode < t[k + 1].opcode;
    assert forall k :: 34 <= k < 38 ==> t[k].opcode < t[k + 1].opcode;
  }

  /**
   * The table after its first row is sorted by opcode, and the reset row's
   * 0x80 falls between the last parameter command (0x22) and the first
   * report (0x87).
   */
  lemma TableAscending()
    ensures KeyboardCommands[0].opcode == 0x80
    ensures KeyboardCommands[25].opcode == 0x22 && KeyboardCommands[26].opcode == 0x87
    ensures forall k :: 1 <= k < |KeyboardCommands| - 1 ==> KeyboardCommands[k].opcode < KeyboardCommands[k + 1].opcode
  {
    AscendingLow();
    AscendingMiddle();
    AscendingHigh();
    assert AscendingBetween(1, 38);
  }

  lemma {:induction false} AscendingFrom(k: nat, i: nat)
    requires 1 <= k < i < |KeyboardCommands|
    ensures KeyboardCommands[k].opcode < KeyboardCommands[i].opcode
    decreases i - k
  {
    TableAscending();
    if k < i - 1 {
      AscendingFrom(k + 1, i);
    }
  }

  /** Opcodes are unique, so every row is the one Lookup finds for its opcode. */
  lemma LookupRow(i: nat)
    requires i < |KeyboardCommands|
    ensures Lookup(KeyboardCommands[i].opcode) == Some(KeyboardCommands[i])
  {
    TableAscending();
    forall k | 0 <= k < i
      ensures KeyboardCommands[k].opcode != KeyboardCommands[i].opcode
    {
      if k > 0 {
        AscendingFrom(k, i);
      } else if i < 25 {
        AscendingFrom(i, 25);
      } else if i > 26 {
        AscendingFrom(26, i);
      }
    }
    LookupIndexFrom(KeyboardCommands[i].opcode, i, 0);
  }

  lemma {:induction false} LookupIndexFrom(b: bv8, i: nat, j: nat)
    requires j <= i < |KeyboardCommands| && KeyboardCommands[i].opcode == b
    requires forall k :: j <= k < i ==> KeyboardCommands[k].opcode != b
    ensures LookupFrom(b, j) == Some(KeyboardCommands[i])
    decreases i - j
  {
    if j < i {
      LookupIndexFrom(b, i, j + 1);
    }
  }

  /** The buffer after storing b: the byte is lost once 8 bytes are held. */
  function Buffered(buf: seq<bv8>, b: bv8): seq<bv8>
  {
    if |buf| < 8 then buf + [b] else buf
  }

  /** What one byte does to the framer. */
  datatype FrameStep = Dropped | Waiting | Complete(entry: CommandEntry)

  function Frame(buf: seq<bv8>, b: bv8): (r: FrameStep)
    ensures r.Complete? ==> Lookup(Buffered(buf, b)[0]) == Some(r.entry) && r.entry.length == |Buffered(buf, b)|
    ensures r == Dropped <==> Lookup(Buffered(buf, b)[0]).None?
  {
    var full := Buffered(buf, b);
    match Lookup(full[0])
    case None => Dropped
    case Some(e) => if e.length == |full| then Complete(e) else Waiting
  }

  /** The buffer once the byte is handled: kept while waiting, emptied otherwise. */
  function After(buf: seq<bv8>, b: bv8): seq<bv8>
  {
    if Frame(buf, b) == Waiting then Buffered(buf, b) else []
  }

  /**
   * What the framer holds between bytes: fewer than 8 bytes and, when not
   * empty, a known opcode still short of its length.
   */
  predicate Pending(buf: seq<bv8>)
  {
    |buf| < 8 && (buf != [] ==> Lookup(buf[0]).Some? && |buf| < Lookup(buf[0]).value.length)
  }

  /**
   * The framer keeps Pending: no byte is ever lost to a full buffer, the
   * count stays below 8, and a non-empty buffer never drops a byte.
   */
  lemma FrameKeepsPending(buf: seq<bv8>, b: bv8)
    requires Pending(buf)
    ensures Buffered(buf, b) == buf + [b] && |Buffered(buf, b)| < 8
    ensures Pending(After(buf, b))
    ensures buf != [] ==> Frame(buf, b) != Dropped
  {
    if buf != [] {
      LookupSound(buf[0], 0);
    } else {
      LookupSound(b, 0);
    }
  }

  /** With an empty buffer an unknown opcode, 0xFF included, is dropped and the buffer stays empty. */
  lemma UnknownOpcodeDropped(b: bv8)
    requires Lookup(b).None?
    ensures Frame([], b) == Dropped && After([], b) == []
  {
  }

  /** The steps produced by feeding a sequence of bytes one at a time. */
  function Feed(buf: seq<bv8>, bytes: seq<bv8>): (r: seq<FrameStep>)
    ensures |r| == |bytes|
    decreases |bytes|
  {
    if bytes == [] then [] else [Frame(buf, bytes[0])] + Feed(After(buf, bytes[0]), bytes[1..])
  }

  /** The steps of a whole message of entry e: waits Waiting steps, then Complete(e). */
  function Delivery(e: CommandEntry, waits: nat): (r: seq<FrameStep>)
    ensures |r| == waits + 1 && r[waits] == Complete(e)
    ensures forall k :: 0 <= k < waits ==> r[k] == Waiting
  {
    if waits == 0 then [Complete(e)] else [Waiting] + Delivery(e, waits - 1)
  }

  /**
   * A complete message of a known opcode, fed into an empty buffer, waits
   * on every byte but the last and runs its handler exactly once, on the
   * last byte, leaving the buffer empty.
   */
  lemma MessageRunsOnce(e: CommandEntry, msg: seq<bv8>)
    requires msg != [] && Lookup(msg[0]) == Some(e) && |msg| == e.length
    ensures Feed([], msg) == Delivery(e, e.length - 1)
  {
    LookupSound(msg[0], 0);
    assert Buffered([], msg[0]) == [msg[0]];
    if e.length > 1 {
      MessageRest(e, [msg[0]], msg[1..]);
    }
  }

  /** A started message of known opcode waits until its last byte, which completes it. */
  lemma {:induction false} MessageRest(e: CommandEntry, buf: seq<bv8>, rest: seq<bv8>)
    requires buf != [] && Lookup(buf[0]) == Some(e) && |buf| + |rest| == e.length <= 7 && rest != []
    ensures Feed(buf, rest) == Delivery(e, |rest| - 1)
    decreases |rest|
  {
    var full := buf + [rest[0]];
    assert Buffered(buf, rest[0]) == full && full[0] == buf[0];
    assert Feed(buf, rest) == [Frame(buf, rest[0])] + Feed(After(buf, rest[0]), rest[1..]);
    if |rest| == 1 {
      assert Frame(buf, rest[0]) == Complete(e);
    } else {
      assert Frame(buf, rest[0]) == Waiting && After(buf, rest[0]) == full;
      MessageRest(e, full, rest[1..]);
      assert Delivery(e, |rest| - 1) == [Waiting] + Delivery(e, |rest| - 2);
    }
  }
}
