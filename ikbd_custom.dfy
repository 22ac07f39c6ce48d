/**
 * The substitution layer for custom 6301 programs: the searches of
 * CustomCodeDefinitions by upload CRC and by (byte count, CRC) of the main
 * program, the first-pressed-key scan, and the replies the emulated
 * per-title programs compute from the mouse, joystick and key state.
 */
module IkbdCustom {
  import opened IkbdTypes

  /** The first row from index i on whose upload CRC is crc, or |CustomCodeDefinitions| when none is. */
  function LoadMatchFrom(crc: bv32, i: nat): (r: nat)
    requires i <= |CustomCodeDefinitions|
    ensures i <= r <= |CustomCodeDefinitions|
    ensures r < |CustomCodeDefinitions| ==> CustomCodeDefinitions[r].loadMemCrc == crc
    ensures forall k :: i <= k < r ==> CustomCodeDefinitions[k].loadMemCrc != crc
    decreases |CustomCodeDefinitions| - i
  {
    if i == |CustomCodeDefinitions| || CustomCodeDefinitions[i].loadMemCrc == crc then i
    else LoadMatchFrom(crc, i + 1)
  }

  /** The row whose main program has `count` bytes and CRC `crc`, first match first (MainMatchFound says so). */
  function MainMatchFrom(count: int, crc: bv32, i: nat): (r: nat)
    requires i <= |CustomCodeDefinitions|
    ensures i <= r <= |CustomCodeDefinitions|
    decreases |CustomCodeDefinitions| - i
  {
    if i == |CustomCodeDefinitions| then i
    else if CustomCodeDefinitions[i].mainProgNbBytes == count && CustomCodeDefinitions[i].mainProgCrc == crc then i
    else MainMatchFrom(count, crc, i + 1)
  }

  /** A row the main-program search finds has that byte count and that CRC. */
  lemma {:induction false} MainMatchFound(count: int, crc: bv32, i: nat)
    requires i <= |CustomCodeDefinitions|
    ensures MainMatchFrom(count, crc, i) < |CustomCodeDefinitions| ==>
              CustomCodeDefinitions[MainMatchFrom(count, crc, i)].mainProgNbBytes == count &&
              CustomCodeDefinitions[MainMatchFrom(count, crc, i)].mainProgCrc == crc
    decreases |CustomCodeDefinitions| - i
  {
    if i < |CustomCodeDefinitions| && !(CustomCodeDefinitions[i].mainProgNbBytes == count && CustomCodeDefinitions[i].mainProgCrc == crc) {
      MainMatchFound(count, crc, i + 1);
    }
  }

  /** No row before the one the main-program search finds (or before the end, when it finds none) matches. */
  lemma {:induction false} MainMatchFirst(count: int, crc: bv32, i: nat, k: nat)
    requires i <= k && i <= |CustomCodeDefinitions| && k < MainMatchFrom(count, crc, i)
    ensures !(CustomCodeDefinitions[k].mainProgNbBytes == count && CustomCodeDefinitions[k].mainProgCrc == crc)
    decreases |CustomCodeDefinitions| - i
  {
    if k > i {
      MainMatchFirst(count, crc, i + 1, k);
    }
  }

  /** The search loop of IKBD_LoadMemoryByte. */
  method FindLoadMatch(crc: bv32) returns (i: nat)
    ensures i == LoadMatchFrom(crc, 0)
  {
    i := 0;
    while i < |CustomCodeDefinitions|
      invariant i <= |CustomCodeDefinitions|
      invariant LoadMatchFrom(crc, i) == LoadMatchFrom(crc, 0)
    {
      if CustomCodeDefinitions[i].loadMemCrc == crc {
        break;
      }
      i := i + 1;
    }
  }

  /** The search loop of IKBD_CustomCodeHandler_CommonBoot. */
  method FindMainMatch(count: int, crc: bv32) returns (i: nat)
    ensures i == MainMatchFrom(count, crc, 0)
  {
    i := 0;
    while i < |CustomCodeDefinitions|
      invariant i <= |CustomCodeDefinitions|
      invariant MainMatchFrom(count, crc, i) == MainMatchFrom(count, crc, 0)
    {
      if CustomCodeDefinitions[i].mainProgNbBytes == count && CustomCodeDefinitions[i].mainProgCrc == crc {
        break;
      }
      i := i + 1;
    }
  }

  /** Every known upload boots into CommonBoot, whichever row matches. */
  lemma EveryUploadBootsCommonBoot(crc: bv32)
    ensures LoadMatchFrom(crc, 0) < |CustomCodeDefinitions| ==>
              CustomCodeDefinitions[LoadMatchFrom(crc, 0)].bootHandler == CommonBootWrite
  {
  }

  /**
   * The two Audio Sculpture rows share their upload CRC, so the upload
   * always matches the colour row; the main program's CRC then tells the
   * colour and the monochrome program apart.
   */
  lemma AudioSculptureRows()
    ensures LoadMatchFrom(0xbc0c206d, 0) == 4
    ensures MainMatchFrom(91, 0x119b26ed, 0) == 4 && CustomCodeDefinitions[4].mainRead == AudioSculptureColorRead
    ensures MainMatchFrom(91, 0x63b5f4df, 0) == 5 && CustomCodeDefinitions[5].mainRead == AudioSculptureMonoRead
  {
  }

  /** The first pressed key from index i on, or -1 when none is. */
  function FirstPressedFrom(keys: seq<bv8>, i: nat): (r: int)
    requires i <= |keys|
    ensures r == -1 || i <= r < |keys|
    ensures r == -1 <==> forall k :: i <= k < |keys| ==> keys[k] == 0
    ensures r >= 0 ==> keys[r] != 0 && forall k :: i <= k < r ==> keys[k] == 0
    decreases |keys| - i
  {
    if i == |keys| then -1
    else if keys[i] != 0 then i
    else FirstPressedFrom(keys, i + 1)
  }

  /** IKBD_CheckPressedKey: the loop over ScanCodeState. */
  method CheckPressedKey(keys: seq<bv8>) returns (r: int)
    ensures r == FirstPressedFrom(keys, 0)
  {
    var i := 0;
    while i < |keys|
      invariant i <= |keys|
      invariant FirstPressedFrom(keys, i) == FirstPressedFrom(keys, 0)
    {
      if keys[i] != 0 {
        return i;
      }
      i := i + 1;
    }
    return -1;
  }

  /** A key of the ScanCodeState table is held. */
  predicate Held(keys: seq<bv8>, code: int)
    requires |keys| == 128 && 0 <= code < 128
  {
    keys[code] != 0
  }

  /** The bytes at $80, $81 and $82 of the Froggies program's RAM. */
  datatype FroggiesRam = FroggiesRam(r80: bv8, r81: bv8, r82: bv8)

  /**
   * Mouse up/down (or the Up/Down keys) in $80, left/right (or the
   * Left/Right keys) in $81, the left button (or keypad 0) in bit 7 of all
   * three bytes.
   */
  function FroggiesState(dx: int, dy: int, l: bv8, keys: seq<bv8>): (m: FroggiesRam)
    requires |keys| == 128
    ensures m.r82 == (if l & ButtonMouse != 0 || Held(keys, 0x70) then 0x80 else 0)
    ensures m.r80 & 0x80 == m.r82 && m.r81 & 0x80 == m.r82
    ensures m.r80 & 0x7F == (if dy < 0 || Held(keys, 0x48) then 0x7a else 0) | (if dy > 0 || Held(keys, 0x50) then 0x06 else 0)
    ensures m.r81 & 0x7F == (if dx < 0 || Held(keys, 0x4b) then 0x7a else 0) | (if dx > 0 || Held(keys, 0x4d) then 0x06 else 0)
  {
    var a80: bv8 := if dy > 0 then 0x06 else if dy < 0 then 0x7a else 0;
    var a81: bv8 := if dx > 0 then 0x06 else if dx < 0 then 0x7a else 0;
    var a82: bv8 := if l & ButtonMouse != 0 then 0x80 else 0;
    var b80 := a80 | (if Held(keys, 0x48) then 0x7a else 0) | (if Held(keys, 0x50) then 0x06 else 0);
    var b81 := a81 | (if Held(keys, 0x4b) then 0x7a else 0) | (if Held(keys, 0x4d) then 0x06 else 0);
    var b82 := a82 | (if Held(keys, 0x70) then 0x80 else 0);
    FroggiesRam(b80 | b82, b81 | b82, b82)
  }

  /** The Froggies write handler's reply to a byte below 0x80: $80 for 1, $83..$80 for 4, nothing otherwise. */
  function FroggiesReply(b: bv8, m: FroggiesRam): (r: seq<bv8>)
    ensures b == 1 ==> r == [m.r80]
    ensures b == 4 ==> |r| == 4 && r[0] == 0xfc && r[3] == m.r80 && r[2] == m.r81
    ensures b != 1 && b != 4 ==> r == []
  {
    if b == 1 then [m.r80] else if b == 4 then [0xfc, m.r82, m.r81, m.r80] else []
  }

  /** The Transbeauce II read handler: cursor keys, Help and Space, ORed with joystick 1's directions and fire. */
  function Transbeauce2Byte(keys: seq<bv8>, j1: bv8): (r: bv8)
    requires |keys| == 128
    ensures (r & 0x01 != 0) == (Held(keys, 0x48) || j1 & 0x01 != 0)
    ensures (r & 0x02 != 0) == (Held(keys, 0x50) || j1 & 0x02 != 0)
    ensures (r & 0x04 != 0) == (Held(keys, 0x4b) || j1 & 0x04 != 0)
    ensures (r & 0x08 != 0) == (Held(keys, 0x4d) || j1 & 0x08 != 0)
    ensures (r & 0x40 != 0) == Held(keys, 0x62) && r & 0x30 == 0
    ensures (r & 0x80 != 0) == (Held(keys, 0x39) || j1 & 0x80 != 0)
  {
    var k := (if Held(keys, 0x48) then 0x01 else 0) | (if Held(keys, 0x50) then 0x02 else 0)
           | (if Held(keys, 0x4b) then 0x04 else 0) | (if Held(keys, 0x4d) then 0x08 else 0)
           | (if Held(keys, 0x62) then 0x40 else 0) | (if Held(keys, 0x39) then 0x80 else 0);
    k | (j1 & 0x8f)
  }

  /** The Dragonnels write handler: the left button wins over the vertical direction. */
  function DragonnelsByte(dy: int, l: bv8): (r: bv8)
    ensures l & ButtonMouse != 0 ==> r == 0x80
    ensures l & ButtonMouse == 0 ==> r == (if dy > 0 then 0x04 else if dy < 0 then 0xfc else 0)
  {
    var d: bv8 := if dy > 0 then 0x04 else if dy < 0 then 0xfc else 0;
    if l & ButtonMouse != 0 then 0x80 else d
  }

  /** The Chaos A.D. decoder: XOR with the key byte at the current index. */
  function ChaosDecode(b: bv8, index: nat): bv8
    requires index < 8
  {
    b ^ ChaosKey[index]
  }

  /** Decoding is its own inverse, so the protection's encoder is the same XOR. */
  lemma ChaosRoundTrip(b: bv8, index: nat)
    requires index < 8
    ensures ChaosDecode(ChaosDecode(b, index), index) == b
  {
  }
}
