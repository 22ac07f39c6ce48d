/**
 * The memory-load byte handler and the custom-code handlers that stand in
 * for programs uploaded to the 6301's RAM: the common boot handler that
 * fingerprints the main program, and the per-title read and write handlers.
 */
module IkbdHandlers {
  import opened IkbdTypes
  import opened IkbdCrc32
  import opened IkbdCustom
  import opened IkbdMemory
  import opened IkbdState

  /**
   * IKBD_LoadMemoryByte's bookkeeping: the byte enters the CRC and the next
   * address is taken; when it was the last one, a known upload installs its
   * boot handler (with the CRC and the byte count reset for it) and an
   * unknown one removes both handlers.
   */
  function LoadStep(l: Loader, b: bv8): (r: Loader)
    requires l.left > 0
    ensures r.left == l.left - 1 && r.addr == l.addr + 1 && r.exeMode == l.exeMode
    ensures r.left > 0 ==>
              r.crc == AddByte(l.crc, b) && r.exeNbBytes == l.exeNbBytes &&
              r.readHandler == l.readHandler && r.writeHandler == l.writeHandler
  {
    var crc := AddByte(l.crc, b);
    var k := l.(crc := crc, addr := l.addr + 1, left := l.left - 1);
    if k.left != 0 then k
    else
      var i := LoadMatchFrom(crc, 0);
      if i < |CustomCodeDefinitions|
      then k.(crc := ResetValue, exeNbBytes := 0, readHandler := NoRead, writeHandler := CustomCodeDefinitions[i].bootHandler)
      else k.(readHandler := NoRead, writeHandler := NoWrite)
  }

  /** IKBD_LoadMemoryByte: the bookkeeping, and the byte stored at its address. */
  function LoadMemoryByte(s: State, b: bv8): (t: State)
    requires ValidState(s) && s.load.left > 0
    ensures ValidState(t) && t.kbd == s.kbd && t.out == s.out && t.load == LoadStep(s.load, b)
    ensures Peek(t, Resolve(s.load.addr)) == if Resolve(s.load.addr).PadByte? || Resolve(s.load.addr).ScancodeByte? then b else 0
  {
    PokePeek(s, s.load.addr, b);
    Poke(s, s.load.addr, b).(load := LoadStep(s.load, b))
  }

  /** The bookkeeping of a whole memory load, one byte at a time. */
  function LoadSteps(l: Loader, bytes: seq<bv8>): Loader
    requires l.left >= |bytes|
    decreases |bytes|
  {
    if bytes == [] then l else LoadSteps(LoadStep(l, bytes[0]), bytes[1..])
  }

  /**
   * A whole upload of n bytes is fingerprinted by the CRC of exactly those
   * bytes: when it matches a row of CustomCodeDefinitions, that row's boot
   * handler (the common boot handler for every row) is installed, ready to
   * count the next program from zero; otherwise no handler is left.
   */
  lemma {:induction false} LoadFingerprint(l: Loader, bytes: seq<bv8>)
    requires bytes != [] && l.left == |bytes|
    ensures LoadSteps(l, bytes).left == 0 && LoadSteps(l, bytes).addr == l.addr + |bytes|
    ensures LoadSteps(l, bytes).exeMode == l.exeMode
    ensures LoadMatchFrom(AddBytes(l.crc, bytes), 0) < |CustomCodeDefinitions| ==>
              LoadSteps(l, bytes).writeHandler == CommonBootWrite && LoadSteps(l, bytes).readHandler == NoRead &&
              LoadSteps(l, bytes).crc == ResetValue && LoadSteps(l, bytes).exeNbBytes == 0
    ensures LoadMatchFrom(AddBytes(l.crc, bytes), 0) == |CustomCodeDefinitions| ==>
              LoadSteps(l, bytes).writeHandler == NoWrite && LoadSteps(l, bytes).readHandler == NoRead
    decreases |bytes|
  {
    var k := LoadStep(l, bytes[0]);
    assert AddBytes(l.crc, bytes) == AddBytes(AddByte(l.crc, bytes[0]), bytes[1..]);
    if |bytes| == 1 {
      assert bytes[1..] == [];
      EveryUploadBootsCommonBoot(AddByte(l.crc, bytes[0]));
    } else {
      LoadFingerprint(k, bytes[1..]);
    }
  }

  /**
   * The common boot handler once its count has reached n and its CRC is
   * crc: a row whose main program has that count and that CRC installs its
   * two main handlers, otherwise the handlers stay.
   */
  function Recognise(l: Loader, n: int, crc: bv32): (r: Loader)
    ensures r.exeNbBytes == n && r.crc == crc
    ensures r.left == l.left && r.addr == l.addr && r.total == l.total && r.exeMode == l.exeMode
  {
    var i := MainMatchFrom(n, crc, 0);
    var k := l.(crc := crc, exeNbBytes := n);
    if i < |CustomCodeDefinitions|
    then k.(readHandler := CustomCodeDefinitions[i].mainRead, writeHandler := CustomCodeDefinitions[i].mainWrite)
    else k
  }

  /** Recognition installs the matching row's handlers, or leaves them. */
  lemma RecogniseInstalls(l: Loader, n: int, crc: bv32)
    ensures MainMatchFrom(n, crc, 0) < |CustomCodeDefinitions| ==>
              Recognise(l, n, crc).readHandler == CustomCodeDefinitions[MainMatchFrom(n, crc, 0)].mainRead &&
              Recognise(l, n, crc).writeHandler == CustomCodeDefinitions[MainMatchFrom(n, crc, 0)].mainWrite
    ensures MainMatchFrom(n, crc, 0) == |CustomCodeDefinitions| ==>
              Recognise(l, n, crc).readHandler == l.readHandler && Recognise(l, n, crc).writeHandler == l.writeHandler
  {
  }

  /** Recognition depends on the loader only through its handlers and its untouched fields. */
  lemma RecogniseFrame(k: Loader, l: Loader, n: int, crc: bv32)
    requires k.(crc := l.crc, exeNbBytes := l.exeNbBytes) == l
    ensures Recognise(k, n, crc) == Recognise(l, n, crc)
  {
  }

  /** IKBD_CustomCodeHandler_CommonBoot: the byte enters the CRC and the byte count, then the program is looked up. */
  function BootStep(l: Loader, b: bv8): (r: Loader)
    ensures r.exeNbBytes == l.exeNbBytes + 1 && r.crc == AddByte(l.crc, b)
    ensures r.left == l.left && r.exeMode == l.exeMode
  {
    Recognise(l, l.exeNbBytes + 1, AddByte(l.crc, b))
  }

  /** The common boot handler fed a sequence of bytes while it stays installed. */
  function BootSteps(l: Loader, bytes: seq<bv8>): Loader
    decreases |bytes|
  {
    if bytes == [] || l.writeHandler != CommonBootWrite then l else BootSteps(BootStep(l, bytes[0]), bytes[1..])
  }

  /**
   * The main program, counted from n and hashed from crc, is not recognised
   * before its last byte: no row matches the count and CRC reached after
   * any proper prefix of it.
   */
  predicate NoEarlyMatch(n: int, crc: bv32, bytes: seq<bv8>)
    decreases |bytes|
  {
    |bytes| <= 1 ||
    (MainMatchFrom(n + 1, AddByte(crc, bytes[0]), 0) == |CustomCodeDefinitions| &&
     NoEarlyMatch(n + 1, AddByte(crc, bytes[0]), bytes[1..]))
  }

  /**
   * While the common boot handler runs, it counts and hashes every byte
   * sent; the main program is recognised by its byte count together with
   * its CRC, on its last byte (RecogniseInstalls says what that installs),
   * and until then the handlers stay as they were.
   */
  lemma {:induction false} CommonBootRecognises(l: Loader, bytes: seq<bv8>)
    requires l.writeHandler == CommonBootWrite && bytes != []
    requires NoEarlyMatch(l.exeNbBytes, l.crc, bytes)
    ensures BootSteps(l, bytes) == Recognise(l, l.exeNbBytes + |bytes|, AddBytes(l.crc, bytes))
    decreases |bytes|
  {
    var k := BootStep(l, bytes[0]);
    var rest := bytes[1..];
    var n, crc := l.exeNbBytes + |bytes|, AddBytes(l.crc, bytes);
    assert crc == AddBytes(k.crc, rest);
    assert BootSteps(l, bytes) == BootSteps(k, rest);
    if |bytes| == 1 {
      assert rest == [];
      assert BootSteps(k, rest) == k;
      assert k == Recognise(l, n, crc);
    } else {
      RecogniseInstalls(l, l.exeNbBytes + 1, k.crc);
      assert k == l.(crc := k.crc, exeNbBytes := l.exeNbBytes + 1);
      CommonBootRecognises(k, rest);
      assert k.exeNbBytes + |rest| == n;
      assert BootSteps(k, rest) == Recognise(k, n, crc);
      RecogniseFrame(k, l, n, crc);
      assert BootSteps(l, bytes) == Recognise(l, n, crc);
    }
  }

  /** The Froggies write handler: a byte with bit 7 set leaves custom mode, any other is a request for RAM bytes. */
  function FroggiesWriteByte(s: State, b: bv8): (t: State)
    requires ValidState(s)
    ensures ValidState(t)
    ensures b & 0x80 != 0 ==> t == BootRom(s, false)
    ensures b & 0x80 == 0 ==> t.load == s.load && t.kbd == s.kbd
    ensures b & 0x80 == 0 ==>
              t.out == s.out + FroggiesReply(b, FroggiesState(s.proc.mouse.deltaX, s.proc.mouse.deltaY, s.kbd.lButton, s.scanCodeState))
  {
    BootRomDefaults(s, false);
    if b & 0x80 != 0 then BootRom(s, false)
    else Emit(s, FroggiesReply(b, FroggiesState(s.proc.mouse.deltaX, s.proc.mouse.deltaY, s.kbd.lButton, s.scanCodeState)))
  }

  /** What the Chaos A.D. write handler does with one byte: its new statics, the byte it echoes, and whether it leaves custom mode. */
  datatype ChaosOutcome = ChaosOutcome(statics: Statics, reply: seq<bv8>, reboot: bool)

  /**
   * The Chaos A.D. write handler: the first 8 bytes (the key) are skipped,
   * the next 6081 are decoded and echoed, and after them 0x08 leaves custom
   * mode.
   */
  function ChaosStep(st: Statics, b: bv8): (r: ChaosOutcome)
    requires 0 <= st.chaosIndex < 8
    ensures 0 <= r.statics.chaosIndex < 8 && |r.reply| <= 1
    ensures r.reboot ==> st.chaosIgnore <= 0 && st.chaosCount > ChaosLastCount && b == 0x08
  {
    if st.chaosIgnore > 0 then ChaosOutcome(st.(chaosIgnore := st.chaosIgnore - 1), [], false)
    else if st.chaosCount <= ChaosLastCount
    then ChaosOutcome(st.(chaosCount := st.chaosCount + 1, chaosIndex := (st.chaosIndex + 1) % 8),
                      [ChaosDecode(b, st.chaosIndex)], false)
    else ChaosOutcome(st, [], b == 0x08)
  }

  /** The Chaos A.D. write handler on the state. */
  function ChaosWrite(s: State, b: bv8): (t: State)
    requires ValidState(s)
    ensures ValidState(t)
  {
    var r := ChaosStep(s.statics, b);
    if r.reboot then (BootRomDefaults(s, false); BootRom(s, false))
    else Emit(s, r.reply).(statics := r.statics)
  }

  /** The Audio Sculpture write handler: the magic byte 0x42 is answered with the key 0x4b 0x13. */
  function AudioSculptureWriteByte(s: State, b: bv8): (t: State)
    requires ValidState(s)
    ensures ValidState(t) && t.kbd == s.kbd && t.load == s.load
  {
    if b == 0x42 then Emit(s, [0x4b, 0x13]).(statics := s.statics.(asMagic := true)) else s
  }

  /** The installed write handler run on a byte from the host; the Froggies and Dragonnels reads and the Transbeauce II write do nothing. */
  function RunWrite(s: State, b: bv8): (t: State)
    requires ValidState(s)
    ensures ValidState(t)
    ensures t.kbd.inputBuffer == s.kbd.inputBuffer || t.kbd.inputBuffer == []
  {
    match s.load.writeHandler
    case NoWrite => s
    case CommonBootWrite => s.(load := BootStep(s.load, b))
    case FroggiesWrite => FroggiesWriteByte(s, b)
    case Transbeauce2Write => s
    case DragonnelsWrite => Emit(s, [DragonnelsByte(s.proc.mouse.deltaY, s.kbd.lButton)])
    case ChaosADWrite => ChaosWrite(s, b)
    case AudioSculptureWrite => AudioSculptureWriteByte(s, b)
  }

  /**
   * The Audio Sculpture read handler: after the magic byte, the second read
   * leaves custom mode; before it, a held Space (or, in monochrome, any
   * held key) is answered with the Space scancode.
   */
  function AudioSculptureRead(s: State, color: bool): (t: State)
    requires ValidState(s)
    ensures ValidState(t)
  {
    if s.statics.asMagic then
      var n := s.statics.asReadCount + 1;
      if n == 2 then (BootRomDefaults(s, false); BootRom(s, false).(statics := s.statics.(asMagic := false, asReadCount := 0)))
      else s.(statics := s.statics.(asReadCount := n))
    else if (!color && FirstPressedFrom(s.scanCodeState, 0) >= 0) || s.scanCodeState[0x39] != 0 then Emit(s, [0x39])
    else s
  }

  /** The installed read handler, run after each key event and at the end of each tick. */
  function RunRead(s: State): (t: State)
    requires ValidState(s)
    ensures ValidState(t)
    ensures t.kbd.inputBuffer == s.kbd.inputBuffer || t.kbd.inputBuffer == []
  {
    match s.load.readHandler
    case NoRead => s
    case FroggiesRead => s
    case Transbeauce2Read => Emit(s, [Transbeauce2Byte(s.scanCodeState, s.proc.joy.data1)])
    case DragonnelsRead => s
    case ChaosADRead =>
      (if s.statics.chaosFirstCall then Emit(s, [0xfe]) else s).(statics := s.statics.(chaosFirstCall := false))
    case AudioSculptureColorRead => AudioSculptureRead(s, true)
    case AudioSculptureMonoRead => AudioSculptureRead(s, false)
  }

  /** The decoded form of a Chaos A.D. byte stream whose first byte meets key index i. */
  function ChaosStream(bytes: seq<bv8>, i: nat): (r: seq<bv8>)
    requires i < 8
    ensures |r| == |bytes|
    decreases |bytes|
  {
    if bytes == [] then [] else [ChaosDecode(bytes[0], i)] + ChaosStream(bytes[1..], (i + 1) % 8)
  }

  /** Decoding a stream twice from the same index gives it back: the host encodes with the same XOR. */
  lemma {:induction false} ChaosStreamRoundTrip(bytes: seq<bv8>, i: nat)
    requires i < 8
    ensures ChaosStream(ChaosStream(bytes, i), i) == bytes
    decreases |bytes|
  {
    if bytes != [] {
      var d := ChaosStream(bytes, i);
      assert d[1..] == ChaosStream(bytes[1..], (i + 1) % 8);
      ChaosStreamRoundTrip(bytes[1..], (i + 1) % 8);
      ChaosRoundTrip(bytes[0], i);
    }
  }

  /** The echoes of a sequence of bytes sent to the Chaos A.D. handler, and its statics afterwards. */
  function ChaosSteps(st: Statics, bytes: seq<bv8>): (r: ChaosOutcome)
    requires 0 <= st.chaosIndex < 8
    decreases |bytes|
  {
    if bytes == [] then ChaosOutcome(st, [], false)
    else
      var first := ChaosStep(st, bytes[0]);
      if first.reboot then first
      else
        var rest := ChaosSteps(first.statics, bytes[1..]);
        ChaosOutcome(rest.statics, first.reply + rest.reply, rest.reboot)
  }

  /**
   * Once the key is skipped, the Chaos A.D. handler echoes every byte
   * decoded with the key byte that follows the previous one, as long as
   * no more than 6081 bytes are decoded in all.
   */
  lemma {:induction false} ChaosDecodes(st: Statics, bytes: seq<bv8>)
    requires 0 <= st.chaosIndex < 8 && st.chaosIgnore == 0 && st.chaosCount + |bytes| <= ChaosLastCount + 1
    ensures ChaosSteps(st, bytes).reply == ChaosStream(bytes, st.chaosIndex)
    ensures ChaosSteps(st, bytes).statics.chaosCount == st.chaosCount + |bytes| && !ChaosSteps(st, bytes).reboot
    decreases |bytes|
  {
    if bytes != [] {
      var first := ChaosStep(st, bytes[0]);
      assert first.statics == st.(chaosCount := st.chaosCount + 1, chaosIndex := (st.chaosIndex + 1) % 8);
      assert first.reply == [ChaosDecode(bytes[0], st.chaosIndex)] && !first.reboot;
      ChaosDecodes(first.statics, bytes[1..]);
      var rest := ChaosSteps(first.statics, bytes[1..]);
      assert ChaosSteps(st, bytes) == ChaosOutcome(rest.statics, first.reply + rest.reply, rest.reboot);
    }
  }

  /** A stream the host encodes with the same key, from the same index, is echoed as its plain text. */
  lemma ChaosEchoesPlainText(st: Statics, plain: seq<bv8>)
    requires 0 <= st.chaosIndex < 8 && st.chaosIgnore == 0 && st.chaosCount + |plain| <= ChaosLastCount + 1
    ensures ChaosSteps(st, ChaosStream(plain, st.chaosIndex)).reply == plain
  {
    ChaosDecodes(st, ChaosStream(plain, st.chaosIndex));
    ChaosStreamRoundTrip(plain, st.chaosIndex);
  }

  /**
   * Audio Sculpture's exit: the magic byte is answered with 0x4b 0x13, and
   * the second read after it reboots the ROM, which removes the custom
   * handlers and leaves execute mode, with the magic flag and the read count
   * cleared.
   */
  lemma AudioSculptureExit(s: State)
    requires ValidState(s) && s.load.exeMode && s.load.writeHandler == AudioSculptureWrite
    requires s.load.readHandler == AudioSculptureColorRead || s.load.readHandler == AudioSculptureMonoRead
    requires s.statics.asReadCount == 0
    ensures RunRead(RunWrite(s, 0x42)).out == s.out + [0x4b, 0x13]
    ensures RunRead(RunWrite(s, 0x42)).load.exeMode
    ensures var t := RunRead(RunRead(RunWrite(s, 0x42)));
            t.out == s.out + [0x4b, 0x13] && !t.load.exeMode &&
            t.load.readHandler == NoRead && t.load.writeHandler == NoWrite &&
            !t.statics.asMagic && t.statics.asReadCount == 0 && t.reset.counter == ResetTicks
  {
  }

  /** The Chaos A.D. program announces itself with 0xfe on its first read only. */
  lemma ChaosReadyOnce(s: State)
    requires ValidState(s) && s.load.readHandler == ChaosADRead
    ensures RunRead(RunRead(s)).out == s.out + (if s.statics.chaosFirstCall then [0xfe] else [])
  {
  }
}
