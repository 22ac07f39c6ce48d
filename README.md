# Vampire V4 standalone BIOS: keyboard processor, block devices, video mode codes

This project models three parts of the Vampire V4 standalone BIOS of EmuTOS in Dafny and proves properties of them.

- **The IKBD emulator** (`bios/v4sa_ikbd.c`). It emulates the HD6301 keyboard processor of the Atari ST in software. It has two entry points, which the model treats as atomic steps that may interleave in any order:
  - `IKBD_Process_RDR` takes a byte from the host. The byte goes to the installed custom-code write handler in execute mode, to the memory loader while a 0x20 load is pending, and to the 8-byte command framer otherwise.
  - `IKBD_SendAutoKeyboardCommands` is the periodic tick. It runs the 40-tick reset countdown. It then samples the buttons and the joysticks, couples fire buttons, sends mouse-action reports and integrates the absolute position. Last come the monitoring, joystick, relative-mouse or cursor-key reports, the wheel and extra-button key sequences, and the custom read handler.

  Uploaded 6301 programs are fingerprinted by a CRC, and for the recognised titles their behaviour is replaced by handlers, modelled as a datatype. The emulator's globals and statics are the fields of the class `IkbdEmulator.Ikbd`. Each of its methods is proved to update them exactly as a pure function on the `IkbdState.State` value says. The bytes sent to the host (`acia_ikbd_rx`) are an appended output sequence.
- **The block-device arithmetic** (`bios/blkdev.c`). This covers:
  - little-endian boot-sector fields and the boot-sector checksum, with `bootcheck`;
  - `get_shift`;
  - drive allocation in `add_partition` and `blkdev_avail`;
  - the BIOS parameter block derived from a boot sector by `blkdev_getbpb`;
  - the translation, range checks and 0x7FFF-sector chunking of `blkdev_rwabs`.

  The drive table (`blkdev[]`, `units[]`, `drvbits`) is the class `BlkDevTable.BlockDevices`. Disk transfers are an oracle function, and the boot sector read is an input.
- **The video mode codes** (`bios/v4sa_video.c`). This covers the mode repair of `vfixmode`, the planes and dimensions of `calc_modecode_info`, `vgetsize`, `get_videl_bpp`, and the mode bookkeeping of `vsetmode`. It also covers the word `vsetmode` writes to the SAGA video-mode register, kept as the last value written.

Modules, one per file: `IkbdTypes`, `IkbdCrc32`, `IkbdBcd`, `IkbdFramer`, `IkbdMemory`, `IkbdMouse`, `IkbdJoystick`, `IkbdCustom`, `IkbdReplies`, `IkbdState`, `IkbdHandlers`, `IkbdInput`, `IkbdTick`, `IkbdCommands`, `IkbdStatus` (each setter command followed by the command that reports its setting), `IkbdEmulator`; `BlkDev`, `DriveMap`, `Rwabs`, `BlkDevTable`; `Video`; and `Powers`, the powers of two both the joystick scan and `get_shift` use.

Where a comment in the source and its code disagree, the model follows the code:

- **Relative packets.** The comment above `IKBD_SendRelMousePacket` speaks of several packets. The `(int8_t)` cast wraps, so one packet leaves both deltas as multiples of 256 and the loop sends at most one (`IkbdMouse.AtMostOnePacket`).
- **The 0x20 byte count** is a whole byte, 0 to 255.
- **The CRC bit test** compares bit 7 of the data with bit 31 of the register, so it acts as an OR. The result is not the standard CRC-32 (`IkbdCrc32.StepDiffersFromStandard`).
- **`IKBD_UpdateClockOnVBL`** is empty, so the clock never advances, and `IKBD_BCD_Adjust` is modelled on its own.
- **The end of a partition.** `blkdev_rwabs` refuses a request whose end `lrecnr + lcount` equals the partition size, so a request that ends exactly at the last sector of a partition or unit is refused with ESECNF (`Rwabs.LastSectorRefused`).

## Model

| member | source | states |
|---|---|---|
| IkbdCrc32.Step | bios/v4sa_ikbd.c:393-398 | one bit step feeds the polynomial back exactly when data bit 7 or register bit 31 is set, and otherwise only shifts |
| IkbdCrc32.AddByteLoop | bios/v4sa_ikbd.c:387-401 | the eight-iteration bit loop of crc32_add_byte computes AddByte of the register and the byte |
| IkbdCrc32.StepAgreesWithStandard | bios/v4sa_ikbd.c:393-396 | the bit step agrees with the textbook MSB-first CRC-32 step exactly when bit 7 of the data and bit 31 of the register are not both set |
| IkbdCrc32.StepDiffersFromStandard | bios/v4sa_ikbd.c:393-396 | a concrete register and byte on which the step and the textbook CRC-32 step differ |
| IkbdCrc32.AddBytesAppend | bios/v4sa_ikbd.c:2231-2235 | adding the bytes one at a time as they arrive gives the CRC of the whole sequence |
| IkbdBcd.Value | bios/v4sa_ikbd.c:643-650 | a byte that passes IKBD_BCD_Check stands for a number below 100 |
| IkbdBcd.IncrementDigits | bios/v4sa_ikbd.c:661-669 | adding one and adjusting a valid BCD byte gives a valid BCD byte: the units go up, roll into the tens, or 99 rolls over to 00 |
| IkbdBcd.Increment | bios/v4sa_ikbd.c:661-669 | adding one and adjusting is the decimal successor modulo 100 |
| IkbdBcd.CheckIsEncoding | bios/v4sa_ikbd.c:643-650 | IKBD_BCD_Check accepts exactly the bytes whose two nibbles are decimal digits |
| IkbdBcd.Check | bios/v4sa_ikbd.c:643-650 | a byte IKBD_BCD_Check accepts is at most 0x99, with a tens digit of at most 9 |
| IkbdBcd.Adjust | bios/v4sa_ikbd.c:661-669 | the decimal adjustment leaves a valid BCD byte unchanged and keeps a units digit that is already decimal |
| IkbdTypes.Low8 | bios/v4sa_ikbd.c:32 | a value handed to acia_ikbd_rx travels as the byte of its value modulo 256 |
| IkbdTypes.Low8Congruent | bios/v4sa_ikbd.c:32 | values congruent modulo 256 travel as the same byte |
| IkbdTypes.Int8 | bios/v4sa_ikbd.c:829-830 | the (int8_t) cast gives a value in -128..127 congruent to its argument modulo 256 and keeps values already in range |
| IkbdTypes.Low8Int8 | bios/v4sa_ikbd.c:829-830 | a value and its signed-byte cast travel as the same byte |
| IkbdTypes.Word | bios/v4sa_ikbd.c:1441-1442 | (hi << 8) \| lo is a 16-bit value whose high and low bytes are hi and lo |
| IkbdTypes.WordOfBytes | bios/v4sa_ikbd.c:1441-1442 | a 16-bit value is rebuilt from its high and low bytes: the round trip of the two-byte encodings |
| IkbdFramer.FindCommand | bios/v4sa_ikbd.c:1330-1350 | the search loop finds the table row whose opcode is the first buffered byte, and when it finds none no row has that opcode |
| IkbdFramer.TableShape | bios/v4sa_ikbd.c:179-225 | every command row counts 1 to 7 bytes, the opcode included, and none uses the 0xFF terminator as its opcode |
| IkbdFramer.LookupSound | bios/v4sa_ikbd.c:1330-1336 | a row found for a byte has that byte as its opcode and a length from 1 to 7 |
| IkbdFramer.TableArity | bios/v4sa_ikbd.c:179-225 | each row's byte count is the number of input-buffer bytes its handler reads |
| IkbdFramer.LookupArity | bios/v4sa_ikbd.c:1336-1344 | a handler the framer runs never reads past the message it was given |
| IkbdFramer.TerminatorUnknown | bios/v4sa_ikbd.c:224 | 0xFF, the terminator, is not a command |
| IkbdFramer.TableAscending | bios/v4sa_ikbd.c:182-222 | after the reset row 0x80 the opcodes strictly ascend, 0x80 falling between 0x22 and 0x87 |
| IkbdFramer.LookupRow | bios/v4sa_ikbd.c:1330-1345 | opcodes are unique: every row is the one the search finds for its opcode |
| IkbdFramer.FrameKeepsPending | bios/v4sa_ikbd.c:1325-1354 | between bytes the buffer holds fewer than 8 bytes of a known, incomplete command, so no byte is ever lost to a full buffer and a started message never drops a byte |
| IkbdFramer.UnknownOpcodeDropped | bios/v4sa_ikbd.c:1352-1354 | an unknown first byte is dropped without effect and leaves the buffer empty |
| IkbdFramer.Delivery | bios/v4sa_ikbd.c:1336-1344 | a message's framing steps are waits on every byte but the last, then one completion |
| IkbdFramer.MessageRunsOnce | bios/v4sa_ikbd.c:1322-1355 | a complete message of a known opcode fed into an empty buffer runs its handler exactly once, on its last byte |
| IkbdFramer.MessageRest | bios/v4sa_ikbd.c:1336-1346 | a started message waits until its last byte, which completes it |
| IkbdFramer.Frame | bios/v4sa_ikbd.c:1322-1355 | a byte completes a command exactly when the buffer then holds the found row's full length, and is dropped exactly when no row has the first buffered byte as opcode |
| IkbdFramer.Feed | bios/v4sa_ikbd.c:1322-1355 | feeding bytes one at a time takes one framing step per byte |
| IkbdMemory.ResolveAddress | bios/v4sa_ikbd.c:1859-1874 | the loop over mem_map returns the location of the first window whose closed range holds the address, or none |
| IkbdMemory.ResolveInBounds | bios/v4sa_ikbd.c:1859-1874 | every location an address resolves to that lies inside an array is one of the four pads' 32 bytes or one of the 128 scancode entries |
| IkbdMemory.ResolvePads | bios/v4sa_ikbd.c:358-368 | pad p's scancodes and joystick masks occupy 32 consecutive addresses from its base, and the address right after them is one past the array |
| IkbdMemory.ResolveHost | bios/v4sa_ikbd.c:367 | 0xa000 to 0xa07f address the scancode table and 0xa080 is one past it |
| IkbdMemory.ResolveElsewhere | bios/v4sa_ikbd.c:1859-1874 | every other address resolves to nothing (the NULL result) |
| IkbdMemory.PadBoundary | bios/v4sa_ikbd.c:1866-1871 | the shared boundary 0xb010 reaches joystick mask 0 through the scancode window, and 0xb020 and 0xa080 lie one past their arrays |
| IkbdMouse.EdgeKeyShape | bios/v4sa_ikbd.c:1114-1123 | a button key is sent exactly when the button changed; it carries the key code, with bit 7 set exactly when the button went up |
| IkbdMouse.ButtonKeys | bios/v4sa_ikbd.c:1114-1123 | the button keys of one cursor iteration are at most two, left before right |
| IkbdMouse.ButtonKeysQuiet | bios/v4sa_ikbd.c:1114-1123 | no button key is sent exactly when neither button changed |
| IkbdMouse.Clamp | bios/v4sa_ikbd.c:718-721 | clamping gives a value in 0..max, keeps a value already in range, maps a negative one to 0 and a larger one to max |
| IkbdMouse.Integrate | bios/v4sa_ikbd.c:714-731 | the integrated absolute coordinate stays within 0..max and moves by exactly the delta, times the scale when the scale is above 1, when that stays in range |
| IkbdMouse.RelHeader | bios/v4sa_ikbd.c:840-844 | the relative header is 0xF8 with bit 1 for the left button and bit 0 for the right |
| IkbdMouse.RelPacket | bios/v4sa_ikbd.c:846-851 | a relative packet is the header, the X delta's low byte and the wrapped Y delta times the Y direction |
| IkbdMouse.Residue | bios/v4sa_ikbd.c:853-854 | subtracting the wrapped byte leaves a multiple of 256, whose own wrap is 0 |
| IkbdMouse.AtMostOnePacket | bios/v4sa_ikbd.c:824-862 | after one packet the loop test is false whatever the thresholds, so the loop sends at most one packet per call |
| IkbdMouse.SmallDeltaSentWhole | bios/v4sa_ikbd.c:829-854 | a delta within the signed-byte range is sent whole and leaves nothing behind |
| IkbdMouse.RelLoop | bios/v4sa_ikbd.c:822-863 | the relative-packet loop sends one packet and subtracts the wrapped deltas and records the buttons when its test holds, and otherwise changes nothing |
| IkbdMouse.AbsButtons | bios/v4sa_ikbd.c:1513-1522 | the absolute button byte has bit 0 or 1 for the right button down or up and bit 2 or 3 for the left, nothing above |
| IkbdMouse.BigEndian16 | bios/v4sa_ikbd.c:1533-1536 | a 16-bit coordinate is sent as its high byte then its low byte |
| IkbdMouse.AbsReport | bios/v4sa_ikbd.c:1509-1539 | the absolute report is 0xF7, the button states not reported last time, then X and Y big-endian |
| IkbdMouse.AbsReportsEachEdgeOnce | bios/v4sa_ikbd.c:1523-1526 | a button state already reported is not reported again |
| IkbdMouse.AxisStep | bios/v4sa_ikbd.c:1064-1110 | with a step of at least 1 an axis loses exactly one step when at least one step from zero, keeps its sign, and sends one key press and release |
| IkbdMouse.CursorSmallMoveKept | bios/v4sa_ikbd.c:1062-1132 | a movement within one step of zero with no button change sends nothing and is kept whole |
| IkbdMouse.CursorNeverOvershoots | bios/v4sa_ikbd.c:1062-1132 | with steps of at least 1 the cursor loop moves each delta towards zero and never past it |
| IkbdMouse.AxisLoopStep | bios/v4sa_ikbd.c:1064-1087 | one axis of a cursor iteration sends AxisKeys and leaves AxisRest |
| IkbdMouse.CursorAdvance | bios/v4sa_ikbd.c:1062-1132 | one iteration keeps the invariant that the keys sent plus what the rest of the loop sends make the whole run |
| IkbdMouse.CursorIteration | bios/v4sa_ikbd.c:1064-1130 | one iteration sends the X keys, then the Y keys, then the button keys |
| IkbdMouse.CursorLoop | bios/v4sa_ikbd.c:1054-1133 | the cursor loop of at most 10 iterations computes CursorFrom and reports whether it ran |
| IkbdJoystick.Exhausted | bios/v4sa_ikbd.c:882 | once both words are zero the scan sends nothing more, and a zero state adds no joystick mask |
| IkbdJoystick.EventsStep | bios/v4sa_ikbd.c:882-899 | one bit position's key event followed by the events of the higher bits are the events from that position |
| IkbdJoystick.JoyStep | bios/v4sa_ikbd.c:884-885 | OR-ing one bit's joystick mask and then the higher bits' masks is the OR from that position |
| IkbdJoystick.ScanBit | bios/v4sa_ikbd.c:882-899 | one pass of the scan body adds bit j's joystick mask when the input is held and its scancode, with bit 7 set on release, when the bit changed and is mapped |
| IkbdJoystick.ScanPad | bios/v4sa_ikbd.c:882-899 | the scan loop over one pad, running while either word has a bit left, yields the OR of the masks of the held inputs and the key events of the changed bits in increasing bit order |
| IkbdJoystick.SamplePad | bios/v4sa_ikbd.c:874-899 | a pad read XORs the remembered and new words and scans the result |
| IkbdJoystick.EventsBounded | bios/v4sa_ikbd.c:887-898 | the scan sends at most one event per remaining bit, each a mapped non-zero scancode, pressed or released |
| IkbdJoystick.UnchangedSendsNothing | bios/v4sa_ikbd.c:877-888 | a pad whose word did not change sends no key event |
| IkbdJoystick.SampleBounded | bios/v4sa_ikbd.c:882-899 | a pad read sends at most 16 key events |
| IkbdJoystick.ReleasedPadIsIdle | bios/v4sa_ikbd.c:880-885 | a pad with no input held has joystick byte 0 |
| IkbdJoystick.AutoPacket | bios/v4sa_ikbd.c:923-944 | a stick's automatic packet is sent exactly when its byte differs from the last one sent, and is its header followed by the byte |
| IkbdJoystick.MonitorBytes | bios/v4sa_ikbd.c:956-969 | the monitoring report carries the two fire buttons in bits 1 and 0 of its first byte and the two direction nibbles in its second |
| IkbdCustom.LoadMatchFrom | bios/v4sa_ikbd.c:2245-2248 | the upload search finds the first row whose upload CRC matches, or runs off the end when none does |
| IkbdCustom.MainMatchFound | bios/v4sa_ikbd.c:2284-2288 | a row the main-program search finds has that byte count and that CRC |
| IkbdCustom.MainMatchFirst | bios/v4sa_ikbd.c:2284-2288 | no row before the one the main-program search finds matches both |
| IkbdCustom.FindLoadMatch | bios/v4sa_ikbd.c:2245-2248 | the search loop of IKBD_LoadMemoryByte stops at LoadMatchFrom |
| IkbdCustom.FindMainMatch | bios/v4sa_ikbd.c:2284-2288 | the search loop of the CommonBoot handler stops at MainMatchFrom |
| IkbdCustom.EveryUploadBootsCommonBoot | bios/v4sa_ikbd.c:296-349 | every known upload installs the CommonBoot write handler |
| IkbdCustom.AudioSculptureRows | bios/v4sa_ikbd.c:332-349 | the two Audio Sculpture rows share their upload CRC, so an upload matches the colour row, and the main program's CRC tells colour and monochrome apart |
| IkbdCustom.FirstPressedFrom | bios/v4sa_ikbd.c:1275-1284 | the first pressed key from an index on: -1 exactly when none is pressed, otherwise a pressed key with none pressed before it |
| IkbdCustom.CheckPressedKey | bios/v4sa_ikbd.c:1275-1284 | the loop of IKBD_CheckPressedKey returns FirstPressedFrom the start of the table |
| IkbdCustom.FroggiesState | bios/v4sa_ikbd.c:2335-2350 | $80 and $81 hold the vertical and horizontal movement from the mouse or the cursor keys, and all three bytes carry the left button or keypad 0 in bit 7 |
| IkbdCustom.FroggiesReply | bios/v4sa_ikbd.c:2354-2365 | a write of 1 returns $80, a write of 4 returns $83 down to $80, any other byte returns nothing |
| IkbdCustom.Transbeauce2Byte | bios/v4sa_ikbd.c:2375-2391 | the reply byte has the cursor keys ORed with joystick 1's directions in bits 0-3, Help in bit 6, Space or fire in bit 7, and bits 4-5 clear |
| IkbdCustom.DragonnelsByte | bios/v4sa_ikbd.c:2411-2421 | the left button gives 0x80, otherwise the vertical movement gives 0x04, 0xFC or 0 |
| IkbdCustom.ChaosRoundTrip | bios/v4sa_ikbd.c:2467 | the Chaos A.D. XOR decoding undoes itself |
| IkbdReplies.Status | bios/v4sa_ikbd.c:1959-1972 | a status reply is 8 bytes: 0xF6, the setter message, then zeros |
| IkbdReplies.ReportMouseMode | bios/v4sa_ikbd.c:1981-2017 | with the mouse off only the header goes out (the switch has no case for it); otherwise a full 8-byte status reply |
| IkbdReplies.ReadClockReply | bios/v4sa_ikbd.c:1844-1857 | the clock reply is 0xFC followed by the six stored clock bytes |
| IkbdReplies.ReplaysRow | bios/v4sa_ikbd.c:1330-1344 | a message with a row's opcode and length replays as that row's command |
| IkbdReplies.MouseModeReplays | bios/v4sa_ikbd.c:1981-2017 | the relative, absolute and cursor mode replies replay as commands 0x08, 0x09 and 0x0A with the stored maxima and key steps |
| IkbdReplies.ActionReplays | bios/v4sa_ikbd.c:1959-1972 | the mouse-action reply replays as command 0x07 with the stored action |
| IkbdReplies.ThresholdScaleReplay | bios/v4sa_ikbd.c:2026-2061 | the threshold and scale replies replay as commands 0x0B and 0x0C with the stored byte values |
| IkbdReplies.VerticalReplays | bios/v4sa_ikbd.c:2070-2086 | the vertical reply replays as 0x0F when the Y axis is -1 and as 0x10 otherwise |
| IkbdReplies.ModesReplay | bios/v4sa_ikbd.c:2095-2172 | the joystick mode reply replays as 0x14 in automatic mode and 0x15 otherwise; the availability replies replay as 0x12 or 0x1A when off and carry 0 otherwise |
| IkbdState.Emit | bios/v4sa_ikbd.c:32 | sending bytes to the ACIA appends them to the output and changes nothing else that validity depends on |
| IkbdState.Released | bios/v4sa_ikbd.c:570-571 | the key-state table with all 128 keys up |
| IkbdState.BootRomDefaults | bios/v4sa_ikbd.c:532-607 | the ROM reset selects relative mouse and automatic joystick reports, position 0,0 within 320x200, thresholds 1, Y down, all keys up, an empty input buffer, the reset window of 40 ticks, no pending load, and clears the clock only on a cold reset |
| IkbdState.BootRomKeepsHandlers | bios/v4sa_ikbd.c:594-601 | the custom handlers survive a reboot exactly when no load is pending and no custom code runs, or none is installed |
| IkbdState.BootRom | bios/v4sa_ikbd.c:532-607 | the ROM reset keeps the output, the joypads, the host table, the function statics, the joystick data bytes, the load address and CRC; it leaves no load pending, no custom code running, an empty input buffer and the reset window open |
| IkbdState.ResetDisableBug | bios/v4sa_ikbd.c:1293-1307 | only the modes and the reset flags can change, and they change exactly when both mouse and joysticks are disabled inside the reset window, to relative mouse and automatic joystick reports with the both-disabled flag set |
| IkbdState.PowerOnState | bios/v4sa_ikbd.c:409-522 | IKBD_Init then a cold IKBD_Reset leave a valid state with a zero clock, no handler, the default scancode table, the reset counter at 40 and nothing sent |
| IkbdState.Poke | bios/v4sa_ikbd.c:2237-2240 | storing a loaded byte changes only the memory it addresses |
| IkbdState.PokePeek | bios/v4sa_ikbd.c:2237-2240 | a stored byte reads back at its address; a store one past an array is recorded, an unmapped one has no effect |
| IkbdState.PokeOthers | bios/v4sa_ikbd.c:2237-2240 | a store leaves every other location's byte unchanged |
| IkbdHandlers.LoadStep | bios/v4sa_ikbd.c:2231-2264 | a loaded byte counts down the bytes left and advances the address; before the last byte it only enters the CRC |
| IkbdHandlers.LoadMemoryByte | bios/v4sa_ikbd.c:2231-2264 | a loaded byte is stored at its address when that lies in an array and the bookkeeping advances; the output and the keyboard state are untouched |
| IkbdHandlers.LoadFingerprint | bios/v4sa_ikbd.c:1886-1893 | an upload of n bytes is fingerprinted by the CRC of exactly those bytes: a match installs the common boot handler with the CRC and byte count reset, no match removes both handlers |
| IkbdHandlers.Recognise | bios/v4sa_ikbd.c:2277-2297 | recognition records the byte count and the CRC and leaves the load counters alone |
| IkbdHandlers.RecogniseInstalls | bios/v4sa_ikbd.c:2290-2296 | recognition installs the matching row's read and write handlers, or leaves the handlers as they were |
| IkbdHandlers.BootStep | bios/v4sa_ikbd.c:2281-2282 | the common boot handler adds each byte to the CRC and to the byte count |
| IkbdHandlers.CommonBootRecognises | bios/v4sa_ikbd.c:2277-2297 | the common boot handler recognises the main program by its byte count together with its CRC, on its last byte, and keeps the handlers until then |
| IkbdHandlers.FroggiesWriteByte | bios/v4sa_ikbd.c:2324-2366 | a byte with bit 7 set leaves custom mode through a warm ROM boot; any other byte is answered with the requested RAM bytes |
| IkbdHandlers.ChaosStep | bios/v4sa_ikbd.c:2449-2481 | the decoder index stays below 8, at most one byte is echoed, and custom mode is left only on 0x08 after all 6081 bytes are decoded |
| IkbdHandlers.ChaosWrite | bios/v4sa_ikbd.c:2449-2481 | the Chaos A.D. write handler keeps the state valid |
| IkbdHandlers.AudioSculptureWriteByte | bios/v4sa_ikbd.c:2532-2543 | the Audio Sculpture write handler leaves the keyboard and the loader alone |
| IkbdHandlers.RunWrite | bios/v4sa_ikbd.c:617-624 | the installed write handler keeps the state valid and either keeps the input buffer or empties it through a reboot |
| IkbdHandlers.AudioSculptureRead | bios/v4sa_ikbd.c:2508-2530 | the Audio Sculpture read handler keeps the state valid |
| IkbdHandlers.RunRead | bios/v4sa_ikbd.c:2498-2530 | the installed read handler keeps the state valid and either keeps the input buffer or empties it through a reboot |
| IkbdHandlers.ChaosStream | bios/v4sa_ikbd.c:2464-2468 | the decoded stream has as many bytes as the encoded one |
| IkbdHandlers.ChaosStreamRoundTrip | bios/v4sa_ikbd.c:2464-2468 | decoding a stream twice from the same key index gives it back |
| IkbdHandlers.ChaosDecodes | bios/v4sa_ikbd.c:2455-2472 | once the key bytes are skipped, each byte is echoed decoded with the key byte after the previous one, for up to 6081 bytes, without leaving custom mode |
| IkbdHandlers.ChaosEchoesPlainText | bios/v4sa_ikbd.c:2455-2472 | a stream encoded with the same key from the same index is echoed as its plain text |
| IkbdHandlers.AudioSculptureExit | bios/v4sa_ikbd.c:2508-2543 | the magic byte 0x42 is answered with 0x4B 0x13, and the second read after it reboots the ROM, removing the handlers and leaving execute mode |
| IkbdHandlers.ChaosReadyOnce | bios/v4sa_ikbd.c:2439-2447 | the Chaos A.D. program announces itself with 0xFE on its first read only |
| IkbdInput.SampleButtons | bios/v4sa_ikbd.c:1161-1162 | the left button is sampled from bit 1 and the right from bit 0 of the host mask, each as the mouse-button bit |
| IkbdInput.GetJoystickData | bios/v4sa_ikbd.c:869-912 | the joystick read leaves the keyboard, the loader, the reset window and both reporting modes alone |
| IkbdInput.JoystickDataFrom | bios/v4sa_ikbd.c:869-912 | the read records both words, sends pad 0's events then pad 1's, and sets JoyData from pad 1 and, when connected, pad 0 |
| IkbdInput.JoystickBytes | bios/v4sa_ikbd.c:902-911 | JoyData[1] is the OR of pad 1's held masks; JoyData[0] is pad 0's, or 0 when the mouse holds the port |
| IkbdInput.JoystickEvents | bios/v4sa_ikbd.c:872-899 | a joystick read sends pad 0's events then pad 1's, at most 32, and none when neither word changed |
| IkbdInput.JoystickPads | bios/v4sa_ikbd.c:872-880 | a joystick read records the two new words and changes no map and neither of pads 2 and 3 |
| IkbdInput.FireCouplingOn | bios/v4sa_ikbd.c:782-797 | with the mouse on, joystick 1's fire and the right button become one button, set in both places exactly when either was pressed, and every other bit is kept |
| IkbdInput.FireCouplingOff | bios/v4sa_ikbd.c:773-781 | with the mouse off each joystick's fire bit is set when it or its mouse button was pressed, and the right button is left alone |
| IkbdInput.DuplicateFire | bios/v4sa_ikbd.c:771-813 | the fire coupling keeps the state valid and touches neither output nor loader |
| IkbdInput.ReadAbs | bios/v4sa_ikbd.c:1509-1539 | command 0x0D sends the absolute report and remembers its button state as the previous one |
| IkbdInput.MouseAction | bios/v4sa_ikbd.c:976-1047 | the mouse-action reports leave the keyboard and the loader alone |
| IkbdInput.MouseActionReportsPress | bios/v4sa_ikbd.c:976-1047 | pressing the left button sends key 0x74 under action bit 2, one absolute report showing the left button down under bit 0 in absolute mode, nothing in relative mode or under bit 1 alone, and nothing with no action bit |
| IkbdInput.MouseActionReportsRelease | bios/v4sa_ikbd.c:976-1047 | releasing the left button sends the break code 0xF4 under action bit 2, one absolute report showing the left button up under bit 1 in absolute mode, and nothing under bit 0 alone |
| IkbdInput.MouseActionRightKeys | bios/v4sa_ikbd.c:981-997 | under action bit 2 the right button sends 0x75 down and 0xF5 up, after 0x74 when both go down, and the processor record is unchanged |
| IkbdInput.UpdatePosition | bios/v4sa_ikbd.c:704-736 | the host deltas become Mouse.DeltaX and DeltaY and the absolute position stays within 0..Max |
| IkbdInput.PositionMovesByDelta | bios/v4sa_ikbd.c:714-731 | the position moves exactly by the scaled delta when that stays in range and stops at the edges otherwise |
| IkbdInput.SendAutoJoysticks | bios/v4sa_ikbd.c:919-946 | after the automatic report both previous joystick bytes equal the current ones |
| IkbdInput.AutoJoysticksOnChange | bios/v4sa_ikbd.c:919-946 | an unchanged stick sends nothing, a changed one sends its header and byte, stick 0 first, and a second report with nothing changed is silent |
| IkbdInput.Monitor | bios/v4sa_ikbd.c:956-969 | monitoring sends the two-byte fire and direction summary |
| IkbdInput.SendRel | bios/v4sa_ikbd.c:822-863 | the relative report keeps the state valid and leaves the input buffer and the loader alone |
| IkbdInput.RelReport | bios/v4sa_ikbd.c:822-863 | the relative report sends nothing when no wrapped delta reaches its threshold and no button changed, and otherwise exactly one packet, after which both deltas are multiples of 256 and the loop test is false |
| IkbdInput.SendCursor | bios/v4sa_ikbd.c:1054-1133 | the cursor report sends the keys of the cursor loop |
| IkbdInput.CursorTowardsZero | bios/v4sa_ikbd.c:1062-1110 | with steps of at least 1 each delta moves towards 0 without changing sign |
| IkbdInput.CursorSmallMove | bios/v4sa_ikbd.c:1062-1110 | with the buttons unchanged, deltas smaller than their steps are kept whole and no key is sent |
| IkbdTick.AfterEvent | bios/v4sa_ikbd.c:1244-1246 | the custom read handler after an event keeps the state valid |
| IkbdTick.PressKey | bios/v4sa_ikbd.c:1254-1266 | a key event does nothing while joysticks are monitored, and otherwise keeps the state valid |
| IkbdTick.PressKeys | bios/v4sa_ikbd.c:1254-1266 | a sequence of key events keeps the state valid |
| IkbdTick.WheelKeys | bios/v4sa_ikbd.c:1197-1212 | a wheel notch is eight key events ending in 0x59 for up and 0x5A for down |
| IkbdTick.Wheel | bios/v4sa_ikbd.c:1197-1229 | the two wheel loops keep the state valid |
| IkbdTick.ExtraButtons | bios/v4sa_ikbd.c:1231-1242 | the extra-button keys keep the state valid |
| IkbdTick.ExtraEdge | bios/v4sa_ikbd.c:1231-1240 | one extra button sends a key exactly when its bit changed: its key code, a press (bit 7 clear) exactly when the bit is now set |
| IkbdTick.ExtraKeys | bios/v4sa_ikbd.c:1231-1240 | the extra buttons send at most three keys, and none exactly when bits 0x04, 0x08 and 0x10 all kept their value |
| IkbdTick.Countdown | bios/v4sa_ikbd.c:1144-1159 | a countdown step lowers the reset counter by one |
| IkbdTick.Reports | bios/v4sa_ikbd.c:1183-1195 | the report stage keeps the state valid |
| IkbdTick.Sample | bios/v4sa_ikbd.c:1161-1174 | the sampling stages keep the state valid |
| IkbdTick.Tick | bios/v4sa_ikbd.c:1140-1247 | a tick keeps the state valid |
| IkbdTick.CountdownIgnoresInput | bios/v4sa_ikbd.c:1144-1159 | while the reset counter runs, a tick ignores the host inputs and only counts down; the last step sends 0xF1 and closes the window |
| IkbdTick.Ticks | bios/v4sa_ikbd.c:1140-1247 | a run of ticks keeps the state valid |
| IkbdTick.ResetWindowCloses | bios/v4sa_ikbd.c:1144-1159 | from counter n the next n ticks together send exactly the ROM version 0xF1 and close the reset window, changing nothing else |
| IkbdTick.PressKeyRecords | bios/v4sa_ikbd.c:1254-1266 | outside monitoring and custom code a key event sends its scancode and changes only its own key-state entry, to 1 for a press and 0 for a release |
| IkbdTick.PressKeysSend | bios/v4sa_ikbd.c:1254-1266 | key events go out in order and leave the loader and the processor record alone |
| IkbdTick.Notches | bios/v4sa_ikbd.c:1197-1229 | the notch sequences of a wheel count hold eight bytes per notch |
| IkbdTick.WheelSends | bios/v4sa_ikbd.c:1197-1229 | the wheel loops send one eight-key sequence per notch, ending in 0x59 for a positive count and 0x5A for a negative one |
| IkbdTick.ExtraButtonsSend | bios/v4sa_ikbd.c:1231-1242 | the output grows by exactly ExtraKeys: for each changed bit 0x04, 0x08, 0x10 in that order, key 0x37, 0x5E or 0x5F, with bit 7 set when the bit is now clear; no change sends nothing, a change of bit 0x04 alone sends 0x37 or 0xB7; the mask is remembered, so a repeat sends nothing |
| IkbdTick.ReportsKeepAbs | bios/v4sa_ikbd.c:1183-1195 | the reports do not move the absolute position or change the joystick mode or the loader |
| IkbdTick.ExtraButtonsKeepProc | bios/v4sa_ikbd.c:1231-1242 | the extra-button keys change neither the processor record nor the loader |
| IkbdTick.AfterSampleKeepsAbs | bios/v4sa_ikbd.c:1176-1246 | the rest of a tick after the position update keeps the position and its limits |
| IkbdTick.TickPositionInRange | bios/v4sa_ikbd.c:1140-1247 | after a tick with the reset counter run out the absolute position lies within its limits, in execute mode too |
| IkbdTick.Residual | bios/v4sa_ikbd.c:1140-1247 | the tick leaves the buttons and joystick words to the host, takes the mouse deltas once the reset counter has run out, and either takes the wheel count or leaves it whole |
| IkbdTick.RunReadKeepsLimits | bios/v4sa_ikbd.c:2319-2530 | a custom read handler leaves the absolute position within its limits |
| IkbdTick.AudioSculptureKeepsLimits | bios/v4sa_ikbd.c:2508-2530 | the Audio Sculpture read handler, which may reboot the ROM, leaves the absolute position within its limits |
| IkbdTick.AfterEventKeepsLimits | bios/v4sa_ikbd.c:1254-1273 | running the custom read handler after an event keeps the position within its limits |
| IkbdTick.PressKeyKeepsLimits | bios/v4sa_ikbd.c:1254-1273 | a key event keeps the position within its limits |
| IkbdTick.PressKeysKeepLimits | bios/v4sa_ikbd.c:1197-1229 | a run of key events keeps the position within its limits |
| IkbdTick.WheelKeepsLimits | bios/v4sa_ikbd.c:1197-1229 | the wheel loops keep the position within its limits |
| IkbdTick.ExtraButtonsKeepLimits | bios/v4sa_ikbd.c:1231-1242 | the extra mouse-button events keep the position within its limits |
| IkbdCommands.CmdMouseAction | bios/v4sa_ikbd.c:1401-1405 | command 0x07 changes only the processor record: nothing is sent and the keyboard buffer and the loader are untouched |
| IkbdCommands.CmdRelMouseMode | bios/v4sa_ikbd.c:1414-1424 | command 0x08 changes only the processor and reset-window records and sends nothing |
| IkbdCommands.CmdAbsMouseMode | bios/v4sa_ikbd.c:1437-1443 | command 0x09 changes only the processor record and sends nothing |
| IkbdCommands.CmdMouseCursorKeycodes | bios/v4sa_ikbd.c:1454-1459 | command 0x0A changes only the processor record and sends nothing |
| IkbdCommands.CmdSetMouseThreshold | bios/v4sa_ikbd.c:1470-1474 | command 0x0B changes only the processor record and sends nothing |
| IkbdCommands.CmdSetMouseScale | bios/v4sa_ikbd.c:1485-1489 | command 0x0C changes only the processor record and sends nothing |
| IkbdCommands.CmdSetInternalMousePos | bios/v4sa_ikbd.c:1553-1558 | command 0x0E changes only the position and sends nothing |
| IkbdCommands.CmdSetYAxis | bios/v4sa_ikbd.c:1567-1582 | commands 0x0F and 0x10 change only the Y direction and send nothing |
| IkbdCommands.CmdStartKeyboardTransfer | bios/v4sa_ikbd.c:1594-1597 | command 0x11 leaves the output unpaused and sends nothing |
| IkbdCommands.CmdTurnMouseOff | bios/v4sa_ikbd.c:1606-1612 | command 0x12 changes only the processor and reset-window records and sends nothing |
| IkbdCommands.CmdStopKeyboardTransfer | bios/v4sa_ikbd.c:1621-1630 | command 0x13 changes at most the pause flag and sends nothing |
| IkbdCommands.CmdReturnJoystickAuto | bios/v4sa_ikbd.c:1639-1669 | command 0x14 selects joystick events; the mouse stays in relative mode exactly when it was enabled or disabled inside the reset window, which is then remembered, and is off otherwise |
| IkbdCommands.CmdStopJoystick | bios/v4sa_ikbd.c:1678-1681 | command 0x15 changes only the joystick mode and sends nothing |
| IkbdCommands.CmdSetJoystickMonitoring | bios/v4sa_ikbd.c:1717-1732 | command 0x17 changes only the modes and sends nothing |
| IkbdCommands.CmdDisableJoysticks | bios/v4sa_ikbd.c:1784-1792 | command 0x1A changes only the processor and reset-window records and sends nothing |
| IkbdCommands.StoreClock | bios/v4sa_ikbd.c:1813-1824 | the SetClock loop keeps the clock six bytes long |
| IkbdCommands.CmdSetClock | bios/v4sa_ikbd.c:1813-1824 | command 0x1B changes only the clock and sends nothing |
| IkbdCommands.CmdLoadMemory | bios/v4sa_ikbd.c:1886-1893 | command 0x20 changes only the loader and sends nothing |
| IkbdCommands.MemoryBytes | bios/v4sa_ikbd.c:1912-1929 | command 0x21 reads six bytes |
| IkbdCommands.CmdExecute | bios/v4sa_ikbd.c:1940-1950 | command 0x22 changes at most the loader and sends nothing |
| IkbdCommands.Handle | bios/v4sa_ikbd.c:1377-1950 | every handler keeps the state valid |
| IkbdCommands.RunCommand | bios/v4sa_ikbd.c:1322-1355 | after a byte the buffer holds what the framer keeps of it: the message so far, or nothing once a message ran or its opcode is unknown |
| IkbdCommands.ProcessRdr | bios/v4sa_ikbd.c:617-631 | a host byte keeps the state valid and the framer's buffer a proper prefix of a known message |
| IkbdCommands.RunCommandCases | bios/v4sa_ikbd.c:1322-1355 | an unknown opcode empties the buffer, an incomplete message is buffered, and a complete one runs its handler on the whole message, unpaused, and empties the buffer |
| IkbdCommands.HandleReset | bios/v4sa_ikbd.c:1377-1385 | command 0x80 boots the ROM (keeping the clock) exactly when its second byte is 0x01 and otherwise does nothing |
| IkbdCommands.HandleSetClock | bios/v4sa_ikbd.c:1813-1824 | the table runs CmdSetClock for 0x1B |
| IkbdCommands.HandleReadMemory | bios/v4sa_ikbd.c:1912-1929 | command 0x21 sends 0xF6 0x20 and the six bytes from the address in bytes 1-2 |
| IkbdCommands.Completes | bios/v4sa_ikbd.c:1322-1355 | a byte that completes a table entry's message runs that entry's handler on the whole message and empties the buffer |
| IkbdCommands.OneByte | bios/v4sa_ikbd.c:1322-1355 | a one-byte command sent to an empty buffer runs at once |
| IkbdCommands.UnknownOpcodeIgnored | bios/v4sa_ikbd.c:1322-1355 | an opcode the table lacks, 0xFF among them, changes nothing |
| IkbdCommands.PartialMessageWaits | bios/v4sa_ikbd.c:1322-1355 | a byte that does not complete its message is only appended to the buffer |
| IkbdCommands.WindowRows | bios/v4sa_ikbd.c:179-225 | the table rows for 0x08, 0x12, 0x13, 0x14 and 0x1A are one-byte commands with those handlers |
| IkbdCommands.JoystickAutoInWindow | bios/v4sa_ikbd.c:1639-1669 | 0x14 inside the reset window after the mouse was enabled or disabled there gives relative mouse and joystick events together |
| IkbdCommands.JoystickAutoOutsideWindow | bios/v4sa_ikbd.c:1639-1669 | 0x14 outside the reset window turns the mouse off |
| IkbdCommands.RelThenJoystickInWindow | bios/v4sa_ikbd.c:1414-1424 | 0x08 then 0x14 inside the reset window reports both mouse and joysticks |
| IkbdCommands.MouseOffInWindow | bios/v4sa_ikbd.c:1606-1612 | 0x12 inside the reset window is remembered and leaves the window open |
| IkbdCommands.JoysticksOffInWindow | bios/v4sa_ikbd.c:1293-1307 | 0x1A after 0x12 inside the reset window turns relative mouse and joystick events on |
| IkbdCommands.OffThenJoystickInWindow | bios/v4sa_ikbd.c:1639-1669 | 0x12 then 0x14 inside the reset window reports both mouse and joysticks |
| IkbdCommands.OffThenJoysticksOffInWindow | bios/v4sa_ikbd.c:1293-1307 | 0x12 then 0x1A inside the reset window reports both mouse and joysticks |
| IkbdCommands.PauseOutsideWindow | bios/v4sa_ikbd.c:1621-1630 | 0x13 pauses the output exactly when the reset window is closed and changes nothing else |
| IkbdCommands.ResetCommand | bios/v4sa_ikbd.c:1377-1385 | 0x80 0x01 reboots the ROM keeping the clock; 0x80 followed by any other byte only unpauses the output |
| IkbdCommands.StoreClockFrom | bios/v4sa_ikbd.c:1813-1824 | the SetClock loop keeps the bytes before its start and replaces each later byte by its message byte exactly when that is BCD |
| IkbdCommands.SetClockBytes | bios/v4sa_ikbd.c:1813-1824 | command 0x1B stores each of the six bytes exactly when it is BCD and keeps the others |
| IkbdCommands.SetClockKeepsBcd | bios/v4sa_ikbd.c:1813-1824 | setting the clock keeps a BCD clock BCD |
| IkbdCommands.SetThenReadClock | bios/v4sa_ikbd.c:1813-1857 | a clock set from six BCD bytes reads back through 0x1C as 0xFC and those bytes |
| IkbdCommands.MemoryBytesPad | bios/v4sa_ikbd.c:1859-1929 | command 0x21 on a pad's map reads that map's six bytes |
| IkbdCommands.MemoryBytesHost | bios/v4sa_ikbd.c:1859-1929 | command 0x21 on the scancode table reads its six entries |
| IkbdCommands.LoadMemoryStarts | bios/v4sa_ikbd.c:1886-1893 | 0x20 loads byte 3 bytes (up to 255) at the address of bytes 1-2 with a reset CRC, and the next host byte goes to the loader |
| IkbdCommands.ExecuteNeedsHandler | bios/v4sa_ikbd.c:1940-1950 | 0x22 turns execute mode on exactly when a custom write handler is installed |
| IkbdCommands.SetPositionUnclamped | bios/v4sa_ikbd.c:1553-1558 | 0x0E stores the position unclamped and the next position update brings it back within the maxima |
| IkbdCommands.ProcessRdrRoutes | bios/v4sa_ikbd.c:617-631 | a host byte goes to the write handler in execute mode, else to the framer with no load pending, else to the loader |
| IkbdStatus.HandleMouseReports | bios/v4sa_ikbd.c:1959-2069 | commands 0x87, 0x88, 0x8B and 0x8C append their report of the current settings and change nothing else |
| IkbdStatus.HandleModeReports | bios/v4sa_ikbd.c:2070-2172 | commands 0x8F, 0x92, 0x94 and 0x9A append their report of the current settings and change nothing else |
| IkbdStatus.HandleModeSetters | bios/v4sa_ikbd.c:1401-1453 | the dispatcher runs the handlers of 0x07, 0x08 and 0x09 |
| IkbdStatus.HandleMouseSetters | bios/v4sa_ikbd.c:1454-1508 | the dispatcher runs the handlers of 0x0A, 0x0B and 0x0C |
| IkbdStatus.HandleAxisSetters | bios/v4sa_ikbd.c:1567-1620 | the dispatcher runs the handlers of 0x0F, 0x10 and 0x12 |
| IkbdStatus.HandleJoystickAuto | bios/v4sa_ikbd.c:1639-1677 | the dispatcher runs the handler of 0x14 |
| IkbdStatus.HandleJoystickSetters | bios/v4sa_ikbd.c:1678-1812 | the dispatcher runs the handlers of 0x15 and 0x1A |
| IkbdStatus.ActionReported | bios/v4sa_ikbd.c:1959-1980 | after 0x07 the 0x87 report carries the message just stored |
| IkbdStatus.RelReported | bios/v4sa_ikbd.c:1981-2025 | after 0x08 the 0x88 report is the status form of 0x08 |
| IkbdStatus.AbsReported | bios/v4sa_ikbd.c:1981-2025 | after 0x09 the 0x88 report carries the maxima just stored |
| IkbdStatus.AbsReply | bios/v4sa_ikbd.c:1981-2025 | the absolute-mode report of the maxima of a 0x09 message is that message's status form |
| IkbdStatus.CursorReported | bios/v4sa_ikbd.c:1981-2025 | after 0x0A the 0x88 report carries the distances just stored |
| IkbdStatus.ThresholdReported | bios/v4sa_ikbd.c:2026-2047 | after 0x0B the 0x8B report carries the thresholds just stored |
| IkbdStatus.ThresholdReply | bios/v4sa_ikbd.c:2026-2047 | the threshold report of a 0x0B message's bytes is that message's status form |
| IkbdStatus.ScaleReported | bios/v4sa_ikbd.c:2048-2069 | after 0x0C the 0x8C report carries the scales just stored |
| IkbdStatus.ScaleReply | bios/v4sa_ikbd.c:2048-2069 | the scale report of a 0x0C message's bytes is that message's status form |
| IkbdStatus.DownReported | bios/v4sa_ikbd.c:2070-2094 | after 0x0F the 0x8F report is the status form of 0x0F |
| IkbdStatus.UpReported | bios/v4sa_ikbd.c:2070-2094 | after 0x10 the 0x8F report is the status form of 0x10 |
| IkbdStatus.AutoReported | bios/v4sa_ikbd.c:2120-2155 | after 0x14 the 0x94 report is the status form of 0x14 |
| IkbdStatus.AutoModeReply | bios/v4sa_ikbd.c:2120-2155 | with automatic joystick reports the 0x94 report is the status form of 0x14 |
| IkbdStatus.StopReported | bios/v4sa_ikbd.c:2120-2155 | after 0x15 the 0x94 report is the status form of 0x15 |
| IkbdStatus.MouseOffReported | bios/v4sa_ikbd.c:2095-2119 | outside the reset window, after 0x12 the 0x92 report is the status form of 0x12 |
| IkbdStatus.JoysticksOffReported | bios/v4sa_ikbd.c:2156-2172 | outside the reset window, after 0x1A the 0x9A report is the status form of 0x1A |
| IkbdStatus.ActionThenReport | bios/v4sa_ikbd.c:1401-1412 | sending 0x07 then 0x87 answers with the 0x07 message in status form |
| IkbdStatus.RelThenReport | bios/v4sa_ikbd.c:1414-1435 | sending 0x08 then 0x88 answers with 0x08 in status form |
| IkbdStatus.AbsThenReport | bios/v4sa_ikbd.c:1437-1452 | sending 0x09 then 0x88 answers with the 0x09 message in status form |
| IkbdStatus.CursorThenReport | bios/v4sa_ikbd.c:1454-1468 | sending 0x0A then 0x88 answers with the 0x0A message in status form |
| IkbdStatus.ThresholdThenReport | bios/v4sa_ikbd.c:1470-1483 | sending 0x0B then 0x8B answers with the 0x0B message in status form |
| IkbdStatus.ScaleThenReport | bios/v4sa_ikbd.c:1485-1507 | sending 0x0C then 0x8C answers with the 0x0C message in status form |
| IkbdStatus.DownThenReport | bios/v4sa_ikbd.c:1567-1577 | sending 0x0F then 0x8F answers with 0x0F in status form |
| IkbdStatus.UpThenReport | bios/v4sa_ikbd.c:1579-1592 | sending 0x10 then 0x8F answers with 0x10 in status form |
| IkbdStatus.MouseOffThenReport | bios/v4sa_ikbd.c:1606-1619 | outside the reset window, sending 0x12 then 0x92 answers with 0x12 in status form |
| IkbdStatus.AutoThenReport | bios/v4sa_ikbd.c:1639-1676 | sending 0x14 then 0x94 answers with 0x14 in status form |
| IkbdStatus.StopThenReport | bios/v4sa_ikbd.c:1678-1688 | sending 0x15 then 0x94 answers with 0x15 in status form |
| IkbdStatus.JoysticksOffThenReport | bios/v4sa_ikbd.c:1784-1811 | outside the reset window, sending 0x1A then 0x9A answers with 0x1A in status form |
| IkbdEmulator.Ikbd.constructor | bios/v4sa_ikbd.c:409-522 | initialisation and the cold reset leave the emulator in the power-on state |
| IkbdEmulator.Ikbd.BootRom | bios/v4sa_ikbd.c:532-607 | the ROM boot updates the fields as IkbdState.BootRom says |
| IkbdEmulator.Ikbd.AfterEvent | bios/v4sa_ikbd.c:1244-1246 | the custom read handler step updates the fields as IkbdTick.AfterEvent says |
| IkbdEmulator.Ikbd.PressKey | bios/v4sa_ikbd.c:1254-1266 | a key event updates the fields as IkbdTick.PressKey says |
| IkbdEmulator.Ikbd.PressKeys | bios/v4sa_ikbd.c:1254-1266 | a loop of key events equals IkbdTick.PressKeys |
| IkbdEmulator.Ikbd.WheelUp | bios/v4sa_ikbd.c:1197-1212 | the loop that runs a positive wheel count down to zero equals IkbdTick.Wheel |
| IkbdEmulator.Ikbd.WheelDown | bios/v4sa_ikbd.c:1214-1229 | the loop that runs a negative wheel count up to zero equals IkbdTick.Wheel |
| IkbdEmulator.Ikbd.Wheel | bios/v4sa_ikbd.c:1197-1229 | the two wheel loops together equal IkbdTick.Wheel |
| IkbdEmulator.Ikbd.ExtraButtons | bios/v4sa_ikbd.c:1231-1242 | the key events of the changed extra buttons, then the remembered mask, leave the fields equal to IkbdTick.ExtraButtons |
| IkbdEmulator.Ikbd.GetJoystickData | bios/v4sa_ikbd.c:869-912 | the pad loop equals IkbdInput.GetJoystickData |
| IkbdEmulator.Ikbd.SendRel | bios/v4sa_ikbd.c:822-863 | the packet loop equals IkbdInput.SendRel |
| IkbdEmulator.Ikbd.SendCursor | bios/v4sa_ikbd.c:1054-1133 | the cursor-key loop equals IkbdInput.SendCursor |
| IkbdEmulator.Ikbd.SetClock | bios/v4sa_ikbd.c:1813-1824 | the SetClock loop equals IkbdCommands.CmdSetClock |
| IkbdEmulator.Ikbd.ReadMemory | bios/v4sa_ikbd.c:1912-1929 | the ReadMemory loop sends 0xF6 0x20 and the six bytes of IkbdCommands.MemoryBytes |
| IkbdEmulator.Ikbd.LoadMemoryByte | bios/v4sa_ikbd.c:2231-2264 | a loaded byte updates the fields as IkbdHandlers.LoadMemoryByte says |
| IkbdEmulator.Ikbd.RunHandler | bios/v4sa_ikbd.c:1377-1950 | a handler run on the buffered message equals IkbdCommands.Handle |
| IkbdEmulator.Ikbd.RunCommand | bios/v4sa_ikbd.c:1322-1355 | the framer step equals IkbdCommands.RunCommand |
| IkbdEmulator.Ikbd.RunWrite | bios/v4sa_ikbd.c:617-631 | a byte for the write handler updates the fields as IkbdHandlers.RunWrite says |
| IkbdEmulator.Ikbd.ProcessRdr | bios/v4sa_ikbd.c:617-631 | a host byte equals IkbdCommands.ProcessRdr and keeps the framer's buffer a proper prefix of a known message |
| IkbdEmulator.Ikbd.Countdown | bios/v4sa_ikbd.c:1144-1159 | a countdown step equals IkbdTick.Countdown |
| IkbdEmulator.Ikbd.Sample | bios/v4sa_ikbd.c:1161-1174 | the sampling stages equal IkbdTick.Sample |
| IkbdEmulator.Ikbd.Reports | bios/v4sa_ikbd.c:1183-1195 | the report stage equals IkbdTick.Reports |
| IkbdEmulator.Ikbd.Tick | bios/v4sa_ikbd.c:1140-1247 | a tick equals IkbdTick.Tick, and what it leaves of the host inputs is IkbdTick.Residual |
| BlkDev.GetIword | bios/blkdev.c:63-68 | a boot-sector word read low byte first is a 16-bit value |
| BlkDev.PutIword | bios/blkdev.c:63-68 | a 16-bit value is stored as two bytes, the partner of GetIword |
| BlkDev.IwordRoundTrip | bios/blkdev.c:63-68 | reading back a stored word gives the value, and storing a read word gives the same two bytes |
| BlkDev.IlongBytes | bios/blkdev.c:561-564 | the 32-bit sector count built from two word reads is the four bytes read as one little-endian number |
| BlkDev.BeWord | bios/blkdev.c:73-82 | a sector word as the 68000 reads it, high byte first, is a 16-bit value |
| BlkDev.Cksum | bios/blkdev.c:73-82 | the boot-sector checksum is a 16-bit value |
| BlkDev.ModAdd | bios/blkdev.c:73-82 | reducing a 16-bit sum after each addition gives the sum reduced once |
| BlkDev.ComputeCksum | bios/blkdev.c:73-82 | the loop that adds the 256 words with 16-bit wrap-around returns the exact word sum modulo 2^16 |
| BlkDev.WordSumPrefix | bios/blkdev.c:73-82 | the sum of the first n words depends only on the first 2n bytes |
| BlkDev.BootWord | bios/blkdev.c:259-260 | the word that completes a checksum is a 16-bit value |
| BlkDev.MakeBootable | bios/blkdev.c:259-260 | replacing the last word of any sector by BootWord keeps the first 255 words and makes the checksum 0x1234 |
| BlkDev.BootCheck | bios/blkdev.c:247-263 | the result is 2 exactly for a boot device out of range, 3 exactly for a failed read, 4 exactly for a checksum other than 0x1234, and 0 exactly for a bootable sector |
| BlkDev.Pow2Grows | bios/blkdev.c:464-474 | powers of two grow strictly with the exponent |
| BlkDev.GetShift | bios/blkdev.c:464-474 | the result is the i below 32 with 2^i equal to the block size, and -1 exactly when no such i exists |
| BlkDev.ShiftUnique | bios/blkdev.c:464-474 | a block size has at most one shift |
| BlkDev.Reserved | bios/blkdev.c:552-554 | the reserved-sector count is at least 1 |
| BlkDev.BpbRejections | bios/blkdev.c:495-567 | no BPB is logged exactly for a cluster size of 0 or a sector size above the limit, and then the sector size stays 0; a disk with too many clusters keeps the layout fields but not the cluster count |
| BlkDev.LayoutArithmetic | bios/blkdev.c:535-556 | the cluster size in bytes, the root directory in whole sectors of 32-byte entries rounded down, the first FAT sector after the reserved ones and the first data sector after both FATs and the directory |
| BlkDev.ClustersFill | bios/blkdev.c:559-568 | the cluster count is the number of whole clusters in the data area |
| BlkDev.SectorCount | bios/blkdev.c:561-564 | the 16-bit sector count is used unless it is 0, then the 32-bit one |
| BlkDev.FatType | bios/blkdev.c:573-579 | an explicit FAT12 or FAT16 type after signature 0x29 decides; otherwise FAT16 exactly when the clusters exceed FAT12's limit |
| BlkDev.GetIlong | bios/blkdev.c:561-564 | the little-endian long splits into the word at the offset (low half) and the word two bytes on (high half) |
| BlkDev.WordSum | bios/blkdev.c:73-82 | the unreduced sum of n words lies between 0 and 0xFFFF times n |
| BlkDev.TotalSectors | bios/blkdev.c:561-564 | the sector count is 0 exactly when both the 16-bit and the 32-bit counts are 0 |
| BlkDev.Clusters | bios/blkdev.c:565-568 | the cluster count is a ULONG |
| BlkDev.Fat16Flag | bios/blkdev.c:573-579 | the flags are 0 or B_16 |
| BlkDev.BpbFrom | bios/blkdev.c:524-585 | an accepted boot sector gives a positive cluster size and a sector size the buffers hold; a logged BPB has at most the FAT16 cluster limit, a 3-byte serial and a 4-byte serial2 |
| BlkDev.AfterBpb | bios/blkdev.c:483-596 | the drive's media-change state becomes MEDIANOCHANGE, only the BPB, geometry and serials change otherwise, and a failed read leaves recsiz 0 |
| DriveMap.LowestFrom | bios/blkdev.c:281-290 | the lowest available drive from k on is -1 or a drive number from k to BlkDevNum - 1 |
| DriveMap.LowestFromSound | bios/blkdev.c:281-290 | the drive found is available and no drive before it is; -1 means none is |
| DriveMap.NextLogical | bios/blkdev.c:281-290 | the loop returns the lowest available drive below BlkDevNum, or -1 when there is none |
| DriveMap.ClearBit | bios/blkdev.c:331 | marking a drive used clears its bit and no other |
| DriveMap.ClearBitSame | bios/blkdev.c:331 | marking a drive used clears its bit |
| DriveMap.ClearBitOther | bios/blkdev.c:331 | marking a drive used leaves the other bits |
| DriveMap.SetBit | bios/blkdev.c:329 | showing a drive in drvbits sets its bit and no other |
| DriveMap.SetBitSame | bios/blkdev.c:329 | showing a drive sets its bit |
| DriveMap.SetBitOther | bios/blkdev.c:329 | showing a drive leaves the other bits |
| DriveMap.DistinctMasks | bios/blkdev.c:286 | distinct drives have disjoint masks |
| DriveMap.MaskNonzero | bios/blkdev.c:286 | a drive mask is not zero |
| DriveMap.NextAfterTaking | bios/blkdev.c:295-334 | after add_partition takes the lowest drive, the next one found is higher: partitions get ascending drive letters |
| Rwabs.ToWord | bios/blkdev.c:426 | truncation to WORD gives a 16-bit value and keeps one that already is |
| Rwabs.ChunkSize | bios/blkdev.c:426 | a chunk is CNTMAX sectors while more remain, and the whole rest when that fits |
| Rwabs.TransferLoop | bios/blkdev.c:424-442 | the do-while loop makes the transfer calls of Chunks and returns the last call's result |
| Rwabs.RecordNumbers | bios/blkdev.c:356-357 | recnr -1 selects the long record number, any other recnr is read as unsigned 16-bit |
| Rwabs.LogicalPlacement | bios/blkdev.c:365-397 | a logical request that passes names a valid drive with a BPB and goes to the drive's unit, starting at the LONG sum of the partition start and the scaled record number; without wrap-around it ends before the end of a sized partition |
| Rwabs.LastSectorRefused | bios/blkdev.c:379-381 | as written, a request that ends exactly at the end of the partition is refused with ESECNF |
| Rwabs.LogicalRefusals | bios/blkdev.c:365-397 | EUNDEV exactly for a drive out of range or not valid, ESECNF for a drive without a BPB, E_CHNG only from the media-change probe |
| Rwabs.PhysicalRequests | bios/blkdev.c:398-419 | a physical request addresses the unit at the record number, EUNDEV exactly for a unit out of range or not valid, E_CHNG exactly for a changed unit whose status is then cleared |
| Rwabs.UnitsKept | bios/blkdev.c:398-419 | only a physical request without RW_NOMEDIACH changes the unit table |
| Rwabs.ChunksContiguous | bios/blkdev.c:424-442 | the calls start at the requested sector, follow each other without gap or overlap in sectors and buffer bytes, and none exceeds CNTMAX |
| Rwabs.ChunksStopAtError | bios/blkdev.c:424-442 | the loop stops at the first error: every earlier call succeeded on a full CNTMAX chunk and the result is the last call's |
| Rwabs.ChunksCover | bios/blkdev.c:424-442 | a successful transfer of a positive count covers exactly the requested sectors; a count of 0 or less still makes one call |
| Rwabs.Long | bios/blkdev.c:375-384 | the LONG result differs from the exact value by a multiple of 2^32, and a value already in range is kept |
| Rwabs.Ulong | bios/blkdev.c:379-381 | the ULONG reading of a value is that value when it fits and the value plus 2^32 when it is a negative LONG |
| Rwabs.Translate | bios/blkdev.c:356-419 | a request that passes names an existing unit; a refusal is EUNDEV, ESECNF or E_CHNG |
| Rwabs.Chunks | bios/blkdev.c:424-442 | the do-while loop makes at least one transfer call |
| Rwabs.Outcome | bios/blkdev.c:343-456 | no transfer call is made exactly when the request is refused, and a refusal returns a negative code |
| Rwabs.PhysicalIgnoresDrives | bios/blkdev.c:398-419 | a physical request gives the same translation and outcome whatever the drive table holds |
| Rwabs.LogicalRange | bios/blkdev.c:365-397 | a logical request on a drive with a BPB is refused with ESECNF exactly when its first sector is negative or its end, read as ULONG, reaches a known size; one inside the partition passes unless the media-change probe reports a change |
| Rwabs.NegativeEndRefused | bios/blkdev.c:379-381 | a request whose end is negative is refused on a partition of at most 2^31 sectors, because its ULONG reading is at least 2^31 |
| Rwabs.NegativeCountRefused | bios/blkdev.c:347-381 | a read of count -1 from record 0 of such a partition is refused with ESECNF and makes no transfer call |
| BlkDevTable.BootReadKeepsUnits | bios/blkdev.c:510-516 | the boot-sector read leaves the unit table alone |
| BlkDevTable.DeriveBpb | bios/blkdev.c:524-585 | the field-by-field derivation equals BpbFrom |
| BlkDevTable.BlockDevices.Avail | bios/blkdev.c:659-662 | the result is non-zero exactly when the drive is shown, and is either 0 or the drive's mask |
| BlkDevTable.BlockDevices.AddPartition | bios/blkdev.c:295-334 | the lowest available drive gets the partition's id, extent and unit, becomes valid, is shown in drvbits and leaves the available set; with none available nothing changes and the result is -1 |
| BlkDevTable.BlockDevices.RwAbs | bios/blkdev.c:343-456 | the result and the transfer calls are those of Outcome (a refusal makes no call), the unit table becomes UnitsAfter of the request, and the drives stay as they were |
| BlkDevTable.BlockDevices.GetBpb | bios/blkdev.c:483-596 | an unknown or invalid drive gives 0 and changes nothing; otherwise the drive's entry becomes AfterBpb of the boot-sector read and the result says whether a BPB was logged |
| BlkDevTable.MaskAnd | bios/blkdev.c:659-662 | a single-bit mask and a bitmap give nothing or that bit, in either order |
| BlkDevTable.UnloggedDriveRefuses | bios/blkdev.c:370-371 | a drive whose boot sector could not be read or gave no BPB refuses logical transfers with ESECNF |
| Video.FixRes | bios/v4sa_video.c:432-433 | a repaired resolution index lies inside the SAGA resolution table |
| Video.FixFmt | bios/v4sa_video.c:435-437 | a repaired format index lies inside the SAGA format table |
| Video.ResIndex | bios/v4sa_video.c:352-356 | the index vsetmode computes from VGA, 80COL and VERTICAL lies inside its eight-entry table |
| Video.VideoState.SetMode | bios/v4sa_video.c:263-398 | -1 returns the current mode and changes nothing; any other mode becomes current, the previous one is returned, sshiftmod is set for it and the SAGA mode register gets ModeRegisterFor's word when there is one |
| Video.VideoState.VidelBpp | bios/v4sa_video.c:405-411 | the planes of the current mode are a depth the hardware has |
| Video.Info | bios/v4sa_video.c:178-261 | every mode code has 1, 2, 4, 8, 16, 24 or 32 planes and a positive width and height |
| Video.SagaDepths | bios/v4sa_video.c:96-158 | every repaired SAGA format has a hardware depth and every repaired resolution a positive size |
| Video.VidelDepths | bios/v4sa_video.c:160-170 | every VIDEL bits-per-pixel value maps to a SAGA format of a hardware depth |
| Video.FixSagaInRange | bios/v4sa_video.c:426-440 | a repaired SAGA mode keeps SAGA_ENABLE and has both indices inside their tables |
| Video.FixSagaKeepsValid | bios/v4sa_video.c:426-440 | a SAGA mode with both indices inside their tables is not changed |
| Video.FixCompatCanonical | bios/v4sa_video.c:442-453 | a compatible mode becomes one of the five ST and TT mode codes |
| Video.FixVidelShape | bios/v4sa_video.c:455-461 | a VIDEL mode becomes a VGA mode with only the valid bits other than OVERSCAN and PAL, keeping its depth and 80COL |
| Video.FixIdempotent | bios/v4sa_video.c:424-462 | repairing a repaired mode changes nothing |
| Video.FixKeepsInfo | bios/v4sa_video.c:424-462 | repairing a SAGA, compatible or VGA mode keeps its planes, width and height; any other keeps its planes and width |
| Video.StandardSizes | bios/v4sa_video.c:413-422 | the ST modes take 32000 bytes and TT medium and TT low 153600 |
| Video.RegisterKeepsDepthAndWidth | bios/v4sa_video.c:278-358 | the word vsetmode writes to the SAGA mode register shows the mode's planes and width |
| Video.SagaRegister | bios/v4sa_video.c:278-289 | a SAGA mode is written without SAGA_ENABLE and reads back as the same mode |
| Video.CompatRegister | bios/v4sa_video.c:310-331 | TT medium and TT low are written as SAGA modes of the same planes and width |
| Video.VidelRegister | bios/v4sa_video.c:337-358 | a VIDEL mode is written as the resolution of its VGA, 80COL and VERTICAL bits and the format of its depth |
| Video.VidelRegisterHeights | bios/v4sa_video.c:337-358 | the SAGA resolution written keeps the mode's height except for 320x400 RGB and 320x480 VGA (written as 256 lines) and 640x240 (360 lines) |
| Video.ShiftHighIsMonochrome | bios/v4sa_video.c:278-359 | sshiftmod is ST high exactly for the one-plane modes: the SAGA STHIGH format, compatible and VIDEL modes of 1 bpp |
| Video.FixMode | bios/v4sa_video.c:424-462 | the repair keeps SAGA_ENABLE, and keeps VIDEL_COMPAT for a mode that is not SAGA |
| Video.ShiftFor | bios/v4sa_video.c:278-359 | sshiftmod is ST low or ST medium only for a compatible mode |
| Video.ModeRegisterFor | bios/v4sa_video.c:278-358 | only a compatible mode leaves the SAGA mode register alone, and a word that is written never has SAGA_ENABLE |
| Video.FixKeepsSize | bios/v4sa_video.c:413-462 | repairing a SAGA, compatible or VGA mode keeps its vgetsize |

## Left out

**IKBD emulator**

- `acia_ikbd_rx` is modelled only as appending to the output sequence.
- `IKBD_OutputBuffer_CheckFreeCount` always answers yes, so no output is ever dropped. `PauseOutput` is written but never read, so pausing has no effect on output.
- The host-side inputs become the parameter `IkbdTick.HostInput` of the tick: the volatile mouse deltas, button mask, wheel count and the two joystick words. The tick returns what it leaves of them.
- The 200 Hz timer interrupt and host writes are not modelled as preemption. Each entry point is one atomic step, and the steps may interleave in any order.
- `AutoSendCycles` and the cycle arithmetic of command 0x17 are left out because the sample rate is never read. `Clock_micro` is left out because the clock is never advanced.
- Commands 0x18 and 0x19 are modelled as no-ops, as their handlers are.
- `resolve_address` can resolve one byte past the end of a joypad map (0xbX20) or past the scancode table (0xa080). The model marks these locations `OutOfRange`:
  - a read there gives 0;
  - a write there is recorded as a stray write.

  Whatever memory follows the array in the C layout is not modelled.
- The display names in `CustomCodeDefinitions` are left out because they are only used in log messages.
- `IKBD_Reset(false)` (a warm reset by the host) is modelled through `IkbdState.BootRom`, which it calls.
- Integer widths: the model makes every truncation to 8 bits that reaches the output explicit, along with the `(int8_t)` casts and the 16-bit words. It does not model overflow of the `int` mouse deltas and positions.

**Block devices**

- The disk transfers `floppy_rw` and `disk_rw` are an oracle function `xfer(unit, sector, count)`.
- Also left out:
  - the retry loop and `call_etv_critic`, which repeat or translate a failed call;
  - `disk_mediach`, `disk_rescan` and `flop_boot_read`;
  - the instruction-cache invalidation, `last_access` and `hz_200`;
  - the floppy geometry argument.
- `blkdev_mediach` is a parameter. The model keeps only the value it returns for the drive.
- `bootcheck` takes the result of the boot-sector read as an argument. `hd_boot_read` is not part of this model.
- `blkdev_init`, `pun_info_setup`, `blkdev_hdv_init`, `bus_init`, `blkdev_boot` and `blkdev_drvmap` are left out. They are initialisation glue or return a global.
- The constants of blkdev.h, gemerror.h, ahdi.h and videl.h are not part of this model. They appear as named constants.
- The BPB fields are unbounded integers rather than the C field widths.
- BlkDevTable.BlockDevices.Avail: requires a drive number from 0 to 31, because a shift of `1L` by 32 or more, or by a negative amount, is undefined in C.
- The field types of blkdev.h are not part of this model: the drive and unit sizes and start sectors are taken as ULONG values.
- Rwabs.Chunks: the sector number of each transfer call advances without 32-bit wrap-around; a transfer that runs past sector 2^31 - 1 of a unit is not modelled.
- IkbdStatus.MouseOffReported: holds outside the reset window only. Inside it IKBD_CheckResetDisableBug can turn relative mouse reports back on, as IkbdState.ResetDisableBug states.
- IkbdStatus.JoysticksOffReported: holds outside the reset window only, for the same reason.
- IkbdStatus.MouseOffThenReport: holds outside the reset window only, for the same reason.
- IkbdStatus.JoysticksOffThenReport: holds outside the reset window only, for the same reason.

**Video**

- `vsetmode`'s other register writes are left out: the modulo, the control register, the line offset and the ST shifter bytes. Only the SAGA video-mode word and `sshiftmod` are modelled.
- `vmontype`, `v4sa_setphys`, `v4sa_physbase` and `lookup_videl_mode` are left out. They return constants or touch hardware registers only. `videl_get_current_mode_info` is `Video.Info` of the current mode and has no member of its own.
