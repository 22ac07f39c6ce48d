/**
 * Video mode codes of the Vampire V4 standalone BIOS.  A mode code is a
 * 16-bit word: with SAGA_ENABLE set, its high byte indexes the SAGA
 * resolution table and its low byte the SAGA pixel-format table; without
 * it, it is a Falcon VIDEL mode code (COMPAT for the ST/TT modes, else
 * VGA, 80COL, VERTICAL and a bits-per-pixel field).  vfixmode repairs a
 * mode code, calc_modecode_info gives planes, width and height, vgetsize
 * the screen size in bytes, and vsetmode switches modes.
 */
module Video {

  /** The mode-code bits: SAGA_ENABLE and the VIDEL_* bits of the Falcon mode code. */
  const SagaEnable: bv16 := 0x4000
  const VidelValid: bv16 := 0x1FF
  const VidelVertical: bv16 := 0x100
  const VidelCompat: bv16 := 0x80
  const VidelOverscan: bv16 := 0x40
  const VidelPal: bv16 := 0x20
  const VidelVga: bv16 := 0x10
  const Videl80Col: bv16 := 0x08
  const VidelBppMask: bv16 := 0x07
  const Videl1Bpp: bv16 := 0
  const Videl2Bpp: bv16 := 1
  const Videl4Bpp: bv16 := 2
  const Videl8Bpp: bv16 := 3

  /** The canonical ST and TT mode codes. */
  const ModeTtMed: bv16 := 0x9A   // VGA | COMPAT | 80COL | 4BPP
  const ModeTtLow: bv16 := 0x93   // VGA | COMPAT | 8BPP
  const ModeStLow: bv16 := 0x192  // VGA | COMPAT | 4BPP | VERTICAL
  const ModeStMed: bv16 := 0x199  // VGA | COMPAT | 80COL | 2BPP | VERTICAL
  const ModeStHigh: bv16 := 0x98  // VGA | COMPAT | 80COL | 1BPP

  /** The vsetmode argument that only queries the mode (WORD -1). */
  const Query: bv16 := 0xFFFF

  /** saga_res: the SAGA resolutions, width and height; entry 0 is illegal. */
  const SagaRes: seq<(int, int)> :=
    [(320, 200), (320, 200), (320, 240), (320, 256),
     (640, 400), (640, 480), (640, 512), (960, 540),
     (480, 270), (304, 224), (1280, 720), (640, 360),
     (800, 600), (1024, 768), (720, 576), (848, 480),
     (640, 200), (1920, 1080), (1280, 1024), (1280, 800),
     (1440, 900)]

  /** The bits per pixel of saga_fmt_info; format 0 is illegal. */
  const SagaBpp: seq<int> := [1, 8, 16, 16, 24, 32, 16, 16, 1, 2, 4, 8]

  /** The SAGA pixel formats named by the code. */
  const FormatClut8: bv16 := 0x1
  const FormatStHigh: bv16 := 0x8
  const FormatStLow: bv16 := 0xA
  const FormatTtLow: bv16 := 0xB

  /** modecode_saga_fmt: the SAGA format for each VIDEL bits-per-pixel value. */
  const ModecodeSagaFmt: seq<bv16> := [0x8, 0x9, 0xA, 0xB, 0x2, 0x5, 0x4, 0x1]

  /** The SAGA resolution words vsetmode uses for VIDEL modes, by 4·VGA + 2·80COL + VERTICAL. */
  const VidelRes: seq<bv16> := [0x0100, 0x0300, 0x1000, 0x0400, 0x0300, 0x0200, 0x0500, 0x0B00]

  // ---------------------------------------------------------------------
  // SAGA mode words
  // ---------------------------------------------------------------------

  /** The high byte of the mode word (b[0] of the big-endian union sreg). */
  function High(w: bv16): bv16
  {
    w >> 8
  }

  /** The low byte of the mode word (b[1]). */
  function Low(w: bv16): bv16
  {
    w & 0xFF
  }

  /** A resolution index of 0 or past the table becomes 1. */
  function FixRes(hi: bv16): (r: bv16)
    ensures 1 <= r <= 20
  {
    if hi == 0 || hi >= 21 then 1 else hi
  }

  /** A format index of 0 (video off) or past the table becomes 1. */
  function FixFmt(lo: bv16): (r: bv16)
    ensures 1 <= r <= 11
  {
    if lo == 0 || lo >= 12 then 1 else lo
  }

  /** A small word as a table index. */
  function Index(x: bv16): nat
  {
    x as nat
  }

  // ---------------------------------------------------------------------
  // vfixmode
  // ---------------------------------------------------------------------

  /** vfixmode: the nearest mode code the hardware supports, of the same kind (SAGA, compatible or VIDEL). */
  function FixMode(mode: bv16): (r: bv16)
    ensures (r & SagaEnable != 0) == (mode & SagaEnable != 0)
    ensures mode & SagaEnable == 0 ==> (r & VidelCompat != 0) == (mode & VidelCompat != 0)
  {
    if mode & SagaEnable != 0 then
      var w := mode & !SagaEnable;
      ((FixRes(High(w)) << 8) | FixFmt(Low(w))) | SagaEnable
    else if mode & VidelCompat != 0 then
      var bpp := mode & VidelBppMask;
      if bpp == Videl2Bpp then ModeStMed
      else if bpp == Videl4Bpp then (if mode & Videl80Col != 0 then ModeTtMed else ModeStLow)
      else if bpp == Videl8Bpp then ModeTtLow
      else ModeStHigh
    else
      var m := if mode & VidelVga == 0 then mode ^ (VidelVertical | VidelVga) else mode;
      m & (VidelValid & !(VidelOverscan | VidelPal))
  }

  // ---------------------------------------------------------------------
  // calc_modecode_info and vgetsize
  // ---------------------------------------------------------------------

  datatype ModeInfo = ModeInfo(planes: int, width: int, height: int)

  /** The planes of a SAGA format. */
  function FormatBpp(fmt: bv16): int
    requires 1 <= fmt <= 11
  {
    SagaBpp[Index(fmt)]
  }

  /**
   * calc_modecode_info: planes (bits per pixel), width and height of a
   * mode code; every mode has a depth the hardware has and a positive size.
   */
  function Info(mode: bv16): (r: ModeInfo)
    ensures r.planes in {1, 2, 4, 8, 16, 24, 32}
    ensures r.width > 0 && r.height > 0
  {
    if mode & SagaEnable != 0 then
      var w := mode & !SagaEnable;
      var res := SagaRes[Index(FixRes(High(w)))];
      SagaDepths(w);
      ModeInfo(FormatBpp(FixFmt(Low(w))), res.0, res.1)
    else if mode & VidelCompat != 0 then
      var bpp := mode & VidelBppMask;
      if bpp == Videl2Bpp then ModeInfo(FormatBpp(ModecodeSagaFmt[1]), 640, 200)
      else if bpp == Videl4Bpp then
        if mode & Videl80Col != 0 then ModeInfo(FormatBpp(ModecodeSagaFmt[2]), 640, 480)
        else ModeInfo(FormatBpp(ModecodeSagaFmt[2]), 320, 200)
      else if bpp == Videl8Bpp then ModeInfo(FormatBpp(ModecodeSagaFmt[3]), 320, 480)
      else ModeInfo(FormatBpp(ModecodeSagaFmt[0]), 640, 400)
    else
      var vertical := if mode & VidelVga != 0 then mode & VidelVertical != 0 else mode & VidelVertical == 0;
      var width := if mode & Videl80Col != 0 then 640 else 320;
      var height := if mode & VidelVga != 0 then 480 else 400;
      VidelDepths(mode & VidelBppMask);
      ModeInfo(FormatBpp(ModecodeSagaFmt[Index(mode & VidelBppMask)]), width, if vertical then height / 2 else height)
  }

  /** vgetsize: the screen size in bytes. */
  function GetSize(mode: bv16): int
  {
    Info(mode).planes * Info(mode).width * Info(mode).height / 8
  }

  // ---------------------------------------------------------------------
  // vsetmode bookkeeping
  // ---------------------------------------------------------------------

  /** sshiftmod: the ST shifter mode the BIOS reports. */
  datatype ShiftMode = StLow | StMedium | StHigh | FalconRez

  datatype Option<T> = None | Some(value: T)

  /** The sshiftmod that vsetmode sets for a mode; only compatible modes give ST low or ST medium. */
  function ShiftFor(mode: bv16): (r: ShiftMode)
    ensures r == StLow || r == StMedium ==> mode & SagaEnable == 0 && mode & VidelCompat != 0
  {
    if mode & SagaEnable != 0 then
      if Low(mode & !SagaEnable) == FormatStHigh then StHigh else FalconRez
    else if mode & VidelCompat != 0 then
      var bpp := mode & VidelBppMask;
      if bpp == Videl2Bpp then StMedium
      else if bpp == Videl4Bpp then (if mode & Videl80Col != 0 then FalconRez else StLow)
      else if bpp == Videl8Bpp then FalconRez
      else StHigh
    else if mode & VidelBppMask == Videl1Bpp then StHigh
    else FalconRez
  }

  /** The index of the SAGA resolution vsetmode picks for a VIDEL mode. */
  function ResIndex(mode: bv16): (i: nat)
    ensures i < 8
  {
    (if mode & VidelVga != 0 then 4 else 0) + (if mode & Videl80Col != 0 then 2 else 0) +
    (if mode & VidelVertical != 0 then 1 else 0)
  }

  /**
   * The word vsetmode writes to the SAGA video-mode register, if any: the
   * SAGA word itself, the fixed words for TT medium and TT low, nothing for
   * the ST shifter modes, and a resolution and format for VIDEL modes.
   */
  function ModeRegisterFor(mode: bv16): (r: Option<bv16>)
    ensures r.None? ==> mode & SagaEnable == 0 && mode & VidelCompat != 0
    ensures r.Some? ==> r.value & SagaEnable == 0
  {
    if mode & SagaEnable != 0 then Some(mode & !SagaEnable)
    else if mode & VidelCompat != 0 then
      var bpp := mode & VidelBppMask;
      if bpp == Videl4Bpp && mode & Videl80Col != 0 then Some(0x0500 | FormatStLow)
      else if bpp == Videl8Bpp then Some(0x0300 | FormatTtLow)
      else None
    else Some(VidelRes[ResIndex(mode)] | ModecodeSagaFmt[Index(mode & VidelBppMask)])
  }

  /**
   * The video state vsetmode maintains: current_video_mode, sshiftmod and
   * the last word written to the SAGA video-mode register.
   */
  class VideoState {
    var currentVideoMode: bv16
    var sshiftmod: ShiftMode
    var sagaMode: bv16

    /** vsetmode: -1 only reports the current mode; any other mode is stored and the previous one returned. */
    method SetMode(mode: bv16) returns (prev: bv16)
      modifies this
      ensures prev == old(currentVideoMode)
      ensures mode == Query ==> currentVideoMode == old(currentVideoMode) && sshiftmod == old(sshiftmod) && sagaMode == old(sagaMode)
      ensures mode != Query ==> currentVideoMode == mode && sshiftmod == ShiftFor(mode)
      ensures mode != Query ==> sagaMode == (if ModeRegisterFor(mode).Some? then ModeRegisterFor(mode).value else old(sagaMode))
    {
      if mode == Query {
        return currentVideoMode;
      }
      prev := currentVideoMode;
      currentVideoMode := mode;
      var reg := ModeRegisterFor(mode);
      if reg.Some? {
        sagaMode := reg.value;
      }
      sshiftmod := ShiftFor(mode);
    }

    /** get_videl_bpp: the planes of the current mode. */
    function VidelBpp(): (bpp: int)
      reads this
      ensures bpp in {1, 2, 4, 8, 16, 24, 32}
    {
      Info(currentVideoMode).planes
    }
  }

  // ---------------------------------------------------------------------
  // Properties
  // ---------------------------------------------------------------------

  lemma SagaDepths(w: bv16)
    ensures FormatBpp(FixFmt(Low(w))) in {1, 2, 4, 8, 16, 24, 32}
    ensures SagaRes[Index(FixRes(High(w)))].0 > 0 && SagaRes[Index(FixRes(High(w)))].1 > 0
  {
  }

  lemma VidelDepths(bpp: bv16)
    requires bpp <= 7
    ensures FormatBpp(ModecodeSagaFmt[Index(bpp)]) in {1, 2, 4, 8, 16, 24, 32}
  {
  }

  /** A SAGA mode keeps SAGA_ENABLE and gets indices inside both tables. */
  lemma FixSagaInRange(mode: bv16)
    requires mode & SagaEnable != 0
    ensures FixMode(mode) & SagaEnable != 0
    ensures 1 <= High(FixMode(mode) & !SagaEnable) <= 20 && 1 <= Low(FixMode(mode) & !SagaEnable) <= 11
  {
  }

  /** A SAGA mode whose indices are inside both tables is left as it is. */
  lemma FixSagaKeepsValid(mode: bv16)
    requires mode & SagaEnable != 0
    requires 1 <= High(mode & !SagaEnable) <= 20 && 1 <= Low(mode & !SagaEnable) <= 11
    ensures FixMode(mode) == mode
  {
  }

  /** A compatible mode becomes one of the five canonical ST/TT mode codes. */
  lemma FixCompatCanonical(mode: bv16)
    requires mode & SagaEnable == 0 && mode & VidelCompat != 0
    ensures FixMode(mode) in {ModeStHigh, ModeStMed, ModeStLow, ModeTtMed, ModeTtLow}
  {
  }

  /** A VIDEL mode becomes a VGA mode without COMPAT, OVERSCAN, PAL or any bit above VERTICAL. */
  lemma FixVidelShape(mode: bv16)
    requires mode & SagaEnable == 0 && mode & VidelCompat == 0
    ensures FixMode(mode) & VidelVga != 0
    ensures FixMode(mode) & !(VidelVertical | VidelVga | Videl80Col | VidelBppMask) == 0
    ensures FixMode(mode) & VidelBppMask == mode & VidelBppMask && FixMode(mode) & Videl80Col == mode & Videl80Col
  {
  }

  /** vfixmode is idempotent: a repaired mode needs no further repair. */
  lemma FixIdempotent(mode: bv16)
    ensures FixMode(FixMode(mode)) == FixMode(mode)
  {
    if mode & SagaEnable != 0 {
      FixSagaInRange(mode);
      FixSagaKeepsValid(FixMode(mode));
    } else if mode & VidelCompat == 0 {
      FixVidelShape(mode);
    }
  }

  /**
   * Repairing a SAGA or compatible mode does not change what it shows;
   * a VIDEL mode keeps its planes and width, and its height too when it
   * already was a VGA mode.
   */
  lemma FixKeepsInfo(mode: bv16)
    ensures mode & SagaEnable != 0 || mode & VidelCompat != 0 || mode & VidelVga != 0 ==> Info(FixMode(mode)) == Info(mode)
    ensures Info(FixMode(mode)).planes == Info(mode).planes && Info(FixMode(mode)).width == Info(mode).width
  {
    if mode & SagaEnable != 0 {
      FixSagaInRange(mode);
    } else if mode & VidelCompat == 0 {
      FixVidelShape(mode);
    }
  }

  /** Repairing a SAGA, compatible or VGA mode keeps the screen size vgetsize reports. */
  lemma FixKeepsSize(mode: bv16)
    requires mode & SagaEnable != 0 || mode & VidelCompat != 0 || mode & VidelVga != 0
    ensures GetSize(FixMode(mode)) == GetSize(mode)
  {
    FixKeepsInfo(mode);
  }

  /** The ST modes fill 32000 bytes and the TT medium and TT low modes 153600. */
  lemma StandardSizes()
    ensures GetSize(ModeStLow) == 32000 && GetSize(ModeStMed) == 32000 && GetSize(ModeStHigh) == 32000
    ensures GetSize(ModeTtMed) == 153600 && GetSize(ModeTtLow) == 153600
  {
  }

  /**
   * Whenever vsetmode writes the SAGA mode register, the word written is
   * read back with SAGA_ENABLE as a mode of the same planes and width.
   */
  lemma RegisterKeepsDepthAndWidth(mode: bv16)
    requires ModeRegisterFor(mode).Some?
    ensures Info(ModeRegisterFor(mode).value | SagaEnable).planes == Info(mode).planes
    ensures Info(ModeRegisterFor(mode).value | SagaEnable).width == Info(mode).width
  {
    if mode & SagaEnable != 0 {
      SagaRegister(mode);
    } else if mode & VidelCompat != 0 {
      CompatRegister(mode);
    } else {
      VidelRegister(mode);
    }
  }

  /** A SAGA mode is written as it is, without SAGA_ENABLE. */
  lemma SagaRegister(mode: bv16)
    requires mode & SagaEnable != 0
    ensures ModeRegisterFor(mode) == Some(mode & !SagaEnable) && (mode & !SagaEnable) | SagaEnable == mode
  {
  }

  /** TT medium is written as 640x480 in the ST low format, TT low as 320x256 in the TT low format. */
  lemma CompatRegister(mode: bv16)
    requires mode & SagaEnable == 0 && mode & VidelCompat != 0 && ModeRegisterFor(mode).Some?
    ensures Info(ModeRegisterFor(mode).value | SagaEnable).planes == Info(mode).planes
    ensures Info(ModeRegisterFor(mode).value | SagaEnable).width == Info(mode).width
  {
  }

  /** The register word of a VIDEL mode: its resolution and format bytes, below SAGA_ENABLE. */
  lemma VidelRegister(mode: bv16)
    requires mode & SagaEnable == 0 && mode & VidelCompat == 0
    ensures var reg := ModeRegisterFor(mode).value;
            var w := (reg | SagaEnable) & !SagaEnable;
            w == reg && High(w) == VidelRes[ResIndex(mode)] >> 8 && Low(w) == ModecodeSagaFmt[Index(mode & VidelBppMask)]
    ensures Info(ModeRegisterFor(mode).value | SagaEnable).planes == Info(mode).planes
    ensures Info(ModeRegisterFor(mode).value | SagaEnable).width == Info(mode).width
  {
  }

  /**
   * For VIDEL modes, the register's SAGA resolution has the mode's own
   * height except in three cases, where it is the nearest listed one:
   * 320x256 for the 320x400 RGB and 320x480 VGA modes, 640x360 for 640x240.
   */
  lemma VidelRegisterHeights(mode: bv16)
    requires mode & SagaEnable == 0 && mode & VidelCompat == 0
    ensures ResIndex(mode) !in {1, 4, 7} ==> Info(ModeRegisterFor(mode).value | SagaEnable) == Info(mode)
    ensures ResIndex(mode) in {1, 4} ==> Info(ModeRegisterFor(mode).value | SagaEnable).height == 256
    ensures ResIndex(mode) == 7 ==> Info(ModeRegisterFor(mode).value | SagaEnable).height == 360
  {
  }

  /** sshiftmod is ST high exactly for the monochrome modes: SAGA STHIGH format, compatible 1 bpp, VIDEL 1 bpp. */
  lemma ShiftHighIsMonochrome(mode: bv16)
    ensures ShiftFor(mode) == StHigh <==> Info(mode).planes == 1 && (mode & SagaEnable == 0 || Low(mode & !SagaEnable) == FormatStHigh)
  {
  }
}
