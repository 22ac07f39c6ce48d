/**
 * The arithmetic of the BIOS block-device layer: boot-sector fields read
 * as little-endian words, the boot-sector checksum, the power-of-two shift,
 * the drive bitmap and partition table, the BIOS parameter block derived
 * from a boot sector, and the logical-to-physical translation and chunking
 * of Rwabs.  Disk transfers, media-change probes and the critical-error
 * handler are oracles: their results are parameters.
 */
module BlkDev {

  import opened DriveMap
  import opened Powers

  /** The constants of blkdev.h, gemerror.h and ahdi.h that the code names. */
  const SectorSize: nat := 512
  const NumFloppies: nat := 2
  const MaxLogsecSize: nat := 16384
  const MaxFat12Clusters: nat := 4078
  const MaxFat16Clusters: nat := 65518
  const CntMax: nat := 0x7FFF
  const BootChecksum: nat := 0x1234

  const EUndev: int := -15
  const ESecnf: int := -8
  const EChng: int := -14

  const MediaNoChange: int := 0
  const B16: int := 1

  const RwNoMediach: bv16 := 2
  const RwNoRetries: bv16 := 4
  const RwNoTranslate: bv16 := 8

  type uint32 = x: int | 0 <= x < 0x1_0000_0000
  type byte = x: int | 0 <= x < 0x100

  // ---------------------------------------------------------------------
  // Little-endian fields (getiword)
  // ---------------------------------------------------------------------

  /** getiword: the 16-bit value stored low byte first at offset i. */
  function GetIword(buf: seq<byte>, i: nat): (w: int)
    requires i + 1 < |buf|
    ensures 0 <= w < 0x10000
  {
    buf[i + 1] as int * 256 + buf[i] as int
  }

  /** The two bytes, low first, that store a 16-bit value. */
  function PutIword(n: int): (b: seq<byte>)
    requires 0 <= n < 0x10000
    ensures |b| == 2
  {
    [n % 256, n / 256]
  }

  /** Reading back a stored word gives the value, and storing a read word gives the bytes. */
  lemma IwordRoundTrip(n: int, buf: seq<byte>, i: nat)
    requires 0 <= n < 0x10000 && i + 1 < |buf|
    ensures GetIword(PutIword(n), 0) == n
    ensures PutIword(GetIword(buf, i)) == buf[i..i + 2]
  {
  }

  /** The 32-bit little-endian value at offset i, as two getiword calls: high word at i + 2. */
  function GetIlong(buf: seq<byte>, i: nat): (v: uint32)
    requires i + 3 < |buf|
    ensures v % 0x10000 == GetIword(buf, i) && v / 0x10000 == GetIword(buf, i + 2)
  {
    GetIword(buf, i + 2) * 0x10000 + GetIword(buf, i)
  }

  /** The two getiword calls read the four bytes as one little-endian number. */
  lemma IlongBytes(buf: seq<byte>, i: nat)
    requires i + 3 < |buf|
    ensures GetIlong(buf, i) ==
              buf[i] as int + 0x100 * buf[i + 1] as int + 0x10000 * buf[i + 2] as int + 0x1000000 * buf[i + 3] as int
  {
  }

  // ---------------------------------------------------------------------
  // Boot-sector checksum (compute_cksum, bootcheck)
  // ---------------------------------------------------------------------

  /** The 16-bit word at byte offset i as the 68000 reads it through a UWORD pointer: high byte first. */
  function BeWord(buf: seq<byte>, i: nat): (w: int)
    requires i + 1 < |buf|
    ensures 0 <= w < 0x10000
  {
    buf[i] as int * 256 + buf[i + 1] as int
  }

  /** The exact sum of the first n words. */
  function WordSum(buf: seq<byte>, n: nat): (sum: int)
    requires 2 * n <= |buf|
    ensures 0 <= sum <= 0xFFFF * n
  {
    if n == 0 then 0 else WordSum(buf, n - 1) + BeWord(buf, 2 * (n - 1))
  }

  /** The boot-sector checksum: the sum of the 256 words of a sector modulo 2^16. */
  function Cksum(buf: seq<byte>): (c: int)
    requires |buf| == SectorSize
    ensures 0 <= c < 0x10000
  {
    WordSum(buf, SectorSize / 2) % 0x10000
  }

  lemma ModAdd(a: int, b: int)
    ensures (a % 0x10000 + b) % 0x10000 == (a + b) % 0x10000
  {
    var q := a / 0x10000;
    assert a == q * 0x10000 + a % 0x10000;
    assert a + b == (a % 0x10000 + b) + q * 0x10000;
  }

  /** compute_cksum: the UWORD sum wraps at every addition. */
  method ComputeCksum(buf: seq<byte>) returns (sum: int)
    requires |buf| == SectorSize
    ensures sum == Cksum(buf)
  {
    sum := 0;
    var i := 0;
    while i < SectorSize / 2
      invariant 0 <= i <= SectorSize / 2
      invariant sum == WordSum(buf, i) % 0x10000
    {
      ModAdd(WordSum(buf, i), BeWord(buf, 2 * i));
      sum := (sum + BeWord(buf, 2 * i)) % 0x10000;
      i := i + 1;
    }
  }

  /** The sum of the first n words sees only the first 2n bytes. */
  lemma {:induction false} WordSumPrefix(a: seq<byte>, b: seq<byte>, n: nat)
    requires 2 * n <= |a| && 2 * n <= |b| && a[..2 * n] == b[..2 * n]
    ensures WordSum(a, n) == WordSum(b, n)
  {
    if n > 0 {
      assert a[..2 * (n - 1)] == a[..2 * n][..2 * (n - 1)];
      assert b[..2 * (n - 1)] == b[..2 * n][..2 * (n - 1)];
      assert a[2 * (n - 1)] == a[..2 * n][2 * (n - 1)] && a[2 * n - 1] == a[..2 * n][2 * n - 1];
      WordSumPrefix(a, b, n - 1);
    }
  }

  /** The last word that makes a sector's checksum 0x1234. */
  function BootWord(buf: seq<byte>): (w: int)
    requires |buf| == SectorSize
    ensures 0 <= w < 0x10000
  {
    (BootChecksum - WordSum(buf, SectorSize / 2 - 1)) % 0x10000
  }

  /**
   * Any sector becomes executable by replacing its last word with BootWord:
   * the first 255 words are kept and the checksum becomes 0x1234.
   */
  lemma MakeBootable(buf: seq<byte>)
    requires |buf| == SectorSize
    ensures var fixed := buf[..SectorSize - 2] + [BootWord(buf) / 256, BootWord(buf) % 256];
            |fixed| == SectorSize && fixed[..SectorSize - 2] == buf[..SectorSize - 2] && Cksum(fixed) == BootChecksum
  {
    var w := BootWord(buf);
    var fixed := buf[..SectorSize - 2] + [w / 256, w % 256];
    assert fixed[..SectorSize - 2] == buf[..SectorSize - 2];
    WordSumPrefix(fixed, buf, SectorSize / 2 - 1);
    assert BeWord(fixed, SectorSize - 2) == w;
    var s := WordSum(buf, SectorSize / 2 - 1);
    assert WordSum(fixed, SectorSize / 2) == s + w;
    ModAdd(BootChecksum - s, s);
  }

  /** What a boot-sector read returned: an error code, or the sector. */
  datatype SectorRead = ReadError(code: int) | Sector(bytes: seq<byte>)

  /**
   * bootcheck, with the read done by the caller: 2 for a boot device out
   * of range, 3 when the read failed, 4 when the checksum is not 0x1234,
   * 0 for a bootable sector.
   */
  method BootCheck(bootdev: int, read: SectorRead) returns (r: int)
    requires read.Sector? ==> |read.bytes| == SectorSize
    ensures r == 2 <==> bootdev < 0 || bootdev >= BlkDevNum
    ensures r == 3 <==> 0 <= bootdev < BlkDevNum && read.ReadError?
    ensures r == 4 <==> 0 <= bootdev < BlkDevNum && read.Sector? && Cksum(read.bytes) != BootChecksum
    ensures r == 0 <==> 0 <= bootdev < BlkDevNum && read.Sector? && Cksum(read.bytes) == BootChecksum
  {
    if bootdev < 0 || bootdev >= BlkDevNum {
      return 2;
    }
    if read.ReadError? {
      return 3;
    }
    var sum := ComputeCksum(read.bytes);
    if sum != BootChecksum {
      return 4;
    }
    return 0;
  }

  // ---------------------------------------------------------------------
  // get_shift
  // ---------------------------------------------------------------------

  lemma {:induction false} Pow2Grows(i: nat, j: nat)
    requires i < j
    ensures Pow2(i) < Pow2(j)
    decreases j
  {
    if i < j - 1 {
      Pow2Grows(i, j - 1);
    }
  }

  /**
   * get_shift: the i in 0..31 with 2^i equal to the block size, or -1 when
   * there is none (0 and every other non-power of two).
   */
  method GetShift(blocksize: uint32) returns (r: int)
    ensures -1 <= r < 32
    ensures r >= 0 ==> Pow2(r) == blocksize
    ensures r == -1 <==> forall i :: 0 <= i < 32 ==> Pow2(i) != blocksize
  {
    var i := 0;
    var n := 1;
    while i < 32
      invariant 0 <= i <= 32 && n == Pow2(i)
      invariant forall k :: 0 <= k < i ==> Pow2(k) != blocksize
    {
      if n == blocksize {
        return i;
      }
      i, n := i + 1, n * 2;
    }
    return -1;
  }

  /** The shift is unique: distinct shifts give distinct block sizes. */
  lemma ShiftUnique(i: nat, j: nat)
    requires Pow2(i) == Pow2(j)
    ensures i == j
  {
    if i < j {
      Pow2Grows(i, j);
    } else if j < i {
      Pow2Grows(j, i);
    }
  }

  // ---------------------------------------------------------------------
  // Devices, units and the BIOS parameter block
  // ---------------------------------------------------------------------

  /** The BIOS parameter block; widths are not modelled. */
  datatype Bpb = Bpb(recsiz: int, clsiz: int, clsizb: int, rdlen: int, fsiz: int,
                     fatrec: int, datrec: int, numcl: int, bflags: int)

  datatype Geometry = Geometry(sides: int, spt: int)

  /** An entry of blkdev[]: a logical drive on a physical unit. */
  datatype Device = Device(id: seq<char>, start: uint32, size: uint32, valid: bool, mediachange: int, unit: int,
                           bpb: Bpb, geometry: Geometry, serial: seq<byte>, serial2: seq<byte>)

  /**
   * What Rwabs reads of a physical unit: validity, size in sectors (a
   * ULONG, like the size of a drive), sector-size shift, and the
   * UNIT_CHANGED status bit.
   */
  datatype Unit = Unit(valid: bool, size: uint32, psshift: nat, changed: bool)

  /**
   * Offsets of the boot-sector fields, as in the "Boot Sector and BPB"
   * section of Microsoft's FAT specification (fatgen103); the Atari serial
   * number sits in the OEM name at offset 8.
   */
  const OffSerial: nat := 8
  const OffBps: nat := 11
  const OffSpc: nat := 13
  const OffRes: nat := 14
  const OffDir: nat := 17
  const OffSec: nat := 19
  const OffSpf: nat := 22
  const OffSpt: nat := 24
  const OffSides: nat := 26
  const OffSec2: nat := 32
  const OffExt: nat := 38
  const OffSerial2: nat := 39
  const OffFsType: nat := 54

  const Fat12Type: seq<byte> := [0x46, 0x41, 0x54, 0x31, 0x32, 0x20, 0x20, 0x20]
  const Fat16Type: seq<byte> := [0x46, 0x41, 0x54, 0x31, 0x36, 0x20, 0x20, 0x20]

  /** The fields blkdev_getbpb sets before it counts the clusters. */
  datatype Layout = Layout(recsiz: int, clsiz: int, clsizb: int, rdlen: int, fsiz: int, fatrec: int, datrec: int)

  /** The reserved-sector count, with 0 read as 1 as Atari TOS does. */
  function Reserved(b: seq<byte>): (r: int)
    requires |b| == SectorSize
    ensures 1 <= r < 0x10000
  {
    if GetIword(b, OffRes) == 0 then 1 else GetIword(b, OffRes)
  }

  function LayoutOf(b: seq<byte>): Layout
    requires |b| == SectorSize
  {
    var recsiz := GetIword(b, OffBps);
    var clsiz := b[OffSpc] as int;
    var fsiz := GetIword(b, OffSpf);
    var rdlen := if recsiz != 0 then GetIword(b, OffDir) * 32 / recsiz else 0;
    var fatrec := Reserved(b) + fsiz;
    Layout(recsiz, clsiz, clsiz * recsiz, rdlen, fsiz, fatrec, fatrec + fsiz + rdlen)
  }

  /** The sector count: the 16-bit field, or the 32-bit one when that is 0 (DOS disks of 32 MB and more). */
  function TotalSectors(b: seq<byte>): (n: uint32)
    requires |b| == SectorSize
    ensures n == 0 <==> GetIword(b, OffSec) == 0 && GetIlong(b, OffSec2) == 0
  {
    if GetIword(b, OffSec) != 0 then GetIword(b, OffSec) else GetIlong(b, OffSec2)
  }

  /** The cluster count, computed in 32-bit unsigned arithmetic. */
  function Clusters(b: seq<byte>): (n: int)
    requires |b| == SectorSize && b[OffSpc] != 0
    ensures 0 <= n < 0x1_0000_0000
  {
    ((TotalSectors(b) - LayoutOf(b).datrec) % 0x1_0000_0000) / b[OffSpc] as int
  }

  /** The explicit FAT type: an extended boot signature 0x29 with the file-system type "FAT12   " or "FAT16   ". */
  function Fat16Flag(b: seq<byte>, numcl: int): (f: int)
    requires |b| == SectorSize
    ensures f == 0 || f == B16
  {
    if b[OffExt] == 0x29 && b[OffFsType..OffFsType + 8] == Fat12Type then 0
    else if b[OffExt] == 0x29 && b[OffFsType..OffFsType + 8] == Fat16Type then B16
    else if numcl > MaxFat12Clusters then B16
    else 0
  }

  /** What blkdev_getbpb makes of a boot sector. */
  datatype BpbOutcome =
    | NoBpb
    | TooManyClusters(layout: Layout)
    | Logged(layout: Layout, numcl: int, bflags: int, geometry: Geometry, serial: seq<byte>, serial2: seq<byte>)

  function BpbFrom(b: seq<byte>, maxSectSiz: int): (r: BpbOutcome)
    requires |b| == SectorSize
    ensures !r.NoBpb? ==> r.layout.clsiz > 0 && r.layout.recsiz <= maxSectSiz
    ensures r.Logged? ==> r.numcl <= MaxFat16Clusters && |r.serial| == 3 && |r.serial2| == 4
  {
    if b[OffSpc] == 0 || GetIword(b, OffBps) > maxSectSiz then NoBpb
    else
      var numcl := Clusters(b);
      if numcl > MaxFat16Clusters then TooManyClusters(LayoutOf(b))
      else Logged(LayoutOf(b), numcl, Fat16Flag(b, numcl), Geometry(GetIword(b, OffSides), GetIword(b, OffSpt)),
                  b[OffSerial..OffSerial + 3], b[OffSerial2..OffSerial2 + 4])
  }

  /** The BPB with the layout fields replaced. */
  function WithLayout(p: Bpb, l: Layout): Bpb
  {
    p.(recsiz := l.recsiz, clsiz := l.clsiz, clsizb := l.clsizb, rdlen := l.rdlen, fsiz := l.fsiz,
       fatrec := l.fatrec, datrec := l.datrec)
  }

  /**
   * The device entry after blkdev_getbpb on a valid device: the media
   * state is reset and the sector size is 0 (an invalid BPB) unless the
   * boot sector gives one; a FAT32-sized disk keeps the layout fields but
   * not the cluster count and flags.
   */
  function AfterBpb(d: Device, read: SectorRead, maxSectSiz: int): (r: Device)
    requires read.Sector? ==> |read.bytes| == SectorSize
    ensures r.mediachange == MediaNoChange
    ensures r.(mediachange := d.mediachange, bpb := d.bpb, geometry := d.geometry, serial := d.serial, serial2 := d.serial2) == d
    ensures read.ReadError? ==> r.bpb.recsiz == 0
  {
    var reset := d.(mediachange := MediaNoChange, bpb := d.bpb.(recsiz := 0));
    if read.ReadError? then reset
    else match BpbFrom(read.bytes, maxSectSiz)
      case NoBpb => reset
      case TooManyClusters(l) => reset.(bpb := WithLayout(d.bpb, l))
      case Logged(l, numcl, flags, g, s1, s2) =>
        reset.(bpb := WithLayout(d.bpb, l).(numcl := numcl, bflags := flags), geometry := g, serial := s1, serial2 := s2)
  }

  /** A BPB is refused for a cluster size of 0 or a sector size above the limit; then the sector size stays 0. */
  lemma BpbRejections(d: Device, b: seq<byte>, maxSectSiz: int)
    requires |b| == SectorSize
    ensures BpbFrom(b, maxSectSiz) == NoBpb <==> b[OffSpc] == 0 || GetIword(b, OffBps) > maxSectSiz
    ensures BpbFrom(b, maxSectSiz) == NoBpb ==> AfterBpb(d, Sector(b), maxSectSiz).bpb.recsiz == 0
    ensures BpbFrom(b, maxSectSiz).TooManyClusters? ==>
              AfterBpb(d, Sector(b), maxSectSiz).bpb.recsiz == GetIword(b, OffBps) &&
              AfterBpb(d, Sector(b), maxSectSiz).bpb.numcl == d.bpb.numcl
  {
  }

  /**
   * The derived layout: the cluster size in bytes, the root directory in
   * sectors (32-byte entries), the first FAT sector after the reserved
   * sectors, and the first data sector after both FATs and the directory.
   */
  lemma LayoutArithmetic(b: seq<byte>)
    requires |b| == SectorSize
    ensures LayoutOf(b).recsiz == GetIword(b, OffBps) && LayoutOf(b).fsiz == GetIword(b, OffSpf)
    ensures LayoutOf(b).clsizb == b[OffSpc] as int * GetIword(b, OffBps)
    ensures GetIword(b, OffBps) > 0 ==>
              LayoutOf(b).rdlen * GetIword(b, OffBps) <= GetIword(b, OffDir) * 32 < (LayoutOf(b).rdlen + 1) * GetIword(b, OffBps)
    ensures GetIword(b, OffBps) == 0 ==> LayoutOf(b).rdlen == 0
    ensures LayoutOf(b).fatrec == (if GetIword(b, OffRes) == 0 then 1 else GetIword(b, OffRes)) + GetIword(b, OffSpf)
    ensures LayoutOf(b).datrec == LayoutOf(b).fatrec + GetIword(b, OffSpf) + LayoutOf(b).rdlen
    ensures LayoutOf(b).datrec >= 1
  {
    var recsiz := GetIword(b, OffBps);
    if recsiz > 0 {
      DivBounds(GetIword(b, OffDir) * 32, recsiz);
    }
  }

  /** The data area holds the cluster count of whole clusters and not one more, when it is not larger than the disk. */
  lemma ClustersFill(b: seq<byte>)
    requires |b| == SectorSize && b[OffSpc] != 0 && LayoutOf(b).datrec <= TotalSectors(b)
    ensures var data := TotalSectors(b) - LayoutOf(b).datrec;
            Clusters(b) * b[OffSpc] as int <= data < (Clusters(b) + 1) * b[OffSpc] as int
  {
    var data := TotalSectors(b) - LayoutOf(b).datrec;
    LayoutArithmetic(b);
    ModSmall(data, 0x1_0000_0000);
    assert Clusters(b) == data / b[OffSpc] as int;
    DivBounds(data, b[OffSpc] as int);
  }

  /** A remainder by a larger modulus is the number itself. */
  lemma ModSmall(n: int, m: int)
    requires 0 <= n < m
    ensures n % m == n
  {
  }

  /** Integer division brackets its dividend. */
  lemma DivBounds(n: int, d: int)
    requires n >= 0 && d > 0
    ensures 0 <= n / d
    ensures (n / d) * d <= n < (n / d + 1) * d
  {
  }

  /** The 16-bit sector count wins; a zero one defers to the 32-bit field. */
  lemma SectorCount(b: seq<byte>)
    requires |b| == SectorSize
    ensures GetIword(b, OffSec) != 0 ==> TotalSectors(b) == GetIword(b, OffSec)
    ensures GetIword(b, OffSec) == 0 ==>
              TotalSectors(b) == b[32] as int + 0x100 * b[33] as int + 0x10000 * b[34] as int + 0x1000000 * b[35] as int
  {
    IlongBytes(b, OffSec2);
  }

  /**
   * FAT12 or FAT16: an explicit "FAT12   " or "FAT16   " type after an
   * extended boot signature decides; otherwise FAT16 exactly when there
   * are more clusters than FAT12 can address.
   */
  lemma FatType(b: seq<byte>, numcl: int)
    requires |b| == SectorSize
    ensures b[OffExt] == 0x29 && b[OffFsType..OffFsType + 8] == Fat12Type ==> Fat16Flag(b, numcl) == 0
    ensures b[OffExt] == 0x29 && b[OffFsType..OffFsType + 8] == Fat16Type ==> Fat16Flag(b, numcl) == B16
    ensures !(b[OffExt] == 0x29 && b[OffFsType..OffFsType + 8] in {Fat12Type, Fat16Type}) ==>
              (Fat16Flag(b, numcl) == B16 <==> numcl > MaxFat12Clusters)
  {
    assert Fat12Type != Fat16Type by {
      assert Fat12Type[4] != Fat16Type[4];
    }
  }
}
