/**
 * The drive table of the BIOS block-device layer: blkdev[] (one entry per
 * logical drive), units[] (the physical units), drvbits (the drives shown
 * to applications) and the largest logical sector size accepted.
 * add_partition fills an entry, blkdev_getbpb logs a BPB in it from the
 * boot sector, and blkdev_rwabs translates and transfers.
 */
module BlkDevTable {

  import opened DriveMap
  import opened BlkDev
  import opened Rwabs

  /** add_partition's entry: three id characters and a NUL, the extent, valid, no media change, the unit. */
  function Partitioned(d: Device, unit: int, id: seq<char>, start: uint32, size: uint32): Device
    requires |id| >= 3
  {
    d.(id := id[..3] + ['\0'], start := start, size := size, valid := true, mediachange := MediaNoChange, unit := unit)
  }

  /** The boot sector is read with RW_READ | RW_NOMEDIACH | RW_NOTRANSLATE (RW_READ is 0). */
  const BootReadRw: bv16 := RwNoMediach | RwNoTranslate

  /** blkdev_getbpb reads one sector, the partition start, from the drive's unit. */
  function BootReadRequest(d: Device): Request
  {
    Request(BootReadRw, 1, -1, d.unit, d.start)
  }

  /** What the boot-sector read gives: the Rwabs error, or the sector on the disk. */
  function BootRead(d: Device, devs: seq<Device>, units: seq<Unit>, xfer: (int, int, int) -> int, disk: seq<byte>): SectorRead
    requires |devs| == BlkDevNum && DevicesOnUnits(devs, units)
  {
    var rv := Outcome(BootReadRequest(d), devs, units, MediaNoChange, xfer).0;
    if rv < 0 then ReadError(rv) else Sector(disk)
  }

  /** The boot-sector read is a physical request without media-change check: it leaves the units alone. */
  lemma BootReadKeepsUnits(d: Device, units: seq<Unit>)
    ensures UnitsAfter(BootReadRequest(d), units) == units
  {
    assert BootReadRw & RwNoMediach != 0;
    UnitsKept(BootReadRequest(d), units);
  }

  /**
   * The BPB derivation of blkdev_getbpb, field by field as the source
   * fills it in.
   */
  method DeriveBpb(b: seq<byte>, maxSectSiz: int) returns (out: BpbOutcome)
    requires |b| == SectorSize
    ensures out == BpbFrom(b, maxSectSiz)
  {
    if b[OffSpc] == 0 {
      return NoBpb;
    }
    var recsiz := GetIword(b, OffBps);
    if recsiz > maxSectSiz {
      return NoBpb;
    }
    var clsiz := b[OffSpc] as int;
    var clsizb := clsiz * recsiz;
    var tmp := GetIword(b, OffDir);
    var rdlen := if recsiz != 0 then tmp * 32 / recsiz else 0;
    var fsiz := GetIword(b, OffSpf);
    var reserved := GetIword(b, OffRes);
    if reserved == 0 {
      reserved := 1;
    }
    var fatrec := reserved + fsiz;
    var datrec := fatrec + fsiz + rdlen;
    var layout := Layout(recsiz, clsiz, clsizb, rdlen, fsiz, fatrec, datrec);
    assert layout == LayoutOf(b);
    var sectors := GetIword(b, OffSec);
    if sectors == 0 {
      sectors := GetIword(b, OffSec2 + 2) * 0x10000 + GetIword(b, OffSec2);
    }
    var numcl := ((sectors - datrec) % 0x1_0000_0000) / clsiz;
    if numcl > MaxFat16Clusters {
      return TooManyClusters(layout);
    }
    var flags;
    if b[OffExt] == 0x29 && b[OffFsType..OffFsType + 8] == Fat12Type {
      flags := 0;
    } else if b[OffExt] == 0x29 && b[OffFsType..OffFsType + 8] == Fat16Type {
      flags := B16;
    } else if numcl > MaxFat12Clusters {
      flags := B16;
    } else {
      flags := 0;
    }
    out := Logged(layout, numcl, flags, Geometry(GetIword(b, OffSides), GetIword(b, OffSpt)),
                  b[OffSerial..OffSerial + 3], b[OffSerial2..OffSerial2 + 4]);
  }

  class BlockDevices {
    /** blkdev[]: the logical drives. */
    var devs: seq<Device>
    /** units[]: the physical units. */
    var units: seq<Unit>
    /** The drives shown to applications. */
    var drvbits: bv32
    /** pun_info.max_sect_siz: the largest logical sector size logged in. */
    var maxSectSiz: int

    predicate Valid()
      reads this
    {
      |devs| == BlkDevNum && DevicesOnUnits(devs, units)
    }

    /** blkdev_avail: drive dev's bit of drvbits, non-zero exactly when the drive is shown. */
    function Avail(dev: int): (r: bv32)
      reads this
      requires 0 <= dev < 32
      ensures r != 0 <==> Bit(drvbits, dev)
      ensures r == 0 || r == Mask(dev)
    {
      MaskAnd(drvbits, Amount(dev));
      Mask(dev) & drvbits
    }

    /**
     * add_partition: the lowest available drive gets the partition, is
     * shown in drvbits and is no longer available; with none available
     * nothing changes and the result is -1.
     */
    method AddPartition(unit: int, avail: bv32, id: seq<char>, start: uint32, size: uint32) returns (r: int, availOut: bv32)
      requires Valid() && 0 <= unit < |units| && |id| >= 3
      modifies this
      ensures Valid() && units == old(units) && maxSectSiz == old(maxSectSiz)
      ensures LowestFrom(avail, 0) == -1 ==> r == -1 && devs == old(devs) && drvbits == old(drvbits) && availOut == avail
      ensures LowestFrom(avail, 0) >= 0 ==>
                var l := LowestFrom(avail, 0);
                r == 0 && devs == old(devs)[l := Partitioned(old(devs)[l], unit, id, start, size)] &&
                drvbits == Set(old(drvbits), l) && availOut == Clear(avail, l)
    {
      var logical := NextLogical(avail);
      if logical < 0 {
        return -1, avail;
      }
      devs := devs[logical := Partitioned(devs[logical], unit, id, start, size)];
      drvbits := Set(drvbits, logical);
      availOut := Clear(avail, logical);
      r := 0;
    }

    /**
     * blkdev_rwabs with the transfers, media-change probe, retries and
     * critical-error handler as oracles: the result and the calls made are
     * those of Outcome, and only a physical media-change refusal changes
     * the unit table.
     */
    method RwAbs(req: Request, mediach: int, xfer: (int, int, int) -> int) returns (retval: int, transfers: seq<Transfer>)
      requires Valid()
      modifies this
      ensures Valid() && devs == old(devs) && drvbits == old(drvbits) && maxSectSiz == old(maxSectSiz)
      ensures units == UnitsAfter(req, old(units))
      ensures (retval, transfers) == Outcome(req, old(devs), old(units), mediach, xfer)
    {
      var t := Translate(req, devs, units, mediach);
      units := UnitsAfter(req, units);
      if t.Refused? {
        return t.code, [];
      }
      retval, transfers := TransferLoop(xfer, t.unit, t.sector, t.count, units[t.unit].psshift);
    }

    /**
     * blkdev_getbpb: for a valid drive, the media state is reset, the
     * boot sector read through Rwabs, and the BPB logged as AfterBpb says;
     * the result says whether a BPB was logged.
     */
    method GetBpb(dev: int, xfer: (int, int, int) -> int, disk: seq<byte>) returns (ok: bool)
      requires Valid() && |disk| == SectorSize
      modifies this
      ensures Valid() && units == old(units) && drvbits == old(drvbits) && maxSectSiz == old(maxSectSiz)
      ensures !(0 <= dev < BlkDevNum && old(devs)[dev].valid) ==> !ok && devs == old(devs)
      ensures 0 <= dev < BlkDevNum && old(devs)[dev].valid ==>
                var read := BootRead(old(devs)[dev], old(devs), old(units), xfer, disk);
                devs == old(devs)[dev := AfterBpb(old(devs)[dev], read, maxSectSiz)] &&
                (ok <==> read.Sector? && BpbFrom(disk, maxSectSiz).Logged?)
    {
      if dev < 0 || dev >= BlkDevNum || !devs[dev].valid {
        return false;
      }
      var d0 := devs[dev];
      var d := d0.(mediachange := MediaNoChange, bpb := d0.bpb.(recsiz := 0));
      devs := devs[dev := d];
      BootReadKeepsUnits(d, units);
      ghost var read := BootRead(d0, old(devs), old(units), xfer, disk);
      PhysicalIgnoresDrives(BootReadRequest(d), devs, old(devs), units, MediaNoChange, xfer);
      assert BootReadRequest(d) == BootReadRequest(d0);
      var ret, _ := RwAbs(BootReadRequest(d), MediaNoChange, xfer);
      if ret < 0 {
        assert read.ReadError?;
        return false;
      }
      assert read == Sector(disk);
      var out := DeriveBpb(disk, maxSectSiz);
      match out
      case NoBpb =>
        ok := false;
      case TooManyClusters(l) =>
        devs := devs[dev := d.(bpb := WithLayout(d0.bpb, l))];
        ok := false;
      case Logged(l, numcl, flags, g, s1, s2) =>
        devs := devs[dev := d.(bpb := WithLayout(d0.bpb, l).(numcl := numcl, bflags := flags),
                               geometry := g, serial := s1, serial2 := s2)];
        ok := true;
    }
  }

  /** A single-bit mask and a bitmap: either nothing or the bit itself, set exactly when the bitmap has it. */
  lemma MaskAnd(m: bv32, l: bv5)
    ensures ((1 as bv32) << l) & m == 0 || ((1 as bv32) << l) & m == (1 as bv32) << l
    ensures (((1 as bv32) << l) & m != 0) == (m & ((1 as bv32) << l) != 0)
  {
  }

  /**
   * A drive whose boot sector could not be read or was refused refuses
   * logical transfers with ESECNF (the XHDI convention).
   */
  lemma UnloggedDriveRefuses(devs: seq<Device>, units: seq<Unit>, dev: int, read: SectorRead, maxSectSiz: int,
                             req: Request, mediach: int)
    requires |devs| == BlkDevNum && DevicesOnUnits(devs, units) && 0 <= dev < BlkDevNum && devs[dev].valid
    requires read.Sector? ==> |read.bytes| == SectorSize
    requires read.ReadError? || BpbFrom(read.bytes, maxSectSiz).NoBpb?
    requires req.rw & RwNoTranslate == 0 && req.dev == dev
    ensures DevicesOnUnits(devs[dev := AfterBpb(devs[dev], read, maxSectSiz)], units)
    ensures Translate(req, devs[dev := AfterBpb(devs[dev], read, maxSectSiz)], units, mediach) == Refused(ESecnf)
  {
    var devs' := devs[dev := AfterBpb(devs[dev], read, maxSectSiz)];
    assert devs'[dev].bpb.recsiz == 0;
  }
}
