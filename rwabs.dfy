/**
 * The request path of blkdev_rwabs: the record number, the translation of
 * a logical drive request to sectors of a physical unit with its range and
 * media-change checks, and the split of the transfer into calls of at most
 * 0x7FFF sectors that stops at the first error.  What a low-level transfer
 * call returns (after its automatic retries and the critical-error
 * handler) is an oracle, xfer(unit, sector, count).
 */
module Rwabs {

  import opened DriveMap
  import opened BlkDev
  import opened Powers

  /**
   * The arguments of Rwabs that the model uses; the buffer address is
   * replaced by byte offsets.  cnt, recnr and dev are WORDs and lrecnr a
   * LONG (WellTyped).
   */
  datatype Request = Request(rw: bv16, cnt: int, recnr: int, dev: int, lrecnr: int)

  /** A signed 16-bit value (WORD). */
  predicate IsWord(x: int)
  {
    -0x8000 <= x < 0x8000
  }

  /** A signed 32-bit value (LONG). */
  predicate IsLong(x: int)
  {
    -0x8000_0000 <= x < 0x8000_0000
  }

  /** The arguments have their C types. */
  predicate WellTyped(req: Request)
  {
    IsWord(req.cnt) && IsWord(req.recnr) && IsWord(req.dev) && IsLong(req.lrecnr)
  }

  /** A 32-bit LONG result: the value wrapped into -2^31..2^31 - 1, as the 68000 computes it. */
  function Long(x: int): (l: int)
    ensures IsLong(l) && (l - x) % 0x1_0000_0000 == 0
    ensures IsLong(x) ==> l == x
  {
    (x + 0x8000_0000) % 0x1_0000_0000 - 0x8000_0000
  }

  /**
   * A LONG compared with a ULONG is converted to ULONG: its value modulo
   * 2^32, so a negative LONG compares as 2^32 plus itself.
   */
  function Ulong(x: int): (u: uint32)
    ensures 0 <= x < 0x1_0000_0000 ==> u == x
    ensures -0x1_0000_0000 <= x < 0 ==> u == x + 0x1_0000_0000
  {
    x % 0x1_0000_0000
  }

  /** A valid drive names one of the units. */
  predicate DevicesOnUnits(devs: seq<Device>, units: seq<Unit>)
  {
    forall i :: 0 <= i < |devs| && devs[i].valid ==> 0 <= devs[i].unit < |units|
  }

  /** The record number: a 16-bit recnr other than -1 read as unsigned, else the long one. */
  function RecordNumber(req: Request): int
  {
    if req.recnr != -1 then req.recnr % 0x10000 else Long(req.lrecnr)
  }

  /** What the checks decide: refuse with an error code, or transfer count sectors from sector on unit. */
  datatype Translation = Refused(code: int) | Go(unit: int, sector: int, count: int)

  /** The logical sectors of a drive expressed in sectors of its unit: recsiz >> psshift. */
  function SectorsPerRecord(d: Device, u: Unit): int
  {
    d.bpb.recsiz / Pow2(u.psshift)
  }

  /** The first sector of a logical request within its partition: lrecnr *= sectors, a LONG product. */
  function LogicalFirst(req: Request, d: Device, u: Unit): int
  {
    Long(RecordNumber(req) * SectorsPerRecord(d, u))
  }

  /** The sector count of a logical request: lcount *= sectors, a LONG product. */
  function LogicalCount(req: Request, d: Device, u: Unit): int
  {
    Long(req.cnt * SectorsPerRecord(d, u))
  }

  /**
   * The range check of Rwabs: a negative first sector, or, when the size
   * is known, an end at or past it.  The end is the LONG sum
   * first + count compared with the ULONG size, so as an unsigned value.
   */
  predicate OutOfRange(first: int, count: int, size: uint32)
  {
    first < 0 || (size > 0 && Ulong(first + count) >= size)
  }

  /**
   * The translation of blkdev_rwabs.  mediach is what blkdev_mediach
   * reports for the drive; it is consulted only when the checks before it
   * pass and RW_NOMEDIACH is clear.  The absolute sector is the LONG
   * lrecnr += start.
   */
  function Translate(req: Request, devs: seq<Device>, units: seq<Unit>, mediach: int): (t: Translation)
    requires |devs| == BlkDevNum && DevicesOnUnits(devs, units)
    ensures t.Go? ==> 0 <= t.unit < |units|
    ensures t.Refused? ==> t.code == EUndev || t.code == ESecnf || t.code == EChng
  {
    var lrecnr := RecordNumber(req);
    if req.rw & RwNoTranslate == 0 then
      if req.dev < 0 || req.dev >= BlkDevNum || !devs[req.dev].valid then Refused(EUndev)
      else if devs[req.dev].bpb.recsiz == 0 then Refused(ESecnf)
      else
        var d := devs[req.dev];
        var count := LogicalCount(req, d, units[d.unit]);
        var first := LogicalFirst(req, d, units[d.unit]);
        if OutOfRange(first, count, d.size) then Refused(ESecnf)
        else if req.rw & RwNoMediach == 0 && mediach != MediaNoChange then Refused(EChng)
        else Go(d.unit, Long(first + d.start), count)
    else
      if req.dev < 0 || req.dev >= |units| || !units[req.dev].valid then Refused(EUndev)
      else if OutOfRange(lrecnr, req.cnt, units[req.dev].size) then Refused(ESecnf)
      else if req.rw & RwNoMediach == 0 && units[req.dev].changed then Refused(EChng)
      else Go(req.dev, lrecnr, req.cnt)
  }

  /** A physical request refused because the unit reported a media change; Rwabs then clears that status. */
  predicate ClearsChange(req: Request, units: seq<Unit>)
  {
    req.rw & RwNoTranslate != 0 && 0 <= req.dev < |units| && units[req.dev].valid &&
    !OutOfRange(RecordNumber(req), req.cnt, units[req.dev].size) &&
    req.rw & RwNoMediach == 0 && units[req.dev].changed
  }

  /** The units after the checks of Rwabs. */
  function UnitsAfter(req: Request, units: seq<Unit>): seq<Unit>
  {
    if ClearsChange(req, units) then units[req.dev := units[req.dev].(changed := false)] else units
  }

  // ---------------------------------------------------------------------
  // Chunking
  // ---------------------------------------------------------------------

  /** A count truncated to WORD, as the assignment to the WORD scount does. */
  function ToWord(x: int): (w: int)
    ensures IsWord(w)
    ensures IsWord(x) ==> w == x
  {
    (x + 0x8000) % 0x10000 - 0x8000
  }

  /** One call of the low-level transfer: first sector, sector count and byte offset into the buffer. */
  datatype Transfer = Transfer(sector: int, count: int, offset: int)

  /** The size of the next chunk: at most CNTMAX, and the whole rest when that fits. */
  function ChunkSize(lcount: int): (scount: int)
    ensures lcount > CntMax ==> scount == CntMax
    ensures 0 < lcount <= CntMax ==> scount == lcount
    ensures lcount <= 0 ==> lcount - scount <= 0
  {
    if lcount > CntMax then CntMax else ToWord(lcount)
  }

  /**
   * The transfer loop of Rwabs from sector on unit: the result of the
   * last call and the calls made.  psshift converts sectors to bytes.
   */
  function Chunks(xfer: (int, int, int) -> int, unit: int, sector: int, count: int, offset: int, psshift: nat):
    (r: (int, seq<Transfer>))
    ensures |r.1| >= 1
    decreases if count > 0 then count else 0
  {
    var scount := ChunkSize(count);
    var rv := xfer(unit, sector, scount);
    if rv < 0 || count - scount <= 0 then (rv, [Transfer(sector, scount, offset)])
    else
      var rest := Chunks(xfer, unit, sector + scount, count - scount, offset + scount * Pow2(psshift), psshift);
      (rest.0, [Transfer(sector, scount, offset)] + rest.1)
  }

  /** A physical request does not look at the drive table. */
  lemma PhysicalIgnoresDrives(req: Request, devs: seq<Device>, devs': seq<Device>, units: seq<Unit>, mediach: int,
                              xfer: (int, int, int) -> int)
    requires |devs| == BlkDevNum && DevicesOnUnits(devs, units)
    requires |devs'| == BlkDevNum && DevicesOnUnits(devs', units)
    requires req.rw & RwNoTranslate != 0
    ensures Translate(req, devs, units, mediach) == Translate(req, devs', units, mediach)
    ensures Outcome(req, devs, units, mediach, xfer) == Outcome(req, devs', units, mediach, xfer)
  {
  }

  /** The outcome of Rwabs: the error code of a refusal, or the result of the transfer loop. */
  function Outcome(req: Request, devs: seq<Device>, units: seq<Unit>, mediach: int, xfer: (int, int, int) -> int):
    (r: (int, seq<Transfer>))
    requires |devs| == BlkDevNum && DevicesOnUnits(devs, units)
    ensures r.1 == [] <==> Translate(req, devs, units, mediach).Refused?
    ensures r.1 == [] ==> r.0 < 0
  {
    match Translate(req, devs, units, mediach)
    case Refused(code) => (code, [])
    case Go(unit, sector, count) =>
      if 0 <= unit < |units| then Chunks(xfer, unit, sector, count, 0, units[unit].psshift)
      else assert false; (0, [])
  }

  /** The byte offset of each call is the sectors before it, shifted by psshift. */
  predicate Contiguous(ts: seq<Transfer>, psshift: nat)
  {
    forall k :: 0 <= k < |ts| - 1 ==>
      ts[k + 1].sector == ts[k].sector + ts[k].count && ts[k + 1].offset == ts[k].offset + ts[k].count * Pow2(psshift)
  }

  function SumCounts(ts: seq<Transfer>): int
  {
    if ts == [] then 0 else ts[0].count + SumCounts(ts[1..])
  }

  // ---------------------------------------------------------------------
  // The loop itself
  // ---------------------------------------------------------------------

  /** The do-while transfer loop of Rwabs, as the source runs it. */
  method TransferLoop(xfer: (int, int, int) -> int, unit: int, sector: int, count: int, psshift: nat)
    returns (retval: int, transfers: seq<Transfer>)
    ensures (retval, transfers) == Chunks(xfer, unit, sector, count, 0, psshift)
  {
    var lrecnr, lcount, buf := sector, count, 0;
    transfers := [];
    retval := 0;
    var going := true;
    while going
      invariant going ==> lcount > 0 || transfers == []
      invariant going ==> (Chunks(xfer, unit, lrecnr, lcount, buf, psshift).0 == Chunks(xfer, unit, sector, count, 0, psshift).0 &&
                           transfers + Chunks(xfer, unit, lrecnr, lcount, buf, psshift).1 == Chunks(xfer, unit, sector, count, 0, psshift).1)
      invariant !going ==> (retval, transfers) == Chunks(xfer, unit, sector, count, 0, psshift)
      decreases going, if lcount > 0 then lcount else 0
    {
      var scount := ChunkSize(lcount);
      retval := xfer(unit, lrecnr, scount);
      transfers := transfers + [Transfer(lrecnr, scount, buf)];
      if retval < 0 {
        going := false;
      } else {
        buf := buf + scount * Pow2(psshift);
        lrecnr := lrecnr + scount;
        lcount := lcount - scount;
        going := lcount > 0;
      }
    }
  }

  // ---------------------------------------------------------------------
  // Properties
  // ---------------------------------------------------------------------

  /** recnr -1 selects the long record number; any other recnr is taken as unsigned 16-bit. */
  lemma RecordNumbers(req: Request)
    requires WellTyped(req)
    ensures req.recnr == -1 ==> RecordNumber(req) == req.lrecnr
    ensures req.recnr >= 0 ==> RecordNumber(req) == req.recnr
    ensures req.recnr < -1 ==> RecordNumber(req) == req.recnr + 0x10000 && 0x8000 <= RecordNumber(req) < 0xFFFF
  {
  }

  /**
   * A logical request that passes goes to the drive's unit with the LONG
   * count and the LONG absolute sector start + first, where first is the
   * scaled record number and not negative; when nothing wraps it lies
   * inside the partition, ending before its last sector when the size is
   * known.
   */
  lemma LogicalPlacement(req: Request, devs: seq<Device>, units: seq<Unit>, mediach: int)
    requires |devs| == BlkDevNum && DevicesOnUnits(devs, units)
    requires req.rw & RwNoTranslate == 0 && Translate(req, devs, units, mediach).Go?
    ensures 0 <= req.dev < BlkDevNum && devs[req.dev].valid && devs[req.dev].bpb.recsiz != 0
    ensures var d := devs[req.dev];
            var t := Translate(req, devs, units, mediach);
            var first := LogicalFirst(req, d, units[d.unit]);
            t.unit == d.unit && t.count == LogicalCount(req, d, units[d.unit]) && 0 <= first &&
            t.sector == Long(d.start + first) &&
            (t.count >= 0 && d.start + first < 0x8000_0000 ==>
               t.sector == d.start + first && (d.size > 0 ==> t.sector + t.count < d.start + d.size))
  {
  }

  /**
   * Both directions of the range check on a drive with a BPB: a logical
   * request is refused with ESECNF exactly when its scaled first sector is
   * negative or, on a sized partition, its end read as a ULONG reaches the
   * size; a request that lies inside the partition passes to the transfer
   * unless the media-change probe reports a change.
   */
  lemma LogicalRange(req: Request, devs: seq<Device>, units: seq<Unit>, mediach: int)
    requires |devs| == BlkDevNum && DevicesOnUnits(devs, units)
    requires req.rw & RwNoTranslate == 0 && 0 <= req.dev < BlkDevNum && devs[req.dev].valid
    requires devs[req.dev].bpb.recsiz != 0
    ensures var d := devs[req.dev];
            var first := LogicalFirst(req, d, units[d.unit]);
            var count := LogicalCount(req, d, units[d.unit]);
            (Translate(req, devs, units, mediach) == Refused(ESecnf) <==>
               first < 0 || (d.size > 0 && Ulong(first + count) >= d.size)) &&
            (0 <= first && 0 <= count && (d.size == 0 || first + count < d.size) &&
             (req.rw & RwNoMediach != 0 || mediach == MediaNoChange) ==>
               Translate(req, devs, units, mediach) == Go(d.unit, Long(first + d.start), count))
  {
  }

  /**
   * A request whose LONG end first + count is negative is refused on a
   * partition of at most 2^31 sectors: read as a ULONG that end is at
   * least 2^31.
   */
  lemma NegativeEndRefused(req: Request, devs: seq<Device>, units: seq<Unit>, mediach: int)
    requires |devs| == BlkDevNum && DevicesOnUnits(devs, units)
    requires req.rw & RwNoTranslate == 0 && 0 <= req.dev < BlkDevNum && devs[req.dev].valid
    requires devs[req.dev].bpb.recsiz != 0
    requires var d := devs[req.dev];
             0 < d.size <= 0x8000_0000 &&
             LogicalFirst(req, d, units[d.unit]) + LogicalCount(req, d, units[d.unit]) < 0
    ensures Translate(req, devs, units, mediach) == Refused(ESecnf)
  {
    LogicalRange(req, devs, units, mediach);
  }

  /** Reading one record back from sector 0 (cnt -1, recnr 0) of such a partition is refused, not transferred. */
  lemma NegativeCountRefused(req: Request, devs: seq<Device>, units: seq<Unit>, mediach: int)
    requires |devs| == BlkDevNum && DevicesOnUnits(devs, units)
    requires req.rw & RwNoTranslate == 0 && 0 <= req.dev < BlkDevNum && devs[req.dev].valid
    requires req.cnt == -1 && req.recnr == 0
    requires var d := devs[req.dev];
             0 < d.size <= 0x8000_0000 && 0 < SectorsPerRecord(d, units[d.unit]) <= 0x8000_0000
    ensures Translate(req, devs, units, mediach) == Refused(ESecnf)
    ensures Outcome(req, devs, units, mediach, (unit: int, sector: int, count: int) => 0) == (ESecnf, [])
  {
    var d := devs[req.dev];
    assert d.bpb.recsiz != 0;
    assert LogicalFirst(req, d, units[d.unit]) == 0;
    NegativeEndRefused(req, devs, units, mediach);
  }

  /** As written, the range check refuses a request that ends exactly at the end of the partition. */
  lemma LastSectorRefused(req: Request, devs: seq<Device>, units: seq<Unit>, mediach: int)
    requires |devs| == BlkDevNum && DevicesOnUnits(devs, units)
    requires req.rw & RwNoTranslate == 0 && 0 <= req.dev < BlkDevNum && devs[req.dev].valid
    requires devs[req.dev].bpb.recsiz != 0 && devs[req.dev].size > 0
    requires var d := devs[req.dev];
             var u := units[d.unit];
             LogicalFirst(req, d, u) >= 0 && LogicalFirst(req, d, u) + LogicalCount(req, d, u) == d.size
    ensures Translate(req, devs, units, mediach) == Refused(ESecnf)
  {
  }

  /**
   * The refusals of a logical request: EUNDEV for a drive that is out of
   * range or not valid, ESECNF for a drive without a valid BPB, and E_CHNG
   * only from the media-change probe.
   */
  lemma LogicalRefusals(req: Request, devs: seq<Device>, units: seq<Unit>, mediach: int)
    requires |devs| == BlkDevNum && DevicesOnUnits(devs, units)
    requires req.rw & RwNoTranslate == 0
    ensures Translate(req, devs, units, mediach) == Refused(EUndev) <==>
              req.dev < 0 || req.dev >= BlkDevNum || !devs[req.dev].valid
    ensures 0 <= req.dev < BlkDevNum && devs[req.dev].valid && devs[req.dev].bpb.recsiz == 0 ==>
              Translate(req, devs, units, mediach) == Refused(ESecnf)
    ensures Translate(req, devs, units, mediach) == Refused(EChng) ==> req.rw & RwNoMediach == 0 && mediach != MediaNoChange
  {
  }

  /**
   * A physical request addresses the unit directly; E_CHNG comes from the
   * unit's change status, which the same call then clears.
   */
  lemma PhysicalRequests(req: Request, devs: seq<Device>, units: seq<Unit>, mediach: int)
    requires |devs| == BlkDevNum && DevicesOnUnits(devs, units)
    requires req.rw & RwNoTranslate != 0
    ensures Translate(req, devs, units, mediach) == Refused(EUndev) <==>
              req.dev < 0 || req.dev >= |units| || !units[req.dev].valid
    ensures Translate(req, devs, units, mediach).Go? ==>
              Translate(req, devs, units, mediach) == Go(req.dev, RecordNumber(req), req.cnt) && RecordNumber(req) >= 0 &&
              (0 <= req.cnt < 0x8000_0000 && units[req.dev].size > 0 ==> RecordNumber(req) + req.cnt < units[req.dev].size)
    ensures 0 <= req.dev < |units| && units[req.dev].valid ==>
              (Translate(req, devs, units, mediach) == Refused(ESecnf) <==>
                 RecordNumber(req) < 0 || (units[req.dev].size > 0 && Ulong(RecordNumber(req) + req.cnt) >= units[req.dev].size))
    ensures Translate(req, devs, units, mediach) == Refused(EChng) <==> ClearsChange(req, units)
    ensures ClearsChange(req, units) ==> !UnitsAfter(req, units)[req.dev].changed
  {
  }

  /** Only a physical request without RW_NOMEDIACH changes the unit table. */
  lemma UnitsKept(req: Request, units: seq<Unit>)
    requires req.rw & RwNoTranslate == 0 || req.rw & RwNoMediach != 0
    ensures UnitsAfter(req, units) == units
  {
  }

  /**
   * The calls begin at the requested sector, follow each other without
   * gap or overlap in sectors and buffer bytes, and none exceeds CNTMAX.
   */
  lemma {:induction false} ChunksContiguous(xfer: (int, int, int) -> int, unit: int, sector: int, count: int, offset: int, psshift: nat)
    ensures var ts := Chunks(xfer, unit, sector, count, offset, psshift).1;
            |ts| >= 1 && ts[0].sector == sector && ts[0].offset == offset && Contiguous(ts, psshift) &&
            forall k :: 0 <= k < |ts| ==> ts[k].count <= CntMax
    decreases if count > 0 then count else 0
  {
    var scount := ChunkSize(count);
    var rv := xfer(unit, sector, scount);
    if !(rv < 0 || count - scount <= 0) {
      ChunksContiguous(xfer, unit, sector + scount, count - scount, offset + scount * Pow2(psshift), psshift);
    }
  }

  /**
   * The loop stops at the first error: every call but the last succeeded,
   * was a full CNTMAX chunk, and the result is what the last call returned.
   */
  lemma {:induction false} ChunksStopAtError(xfer: (int, int, int) -> int, unit: int, sector: int, count: int, offset: int, psshift: nat)
    ensures var (rv, ts) := Chunks(xfer, unit, sector, count, offset, psshift);
            |ts| >= 1 && rv == xfer(unit, ts[|ts| - 1].sector, ts[|ts| - 1].count) &&
            forall k :: 0 <= k < |ts| - 1 ==> ts[k].count == CntMax && xfer(unit, ts[k].sector, ts[k].count) >= 0
    decreases if count > 0 then count else 0
  {
    var scount := ChunkSize(count);
    var rv := xfer(unit, sector, scount);
    if !(rv < 0 || count - scount <= 0) {
      ChunksStopAtError(xfer, unit, sector + scount, count - scount, offset + scount * Pow2(psshift), psshift);
    }
  }

  /**
   * A successful transfer of a positive count covers exactly the requested
   * sectors; a count of zero or less still makes one call.
   */
  lemma {:induction false} ChunksCover(xfer: (int, int, int) -> int, unit: int, sector: int, count: int, offset: int, psshift: nat)
    ensures var (rv, ts) := Chunks(xfer, unit, sector, count, offset, psshift);
            (count > 0 && rv >= 0 ==> SumCounts(ts) == count) &&
            (count <= 0 ==> |ts| == 1 && ts[0].count == ToWord(count))
    decreases if count > 0 then count else 0
  {
    var scount := ChunkSize(count);
    var rv := xfer(unit, sector, scount);
    if !(rv < 0 || count - scount <= 0) {
      ChunksCover(xfer, unit, sector + scount, count - scount, offset + scount * Pow2(psshift), psshift);
      var rest := Chunks(xfer, unit, sector + scount, count - scount, offset + scount * Pow2(psshift), psshift).1;
      assert ([Transfer(sector, scount, offset)] + rest)[1..] == rest;
    }
  }
}
