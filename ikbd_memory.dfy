/**
 * The memory windows of the keyboard processor that the load-memory (0x20)
 * and read-memory (0x21) commands address: the 32-byte map of each of the
 * four joypads (16 scancodes, then 16 joystick masks, laid out one after
 * the other) and the 128-byte host-to-ST scancode table.
 *
 * resolve_address tests `addr > end`, so a window's end address is part of
 * it: the address one past a pad's scancode half lands on the first
 * joystick mask, while the address one past a pad's joystick half, or one
 * past the scancode table, lies outside every array.  Those two cases are
 * the explicit OutOfRange location.
 */
module IkbdMemory {

  /** What a window maps. */
  datatype Region = PadScancodes(pad: nat) | PadJoysticks(pad: nat) | HostScancodes

  datatype Window = Window(start: int, end: int, region: Region)

  /** mem_map, in search order. */
  const MemMap: seq<Window> := [
    Window(0xb000, 0xb010, PadScancodes(0)),
    Window(0xb010, 0xb020, PadJoysticks(0)),
    Window(0xb100, 0xb110, PadScancodes(1)),
    Window(0xb110, 0xb120, PadJoysticks(1)),
    Window(0xb200, 0xb210, PadScancodes(2)),
    Window(0xb210, 0xb220, PadJoysticks(2)),
    Window(0xb300, 0xb310, PadScancodes(3)),
    Window(0xb310, 0xb320, PadJoysticks(3)),
    Window(0xa000, 0xa080, HostScancodes)
  ]

  /**
   * Where an address lands: byte `offset` of a pad's 32-byte map, an entry
   * of the scancode table, one byte past an array (OutOfRange), or nowhere
   * (Unmapped, the NULL result).
   */
  datatype Location = PadByte(pad: nat, offset: nat) | ScancodeByte(index: nat) | OutOfRange | Unmapped

  /** The location of byte `offset` of a window's array. */
  function Place(region: Region, offset: nat): Location
  {
    match region
    case PadScancodes(p) => if offset < 32 then PadByte(p, offset) else OutOfRange
    case PadJoysticks(p) => if 16 + offset < 32 then PadByte(p, 16 + offset) else OutOfRange
    case HostScancodes => if offset < 128 then ScancodeByte(offset) else OutOfRange
  }

  /** The first window from index i on whose closed range holds addr. */
  function ResolveFrom(addr: int, i: nat): Location
    decreases |MemMap| - i
  {
    if i >= |MemMap| then Unmapped
    else if addr < MemMap[i].start || addr > MemMap[i].end then ResolveFrom(addr, i + 1)
    else Place(MemMap[i].region, addr - MemMap[i].start)
  }

  function Resolve(addr: int): Location
  {
    ResolveFrom(addr, 0)
  }

  /** resolve_address: the loop over mem_map. */
  method ResolveAddress(addr: int) returns (loc: Location)
    ensures loc == Resolve(addr)
  {
    var i := 0;
    while i < |MemMap|
      invariant 0 <= i <= |MemMap|
      invariant ResolveFrom(addr, i) == Resolve(addr)
    {
      if addr < MemMap[i].start {
        i := i + 1;
        continue;
      }
      if addr > MemMap[i].end {
        i := i + 1;
        continue;
      }
      return Place(MemMap[i].region, addr - MemMap[i].start);
    }
    return Unmapped;
  }

  /** Every location an address resolves to lies inside its array: one of the four pads' 32 bytes or the 128-entry table. */
  lemma {:induction false} ResolveFromInBounds(addr: int, i: nat)
    ensures ResolveFrom(addr, i).PadByte? ==> ResolveFrom(addr, i).pad < 4 && ResolveFrom(addr, i).offset < 32
    ensures ResolveFrom(addr, i).ScancodeByte? ==> ResolveFrom(addr, i).index < 128
    decreases |MemMap| - i
  {
    if i < |MemMap| {
      if addr < MemMap[i].start || addr > MemMap[i].end {
        ResolveFromInBounds(addr, i + 1);
      } else {
        assert MemMap[i].region.PadScancodes? || MemMap[i].region.PadJoysticks? ==> MemMap[i].region.pad < 4;
      }
    }
  }

  lemma ResolveInBounds(addr: int)
    ensures Resolve(addr).PadByte? ==> Resolve(addr).pad < 4 && Resolve(addr).offset < 32
    ensures Resolve(addr).ScancodeByte? ==> Resolve(addr).index < 128
  {
    ResolveFromInBounds(addr, 0);
  }

  /** The base address of pad p's window pair. */
  function PadBase(p: nat): int
  {
    0xb000 + 0x100 * p
  }

  /**
   * The address map in closed form: pad p's map occupies PadBase(p) to
   * PadBase(p) + 0x1f, the scancode table 0xa000 to 0xa07f, the address
   * right after either is OutOfRange, and everything else is Unmapped.
   */
  lemma ResolvePads(addr: int)
    ensures forall p: nat :: p < 4 && PadBase(p) <= addr < PadBase(p) + 0x20 ==>
              Resolve(addr) == PadByte(p, addr - PadBase(p))
    ensures forall p: nat :: p < 4 && addr == PadBase(p) + 0x20 ==> Resolve(addr) == OutOfRange
  {
  }

  lemma ResolveHost(addr: int)
    ensures 0xa000 <= addr < 0xa080 ==> Resolve(addr) == ScancodeByte(addr - 0xa000)
    ensures addr == 0xa080 ==> Resolve(addr) == OutOfRange
  {
  }

  lemma ResolveElsewhere(addr: int)
    requires !(0xa000 <= addr <= 0xa080)
    requires forall p: nat :: p < 4 ==> !(PadBase(p) <= addr <= PadBase(p) + 0x20)
    ensures Resolve(addr) == Unmapped
  {
    assert !(PadBase(0) <= addr <= PadBase(0) + 0x20) && !(PadBase(1) <= addr <= PadBase(1) + 0x20);
    assert !(PadBase(2) <= addr <= PadBase(2) + 0x20) && !(PadBase(3) <= addr <= PadBase(3) + 0x20);
  }

  /** The two boundary addresses of pad 0: 0xb010 is joystick mask 0, reached through the scancode window. */
  lemma PadBoundary()
    ensures Resolve(0xb010) == PadByte(0, 16) && Resolve(0xb00f) == PadByte(0, 15)
    ensures Resolve(0xb020) == OutOfRange && Resolve(0xa080) == OutOfRange
  {
  }
}
