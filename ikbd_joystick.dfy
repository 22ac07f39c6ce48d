/**
 * The joystick side of the keyboard processor: the scan of a joypad's
 * 16-bit input word in IKBD_GetJoystickData, the automatic joystick
 * packets and the two-byte monitoring report.
 *
 * The input words are handled as naturals below 2^16; bit j of a word is
 * what remains after j halvings, taken modulo 2, which is what the source's
 * `state & 1` / `state >>= 1` loop looks at.
 */
module IkbdJoystick {
  import opened IkbdTypes
  import opened Powers

  lemma Pow2Word()
    ensures Pow2(16) == 0x1_0000
  {
    assert Pow2(2) == 4;
    assert Pow2(4) == 16;
    assert Pow2(6) == 64;
    assert Pow2(8) == 256;
    assert Pow2(10) == 1024;
    assert Pow2(12) == 4096;
    assert Pow2(14) == 16384;
  }

  /** x has no set bit at position k or above. */
  predicate Fits(x: nat, k: nat)
    decreases k
  {
    if k == 0 then x == 0 else Fits(x / 2, k - 1)
  }

  lemma {:induction false} FitsBelow(x: nat, k: nat)
    requires x < Pow2(k)
    ensures Fits(x, k)
    decreases k
  {
    if k > 0 {
      FitsBelow(x / 2, k - 1);
    }
  }

  /**
   * The key event of bit j (the low bit of the remaining words): when the bit
   * changed and the pad maps it to a non-zero scancode, that scancode, with
   * bit 7 set when the input is now released.
   */
  function Event(map32: seq<bv8>, changed: nat, state: nat, j: nat): seq<bv8>
    requires |map32| == 32 && j < 16
  {
    if changed % 2 == 1 && map32[j] != 0 then [if state % 2 == 1 then map32[j] else map32[j] | 0x80] else []
  }

  /** The key events of bits j to 15, in increasing bit order. */
  function EventsFrom(map32: seq<bv8>, changed: nat, state: nat, j: nat): seq<bv8>
    requires |map32| == 32 && j <= 16
    decreases 16 - j
  {
    if j == 16 then [] else Event(map32, changed, state, j) + EventsFrom(map32, changed / 2, state / 2, j + 1)
  }

  /** The OR of the joystick masks of the set bits among j to 15. */
  function JoyFrom(map32: seq<bv8>, state: nat, j: nat): bv8
    requires |map32| == 32 && j <= 16
    decreases 16 - j
  {
    if j == 16 then 0 else (if state % 2 == 1 then map32[16 + j] else 0) | JoyFrom(map32, state / 2, j + 1)
  }

  lemma {:induction false} Exhausted(map32: seq<bv8>, state: nat, j: nat)
    requires |map32| == 32 && j <= 16
    ensures EventsFrom(map32, 0, state, j) == []
    ensures state == 0 ==> JoyFrom(map32, 0, j) == 0
    decreases 16 - j
  {
    if j < 16 {
      Exhausted(map32, state / 2, j + 1);
    }
  }

  lemma EventsStep(map32: seq<bv8>, changed: nat, state: nat, j: nat, before: seq<bv8>, after: seq<bv8>)
    requires |map32| == 32 && j < 16
    requires after == before + Event(map32, changed, state, j)
    ensures after + EventsFrom(map32, changed / 2, state / 2, j + 1) == before + EventsFrom(map32, changed, state, j)
  {
  }

  /** Shifting a word right by one frees one more top bit. */
  lemma FitsHalf(x: nat, k: nat)
    requires Fits(x, k)
    ensures k == 0 ==> x == 0
    ensures k > 0 ==> Fits(x / 2, k - 1)
  {
  }

  lemma JoyStep(map32: seq<bv8>, state: nat, j: nat, before: bv8, after: bv8)
    requires |map32| == 32 && j < 16
    requires after == before | (if state % 2 == 1 then map32[16 + j] else 0)
    ensures after | JoyFrom(map32, state / 2, j + 1) == before | JoyFrom(map32, state, j)
  {
  }

  /**
   * One pass of the loop body: bit 0 of the remaining words, which is bit j
   * of the sampled ones, adds its joystick mask and its key event.
   */
  method ScanBit(map32: seq<bv8>, changed: nat, state: nat, j: nat, joy: bv8, events: seq<bv8>)
    returns (joy': bv8, events': seq<bv8>)
    requires |map32| == 32 && j < 16
    ensures joy' | JoyFrom(map32, state / 2, j + 1) == joy | JoyFrom(map32, state, j)
    ensures events' + EventsFrom(map32, changed / 2, state / 2, j + 1) == events + EventsFrom(map32, changed, state, j)
  {
    joy', events' := joy, events;
    if state % 2 == 1 {
      joy' := joy | map32[16 + j];
    }
    if changed % 2 == 1 && map32[j] != 0 {
      var scan := map32[j];
      if state % 2 == 0 {
        scan := scan | 0x80;
      }
      events' := events + [scan];
    }
    JoyStep(map32, state, j, joy, joy');
    EventsStep(map32, changed, state, j, events, events');
  }

  /** What the scan loop keeps: bits j.. of the sample are still to come, in words of room bits. */
  predicate Scanning(map32: seq<bv8>, changed0: nat, state0: nat, changed: nat, state: nat, j: nat, room: nat, joy: bv8, events: seq<bv8>)
  {
    |map32| == 32 && j + room == 16 && Fits(changed, room) && Fits(state, room)
    && joy | JoyFrom(map32, state, j) == JoyFrom(map32, state0, 0)
    && events + EventsFrom(map32, changed, state, j) == EventsFrom(map32, changed0, state0, 0)
  }

  /**
   * The inner loop of IKBD_GetJoystickData over one pad: it runs while
   * either word has a bit left, so it visits at most bit positions 0..15.
   */
  method ScanPad(map32: seq<bv8>, changed0: nat, state0: nat) returns (joy: bv8, events: seq<bv8>)
    requires |map32| == 32 && changed0 < 0x1_0000 && state0 < 0x1_0000
    ensures joy == JoyFrom(map32, state0, 0)
    ensures events == EventsFrom(map32, changed0, state0, 0)
  {
    var state: nat := state0;
    var changed: nat := changed0;
    joy := 0;
    events := [];
    var j: nat := 0;
    Pow2Word();
    FitsBelow(changed, 16);
    FitsBelow(state, 16);
    ghost var room: nat := 16;
    while changed != 0 || state != 0
      invariant Scanning(map32, changed0, state0, changed, state, j, room, joy, events)
      decreases room
    {
      FitsHalf(changed, room);
      FitsHalf(state, room);
      joy, events := ScanBit(map32, changed, state, j, joy, events);
      j, changed, state := j + 1, changed / 2, state / 2;
      room := room - 1;
    }
    Exhausted(map32, state, j);
  }

  /** A 16-bit input word as a natural. */
  function WordValue(w: bv16): (n: nat)
    ensures n < 0x1_0000
  {
    w as nat
  }

  /** One sample of a pad: its new joystick byte and the key events it sends. */
  datatype Sample = Sample(joystick: bv8, events: seq<bv8>)

  function PadSample(map32: seq<bv8>, was: bv16, now: bv16): Sample
    requires |map32| == 32
  {
    Sample(JoyFrom(map32, WordValue(now), 0), EventsFrom(map32, WordValue(was ^ now), WordValue(now), 0))
  }

  /** The scan of one pad from its remembered word and its new sample. */
  method SamplePad(map32: seq<bv8>, was: bv16, now: bv16) returns (joy: bv8, events: seq<bv8>)
    requires |map32| == 32
    ensures Sample(joy, events) == PadSample(map32, was, now)
  {
    var changed := was ^ now;
    joy, events := ScanPad(map32, WordValue(changed), WordValue(now));
  }

  /** Every event byte is a mapped scancode, released or pressed: at most one per changed bit. */
  lemma {:induction false} EventsBounded(map32: seq<bv8>, changed: nat, state: nat, j: nat)
    requires |map32| == 32 && j <= 16
    ensures |EventsFrom(map32, changed, state, j)| <= 16 - j
    ensures forall e :: e in EventsFrom(map32, changed, state, j) ==>
              exists k :: j <= k < 16 && map32[k] != 0 && e & 0x7F == map32[k] & 0x7F
    decreases 16 - j
  {
    if j < 16 {
      EventsBounded(map32, changed / 2, state / 2, j + 1);
      var ev := Event(map32, changed, state, j);
      assert forall e :: e in ev ==> e & 0x7F == map32[j] & 0x7F;
    }
  }

  /** A sample whose word did not change sends no key events. */
  lemma UnchangedSendsNothing(map32: seq<bv8>, w: bv16)
    requires |map32| == 32
    ensures PadSample(map32, w, w).events == []
  {
    assert WordValue(w ^ w) == 0;
    Exhausted(map32, WordValue(w), 0);
  }

  /** A pad read sends at most one event per button of the pad. */
  lemma SampleBounded(map32: seq<bv8>, was: bv16, now: bv16)
    requires |map32| == 32
    ensures |PadSample(map32, was, now).events| <= 16
  {
    EventsBounded(map32, WordValue(was ^ now), WordValue(now), 0);
  }

  /** A released pad (word 0) has joystick byte 0. */
  lemma ReleasedPadIsIdle(map32: seq<bv8>, was: bv16)
    requires |map32| == 32
    ensures PadSample(map32, was, 0).joystick == 0
  {
    Exhausted(map32, 0, 0);
  }

  /** IKBD_SendAutoJoysticks for one stick: [header, d] only when d differs from the previous byte. */
  function AutoPacket(header: bv8, prev: bv8, d: bv8): (p: seq<bv8>)
    ensures p == [] <==> d == prev
    ensures p != [] ==> p == [header, d]
  {
    if d != prev then [header, d] else []
  }

  /**
   * IKBD_SendAutoJoysticksMonitoring: the two fire buttons in bits 1 and 0
   * of the first byte, the two direction nibbles in the second.
   */
  function MonitorBytes(j0: bv8, j1: bv8): (r: seq<bv8>)
    ensures |r| == 2
    ensures r[0] & 0xFC == 0
    ensures (r[0] & 0x02 != 0) == (j0 & 0x80 != 0) && (r[0] & 0x01 != 0) == (j1 & 0x80 != 0)
    ensures r[1] >> 4 == j0 & 0x0F && r[1] & 0x0F == j1 & 0x0F
  {
    [((j0 & 0x80) >> 6) | ((j1 & 0x80) >> 7), ((j0 & 0x0F) << 4) | (j1 & 0x0F)]
  }
}
