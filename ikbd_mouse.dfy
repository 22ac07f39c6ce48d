/**
 * The mouse reports of the keyboard processor, as functions of the values
 * the report code reads: button edges, the relative packet and its
 * threshold test, the absolute-position packet, the clamped integration of
 * the absolute position, and the cursor-key translation of a movement.
 */
module IkbdMouse {
  import opened IkbdTypes

  /** IKBD_ButtonBool: a button mask is down when any bit is set. */
  predicate Down(b: bv8)
  {
    b != 0
  }

  /** IKBD_ButtonsEqual compares the two masks as booleans. */
  predicate ButtonsEqual(a: bv8, b: bv8)
  {
    Down(a) == Down(b)
  }

  /**
   * The key byte a button edge produces: the make code when it went down,
   * the break code (bit 7 set) when it went up, nothing otherwise.
   */
  function EdgeKey(code: bv8, was: bv8, now: bv8): (r: seq<bv8>)
  {
    if Down(now) && !Down(was) then [code]
    else if Down(was) && !Down(now) then [code | 0x80]
    else []
  }

  /** An edge key exists exactly for a changed button, carries the key code, and is a break code when the button is up. */
  lemma EdgeKeyShape(code: bv8, was: bv8, now: bv8)
    requires code < 0x80
    ensures EdgeKey(code, was, now) == [] <==> ButtonsEqual(was, now)
    ensures EdgeKey(code, was, now) != [] ==>
              |EdgeKey(code, was, now)| == 1 && EdgeKey(code, was, now)[0] & 0x7F == code &&
              (EdgeKey(code, was, now)[0] & 0x80 == 0 <==> Down(now))
  {
  }

  /** Left button as key 0x74, right button as key 0x75, in that order. */
  function ButtonKeys(oldL: bv8, l: bv8, oldR: bv8, r: bv8): (k: seq<bv8>)
    ensures |k| <= 2
  {
    EdgeKey(0x74, oldL, l) + EdgeKey(0x75, oldR, r)
  }

  /** No button key is sent exactly when neither button changed. */
  lemma ButtonKeysQuiet(oldL: bv8, l: bv8, oldR: bv8, r: bv8)
    ensures ButtonKeys(oldL, l, oldR, r) == [] <==> ButtonsEqual(oldL, l) && ButtonsEqual(oldR, r)
  {
    EdgeKeyShape(0x74, oldL, l);
    EdgeKeyShape(0x75, oldR, r);
  }

  /** The new absolute coordinate: the scale is applied only when above 1. */
  function Scaled(delta: int, scale: int): int
  {
    if scale > 1 then delta * scale else delta
  }

  /** Clamping to 0..max, the low bound first as the source does. */
  function Clamp(v: int, max: int): (r: int)
    requires 0 <= max
    ensures 0 <= r <= max
    ensures 0 <= v <= max ==> r == v
    ensures v < 0 ==> r == 0
    ensures v > max ==> r == max
  {
    var low := if v < 0 then 0 else v;
    if low > max then max else low
  }

  /**
   * IKBD_UpdateInternalMousePosition for one axis: the new coordinate lies in
   * 0..max, equals the moved coordinate when that is in range, and moves by
   * exactly `delta` when the scale is 0 or 1.
   */
  lemma Integrate(pos: int, delta: int, scale: int, max: int)
    requires 0 <= max
    ensures 0 <= Clamp(pos + Scaled(delta, scale), max) <= max
    ensures scale <= 1 && 0 <= pos + delta <= max ==> Clamp(pos + Scaled(delta, scale), max) == pos + delta
    ensures scale > 1 && 0 <= pos + delta * scale <= max ==> Clamp(pos + Scaled(delta, scale), max) == pos + delta * scale
  {
  }

  /** The relative-packet header: 0xF8, bit 1 for the left button, bit 0 for the right. */
  function RelHeader(l: bv8, r: bv8): (h: bv8)
    ensures h & 0xFC == 0xF8
    ensures (h & 0x02 != 0) == Down(l) && (h & 0x01 != 0) == Down(r)
  {
    0xF8 | (if Down(l) then 0x02 else 0) | (if Down(r) then 0x01 else 0)
  }

  /** One wrapped byte beats its threshold in magnitude. */
  predicate Beyond(b: int, threshold: int)
  {
    (b < 0 && b <= -threshold) || (b > 0 && b >= threshold)
  }

  /** The test at the head of the IKBD_SendRelMousePacket loop. */
  predicate RelTrigger(dx: int, dy: int, xt: int, yt: int, oldL: bv8, l: bv8, oldR: bv8, r: bv8)
  {
    Beyond(Int8(dx), xt) || Beyond(Int8(dy), yt) || !ButtonsEqual(oldL, l) || !ButtonsEqual(oldR, r)
  }

  /** The three bytes of one relative packet; Y is multiplied by YAxis after the wrap. */
  function RelPacket(dx: int, dy: int, yAxis: int, l: bv8, r: bv8): (p: seq<bv8>)
    ensures |p| == 3 && p[0] == RelHeader(l, r)
    ensures p[1] == Low8(dx) && p[2] == Low8(Int8(dy) * yAxis)
  {
    Low8Int8(dx);
    [RelHeader(l, r), Low8(Int8(dx)), Low8(Int8(dy) * yAxis)]
  }

  /** Subtracting the wrapped byte leaves a multiple of 256, whose wrap is 0. */
  lemma Residue(d: int)
    ensures (d - Int8(d)) % 256 == 0
    ensures Int8(d - Int8(d)) == 0
  {
    var e := d - Int8(d);
    assert e % 256 == 0;
    assert Int8(e) == (e + 128) % 256 - 128;
    assert (e + 128) % 256 == 128;
  }

  /**
   * After one packet the loop test is false whatever the thresholds: both
   * wrapped deltas are 0 and the old buttons equal the current ones.  So
   * IKBD_SendRelMousePacket sends at most one packet per call, and a delta
   * beyond 127 is not split into several packets; the remainder, a multiple
   * of 256, stays in the delta until the next tick's position update
   * overwrites it, so it is never sent.
   */
  lemma AtMostOnePacket(dx: int, dy: int, xt: int, yt: int, l: bv8, r: bv8)
    ensures !RelTrigger(dx - Int8(dx), dy - Int8(dy), xt, yt, l, l, r, r)
  {
    Residue(dx);
    Residue(dy);
  }

  /** A delta within the signed-byte range is sent whole and leaves nothing behind. */
  lemma SmallDeltaSentWhole(dx: int, dy: int, yAxis: int, l: bv8, r: bv8)
    requires -128 <= dx <= 127 && -128 <= dy <= 127
    ensures dx - Int8(dx) == 0 && dy - Int8(dy) == 0
    ensures RelPacket(dx, dy, yAxis, l, r)[2] == Low8(dy * yAxis)
  {
  }

  /** The button byte of the absolute report: bit 0/1 right down/up, bit 2/3 left down/up. */
  function AbsButtons(l: bv8, r: bv8): (b: bv8)
    ensures b & 0xF0 == 0
    ensures (b & 0x01 != 0) == Down(r) && (b & 0x02 != 0) == !Down(r)
    ensures (b & 0x04 != 0) == Down(l) && (b & 0x08 != 0) == !Down(l)
  {
    (if Down(r) then 0x01 else 0x02) | (if Down(l) then 0x04 else 0x08)
  }

  /** A 16-bit coordinate as its high byte then its low byte. */
  function BigEndian16(v: int): (r: seq<bv8>)
    ensures |r| == 2
    ensures 0 <= v < 0x1_0000 ==> r[0] as int * 256 + r[1] as int == v
  {
    [Low8(v / 256), Low8(v)]
  }

  /**
   * IKBD_Cmd_ReadAbsMousePos's packet: header 0xF7, the button states not
   * already reported last time, then X and Y big-endian.
   */
  function AbsReport(l: bv8, r: bv8, prev: bv8, x: int, y: int): (p: seq<bv8>)
    ensures |p| == 6 && p[0] == 0xF7 && p[1] & prev == 0
    ensures p[1] | (AbsButtons(l, r) & prev) == AbsButtons(l, r)
    ensures 0 <= x < 0x1_0000 ==> p[2] as int * 256 + p[3] as int == x
    ensures 0 <= y < 0x1_0000 ==> p[4] as int * 256 + p[5] as int == y
  {
    [0xF7, AbsButtons(l, r) & !prev] + BigEndian16(x) + BigEndian16(y)
  }

  /** A button reported down is not reported down again until it has been reported up. */
  lemma AbsReportsEachEdgeOnce(l: bv8, r: bv8, prev: bv8)
    ensures AbsReport(l, r, AbsButtons(l, r), 0, 0)[1] == 0
  {
  }

  /**
   * One cursor-key step on one axis: a delta at or below -k gives the
   * negative key and moves k towards zero, then a delta at or above k gives
   * the positive key and moves k towards zero.
   */
  function AxisKeys(d: int, k: int, neg: bv8, pos: bv8): seq<bv8>
  {
    if d == 0 then []
    else (if d <= -k then [neg, neg | 0x80] else [])
         + (if (if d <= -k then d + k else d) >= k then [pos, pos | 0x80] else [])
  }

  function AxisRest(d: int, k: int): int
  {
    if d == 0 then 0
    else
      var d1 := if d <= -k then d + k else d;
      if d1 >= k then d1 - k else d1
  }

  /**
   * With a step of at least 1 an axis step never overshoots: a delta of at
   * least k in magnitude loses exactly k and keeps its sign, a smaller one
   * is left alone.
   */
  lemma AxisStep(d: int, k: int)
    requires k >= 1
    ensures d <= -k ==> AxisRest(d, k) == d + k && AxisRest(d, k) <= 0
    ensures d >= k ==> AxisRest(d, k) == d - k && AxisRest(d, k) >= 0
    ensures -k < d < k ==> AxisRest(d, k) == d
    ensures |AxisKeys(d, k, 75, 77)| == if -k < d < k then 0 else 2
  {
  }

  /** One iteration of the IKBD_SendCursorMousePacket loop: X keys, Y keys, button keys. */
  function CursorKeys(dx: int, dy: int, kx: int, ky: int, oldL: bv8, l: bv8, oldR: bv8, r: bv8): seq<bv8>
  {
    AxisKeys(dx, kx, 75, 77) + AxisKeys(dy, ky, 72, 80) + ButtonKeys(oldL, l, oldR, r)
  }

  /** The loop test of IKBD_SendCursorMousePacket. */
  predicate CursorMoving(dx: int, dy: int, oldL: bv8, l: bv8, oldR: bv8, r: bv8)
  {
    dx != 0 || dy != 0 || !ButtonsEqual(oldL, l) || !ButtonsEqual(oldR, r)
  }

  /** What remains of the cursor loop from iteration i, up to its limit of 10. */
  datatype CursorResult = CursorResult(keys: seq<bv8>, dx: int, dy: int)

  function CursorFrom(i: nat, dx: int, dy: int, kx: int, ky: int, oldL: bv8, l: bv8, oldR: bv8, r: bv8): CursorResult
    decreases 10 - i
  {
    if i >= 10 || !CursorMoving(dx, dy, oldL, l, oldR, r) then CursorResult([], dx, dy)
    else
      var rest := CursorFrom(i + 1, AxisRest(dx, kx), AxisRest(dy, ky), kx, ky, l, l, r, r);
      CursorResult(CursorKeys(dx, dy, kx, ky, oldL, l, oldR, r) + rest.keys, rest.dx, rest.dy)
  }

  /**
   * Button changes are reported once, in the first iteration; a delta within
   * one step of zero produces no key and is kept whole; and when both steps
   * are at least 1 a movement of n steps per axis, n at most 10, is fully
   * converted.
   */
  lemma {:induction false} CursorSmallMoveKept(i: nat, dx: int, dy: int, kx: int, ky: int, l: bv8, r: bv8)
    requires kx >= 1 && ky >= 1
    requires -kx < dx < kx && -ky < dy < ky
    ensures CursorFrom(i, dx, dy, kx, ky, l, l, r, r).keys == []
    ensures CursorFrom(i, dx, dy, kx, ky, l, l, r, r).dx == dx
    ensures CursorFrom(i, dx, dy, kx, ky, l, l, r, r).dy == dy
    decreases 10 - i
  {
    if i < 10 && CursorMoving(dx, dy, l, l, r, r) {
      AxisStep(dx, kx);
      AxisStep(dy, ky);
      CursorSmallMoveKept(i + 1, dx, dy, kx, ky, l, r);
    }
  }

  /** Each iteration with a non-zero step moves every delta of at least one step closer to zero. */
  lemma {:induction false} CursorNeverOvershoots(i: nat, dx: int, dy: int, kx: int, ky: int, oldL: bv8, l: bv8, oldR: bv8, r: bv8)
    requires kx >= 1 && ky >= 1
    ensures var c := CursorFrom(i, dx, dy, kx, ky, oldL, l, oldR, r);
            (dx >= 0 ==> 0 <= c.dx <= dx) && (dx <= 0 ==> dx <= c.dx <= 0) &&
            (dy >= 0 ==> 0 <= c.dy <= dy) && (dy <= 0 ==> dy <= c.dy <= 0)
    decreases 10 - i
  {
    if i < 10 && CursorMoving(dx, dy, oldL, l, oldR, r) {
      AxisStep(dx, kx);
      AxisStep(dy, ky);
      CursorNeverOvershoots(i + 1, AxisRest(dx, kx), AxisRest(dy, ky), kx, ky, l, l, r, r);
    }
  }

  /**
   * The loop of IKBD_SendRelMousePacket on the values it reads and writes:
   * while the test holds, a packet goes out, each delta loses its wrapped
   * byte and the buttons become the old ones.  It runs at most once.
   */
  method RelLoop(dx0: int, dy0: int, xt: int, yt: int, yAxis: int, oldL0: bv8, l: bv8, oldR0: bv8, r: bv8)
    returns (packet: seq<bv8>, dx: int, dy: int, oldL: bv8, oldR: bv8)
    ensures RelTrigger(dx0, dy0, xt, yt, oldL0, l, oldR0, r) ==>
              packet == RelPacket(dx0, dy0, yAxis, l, r) && dx == dx0 - Int8(dx0) && dy == dy0 - Int8(dy0) &&
              oldL == l && oldR == r
    ensures !RelTrigger(dx0, dy0, xt, yt, oldL0, l, oldR0, r) ==>
              packet == [] && dx == dx0 && dy == dy0 && oldL == oldL0 && oldR == oldR0
  {
    packet, dx, dy, oldL, oldR := [], dx0, dy0, oldL0, oldR0;
    ghost var n := 0;
    while true
      invariant n <= 1
      invariant n == 0 ==> packet == [] && dx == dx0 && dy == dy0 && oldL == oldL0 && oldR == oldR0
      invariant n == 1 ==> RelTrigger(dx0, dy0, xt, yt, oldL0, l, oldR0, r) &&
                           packet == RelPacket(dx0, dy0, yAxis, l, r) && dx == dx0 - Int8(dx0) &&
                           dy == dy0 - Int8(dy0) && oldL == l && oldR == r
      decreases 1 - n
    {
      var byteX := Int8(dx);
      var byteY := Int8(dy);
      if !RelTrigger(dx, dy, xt, yt, oldL, l, oldR, r) {
        break;
      }
      if n == 1 {
        AtMostOnePacket(dx0, dy0, xt, yt, l, r);
        assert false;
      }
      packet := packet + [RelHeader(l, r), Low8(byteX), Low8(byteY * yAxis)];
      Low8Int8(dx);
      dx, dy := dx - byteX, dy - byteY;
      oldL, oldR := l, r;
      n := n + 1;
    }
  }

  /** One axis of one iteration of the IKBD_SendCursorMousePacket loop. */
  method AxisLoopStep(d0: int, k: int, neg: bv8, pos: bv8) returns (keys: seq<bv8>, d: int)
    ensures keys == AxisKeys(d0, k, neg, pos) && d == AxisRest(d0, k)
  {
    keys, d := [], d0;
    if d != 0 {
      if d <= -k {
        keys := keys + [neg, neg | 0x80];
        d := d + k;
      }
      if d >= k {
        keys := keys + [pos, pos | 0x80];
        d := d - k;
      }
    }
  }

  /** What the cursor loop keeps: the keys sent so far followed by what the rest of the loop sends make the whole run. */
  predicate CursorSoFar(whole: CursorResult, keys: seq<bv8>, i: nat, dx: int, dy: int, kx: int, ky: int,
                        oldL: bv8, l: bv8, oldR: bv8, r: bv8)
  {
    var c := CursorFrom(i, dx, dy, kx, ky, oldL, l, oldR, r);
    whole == CursorResult(keys + c.keys, c.dx, c.dy)
  }

  /** One iteration keeps CursorSoFar. */
  lemma CursorAdvance(whole: CursorResult, keys: seq<bv8>, i: nat, dx: int, dy: int, kx: int, ky: int,
                      oldL: bv8, l: bv8, oldR: bv8, r: bv8)
    requires i < 10 && CursorMoving(dx, dy, oldL, l, oldR, r)
    requires CursorSoFar(whole, keys, i, dx, dy, kx, ky, oldL, l, oldR, r)
    ensures CursorSoFar(whole, keys + CursorKeys(dx, dy, kx, ky, oldL, l, oldR, r), i + 1,
                        AxisRest(dx, kx), AxisRest(dy, ky), kx, ky, l, l, r, r)
  {
    var step := CursorKeys(dx, dy, kx, ky, oldL, l, oldR, r);
    var rest := CursorFrom(i + 1, AxisRest(dx, kx), AxisRest(dy, ky), kx, ky, l, l, r, r);
    assert keys + step + rest.keys == keys + (step + rest.keys);
  }

  /** When the loop stops, nothing is left to send. */
  lemma CursorDone(whole: CursorResult, keys: seq<bv8>, i: nat, dx: int, dy: int, kx: int, ky: int,
                   oldL: bv8, l: bv8, oldR: bv8, r: bv8)
    requires !(i < 10 && CursorMoving(dx, dy, oldL, l, oldR, r))
    requires CursorSoFar(whole, keys, i, dx, dy, kx, ky, oldL, l, oldR, r)
    ensures whole == CursorResult(keys, dx, dy)
  {
  }

  /** One pass of the cursor loop: the horizontal keys, the vertical keys, then the button keys. */
  method CursorIteration(dx: int, dy: int, kx: int, ky: int, oldL: bv8, l: bv8, oldR: bv8, r: bv8)
    returns (step: seq<bv8>, dx': int, dy': int)
    ensures step == CursorKeys(dx, dy, kx, ky, oldL, l, oldR, r)
    ensures dx' == AxisRest(dx, kx) && dy' == AxisRest(dy, ky)
  {
    var xKeys, yKeys;
    xKeys, dx' := AxisLoopStep(dx, kx, 75, 77);
    yKeys, dy' := AxisLoopStep(dy, ky, 72, 80);
    step := xKeys + yKeys + ButtonKeys(oldL, l, oldR, r);
  }

  /**
   * The loop of IKBD_SendCursorMousePacket: at most 10 iterations while a
   * delta is non-zero or a button changed; it says whether it ran at all,
   * which decides whether the buttons become the old ones.
   */
  method CursorLoop(dx0: int, dy0: int, kx: int, ky: int, oldL0: bv8, l: bv8, oldR0: bv8, r: bv8)
    returns (res: CursorResult, ran: bool)
    ensures res == CursorFrom(0, dx0, dy0, kx, ky, oldL0, l, oldR0, r)
    ensures ran == CursorMoving(dx0, dy0, oldL0, l, oldR0, r)
  {
    ghost var whole := CursorFrom(0, dx0, dy0, kx, ky, oldL0, l, oldR0, r);
    var i := 0;
    var dx, dy, oldL, oldR := dx0, dy0, oldL0, oldR0;
    var keys: seq<bv8> := [];
    assert keys + whole.keys == whole.keys;
    ran := CursorMoving(dx0, dy0, oldL0, l, oldR0, r);
    while i < 10 && CursorMoving(dx, dy, oldL, l, oldR, r)
      invariant 0 <= i <= 10
      invariant CursorSoFar(whole, keys, i, dx, dy, kx, ky, oldL, l, oldR, r)
    {
      var step, dx', dy' := CursorIteration(dx, dy, kx, ky, oldL, l, oldR, r);
      CursorAdvance(whole, keys, i, dx, dy, kx, ky, oldL, l, oldR, r);
      keys := keys + step;
      dx, dy, oldL, oldR := dx', dy', l, r;
      i := i + 1;
    }
    CursorDone(whole, keys, i, dx, dy, kx, ky, oldL, l, oldR, r);
    res := CursorResult(keys, dx, dy);
  }
}
