/**
 * Powers of two, shared by the joystick word scan of the keyboard
 * processor and get_shift of the block-device layer.
 */
module Powers {

  /** 2^n. */
  function Pow2(n: nat): (r: nat)
    ensures r >= 1
  {
    if n == 0 then 1 else 2 * Pow2(n - 1)
  }
}
