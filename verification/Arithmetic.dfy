/** Products, quotients and remainders. */
module Arithmetic {
  lemma MulBound(d: int, W: int)
    requires W > 0
    ensures d >= 1 ==> d * W >= W
    ensures d <= -1 ==> d * W <= -W
  {
  }

  lemma ModIs(x: int, W: int, q: int, r: int)
    requires W > 0 && x == q * W + r && 0 <= r < W
    ensures x % W == r && x / W == q
  {
    MulBound(x / W - q, W);
    assert (x / W - q) * W == r - x % W;
  }

  lemma ModPeriodic(k: nat, W: int)
    requires W > 0
    ensures (k + W) % W == k % W
  {
    ModIs(k + W, W, k / W + 1, k % W);
  }
}
