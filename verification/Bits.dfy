/** Bit operations of C on non-negative integers, as far as the models need them. */
module Bits {
  /** 2 to the power k, C's `1 << k`. */
  function Exp2(k: nat): (p: nat)
    ensures p >= 1
  {
    if k == 0 then 1 else 2 * Exp2(k - 1)
  }

  lemma {:induction false} Exp2Add(j: nat, k: nat)
    ensures Exp2(j + k) == Exp2(j) * Exp2(k)
  {
    if j != 0 {
      Exp2Add(j - 1, k);
    }
  }

  /** C's `x | y`. */
  function BitOr(x: nat, y: nat): nat {
    if x == 0 then y
    else if y == 0 then x
    else (if x % 2 == 1 || y % 2 == 1 then 1 else 0) + 2 * BitOr(x / 2, y / 2)
  }

  /** With no bit in common, `|` is addition. */
  lemma {:induction false} OrIsSum(h: nat, y: nat, k: nat)
    requires y < Exp2(k)
    ensures BitOr(h * Exp2(k), y) == h * Exp2(k) + y
  {
    var x := h * Exp2(k);
    if k != 0 && x != 0 && y != 0 {
      assert x == 2 * (h * Exp2(k - 1));
      assert x / 2 == h * Exp2(k - 1) && x % 2 == 0;
      OrIsSum(h, y / 2, k - 1);
    }
  }
}
