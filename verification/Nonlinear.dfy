/** Products, quotients and remainders under names of their own, so that proofs can keep nonlinear terms out. */
module Nonlinear {
  function Quo(x: nat, d: nat): nat
    requires d > 0
  {
    x / d
  }

  function Rem(x: nat, d: nat): nat
    requires d > 0
  {
    x % d
  }

  function Mul(x: int, y: nat): (z: int)
    ensures x >= 0 ==> z >= 0
  {
    x * y
  }

  lemma MulMono(a: nat, b: int, c: int)
    requires b <= c
    ensures a * b <= a * c
  {}

  lemma MulAssoc(a: int, b: int, c: int)
    ensures (a * b) * c == a * (b * c)
  {}
}
