/**
 Shared by every module.

 A note on form: a clause `P(x) == true` says what `P(x)` says, and keeps the verifier from unfolding `P` where that
 clause is checked. The modules on ceremonies, whose predicates are large, use it most.
 */
module Basics {
  /** A block hash stands for its rank in the string order. */
  type Hash = nat

  datatype Option<+T> = None | Some(value: T)
  datatype Result<+T, +E> = Ok(value: T) | Err(error: E)

  function Pow2(n: nat): (r: nat)
    ensures r > 0
  {
    if n == 0 then 1 else 2 * Pow2(n - 1)
  }

  lemma MulMonotone(a: nat, b: nat, p: nat)
    requires a <= b
    ensures a * p <= b * p
  {
  }

  lemma Doubled(a: nat, p: nat)
    ensures a * (2 * p) == (2 * a) * p
  {
  }
}
