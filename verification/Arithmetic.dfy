/** Machine words and the few facts about products that the proofs share. */
module Arithmetic {

  const USIZE_MAX: nat := 0xFFFF_FFFF_FFFF_FFFF

  function Min(a: nat, b: nat): nat {
    if a <= b then a else b
  }

  function Max(a: nat, b: nat): nat {
    if a >= b then a else b
  }

  /** Arithmetic that stops at the largest word instead of wrapping around. */
  function Saturate(n: nat): nat {
    Min(n, USIZE_MAX)
  }

  function SaturatingSub(a: nat, b: nat): nat {
    if a <= b then 0 else a - b
  }

  lemma MulMono(a: nat, b: nat, p: nat)
    requires a <= b
    ensures a * p <= b * p
  {
  }
}
