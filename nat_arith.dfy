/** Small facts about multiplication of naturals that the solver does not
    find on its own. */
module NatArith {

  /** Multiplying both sides of an inequality by the same natural. */
  lemma MulMono(a: nat, b: nat, c: nat)
    requires a <= b
    ensures a * c <= b * c
  {
  }

  /** Cancelling a factor from a strict inequality. */
  lemma MulCancel(a: nat, b: nat, c: nat)
    requires a * c < b * c
    ensures a < b
  {
    if b <= a {
      MulMono(b, a, c);
    }
  }
}
