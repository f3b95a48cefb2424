/** Uniqueness of quotient and remainder. */
module Arith {
  lemma SmallMultiple(k: int, l: int)
    requires -l < k * l < l
    ensures k == 0
  {
  }

  lemma DivUnique(x: nat, l: nat, q: nat, r: nat)
    requires l > 0 && x == q * l + r && r < l
    ensures x / l == q && x % l == r
  {
    var q', r' := x / l, x % l;
    assert x == q' * l + r';
    assert (q - q') * l == q * l - q' * l;
    SmallMultiple(q - q', l);
  }
}
