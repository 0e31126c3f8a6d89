/** The widths and constants of the contracts, as powers and products. */
module Constants {
  import BaseMath
  import BalanceMath
  import Ledger
  import Deleveraging
  import MirrorOracle

  function Power(base: nat, exponent: nat): nat {
    if exponent == 0 then 1 else base * Power(base, exponent - 1)
  }

  lemma {:induction false} PowerAdds(base: nat, m: nat, n: nat)
    ensures Power(base, m + n) == Power(base, m) * Power(base, n)
    decreases m
  {
    if m > 0 {
      PowerAdds(base, m - 1, n);
      Associates(base, Power(base, m - 1), Power(base, n));
    }
  }

  lemma Associates(a: nat, b: nat, c: nat)
    ensures a * (b * c) == (a * b) * c
  {
  }

  /** 18 decimals; 32, 120, 128 and 160 bits; the first of 20 bytes; and half an hour. */
  lemma ConstantsAreExact()
    ensures BaseMath.BASE == Power(10, 18)
    ensures Ledger.UINT32 == Power(256, 4)
    ensures BalanceMath.UINT120 == Power(256, 15)
    ensures Ledger.UINT128 == Power(256, 16)
    ensures Ledger.ADDRESS_SPACE == Power(256, 20)
    ensures MirrorOracle.ID_SHIFT == Power(256, 19)
    ensures Deleveraging.TIMELOCK == 30 * 60
  {
    assert Power(10, 6) == 1_000_000;
    PowerAdds(10, 6, 6);
    PowerAdds(10, 6, 12);
    assert Power(256, 5) == 0x100_0000_0000;
    PowerAdds(256, 5, 5);
    PowerAdds(256, 5, 10);
    PowerAdds(256, 1, 15);
    PowerAdds(256, 5, 15);
    PowerAdds(256, 4, 15);
  }
}
