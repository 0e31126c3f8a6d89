/** How final settlement starts, and at which price. */
module FinalPrice {
  import opened BalanceMath
  import opened Ledger
  import opened Frames
  import FinalPayout

  /**
   Final settlement can be enabled exactly once, if the oracle's price is within the bounds that the call gives;
   this is the price that is fixed, with the index of that block, and nothing else changes.
   */
  lemma EnablingExactly(s: State, env: Env, lower: nat, upper: nat)
    ensures var s' := EnableFinalSettlement(s, env, lower, upper);
      && (s'.Some? <==> !s.finalSettlementEnabled && LoadContext(s, env).Some? && lower <= env.price <= upper)
      && (s'.Some? ==> s'.value == s.(
            globalIndex := LoadContext(s, env).value.0.globalIndex,
            finalSettlementPrice := env.price,
            finalSettlementEnabled := true))
  {
  }

  ghost predicate Enables(s: State, steps: seq<Step>, i: nat)
    requires i < |steps|
  {
    steps[i].EnableFinalSettlementStep? && TryStep(Run(s, steps[..i]), steps[i]).Some?
  }

  /**
   In any run that has reached final settlement, exactly one call has enabled it, and the price that all payouts
   use is what the oracle gave in that call, within its bounds.
   */
  lemma {:induction false} FinalPriceIsOraclePrice(s: State, steps: seq<Step>) returns (i: nat)
    requires !s.finalSettlementEnabled && Run(s, steps).finalSettlementEnabled
    ensures i < |steps| && Enables(s, steps, i)
    ensures forall k :: 0 <= k < |steps| && Enables(s, steps, k) ==> k == i
    ensures steps[i].priceLowerBound <= steps[i].env.price <= steps[i].priceUpperBound
    ensures Run(s, steps).finalSettlementPrice == steps[i].env.price
    decreases |steps|
  {
    var s' := TakeStep(s, steps[0]);
    StepFrame(s, steps[0]);
    assert steps[..0] == [];
    if s'.finalSettlementEnabled {
      i := 0;
      FinalPayout.SettlementIsFinal(s', steps[1..]);
      forall k | 1 <= k < |steps| ensures !Enables(s, steps, k) {
        RunFromSecond(s, steps, k - 1);
        FinalPayout.SettlementIsFinal(s', steps[1..][..k - 1]);
      }
    } else {
      var j := FinalPriceIsOraclePrice(s', steps[1..]);
      i := j + 1;
      forall k | 1 <= k < |steps| ensures Enables(s, steps, k) <==> Enables(s', steps[1..], k - 1) {
        RunFromSecond(s, steps, k - 1);
      }
    }
  }

  /** The same from deployment, where nothing is settled yet, nobody has a balance and nothing is held. */
  lemma FinalPriceFromDeployment(self: Address, now: nat, minCollateral: nat, steps: seq<Step>) returns (i: nat)
    requires Run(Initial(self, now, minCollateral), steps).finalSettlementEnabled
    ensures var s0 := Initial(self, now, minCollateral);
      && s0.globalIndex.ToInt() == 0 && s0.tokenBalance == 0
      && (forall a: Address :: s0.BalanceOf(a) == EMPTY_BALANCE && s0.IndexOf(a).ToInt() == 0)
      && i < |steps| && Enables(s0, steps, i)
      && (forall k :: 0 <= k < |steps| && Enables(s0, steps, k) ==> k == i)
      && Run(s0, steps).finalSettlementPrice == steps[i].env.price
  {
    i := FinalPriceIsOraclePrice(Initial(self, now, minCollateral), steps);
  }
}
