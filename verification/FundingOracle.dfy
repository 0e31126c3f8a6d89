/** P1FundingOracle: a bounded funding rate that can only move at a bounded speed. */
module FundingOracle {
  import opened Options
  import opened SignedMath
  import opened BaseMath
  import L = Ledger
  import Solvency

  type Address = L.Address

  const MAX_ABS_VALUE: int := 260_416_666_666
  const MAX_ABS_DIFF_PER_SECOND: int := 192_901_234

  /** 0.75 percent in 8 hours, per second; and the whole range in 45 minutes, per second. Both round down. */
  lemma BoundsFromSpecification()
    ensures MAX_ABS_VALUE == (BASE * 75) / 10000 / (8 * 3600)
    ensures MAX_ABS_DIFF_PER_SECOND == (MAX_ABS_VALUE * 2) / (45 * 60)
  {
  }

  datatype State = State(rate: L.Index, provider: Address)

  function Deploy(now: L.Uint32, provider: Address): State {
    State(L.Index(now, true, 0), provider)
  }

  function BoundRate(oldIndex: L.Index, now: nat, newRate: Int): Option<Int> {
    if now < oldIndex.timestamp then
      None
    else
      var oldRate := Int(oldIndex.value, oldIndex.isPositive);
      var maxDiff := MAX_ABS_DIFF_PER_SECOND * (now - oldIndex.timestamp);
      if Gt(newRate, oldRate) then
        var upperBound := SignedMath.Min(Add(oldRate, maxDiff), Int(MAX_ABS_VALUE, true));
        Some(SignedMath.Min(newRate, upperBound))
      else
        var lowerBound := Max(Sub(oldRate, maxDiff), Int(MAX_ABS_VALUE, false));
        Some(Max(newRate, lowerBound))
  }

  function AfterSetFundingRate(s: State, sender: Address, now: nat, newRate: Int): Option<State> {
    var _ :- Require(sender == s.provider);
    var bounded :- BoundRate(s.rate, now, newRate);
    if now < L.UINT32 && bounded.value < L.UINT128 then
      Some(s.(rate := L.Index(now, bounded.isPositive, bounded.value)))
    else
      None
  }

  function GetFunding(s: State, timeDelta: nat): Int {
    Int(s.rate.value * timeDelta, s.rate.isPositive)
  }

  class P1FundingOracle {
    var rate: L.Index
    var provider: Address

    function Abs(): State
      reads this
    {
      State(rate, provider)
    }

    constructor (now: L.Uint32, provider: Address)
      ensures Abs() == Deploy(now, provider)
    {
      rate, this.provider := L.Index(now, true, 0), provider;
    }

    method SetFundingRate(sender: Address, now: nat, newRate: Int) returns (r: Option<L.Index>)
      modifies this
      ensures r.Some? == AfterSetFundingRate(old(Abs()), sender, now, newRate).Some?
      ensures r.Some? ==> Abs() == AfterSetFundingRate(old(Abs()), sender, now, newRate).value && r.value == rate
      ensures r.None? ==> Abs() == old(Abs())
    {
      if sender != provider {
        return None;
      }
      var bounded := BoundRate(rate, now, newRate);
      if bounded.None? || now >= L.UINT32 || bounded.value.value >= L.UINT128 {
        return None;
      }
      rate := L.Index(now, bounded.value.isPositive, bounded.value.value);
      return Some(rate);
    }

    method SetFundingRateProvider(newProvider: Address)
      modifies this
      ensures Abs() == old(Abs()).(provider := newProvider)
    {
      provider := newProvider;
    }
  }

  // ---------- One update ----------

  function Clamp(x: int, low: int, high: int): (r: int)
    requires low <= high
    ensures low <= r <= high
    ensures low <= x <= high ==> r == x
  {
    if x < low then low else if x > high then high else x
  }

  function Larger(a: int, b: int): int {
    if a > b then a else b
  }

  function Smaller(a: int, b: int): int {
    if a < b then a else b
  }

  /** The one-sided bounds in the code amount to a clamp on both sides. */
  lemma BoundRateIsClamp(oldIndex: L.Index, now: nat, newRate: Int)
    requires oldIndex.timestamp <= now && -MAX_ABS_VALUE <= oldIndex.ToInt() <= MAX_ABS_VALUE
    ensures var maxDiff := MAX_ABS_DIFF_PER_SECOND * (now - oldIndex.timestamp);
      var low := Larger(oldIndex.ToInt() - maxDiff, -MAX_ABS_VALUE);
      var high := Smaller(oldIndex.ToInt() + maxDiff, MAX_ABS_VALUE);
      && low <= high
      && BoundRate(oldIndex, now, newRate).Some?
      && BoundRate(oldIndex, now, newRate).value.ToInt() == Clamp(newRate.ToInt(), low, high)
  {
  }

  // ---------- Runs ----------

  datatype Event =
    | RateEvent(sender: Address, now: nat, newRate: Int)
    | ProviderEvent(newProvider: Address)

  function TakeEvent(s: State, e: Event): State {
    match e
    case RateEvent(sender, now, newRate) =>
      (match AfterSetFundingRate(s, sender, now, newRate)
       case Some(s') => s'
       case None => s)
    case ProviderEvent(newProvider) => s.(provider := newProvider)
  }

  function After(s: State, events: seq<Event>): State
    decreases |events|
  {
    if events == [] then s else After(TakeEvent(s, events[0]), events[1..])
  }

  ghost predicate InRange(s: State) {
    -MAX_ABS_VALUE <= s.rate.ToInt() <= MAX_ABS_VALUE
  }

  /** The later state's rate is within reach of the earlier one's at the maximum speed. */
  ghost predicate WithinSpeed(s: State, s': State) {
    && s.rate.timestamp <= s'.rate.timestamp
    && var reach := MAX_ABS_DIFF_PER_SECOND * (s'.rate.timestamp - s.rate.timestamp);
       -reach <= s'.rate.ToInt() - s.rate.ToInt() <= reach
  }

  lemma OneEvent(s: State, e: Event)
    requires InRange(s)
    ensures InRange(TakeEvent(s, e)) && WithinSpeed(s, TakeEvent(s, e))
  {
    if e.RateEvent? && s.rate.timestamp <= e.now {
      BoundRateIsClamp(s.rate, e.now, e.newRate);
    }
  }

  lemma {:induction false} RunWithinSpeed(s: State, events: seq<Event>)
    requires InRange(s)
    ensures InRange(After(s, events)) && WithinSpeed(s, After(s, events))
    decreases |events|
  {
    if events != [] {
      OneEvent(s, events[0]);
      RunWithinSpeed(TakeEvent(s, events[0]), events[1..]);
    }
  }

  /**
   Between any two moments of any run the rate changes no faster than allowed, and getting from the
   minimum to the maximum takes more than 45 minutes.
   */
  lemma SpeedLimit(now: L.Uint32, provider: Address, first: seq<Event>, second: seq<Event>)
    ensures var s := After(Deploy(now, provider), first);
      var s' := After(s, second);
      && Deploy(now, provider).rate.ToInt() == 0
      && InRange(s) && InRange(s') && WithinSpeed(s, s')
      && (s.rate.ToInt() == -MAX_ABS_VALUE && s'.rate.ToInt() == MAX_ABS_VALUE ==>
          s'.rate.timestamp - s.rate.timestamp > 2700)
  {
    RunWithinSpeed(Deploy(now, provider), first);
    RunWithinSpeed(After(Deploy(now, provider), first), second);
  }

  /** From the minimum, one update to the maximum gets there exactly if more than 45 minutes have passed. */
  lemma FullSwingExactly(s: State, now: L.Uint32, newRate: Int)
    requires s.rate.ToInt() == -MAX_ABS_VALUE && newRate.ToInt() >= MAX_ABS_VALUE
    requires s.rate.timestamp <= now
    ensures var s' := AfterSetFundingRate(s, s.provider, now, newRate);
      && s'.Some?
      && (s'.value.rate.ToInt() == MAX_ABS_VALUE <==> now - s.rate.timestamp > 2700)
  {
    BoundRateIsClamp(s.rate, now, newRate);
  }

  /** The provider that was appointed last. */
  function Appointed(first: Address, events: seq<Event>): Address {
    if events == [] then first
    else
      var e := events[|events| - 1];
      if e.ProviderEvent? then e.newProvider else Appointed(first, events[..|events| - 1])
  }

  lemma {:induction false} AfterLast(s: State, events: seq<Event>)
    requires events != []
    ensures After(s, events) == TakeEvent(After(s, events[..|events| - 1]), events[|events| - 1])
    decreases |events|
  {
    if |events| > 1 {
      AfterLast(TakeEvent(s, events[0]), events[1..]);
      assert events[..|events| - 1][1..] == events[1..][..|events| - 2];
    }
  }

  /** Over any run, the provider is the one appointed last. */
  lemma {:induction false} ProviderIsAppointed(s: State, events: seq<Event>)
    ensures After(s, events).provider == Appointed(s.provider, events)
    decreases |events|
  {
    if events != [] {
      AfterLast(s, events);
      ProviderIsAppointed(s, events[..|events| - 1]);
    }
  }

  /** After any run, an update is accepted exactly from the provider appointed last, if time has not run back. */
  lemma UpdateIsAcceptedExactly(
    now: L.Uint32, provider: Address, events: seq<Event>, sender: Address, later: L.Uint32, newRate: Int)
    ensures var s := After(Deploy(now, provider), events);
      AfterSetFundingRate(s, sender, later, newRate).Some? <==>
        sender == Appointed(provider, events) && s.rate.timestamp <= later
  {
    var s := After(Deploy(now, provider), events);
    ProviderIsAppointed(Deploy(now, provider), events);
    RunWithinSpeed(Deploy(now, provider), events);
    if s.rate.timestamp <= later {
      BoundRateIsClamp(s.rate, later, newRate);
    }
  }

  /** With this funder, the perpetual's index follows the stored rate: rate * time * price, towards zero. */
  lemma IndexFollowsRate(s: State, ledger: L.State, env: L.Env)
    requires InRange(s) && L.LoadContext(ledger, env).Some?
    requires env.funding == GetFunding(s, env.now - ledger.globalIndex.timestamp)
    ensures var elapsed := env.now - ledger.globalIndex.timestamp;
      var moved := L.LoadContext(ledger, env).value.0.globalIndex.ToInt() - ledger.globalIndex.ToInt();
      var exact, most := s.rate.ToInt() * elapsed * env.price, MAX_ABS_VALUE * elapsed * env.price;
      && exact - BASE < moved * BASE < exact + BASE
      && -most <= moved * BASE <= most
  {
    var elapsed := env.now - ledger.globalIndex.timestamp;
    Solvency.IndexMovesByFunding(ledger, env);
    FundingBounded(s.rate.value, elapsed, env.price);
    FundingSign(s.rate, elapsed, env.price);
  }

  lemma FundingSign(rate: L.Index, elapsed: nat, price: nat)
    ensures rate.ToInt() * elapsed * price
      == if rate.isPositive then rate.value * elapsed * price else -(rate.value * elapsed * price)
    ensures Int(rate.value * elapsed, rate.isPositive).ToInt() == rate.ToInt() * elapsed
    ensures elapsed == 0 ==> rate.ToInt() * elapsed * price == 0
  {
  }

  lemma FundingBounded(value: nat, elapsed: nat, price: nat)
    requires value <= MAX_ABS_VALUE
    ensures 0 <= value * elapsed * price <= MAX_ABS_VALUE * elapsed * price
  {
    assert value * elapsed <= MAX_ABS_VALUE * elapsed;
  }
}
