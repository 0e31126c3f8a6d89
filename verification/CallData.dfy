/** How the client's orders and fills become the contract's: the call data of a trade. */
module CallData {
  import opened BaseMath
  import opened TradeOperation
  import opened BatchDiscipline
  import Orders
  import L = Ledger

  /** A decimal as the contract's fixed-point number: the magnitude, rounded to 18 places. */
  function ToSolidity(x: real): nat {
    var magnitude := if x < 0.0 then -x else x;
    (magnitude * BASE as real + 0.5).Floor
  }

  /** All addresses of the order are address texts. */
  predicate HasAddresses(order: SignedOrder) {
    IsAddressText(order.maker) && IsAddressText(order.taker)
  }

  /** The last 63 hexadecimal digits of the salt are followed by the digit with the three flags. */
  function EncodeOrder(order: SignedOrder): Orders.Order
    requires HasAddresses(order)
  {
    Orders.Order(
      order.isBuy, order.isDecreaseOnly, order.limitFee < 0.0, order.salt % Pow16(63), order.amount,
      ToSolidity(order.limitPrice), ToSolidity(order.triggerPrice), ToSolidity(order.limitFee),
      ParseAddress(order.maker), ParseAddress(order.taker), order.expiration)
  }

  /** The contract takes two orders for the same exactly if they agree after rounding and parsing. */
  lemma SameOrderExactly(o: SignedOrder, p: SignedOrder)
    requires HasAddresses(o) && HasAddresses(p)
    ensures EncodeOrder(o) == EncodeOrder(p) <==>
      && ParseAddress(o.maker) == ParseAddress(p.maker) && ParseAddress(o.taker) == ParseAddress(p.taker)
      && o.isBuy == p.isBuy && o.isDecreaseOnly == p.isDecreaseOnly
      && o.amount == p.amount && o.expiration == p.expiration
      && ToSolidity(o.limitPrice) == ToSolidity(p.limitPrice)
      && ToSolidity(o.triggerPrice) == ToSolidity(p.triggerPrice)
      && ToSolidity(o.limitFee) == ToSolidity(p.limitFee) && (o.limitFee < 0.0) == (p.limitFee < 0.0)
      && o.salt % Pow16(63) == p.salt % Pow16(63)
  {
  }

  /** A number is rounded to the nearest multiple of 1/BASE, half of one upwards. */
  lemma RoundsToNearest(x: real)
    ensures var magnitude := if x < 0.0 then -x else x;
      -0.5 < ToSolidity(x) as real - magnitude * BASE as real <= 0.5
  {
  }

  function EncodeFill(amount: nat, price: real, fee: real): Orders.Fill {
    Orders.Fill(amount, ToSolidity(price), ToSolidity(fee), fee < 0.0)
  }

  function EncodeTradeData(data: Payload): Orders.TradeData
    requires data.FillPayload? && HasAddresses(data.order)
  {
    Orders.TradeData(
      EncodeOrder(data.order), EncodeFill(data.amount, data.price, data.fee), data.order.signer)
  }

  /** The argument of a fill as the contract receives it. `orders` is the order contract's state at its turn. */
  function ToChain(arg: TradeArg, orders: Orders.State): L.TradeArg
    requires arg.data.FillPayload? && HasAddresses(arg.data.order) && IsAddressText(arg.trader)
  {
    var kind := OrderTrade(Orders.Linear, orders, EncodeTradeData(arg.data));
    L.TradeArg(
      arg.takerIndex, arg.makerIndex, ParseAddress(arg.trader), (view: L.TraderView) => kind.Execute(view))
  }

  ghost predicate AreFills(args: seq<TradeArg>) {
    forall i :: 0 <= i < |args| ==>
      args[i].data.FillPayload? && HasAddresses(args[i].data.order) && IsAddressText(args[i].trader)
  }

  /** The whole list, each fill with the state that the order contract has at its turn. */
  ghost function AllToChain(args: seq<TradeArg>, states: seq<Orders.State>): seq<L.TradeArg>
    requires |states| == |args|
    requires AreFills(args)
  {
    seq(|args|, i requires 0 <= i < |args| => ToChain(args[i], states[i]))
  }

  /** An address text for examples. */
  const ADDRESS: string := "0x" + seq(40, i => '1')

  lemma AddressIsText()
    ensures IsAddressText(ADDRESS)
  {
    assert ADDRESS[..2] == "0x" && ADDRESS[2..] == seq(40, i => '1');
  }

  // ---------- Limits ----------

  /** The rounded decimal with its sign. */
  function Rounded(x: real): int {
    var magnitude: int := ToSolidity(x);
    if x < 0.0 then -magnitude else magnitude
  }

  lemma RoundedMonotone(x: real, y: real)
    requires x <= y
    ensures Rounded(x) <= Rounded(y)
  {
    Scaled(x, y);
    Scaled(-y, -x);
  }

  lemma Scaled(x: real, y: real)
    requires x <= y
    ensures (x * BASE as real + 0.5).Floor <= (y * BASE as real + 0.5).Floor
  {
    assert x * BASE as real <= y * BASE as real;
  }
}
