/** The client-side builder of a batch: it turns trades between addresses into a sorted account list and indices. */
module TradeOperation {
  import opened Options
  import opened Sequences
  import L = Ledger

  /** Prices and fees are decimals; a negative fee is a rebate. `signer` is recovered from the signature. */
  datatype SignedOrder = SignedOrder(
    maker: string, taker: string, isBuy: bool, isDecreaseOnly: bool, amount: nat, limitPrice: real,
    triggerPrice: real, limitFee: real, expiration: nat, salt: nat, signer: L.Address)

  datatype Payload =
    | FillPayload(order: SignedOrder, amount: nat, price: real, fee: real)
    | OtherPayload(bytes: seq<nat>)

  datatype TempTradeArg = TempTradeArg(maker: string, taker: string, trader: string, data: Payload)

  datatype TradeArg = TradeArg(makerIndex: nat, takerIndex: nat, trader: string, data: Payload)

  // ---------- Text ----------

  function LowerChar(c: char): char {
    if 'A' <= c <= 'Z' then (c as int + 32) as char else c
  }

  function ToLowerCase(s: string): string {
    seq(|s|, i requires 0 <= i < |s| => LowerChar(s[i]))
  }

  /** The order of JavaScript's default sort. */
  predicate Precedes(a: string, b: string)
    decreases |a|
  {
    if a == [] then b != []
    else if b == [] then false
    else a[0] < b[0] || (a[0] == b[0] && Precedes(a[1..], b[1..]))
  }

  predicate Ascending(s: seq<string>) {
    forall i :: 1 <= i < |s| ==> Precedes(s[i - 1], s[i])
  }

  lemma {:induction false} PrecedesTotal(a: string, b: string)
    ensures a == b || Precedes(a, b) || Precedes(b, a)
    decreases |a|
  {
    if a != [] && b != [] && a[0] == b[0] {
      PrecedesTotal(a[1..], b[1..]);
      assert a == [a[0]] + a[1..] && b == [b[0]] + b[1..];
    }
  }

  /** Puts a new text in its place. */
  function Insert(x: string, s: seq<string>): (r: seq<string>)
    requires Ascending(s) && x !in s
    ensures Ascending(r)
    ensures forall y :: y in r <==> y == x || y in s
    ensures s != [] && r[0] != x ==> r[0] == s[0]
    decreases |s|
  {
    if s == [] || Precedes(x, s[0]) then
      [x] + s
    else
      PrecedesTotal(x, s[0]);
      var rest := Insert(x, s[1..]);
      assert forall y :: y in s <==> y == s[0] || y in s[1..];
      [s[0]] + rest
  }

  function Sort(s: seq<string>): (r: seq<string>)
    requires NoRepeats(s)
    ensures Ascending(r)
    ensures forall y :: y in r <==> y in s
    decreases |s|
  {
    if s == [] then
      []
    else
      assert forall y :: y in s <==> y == s[0] || y in s[1..];
      Insert(s[0], Sort(s[1..]))
  }

  function IndexOf(s: seq<string>, x: string): (i: nat)
    requires x in s
    ensures i < |s| && s[i] == x && x !in s[..i]
    decreases |s|
  {
    if s[0] == x then
      0
    else
      assert s == [s[0]] + s[1..];
      var i := IndexOf(s[1..], x) + 1;
      assert s[..i] == [s[0]] + s[1..][..i - 1];
      i
  }

  // ---------- The builder ----------

  predicate Mentions(trades: seq<TempTradeArg>, account: string) {
    exists i :: 0 <= i < |trades| && (trades[i].maker == account || trades[i].taker == account)
  }

  /** The argument refers to the same two accounts by their places in the list. */
  predicate Resolves(accounts: seq<string>, arg: TradeArg, trade: TempTradeArg) {
    && arg.makerIndex < |accounts| && accounts[arg.makerIndex] == trade.maker
    && arg.takerIndex < |accounts| && accounts[arg.takerIndex] == trade.taker
    && arg.trader == trade.trader && arg.data == trade.data
  }

  /** The call's arguments for these trades: every account once, in ascending order, and the trades by index. */
  ghost predicate Builds(trades: seq<TempTradeArg>, accounts: seq<string>, args: seq<TradeArg>) {
    && Ascending(accounts)
    && (forall a :: a in accounts <==> Mentions(trades, a))
    && |args| == |trades|
    && forall i :: 0 <= i < |trades| ==> Resolves(accounts, args[i], trades[i])
  }

  function FillTrade(ordersAddress: string, taker: string, order: SignedOrder, amount: nat, price: real, fee: real)
    : TempTradeArg
  {
    TempTradeArg(ToLowerCase(order.maker), ToLowerCase(taker), ordersAddress, FillPayload(order, amount, price, fee))
  }

  class Operation {
    const ordersAddress: string
    var trades: seq<TempTradeArg>
    var committed: bool

    constructor (ordersAddress: string)
      ensures this.ordersAddress == ordersAddress && trades == [] && !committed
    {
      this.ordersAddress := ordersAddress;
      trades, committed := [], false;
    }

    method AddTradeArg(maker: string, taker: string, trader: string, data: Payload) returns (ok: bool)
      modifies this`trades
      ensures ok == !committed
      ensures trades == old(trades) +
        if ok then [TempTradeArg(ToLowerCase(maker), ToLowerCase(taker), trader, data)] else []
    {
      ok := !committed;
      if ok {
        trades := trades + [TempTradeArg(ToLowerCase(maker), ToLowerCase(taker), trader, data)];
      }
    }

    method FillSignedOrder(taker: string, order: SignedOrder, amount: nat, price: real, fee: real) returns (ok: bool)
      modifies this`trades
      ensures ok == !committed
      ensures trades == old(trades) + if ok then [FillTrade(ordersAddress, taker, order, amount, price, fee)] else []
    {
      ok := AddTradeArg(order.maker, taker, ordersAddress, FillPayload(order, amount, price, fee));
    }

    /** Builds the call's arguments. `sent` tells whether the transaction could be sent. */
    method Commit(sent: bool) returns (r: Option<(seq<string>, seq<TradeArg>)>)
      modifies this`committed
      ensures r.Some? <==> !old(committed) && trades != [] && sent
      ensures committed == (old(committed) || r.Some?)
      ensures r.Some? ==> Builds(trades, r.value.0, r.value.1)
    {
      if committed || |trades| == 0 {
        return None;
      }
      committed := true;
      var accountSet := CollectAccounts(trades);
      assert Mentions(trades, trades[0].maker);
      var accounts := Sort(accountSet);
      var args := BuildArgs(trades, accounts);
      if !sent {
        committed := false;
        return None;
      }
      return Some((accounts, args));
    }
  }

  /** The accounts of all trades, in the order of their first appearance. */
  method CollectAccounts(trades: seq<TempTradeArg>) returns (accountSet: seq<string>)
    ensures NoRepeats(accountSet)
    ensures forall a :: a in accountSet <==> Mentions(trades, a)
  {
    accountSet := [];
    for i := 0 to |trades|
      invariant NoRepeats(accountSet)
      invariant forall a :: a in accountSet <==> Mentions(trades[..i], a)
    {
      var t := trades[i];
      accountSet := AddToSet(accountSet, t.maker);
      accountSet := AddToSet(accountSet, t.taker);
      MentionsNext(trades, i);
    }
    assert trades[..|trades|] == trades;
  }

  function AddToSet(s: seq<string>, x: string): (r: seq<string>)
    requires NoRepeats(s)
    ensures NoRepeats(r)
    ensures forall y :: y in r <==> y == x || y in s
  {
    if x in s then s else s + [x]
  }

  method BuildArgs(trades: seq<TempTradeArg>, accounts: seq<string>) returns (args: seq<TradeArg>)
    requires forall a :: a in accounts <==> Mentions(trades, a)
    ensures |args| == |trades|
    ensures forall i :: 0 <= i < |trades| ==> Resolves(accounts, args[i], trades[i])
  {
    args := [];
    for i := 0 to |trades|
      invariant |args| == i
      invariant forall k :: 0 <= k < i ==> Resolves(accounts, args[k], trades[k])
    {
      var t := trades[i];
      assert Mentions(trades, t.maker) && Mentions(trades, t.taker);
      args := args + [TradeArg(IndexOf(accounts, t.maker), IndexOf(accounts, t.taker), t.trader, t.data)];
    }
  }

  lemma MentionsNext(trades: seq<TempTradeArg>, i: nat)
    requires i < |trades|
    ensures forall a :: Mentions(trades[..i + 1], a) <==>
      (Mentions(trades[..i], a) || a == trades[i].maker || a == trades[i].taker)
  {
    forall a
      ensures Mentions(trades[..i + 1], a) <==>
        (Mentions(trades[..i], a) || a == trades[i].maker || a == trades[i].taker)
    {
      if Mentions(trades[..i], a) {
        var k :| 0 <= k < i && (trades[..i][k].maker == a || trades[..i][k].taker == a);
        assert trades[..i + 1][k] == trades[..i][k];
      }
      if a == trades[i].maker || a == trades[i].taker {
        assert trades[..i + 1][i] == trades[i];
      }
      if Mentions(trades[..i + 1], a) {
        var k :| 0 <= k < i + 1 && (trades[..i + 1][k].maker == a || trades[..i + 1][k].taker == a);
        assert k < i ==> trades[..i][k] == trades[..i + 1][k];
      }
    }
  }

  // ---------- What the contract makes of it ----------

  predicate IsHexDigit(c: char) {
    '0' <= c <= '9' || 'a' <= c <= 'f' || 'A' <= c <= 'F'
  }

  function DigitValue(c: char): (d: nat)
    requires IsHexDigit(c)
    ensures d < 16
  {
    if c <= '9' then c as int - '0' as int
    else if c <= 'F' then c as int - 'A' as int + 10
    else c as int - 'a' as int + 10
  }

  predicate IsHex(s: string) {
    forall i :: 0 <= i < |s| ==> IsHexDigit(s[i])
  }

  function Pow16(n: nat): (p: nat)
    ensures p > 0
  {
    if n == 0 then 1 else 16 * Pow16(n - 1)
  }

  function HexValue(s: string): nat
    requires IsHex(s)
    decreases |s|
  {
    if s == [] then 0 else DigitValue(s[0]) * Pow16(|s| - 1) + HexValue(s[1..])
  }

  /** A larger leading digit outweighs everything behind it. */
  lemma LeadingDigit(d: nat, d': nat, p: nat, v: nat)
    requires d < d' && v < p
    ensures d * p + v < d' * p
  {
    assert (d + 1) * p == d * p + p;
    assert (d + 1) * p <= d' * p;
  }

  lemma {:induction false} HexBelow(s: string)
    requires IsHex(s)
    ensures HexValue(s) < Pow16(|s|)
    decreases |s|
  {
    if s != [] {
      HexBelow(s[1..]);
      LeadingDigit(DigitValue(s[0]), 16, Pow16(|s| - 1), HexValue(s[1..]));
    }
  }

  /** Lower-case hexadecimal of equal length sorts like the numbers. */
  lemma {:induction false} HexOrder(a: string, b: string)
    requires |a| == |b| && IsHex(a) && IsHex(b)
    requires ToLowerCase(a) == a && ToLowerCase(b) == b
    requires Precedes(a, b)
    ensures HexValue(a) < HexValue(b)
    decreases |a|
  {
    if a[0] == b[0] {
      LowerTail(a);
      LowerTail(b);
      HexOrder(a[1..], b[1..]);
    } else {
      DigitOrder(a, b);
      HexBelow(a[1..]);
      LeadingDigit(DigitValue(a[0]), DigitValue(b[0]), Pow16(|a| - 1), HexValue(a[1..]));
    }
  }

  lemma DigitOrder(a: string, b: string)
    requires a != [] && b != [] && IsHex(a) && IsHex(b)
    requires ToLowerCase(a) == a && ToLowerCase(b) == b
    requires a[0] < b[0]
    ensures DigitValue(a[0]) < DigitValue(b[0])
  {
  }

  lemma LowerTail(a: string)
    requires a != [] && ToLowerCase(a) == a
    ensures ToLowerCase(a[1..]) == a[1..]
  {
  }

  /** An address as text: 0x and 40 digits, in any case. */
  predicate IsAddressText(s: string) {
    |s| == 42 && s[..2] == "0x" && IsHex(s[2..])
  }

  lemma AddressSpaceIsPow16()
    ensures Pow16(40) == L.ADDRESS_SPACE
  {
    assert Pow16(10) == 0x1_0000000000;
    assert Pow16(20) == 0x1_0000000000_0000000000;
    assert Pow16(30) == 0x1_0000000000_0000000000_0000000000;
  }

  function ParseAddress(s: string): L.Address
    requires IsAddressText(s)
  {
    HexBelow(s[2..]);
    AddressSpaceIsPow16();
    HexValue(s[2..])
  }

  /** Lower case is a normal form: it names the same address. */
  lemma LowerCaseSameAddress(s: string)
    requires IsAddressText(s)
    ensures IsAddressText(ToLowerCase(s)) && ParseAddress(ToLowerCase(s)) == ParseAddress(s)
    ensures ToLowerCase(ToLowerCase(s)) == ToLowerCase(s)
  {
    var t := ToLowerCase(s);
    assert s[0] == s[..2][0] && s[1] == s[..2][1];
    assert t[..2] == "0x";
    assert t[2..] == ToLowerCase(s[2..]);
    LowerHex(s[2..]);
  }

  lemma {:induction false} LowerHex(s: string)
    requires IsHex(s)
    ensures IsHex(ToLowerCase(s)) && HexValue(ToLowerCase(s)) == HexValue(s)
    decreases |s|
  {
    if s != [] {
      LowerHex(s[1..]);
      assert ToLowerCase(s)[1..] == ToLowerCase(s[1..]);
    }
  }

  function ParseAll(accounts: seq<string>): seq<L.Address>
    requires forall i :: 0 <= i < |accounts| ==> IsAddressText(accounts[i])
  {
    seq(|accounts|, i requires 0 <= i < |accounts| => ParseAddress(accounts[i]))
  }

  /** A non-empty ascending list of lower-case addresses passes the contract's check. */
  lemma AscendingIsVerified(accounts: seq<string>)
    requires accounts != [] && Ascending(accounts)
    requires forall i :: 0 <= i < |accounts| ==> IsAddressText(accounts[i]) && ToLowerCase(accounts[i]) == accounts[i]
    ensures L.VerifyAccounts(ParseAll(accounts))
  {
    forall i | 1 <= i < |accounts| ensures ParseAll(accounts)[i - 1] < ParseAll(accounts)[i] {
      var a, b := accounts[i - 1], accounts[i];
      PrefixPrecedes(a, b);
      LowerTail(a);
      LowerTail(a[1..]);
      LowerTail(b);
      LowerTail(b[1..]);
      assert a[1..][1..] == a[2..] && b[1..][1..] == b[2..];
      HexOrder(a[2..], b[2..]);
    }
  }

  lemma PrefixPrecedes(a: string, b: string)
    requires |a| == |b| == 42 && a[..2] == b[..2] && Precedes(a, b)
    ensures Precedes(a[2..], b[2..])
  {
  }

  /** What commit builds from trades between real addresses is a list the contract accepts. */
  lemma CommittedListIsVerified(trades: seq<TempTradeArg>, accounts: seq<string>)
    requires trades != [] && Ascending(accounts)
    requires forall a :: a in accounts <==> Mentions(trades, a)
    requires forall i :: 0 <= i < |trades| ==>
      && IsAddressText(trades[i].maker) && ToLowerCase(trades[i].maker) == trades[i].maker
      && IsAddressText(trades[i].taker) && ToLowerCase(trades[i].taker) == trades[i].taker
    ensures forall i :: 0 <= i < |accounts| ==> IsAddressText(accounts[i])
    ensures L.VerifyAccounts(ParseAll(accounts))
  {
    forall i | 0 <= i < |accounts|
      ensures IsAddressText(accounts[i]) && ToLowerCase(accounts[i]) == accounts[i]
    {
      assert Mentions(trades, accounts[i]);
    }
    assert Mentions(trades, trades[0].maker);
    AscendingIsVerified(accounts);
  }
}
