/** Settling often instead of once costs an account at most one token unit per extra settlement. */
module SettlementFrequency {
  import opened Options
  import opened Ledger
  import opened Solvency

  /** Indices the global index passes through: time does not run back, and a value belongs to its time. */
  ghost predicate IndexPath(from: Index, path: seq<Index>)
    decreases |path|
  {
    path == [] ||
    (&& from.timestamp <= path[0].timestamp
     && (from.timestamp == path[0].timestamp ==> from.ToInt() == path[0].ToInt())
     && IndexPath(path[0], path[1..]))
  }

  /** Settles one account at every index of the path in turn. */
  function SettleThrough(s: State, path: seq<Index>, a: Address): Option<State>
    decreases |path|
  {
    if path == [] then
      Some(s)
    else
      var s' :- SettleAccount(s, path[0], a);
      SettleThrough(s', path[1..], a)
  }

  /** Settlement at any index adds the floor of the exact payment. */
  lemma SettleAtIndex(s: State, index: Index, a: Address)
    requires s.IndexOf(a).timestamp == index.timestamp ==> s.IndexOf(a).ToInt() == index.ToInt()
    requires SettleAccount(s, index, a).Some?
    ensures var s' := SettleAccount(s, index, a).value;
      && s'.BalanceOf(a).Position() == s.BalanceOf(a).Position()
      && s'.BalanceOf(a).Margin() == s.BalanceOf(a).Margin()
           + FundingPayment(index.ToInt() - s.IndexOf(a).ToInt(), s.BalanceOf(a).Position())
      && s'.IndexOf(a).timestamp == index.timestamp && s'.IndexOf(a).ToInt() == index.ToInt()
  {
    if s.IndexOf(a).timestamp != index.timestamp && s.BalanceOf(a).position != 0 {
      FundingIsFloor(s.BalanceOf(a), IndexDiff(index, s.IndexOf(a)));
    }
  }

  lemma PaymentSplits(d: int, d': int, position: int)
    ensures FundingPayment(d, position) + FundingPayment(d', position)
         <= FundingPayment(d + d', position)
         <= FundingPayment(d, position) + FundingPayment(d', position) + 1
  {
  }

  lemma {:induction false} PathKeepsValue(from: Index, path: seq<Index>)
    requires path != [] && IndexPath(from, path)
    ensures from.timestamp <= path[|path| - 1].timestamp
    ensures from.timestamp == path[|path| - 1].timestamp ==> from.ToInt() == path[|path| - 1].ToInt()
    decreases |path|
  {
    if |path| > 1 {
      PathKeepsValue(path[0], path[1..]);
    }
  }

  lemma {:induction false} ThroughBounds(s: State, path: seq<Index>, a: Address)
    requires path != [] && IndexPath(s.IndexOf(a), path)
    requires SettleThrough(s, path, a).Some?
    ensures var once := s.BalanceOf(a).Margin()
        + FundingPayment(path[|path| - 1].ToInt() - s.IndexOf(a).ToInt(), s.BalanceOf(a).Position());
      SettleThrough(s, path, a).value.BalanceOf(a).Margin() <= once
        <= SettleThrough(s, path, a).value.BalanceOf(a).Margin() + |path| - 1
    decreases |path|
  {
    var s1 := SettleAccount(s, path[0], a).value;
    SettleAtIndex(s, path[0], a);
    var last := path[|path| - 1].ToInt();
    if |path| > 1 {
      SameStart(path[0], s1.IndexOf(a), path[1..]);
      ThroughBounds(s1, path[1..], a);
      PaymentSplits(
        path[0].ToInt() - s.IndexOf(a).ToInt(), last - path[0].ToInt(), s.BalanceOf(a).Position());
    }
  }

  lemma SameStart(i: Index, j: Index, path: seq<Index>)
    requires i.timestamp == j.timestamp && i.ToInt() == j.ToInt()
    requires IndexPath(i, path)
    ensures IndexPath(j, path)
  {
  }

  /** Through k indices or at the last one only: never more margin, and at most k - 1 units less. */
  lemma FrequencyCostsAtMostOneUnitEach(s: State, path: seq<Index>, a: Address)
    requires path != [] && IndexPath(s.IndexOf(a), path)
    requires SettleThrough(s, path, a).Some? && SettleAccount(s, path[|path| - 1], a).Some?
    ensures var through := SettleThrough(s, path, a).value.BalanceOf(a).Margin();
      var once := SettleAccount(s, path[|path| - 1], a).value.BalanceOf(a).Margin();
      through <= once <= through + |path| - 1
  {
    PathKeepsValue(s.IndexOf(a), path);
    SettleAtIndex(s, path[|path| - 1], a);
    ThroughBounds(s, path, a);
  }
}
