/** Sums over all accounts. */
module Sums {
  import opened Ledger

  ghost function SumOver(f: Address -> int, s: set<Address>): int {
    if s == {} then 0 else var a :| a in s; f(a) + SumOver(f, s - {a})
  }

  ghost function Everyone(): set<Address> {
    set a: Address | a < ADDRESS_SPACE && IsAddress(a)
  }

  /** True of every address; it names the quantified variable of Everyone. */
  ghost predicate IsAddress(a: Address) {
    true
  }

  ghost function Total(f: Address -> int): int {
    SumOver(f, Everyone())
  }

  /** The sum does not depend on the order in which accounts are taken. */
  lemma {:induction false} SumRemove(f: Address -> int, s: set<Address>, k: Address)
    requires k in s
    ensures SumOver(f, s) == f(k) + SumOver(f, s - {k})
    decreases s
  {
    var a :| a in s && SumOver(f, s) == f(a) + SumOver(f, s - {a});
    if a != k {
      SumRemove(f, s - {a}, k);
      SumRemove(f, s - {k}, a);
      assert s - {a} - {k} == s - {k} - {a};
    }
  }

  /** If g is f plus a multiple of h everywhere, so are the sums. */
  lemma {:induction false} SumLinear(f: Address -> int, g: Address -> int, h: Address -> int, c: int, s: set<Address>)
    requires forall a: Address :: g(a) == f(a) + c * h(a)
    ensures SumOver(g, s) == SumOver(f, s) + c * SumOver(h, s)
    decreases s
  {
    if s != {} {
      var a :| a in s;
      SumRemove(f, s, a);
      SumRemove(g, s, a);
      SumRemove(h, s, a);
      SumLinear(f, g, h, c, s - {a});
      assert c * (h(a) + SumOver(h, s - {a})) == c * h(a) + c * SumOver(h, s - {a});
    }
  }

  lemma {:induction false} SumMonotone(f: Address -> int, g: Address -> int, s: set<Address>)
    requires forall a: Address :: a in s ==> f(a) <= g(a)
    ensures SumOver(f, s) <= SumOver(g, s)
    decreases s
  {
    if s != {} {
      var a :| a in s;
      SumRemove(f, s, a);
      SumRemove(g, s, a);
      SumMonotone(f, g, s - {a});
    }
  }

  lemma TotalEqual(f: Address -> int, g: Address -> int)
    requires forall a: Address :: f(a) == g(a)
    ensures Total(f) == Total(g)
  {
    SumMonotone(f, g, Everyone());
    SumMonotone(g, f, Everyone());
  }

  /** If f and g agree except at k, their sums differ by the difference at k. */
  lemma TotalUpdate(f: Address -> int, g: Address -> int, k: Address)
    requires forall a: Address :: a != k ==> f(a) == g(a)
    ensures Total(g) == Total(f) + g(k) - f(k)
  {
    var others := Everyone() - {k};
    SumRemove(f, Everyone(), k);
    SumRemove(g, Everyone(), k);
    SumMonotone(f, g, others);
    SumMonotone(g, f, others);
  }

  lemma {:induction false} SumZero(f: Address -> int, s: set<Address>)
    requires forall a: Address :: a in s ==> f(a) == 0
    ensures SumOver(f, s) == 0
    decreases s
  {
    if s != {} {
      var a :| a in s;
      SumRemove(f, s, a);
      SumZero(f, s - {a});
    }
  }
}
