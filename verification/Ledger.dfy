/** Balances as finite maps, changes to them, and their totals. */
module Ledger {
  type Address = nat

  /** A balance sheet, or a signed change to one. An account without an entry holds zero. */
  type Sheet = map<Address, int>

  function Get(b: Sheet, a: Address): int {
    if a in b then b[a] else 0
  }

  function Plus(b: Sheet, d: Sheet): Sheet {
    map a | a in b.Keys + d.Keys :: Get(b, a) + Get(d, a)
  }

  ghost function SumOver(b: Sheet, accounts: set<Address>): int {
    if accounts == {} then 0 else
    var a :| a in accounts;
    Get(b, a) + SumOver(b, accounts - {a})
  }

  ghost function Total(b: Sheet): int {
    SumOver(b, b.Keys)
  }

  /** The sum does not depend on the order in which accounts are taken. */
  lemma {:induction false} SumWithout(b: Sheet, accounts: set<Address>, a: Address)
    requires a in accounts
    ensures SumOver(b, accounts) == Get(b, a) + SumOver(b, accounts - {a})
  {
    var c :| c in accounts && SumOver(b, accounts) == Get(b, c) + SumOver(b, accounts - {c});
    if c != a {
      SumWithout(b, accounts - {c}, a);
      SumWithout(b, accounts - {a}, c);
      assert accounts - {c} - {a} == accounts - {a} - {c};
    }
  }

  lemma {:induction false} SumOfSuperset(b: Sheet, accounts: set<Address>)
    requires b.Keys <= accounts
    ensures SumOver(b, accounts) == Total(b)
    decreases accounts
  {
    if accounts != b.Keys {
      var a :| a in accounts && a !in b;
      SumWithout(b, accounts, a);
      SumOfSuperset(b, accounts - {a});
    }
  }

  lemma {:induction false} SumOfChange(b: Sheet, d: Sheet, c: Sheet, accounts: set<Address>)
    requires forall a | a in accounts :: Get(c, a) == Get(b, a) + Get(d, a)
    ensures SumOver(c, accounts) == SumOver(b, accounts) + SumOver(d, accounts)
  {
    if accounts != {} {
      var a :| a in accounts;
      SumWithout(b, accounts, a);
      SumWithout(c, accounts, a);
      SumWithout(d, accounts, a);
      SumOfChange(b, d, c, accounts - {a});
    }
  }

  /** If every account of c holds what b and d give it, so do the totals. */
  lemma TotalOfChange(b: Sheet, d: Sheet, c: Sheet)
    requires forall a :: Get(c, a) == Get(b, a) + Get(d, a)
    ensures Total(c) == Total(b) + Total(d)
  {
    var all := b.Keys + c.Keys + d.Keys;
    SumOfChange(b, d, c, all);
    SumOfSuperset(b, all);
    SumOfSuperset(c, all);
    SumOfSuperset(d, all);
  }

  lemma TotalOfOne(a: Address, v: int)
    ensures Total(map[a := v]) == v
  {
    var b := map[a := v];
    SumWithout(b, b.Keys, a);
    assert b.Keys - {a} == {};
  }
}
