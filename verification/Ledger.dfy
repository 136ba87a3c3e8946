/** Account balances and their total. */
module Ledger {
  type Address = nat
  type Balances = map<Address, nat>

  function BalanceOf(b: Balances, a: Address): nat {
    if a in b then b[a] else 0
  }

  function Credit(b: Balances, a: Address, x: nat): Balances {
    b[a := BalanceOf(b, a) + x]
  }

  function Debit(b: Balances, a: Address, x: nat): Balances
    requires x <= BalanceOf(b, a)
  {
    b[a := BalanceOf(b, a) - x]
  }

  /** The sum of all balances. */
  ghost function Total(b: Balances): nat {
    if b == map[] then 0 else var a :| a in b; b[a] + Total(b - {a})
  }

  /** Any account can be counted first. */
  lemma {:induction false} TotalWithout(b: Balances, a: Address)
    requires a in b
    ensures Total(b) == b[a] + Total(b - {a})
    decreases |b|
  {
    var c :| c in b && Total(b) == b[c] + Total(b - {c});
    if c != a {
      TotalWithout(b - {c}, a);
      TotalWithout(b - {a}, c);
      assert b - {c} - {a} == b - {a} - {c};
    }
  }

  lemma TotalUpdate(b: Balances, a: Address, x: nat)
    ensures Total(b[a := x]) == Total(b) - BalanceOf(b, a) + x
  {
    var u := b[a := x];
    TotalWithout(u, a);
    if a in b {
      TotalWithout(b, a);
      assert u - {a} == b - {a};
    } else {
      assert u - {a} == b;
    }
  }
}
