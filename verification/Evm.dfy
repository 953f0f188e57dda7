/** Solidity 0.8 arithmetic: unsigned 256-bit words whose overflow reverts. */
module Evm {

  const U256_MAX := 0xFFFF_FFFF_FFFF_FFFF_FFFF_FFFF_FFFF_FFFF_FFFF_FFFF_FFFF_FFFF_FFFF_FFFF_FFFF_FFFF

  type u256 = x: int | 0 <= x <= U256_MAX

  type Address = nat

  const ZERO_ADDRESS: Address := 0

  predicate Fits(x: int) {
    0 <= x <= U256_MAX
  }

  /** Reading a mapping: absent keys hold zero. */
  function Of(amounts: map<Address, nat>, who: Address): nat {
    if who in amounts then amounts[who] else 0
  }

  // ---- sums over mappings -------------------------------------------------

  ghost function SumOver(amounts: map<Address, nat>, keys: set<Address>): nat {
    if keys == {} then 0
    else
      var k :| k in keys;
      Of(amounts, k) + SumOver(amounts, keys - {k})
  }

  ghost function Total(amounts: map<Address, nat>): nat {
    SumOver(amounts, amounts.Keys)
  }

  lemma {:induction false} SumOverSplit(amounts: map<Address, nat>, keys: set<Address>, k: Address)
    requires k in keys
    ensures SumOver(amounts, keys) == Of(amounts, k) + SumOver(amounts, keys - {k})
  {
    var first :| first in keys && SumOver(amounts, keys) == Of(amounts, first) + SumOver(amounts, keys - {first});
    if first != k {
      SumOverSplit(amounts, keys - {first}, k);
      SumOverSplit(amounts, keys - {k}, first);
      assert keys - {first} - {k} == keys - {k} - {first};
    }
  }

  lemma {:induction false} SumOverAgrees(a: map<Address, nat>, b: map<Address, nat>, keys: set<Address>)
    requires forall k :: k in keys ==> Of(a, k) == Of(b, k)
    ensures SumOver(a, keys) == SumOver(b, keys)
  {
    if keys != {} {
      var k :| k in keys;
      SumOverSplit(a, keys, k);
      SumOverSplit(b, keys, k);
      SumOverAgrees(a, b, keys - {k});
    }
  }

  lemma TotalUpdated(amounts: map<Address, nat>, k: Address, v: nat)
    ensures Total(amounts[k := v]) == Total(amounts) - Of(amounts, k) + v
    ensures Of(amounts, k) <= Total(amounts)
  {
    var updated, rest := amounts[k := v], amounts.Keys - {k};
    SumOverSplit(updated, updated.Keys, k);
    assert updated.Keys - {k} == rest;
    SumOverAgrees(amounts, updated, rest);
    if k in amounts { SumOverSplit(amounts, amounts.Keys, k); } else { assert rest == amounts.Keys; }
  }
}
