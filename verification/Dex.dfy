/** `SimpleDEX`: a constant-product pool over two distinct standard ERC-20 tokens. */
module Dex {
  import opened Machine
  import opened Evm
  import opened NewtonSqrt
  import opened DexModel

  class ERC20 {
    var balances: map<Address, nat>
    var allowances: map<Address, nat>

    ghost function State(): Token
      reads this
    {
      Token(balances, allowances)
    }

    constructor (balances: map<Address, nat>, allowances: map<Address, nat>)
      ensures State() == Token(balances, allowances)
    {
      this.balances, this.allowances := balances, allowances;
    }

    method BalanceOf(who: Address) returns (balance: nat)
      ensures balance == Of(balances, who)
    {
      balance := Of(balances, who);
    }

    /** False is a revert, which leaves the token as it was. */
    method Transfer(from: Address, to: Address, amount: nat) returns (ok: bool)
      modifies this`balances
      ensures var moved := DexModel.Transfer(old(State()), from, to, amount);
              ok == moved.Some? && State() == if ok then moved.value else old(State())
    {
      if Of(balances, from) < amount {
        return false;
      }
      balances := balances[from := Of(balances, from) - amount];
      balances := balances[to := Of(balances, to) + amount];
      ok := true;
    }

    method TransferFrom(from: Address, to: Address, amount: nat) returns (ok: bool)
      modifies this
      ensures var moved := DexModel.TransferFrom(old(State()), from, to, amount);
              ok == moved.Some? && State() == if ok then moved.value else old(State())
    {
      var allowed := Of(allowances, from);
      if allowed < amount {
        return false;
      }
      ok := Transfer(from, to, amount);
      if ok && allowed != U256_MAX {
        allowances := allowances[from := allowed - amount];
      }
    }

    /** What the EVM puts back when the call that touched the token reverts. */
    method Restore(balances: map<Address, nat>, allowances: map<Address, nat>)
      modifies this
      ensures State() == Token(balances, allowances)
    {
      this.balances, this.allowances := balances, allowances;
    }
  }

  class SimpleDEX {
    const self: Address
    const tokenA: ERC20
    const tokenB: ERC20
    var totalSupply: nat
    var lp: map<Address, nat>

    ghost predicate Distinct() {
      tokenA != tokenB
    }

    ghost function State(): Pool
      reads this, tokenA, tokenB
    {
      Pool(tokenA.State(), tokenB.State(), totalSupply, lp)
    }

    constructor (self: Address, tokenA: ERC20, tokenB: ERC20)
      ensures this.self == self && this.tokenA == tokenA && this.tokenB == tokenB
      ensures Deployed(State())
    {
      this.self, this.tokenA, this.tokenB := self, tokenA, tokenB;
      totalSupply, lp := 0, map[];
    }

    /** Moves the deposit in and computes its LP tokens. None is a revert. */
    method Deposit(sender: Address, amountA: u256, amountB: u256) returns (liquidity: Option<nat>)
      requires Distinct()
      modifies tokenA, tokenB
      ensures var inA := DexModel.TransferFrom(old(tokenA.State()), sender, self, amountA);
              var inB := DexModel.TransferFrom(old(tokenB.State()), sender, self, amountB);
              && (inA.None? || inB.None? ==> liquidity.None?)
              && (inA.Some? && inB.Some? ==>
                    && tokenA.State() == inA.value && tokenB.State() == inB.value
                    && Of(tokenA.balances, self) >= amountA && Of(tokenB.balances, self) >= amountB
                    && liquidity == Liquidity(
                         totalSupply, Of(tokenA.balances, self), Of(tokenB.balances, self), amountA, amountB))
    {
      var okA := tokenA.TransferFrom(sender, self, amountA);
      if !okA {
        return None;
      }
      var okB := tokenB.TransferFrom(sender, self, amountB);
      if !okB {
        return None;
      }
      if totalSupply == 0 {
        if !Fits(amountA * amountB) {
          return None;
        }
        liquidity := Sqrt(amountA * amountB);
        return;
      }
      var balanceA := tokenA.BalanceOf(self);
      var balanceB := tokenB.BalanceOf(self);
      var resA, resB := balanceA - amountA, balanceB - amountB;
      if !Fits(amountA * totalSupply) || !Fits(amountB * totalSupply) || resA == 0 || resB == 0 {
        return None;
      }
      liquidity := Some(Min(amountA * totalSupply / resA, amountB * totalSupply / resB));
    }

    /** Deposits and mints, or puts everything back. */
    method Add(sender: Address, amountA: u256, amountB: u256) returns (liquidity: Option<nat>)
      requires Distinct()
      modifies this, tokenA, tokenB
      ensures var added := DexModel.AddLiquidity(old(State()), self, sender, amountA, amountB);
              && liquidity == (if added.Some? then Some(added.value.1) else None)
              && State() == if added.Some? then added.value.0 else old(State())
    {
      ghost var added := DexModel.AddLiquidity(State(), self, sender, amountA, amountB);
      var balancesA, allowancesA := tokenA.balances, tokenA.allowances;
      var balancesB, allowancesB := tokenB.balances, tokenB.allowances;
      liquidity := Deposit(sender, amountA, amountB);
      assert added.Some? <==> liquidity.Some? && liquidity.value > 0 && Fits(totalSupply + liquidity.value);
      if liquidity.Some? && liquidity.value > 0 && Fits(totalSupply + liquidity.value) {
        totalSupply := totalSupply + liquidity.value;
        lp := lp[sender := Of(lp, sender) + liquidity.value];
      } else {
        tokenA.Restore(balancesA, allowancesA);
        tokenB.Restore(balancesB, allowancesB);
        liquidity := None;
        assert State() == old(State());
      }
    }

    method AddLiquidity(sender: Address, amountA: u256, amountB: u256) returns (liquidity: Option<nat>)
      requires Distinct()
      modifies this, tokenA, tokenB
      ensures var added := DexModel.AddLiquidity(old(State()), self, sender, amountA, amountB);
              && liquidity == (if added.Some? then Some(added.value.1) else None)
              && State() == if added.Some? then added.value.0 else old(State())
      ensures liquidity.Some? && sender != self ==>
                && Of(lp, sender) == Of(old(lp), sender) + liquidity.value
                && totalSupply == old(totalSupply) + liquidity.value
                && Paid(old(tokenA.State()), tokenA.State(), sender, self, amountA)
                && Paid(old(tokenB.State()), tokenB.State(), sender, self, amountB)
    {
      if sender != self { AddOutcome(State(), self, sender, amountA, amountB); }
      liquidity := Add(sender, amountA, amountB);
    }

    /** Both swap functions: `tokenIn` is the one the sender pays with. */
    method Swap(sender: Address, tokenIn: ERC20, tokenOut: ERC20, amountIn: u256) returns (amountOut: Option<nat>)
      requires tokenIn != tokenOut
      modifies tokenIn, tokenOut
      ensures var swapped := DexModel.Swap(old(tokenIn.State()), old(tokenOut.State()), self, sender, amountIn);
              && amountOut == (if swapped.Some? then Some(swapped.value.2) else None)
              && tokenIn.State() == (if swapped.Some? then swapped.value.0 else old(tokenIn.State()))
              && tokenOut.State() == (if swapped.Some? then swapped.value.1 else old(tokenOut.State()))
    {
      var resIn := tokenIn.BalanceOf(self);
      var resOut := tokenOut.BalanceOf(self);
      amountOut := CheckedOut(amountIn, resIn, resOut);
      if amountOut.None? || amountOut.value == 0 {
        return None;
      }
      var balancesIn, allowancesIn := tokenIn.balances, tokenIn.allowances;
      var paid := tokenIn.TransferFrom(sender, self, amountIn);
      if !paid {
        return None;
      }
      var sent := tokenOut.Transfer(self, sender, amountOut.value);
      if !sent {
        tokenIn.Restore(balancesIn, allowancesIn);
        return None;
      }
    }

    method SwapAForB(sender: Address, amountIn: u256) returns (amountOut: Option<nat>)
      requires Distinct() && sender != self
      modifies tokenA, tokenB
      ensures var after := Apply(old(State()), self, Op.SwapAForB(sender, amountIn));
              amountOut.Some? == after.Some? && State() == if after.Some? then after.value else old(State())
      ensures amountOut.Some? ==>
                && Paid(old(tokenA.State()), tokenA.State(), sender, self, amountIn)
                && Paid(old(tokenB.State()), tokenB.State(), self, sender, amountOut.value)
    {
      SwapOutcome(tokenA.State(), tokenB.State(), self, sender, amountIn);
      amountOut := Swap(sender, tokenA, tokenB, amountIn);
    }

    method SwapBForA(sender: Address, amountIn: u256) returns (amountOut: Option<nat>)
      requires Distinct() && sender != self
      modifies tokenA, tokenB
      ensures var after := Apply(old(State()), self, Op.SwapBForA(sender, amountIn));
              amountOut.Some? == after.Some? && State() == if after.Some? then after.value else old(State())
      ensures amountOut.Some? ==>
                && Paid(old(tokenB.State()), tokenB.State(), sender, self, amountIn)
                && Paid(old(tokenA.State()), tokenA.State(), self, sender, amountOut.value)
    {
      SwapOutcome(tokenB.State(), tokenA.State(), self, sender, amountIn);
      amountOut := Swap(sender, tokenB, tokenA, amountIn);
    }
  }
}
