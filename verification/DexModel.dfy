/** The pool of `SimpleDEX` as values: what each call does to the two tokens and the LP supply,
    and what holds over every run. */
module DexModel {
  import opened Machine
  import opened Evm
  import opened NewtonSqrt
  import opened DexMath

  /** A token: balances, and what each holder allows the pool to pull. */
  datatype Token = Token(balances: map<Address, nat>, allowances: map<Address, nat>)

  datatype Pool = Pool(tokenA: Token, tokenB: Token, supply: nat, lp: map<Address, nat>)

  function Move(balances: map<Address, nat>, from: Address, to: Address, amount: nat): map<Address, nat>
    requires Of(balances, from) >= amount
  {
    var debited := balances[from := Of(balances, from) - amount];
    debited[to := Of(debited, to) + amount]
  }

  /** None is a revert. */
  function Transfer(t: Token, from: Address, to: Address, amount: nat): Option<Token> {
    if Of(t.balances, from) < amount then None
    else Some(t.(balances := Move(t.balances, from, to, amount)))
  }

  /** An unlimited allowance is not used up. */
  function TransferFrom(t: Token, from: Address, to: Address, amount: nat): Option<Token> {
    var allowed := Of(t.allowances, from);
    if allowed < amount then None
    else
      var spent := if allowed == U256_MAX then t else t.(allowances := t.allowances[from := allowed - amount]);
      Transfer(spent, from, to, amount)
  }

  /** A transfer to somebody else creates and destroys nothing, and concerns two accounts only. */
  lemma MoveConserves(balances: map<Address, nat>, from: Address, to: Address, amount: nat)
    requires Of(balances, from) >= amount
    ensures var moved := Move(balances, from, to, amount);
            && Total(moved) == Total(balances)
            && (from != to ==> Of(moved, from) == Of(balances, from) - amount)
            && (from != to ==> Of(moved, to) == Of(balances, to) + amount)
            && (from == to ==> Of(moved, to) == Of(balances, to))
            && forall who :: who != from && who != to ==> Of(moved, who) == Of(balances, who)
  {
    var debited := balances[from := Of(balances, from) - amount];
    TotalUpdated(balances, from, Of(balances, from) - amount);
    TotalUpdated(debited, to, Of(debited, to) + amount);
  }

  /** A transfer goes through exactly when it is covered. */
  lemma TransferOutcome(t: Token, from: Address, to: Address, amount: nat)
    ensures var moved := Transfer(t, from, to, amount);
            && (moved.Some? <==> Of(t.balances, from) >= amount)
            && (moved.Some? ==> moved.value.allowances == t.allowances && Paid(t, moved.value, from, to, amount))
  {
    if Of(t.balances, from) >= amount { MoveConserves(t.balances, from, to, amount); }
  }

  /** `from` has paid `to`, and nobody else's balance has changed. */
  ghost predicate Paid(t: Token, t': Token, from: Address, to: Address, amount: nat) {
    && (from != to ==> Of(t.balances, from) == Of(t'.balances, from) + amount)
    && (from != to ==> Of(t'.balances, to) == Of(t.balances, to) + amount)
    && (from == to ==> Of(t'.balances, to) == Of(t.balances, to))
    && OthersSame(t.balances, t'.balances, from, to)
  }

  ghost predicate OthersSame(m: map<Address, nat>, m': map<Address, nat>, a: Address, b: Address) {
    forall who :: who != a && who != b ==> Of(m', who) == Of(m, who)
  }

  /** A pull goes through exactly when it is allowed and covered, and uses up that much of the
      payer's allowance unless it is unlimited. */
  lemma TransferFromOutcome(t: Token, from: Address, to: Address, amount: nat)
    ensures var moved := TransferFrom(t, from, to, amount);
            && (moved.Some? <==> Of(t.allowances, from) >= amount && Of(t.balances, from) >= amount)
            && (moved.Some? ==>
                  && Paid(t, moved.value, from, to, amount)
                  && OthersSame(t.allowances, moved.value.allowances, from, from)
                  && Of(moved.value.allowances, from) ==
                     if Of(t.allowances, from) == U256_MAX then U256_MAX else Of(t.allowances, from) - amount)
  {
    if Of(t.balances, from) >= amount { MoveConserves(t.balances, from, to, amount); }
  }

  // ---- the three calls ----------------------------------------------------

  /** LP tokens for a deposit that is already in the pool. */
  function Liquidity(supply: nat, balanceA: nat, balanceB: nat, amountA: u256, amountB: u256): Option<nat>
    requires amountA <= balanceA && amountB <= balanceB
  {
    if supply == 0 then
      if Fits(amountA * amountB) && amountA * amountB != U256_MAX
      then Some(FloorSqrt(amountA * amountB)) else None
    else
      var resA, resB := balanceA - amountA, balanceB - amountB;
      if !Fits(amountA * supply) || !Fits(amountB * supply) || resA == 0 || resB == 0 then None
      else Some(Min(amountA * supply / resA, amountB * supply / resB))
  }

  function AddLiquidity(p: Pool, self: Address, sender: Address, amountA: u256, amountB: u256): Option<(Pool, nat)> {
    var tokenA := TransferFrom(p.tokenA, sender, self, amountA);
    var tokenB := TransferFrom(p.tokenB, sender, self, amountB);
    if tokenA.None? || tokenB.None? then None
    else
      var balanceA, balanceB := Of(tokenA.value.balances, self), Of(tokenB.value.balances, self);
      var liquidity := Liquidity(p.supply, balanceA, balanceB, amountA, amountB);
      if liquidity.None? || liquidity.value == 0 || !Fits(p.supply + liquidity.value) then None
      else
        var lp := p.lp[sender := Of(p.lp, sender) + liquidity.value];
        Some((Pool(tokenA.value, tokenB.value, p.supply + liquidity.value, lp), liquidity.value))
  }

  /** The payout with every intermediate word checked. */
  function CheckedOut(amountIn: u256, resIn: nat, resOut: nat): Option<u256> {
    if !Fits(amountIn * 997) || !Fits(amountIn * 997 * resOut) || !Fits(resIn * 1000)
       || !Fits(resIn * 1000 + amountIn * 997) || resIn * 1000 + amountIn * 997 == 0
    then None
    else Some(SwapOut(amountIn, resIn, resOut))
  }

  /** The tokens after a swap of `amountIn`, with what it paid. */
  function Swap(tokenIn: Token, tokenOut: Token, self: Address, sender: Address, amountIn: u256)
    : Option<(Token, Token, u256)>
  {
    var out := CheckedOut(amountIn, Of(tokenIn.balances, self), Of(tokenOut.balances, self));
    if out.None? || out.value == 0 then None
    else
      var tokenIn' := TransferFrom(tokenIn, sender, self, amountIn);
      var tokenOut' := Transfer(tokenOut, self, sender, out.value);
      if tokenIn'.None? || tokenOut'.None? then None
      else Some((tokenIn'.value, tokenOut'.value, out.value))
  }

  lemma CheckedOutOutcome(amountIn: u256, resIn: nat, resOut: nat)
    ensures var sum := resIn * 1000 + amountIn * 997;
            && (CheckedOut(amountIn, resIn, resOut).Some? <==>
                  0 < sum <= U256_MAX && amountIn * 997 * resOut <= U256_MAX)
            && (CheckedOut(amountIn, resIn, resOut).Some? ==>
                  CheckedOut(amountIn, resIn, resOut).value == SwapOut(amountIn, resIn, resOut) <= resOut)
  {
    if resIn * 1000 + amountIn * 997 > 0 { SwapOutWithin(amountIn, resIn, resOut); }
    assert amountIn * 997 * resOut >= 0;
  }

  /** A swap goes through exactly when no word overflows, the payout is not zero, and the sender
      can pay; then the sender pays the input to the pool and is paid the output by it. */
  lemma SwapOutcome(tokenIn: Token, tokenOut: Token, self: Address, sender: Address, amountIn: u256)
    ensures var resIn, resOut := Of(tokenIn.balances, self), Of(tokenOut.balances, self);
            var swapped := Swap(tokenIn, tokenOut, self, sender, amountIn);
            && (swapped.Some? <==>
                  && 0 < resIn * 1000 + amountIn * 997 <= U256_MAX && amountIn * 997 * resOut <= U256_MAX
                  && SwapOut(amountIn, resIn, resOut) > 0
                  && Of(tokenIn.allowances, sender) >= amountIn && Of(tokenIn.balances, sender) >= amountIn)
            && (swapped.Some? ==>
                  var (tokenIn', tokenOut', out) := swapped.value;
                  && out == SwapOut(amountIn, resIn, resOut)
                  && Paid(tokenIn, tokenIn', sender, self, amountIn) && Paid(tokenOut, tokenOut', self, sender, out)
                  && tokenOut'.allowances == tokenOut.allowances)
  {
    var resIn, resOut := Of(tokenIn.balances, self), Of(tokenOut.balances, self);
    CheckedOutOutcome(amountIn, resIn, resOut);
    TransferFromOutcome(tokenIn, sender, self, amountIn);
    if CheckedOut(amountIn, resIn, resOut).Some? {
      TransferOutcome(tokenOut, self, sender, SwapOut(amountIn, resIn, resOut));
    }
  }

  /** What a deposit mints: the root of the first one's product, and the smaller share of a later
      one. */
  function Minted(supply: nat, resA: nat, resB: nat, amountA: u256, amountB: u256): nat
    requires supply > 0 ==> resA > 0 && resB > 0
  {
    if supply == 0 then FloorSqrt(Times(amountA, amountB))
    else Min(Quotient(Times(amountA, supply), resA), Quotient(Times(amountB, supply), resB))
  }

  lemma LiquidityOutcome(supply: nat, resA: nat, resB: nat, amountA: u256, amountB: u256)
    ensures var liquidity := Liquidity(supply, resA + amountA, resB + amountB, amountA, amountB);
            && (liquidity.Some? <==>
                  if supply == 0 then amountA * amountB < U256_MAX
                  else resA > 0 && resB > 0 && amountA * supply <= U256_MAX && amountB * supply <= U256_MAX)
            && (liquidity.Some? ==> liquidity.value == Minted(supply, resA, resB, amountA, amountB))
  {
    assert amountA * amountB >= 0 && amountA * supply >= 0 && amountB * supply >= 0;
  }

  /** A deposit goes through exactly when the sender can pay both amounts, no word overflows, and
      it mints something; then the sender pays both amounts to the pool, and the sender, and nobody
      else, gets the LP tokens it mints. */
  lemma AddOutcome(p: Pool, self: Address, sender: Address, amountA: u256, amountB: u256)
    requires sender != self
    ensures var resA, resB := ResA(p, self), ResB(p, self);
            var added := AddLiquidity(p, self, sender, amountA, amountB);
            && (added.Some? <==>
                  && Of(p.tokenA.allowances, sender) >= amountA && Of(p.tokenA.balances, sender) >= amountA
                  && Of(p.tokenB.allowances, sender) >= amountB && Of(p.tokenB.balances, sender) >= amountB
                  && (if p.supply == 0 then amountA * amountB < U256_MAX
                      else resA > 0 && resB > 0 && amountA * p.supply <= U256_MAX && amountB * p.supply <= U256_MAX)
                  && 0 < Minted(p.supply, resA, resB, amountA, amountB)
                  && p.supply + Minted(p.supply, resA, resB, amountA, amountB) <= U256_MAX)
            && (added.Some? ==>
                  var (p', minted) := added.value;
                  && minted == p'.supply - p.supply == Minted(p.supply, resA, resB, amountA, amountB)
                  && Paid(p.tokenA, p'.tokenA, sender, self, amountA)
                  && Paid(p.tokenB, p'.tokenB, sender, self, amountB)
                  && Of(p'.lp, sender) == Of(p.lp, sender) + minted
                  && OthersSame(p.lp, p'.lp, sender, sender))
  {
    TransferFromOutcome(p.tokenA, sender, self, amountA);
    TransferFromOutcome(p.tokenB, sender, self, amountB);
    LiquidityOutcome(p.supply, ResA(p, self), ResB(p, self), amountA, amountB);
  }

  // ---- runs ---------------------------------------------------------------

  datatype Op =
    | Add(sender: Address, amountA: u256, amountB: u256)
    | SwapAForB(sender: Address, amountIn: u256)
    | SwapBForA(sender: Address, amountIn: u256)
    | Elsewhere(tokenA: Token, tokenB: Token)   // donations, approvals, transfers among others

  function ResA(p: Pool, self: Address): nat { Of(p.tokenA.balances, self) }

  function ResB(p: Pool, self: Address): nat { Of(p.tokenB.balances, self) }

  /** None is a revert. The pool itself never calls, and nobody else moves its tokens. */
  function Apply(p: Pool, self: Address, op: Op): Option<Pool> {
    match op
    case Add(sender, a, b) =>
      var r := AddLiquidity(p, self, sender, a, b);
      if sender == self || r.None? then None else Some(r.value.0)
    case SwapAForB(sender, amountIn) =>
      var r := Swap(p.tokenA, p.tokenB, self, sender, amountIn);
      if sender == self || r.None? then None else Some(p.(tokenA := r.value.0, tokenB := r.value.1))
    case SwapBForA(sender, amountIn) =>
      var r := Swap(p.tokenB, p.tokenA, self, sender, amountIn);
      if sender == self || r.None? then None else Some(p.(tokenB := r.value.0, tokenA := r.value.1))
    case Elsewhere(tokenA, tokenB) =>
      if Of(tokenA.balances, self) < ResA(p, self) || Of(tokenB.balances, self) < ResB(p, self) then None
      else Some(p.(tokenA := tokenA, tokenB := tokenB))
  }

  function Run(p: Pool, self: Address, ops: seq<Op>): Pool {
    if ops == [] then p
    else
      var before := Run(p, self, ops[..|ops| - 1]);
      var after := Apply(before, self, ops[|ops| - 1]);
      if after.Some? then after.value else before
  }

  /** A pool as deployed: no LP tokens; its token balances are whatever was sent ahead. */
  predicate Deployed(p: Pool) {
    p.supply == 0 && p.lp == map[]
  }

  function Product(p: Pool, self: Address): nat {
    ResA(p, self) * ResB(p, self)
  }

  predicate Backed(p: Pool, self: Address) {
    p.supply * p.supply <= Product(p, self)
  }

  lemma BackedHasReserves(p: Pool, self: Address)
    requires Backed(p, self) && p.supply > 0
    ensures ResA(p, self) > 0 && ResB(p, self) > 0
  {
    var s := p.supply;
    assert s * s > 0;
  }

  lemma SwapReserves(tokenIn: Token, tokenOut: Token, self: Address, sender: Address, amountIn: u256)
    requires sender != self && Swap(tokenIn, tokenOut, self, sender, amountIn).Some?
    ensures var (tokenIn', tokenOut', out) := Swap(tokenIn, tokenOut, self, sender, amountIn).value;
            var resIn, resOut := Of(tokenIn.balances, self), Of(tokenOut.balances, self);
            && resIn * 1000 + amountIn * 997 > 0 && out == SwapOut(amountIn, resIn, resOut) && out <= resOut
            && Of(tokenIn'.balances, self) == resIn + amountIn
            && Of(tokenOut'.balances, self) == resOut - out
  {
  }

  lemma SwapRaisesProduct(tokenIn: Token, tokenOut: Token, self: Address, sender: Address, amountIn: u256)
    requires sender != self && Swap(tokenIn, tokenOut, self, sender, amountIn).Some?
    ensures var (tokenIn', tokenOut', _) := Swap(tokenIn, tokenOut, self, sender, amountIn).value;
            && Of(tokenIn.balances, self) * Of(tokenOut.balances, self)
               <= Of(tokenIn'.balances, self) * Of(tokenOut'.balances, self)
            && Of(tokenOut.balances, self) * Of(tokenIn.balances, self)
               <= Of(tokenOut'.balances, self) * Of(tokenIn'.balances, self)
  {
    SwapReserves(tokenIn, tokenOut, self, sender, amountIn);
    SwapKeepsProduct(amountIn, Of(tokenIn.balances, self), Of(tokenOut.balances, self));
  }

  /** A swap or an outside transfer keeps the supply and never lowers the product. */
  lemma TradeKeepsProduct(p: Pool, self: Address, op: Op)
    requires !op.Add? && Apply(p, self, op).Some?
    ensures var p' := Apply(p, self, op).value;
            p'.supply == p.supply && Product(p, self) <= Product(p', self)
  {
    match op
    case SwapAForB(sender, amountIn) => SwapRaisesProduct(p.tokenA, p.tokenB, self, sender, amountIn);
    case SwapBForA(sender, amountIn) => SwapRaisesProduct(p.tokenB, p.tokenA, self, sender, amountIn);
    case Elsewhere(tokenA, tokenB) =>
      ProductMono(ResA(p, self), Of(tokenA.balances, self), ResB(p, self), Of(tokenB.balances, self));
  }

  /** A later deposit mints the largest whole number of LP tokens that leaves neither reserve
      per share smaller. */
  lemma LiquidityIsLargest(supply: nat, balanceA: nat, balanceB: nat, amountA: u256, amountB: u256, minted: nat)
    requires supply > 0 && amountA < balanceA && amountB < balanceB
    requires Liquidity(supply, balanceA, balanceB, amountA, amountB).Some?
    ensures minted <= Liquidity(supply, balanceA, balanceB, amountA, amountB).value <==>
            && minted * (balanceA - amountA) <= amountA * supply
            && minted * (balanceB - amountB) <= amountB * supply
  {
    var owedA: nat, owedB: nat := amountA * supply, amountB * supply;
    QuotientIsLargest(owedA, balanceA - amountA, minted);
    QuotientIsLargest(owedB, balanceB - amountB, minted);
  }

  lemma AddReserves(p: Pool, self: Address, op: Op)
    requires op.Add? && Apply(p, self, op).Some?
    ensures var p' := Apply(p, self, op).value;
            && ResA(p', self) == ResA(p, self) + op.amountA && ResB(p', self) == ResB(p, self) + op.amountB
            && p'.supply > p.supply
            && Liquidity(p.supply, ResA(p', self), ResB(p', self), op.amountA, op.amountB) == Some(p'.supply - p.supply)
  {
  }

  /** The first deposit mints the integer root of the product it brought. */
  lemma FirstDepositBacked(p: Pool, self: Address, op: Op)
    requires op.Add? && Apply(p, self, op).Some? && p.supply == 0
    ensures Backed(Apply(p, self, op).value, self)
    ensures IsRoot(op.amountA * op.amountB, Apply(p, self, op).value.supply)
  {
    AddReserves(p, self, op);
    ProductMono(op.amountA, ResA(p, self) + op.amountA, op.amountB, ResB(p, self) + op.amountB);
  }

  lemma LaterDepositMints(p: Pool, self: Address, op: Op)
    requires op.Add? && Apply(p, self, op).Some? && p.supply > 0
    ensures ResA(p, self) > 0 && ResB(p, self) > 0
    ensures var minted := Apply(p, self, op).value.supply - p.supply;
            && minted <= op.amountA * p.supply / ResA(p, self)
            && minted <= op.amountB * p.supply / ResB(p, self)
  {
    AddReserves(p, self, op);
  }

  /** Every later deposit mints no more than its share. */
  lemma LaterDepositKeepsShare(p: Pool, self: Address, op: Op)
    requires op.Add? && Apply(p, self, op).Some? && p.supply > 0
    ensures var p' := Apply(p, self, op).value;
            && ShareKept(Product(p, self), p.supply, Product(p', self), p'.supply)
            && p'.supply * ResA(p, self) <= p.supply * ResA(p', self)
            && p'.supply * ResB(p, self) <= p.supply * ResB(p', self)
  {
    AddReserves(p, self, op);
    LaterDepositMints(p, self, op);
    var minted := Apply(p, self, op).value.supply - p.supply;
    MintKeepsShare(p.supply, ResA(p, self), ResB(p, self), op.amountA, op.amountB, minted);
  }

  /** One call: a backed pool stays backed, and the product per share does not shrink. */
  lemma ApplyKeeps(p: Pool, self: Address, op: Op)
    requires Apply(p, self, op).Some? && Backed(p, self)
    ensures var p' := Apply(p, self, op).value;
            && Backed(p', self) && p'.supply >= p.supply
            && (p.supply > 0 ==> ShareKept(Product(p, self), p.supply, Product(p', self), p'.supply))
  {
    var p' := Apply(p, self, op).value;
    if op.Add? {
      AddReserves(p, self, op);
      if p.supply == 0 {
        FirstDepositBacked(p, self, op);
      } else {
        BackedHasReserves(p, self);
        LaterDepositKeepsShare(p, self, op);
        BackingKept(Product(p, self), p.supply, Product(p', self), p'.supply);
      }
    } else {
      TradeKeepsProduct(p, self, op);
      MulMono(Product(p, self), Product(p', self), p.supply * p.supply);
    }
  }

  /** Main result, for every sequence of deposits, swaps and outside transfers from deployment:
      the square of the LP supply never exceeds the product of the reserves, so a pool with LP
      tokens out always holds both tokens. */
  lemma {:induction false} PoolStaysBacked(p: Pool, self: Address, ops: seq<Op>)
    requires Deployed(p)
    ensures var q := Run(p, self, ops);
            Backed(q, self) && (q.supply > 0 ==> ResA(q, self) > 0 && ResB(q, self) > 0)
  {
    if ops != [] {
      PoolStaysBacked(p, self, ops[..|ops| - 1]);
      var before := Run(p, self, ops[..|ops| - 1]);
      if Apply(before, self, ops[|ops| - 1]).Some? {
        ApplyKeeps(before, self, ops[|ops| - 1]);
      }
    }
    if Run(p, self, ops).supply > 0 { BackedHasReserves(Run(p, self, ops), self); }
  }

  /** LP tokens change hands only as they are minted, to the one who deposits. */
  lemma LpOutcome(p: Pool, self: Address, op: Op)
    requires Apply(p, self, op).Some?
    ensures var p' := Apply(p, self, op).value;
            if op.Add? then
              Of(p'.lp, op.sender) == Of(p.lp, op.sender) + (p'.supply - p.supply)
              && OthersSame(p.lp, p'.lp, op.sender, op.sender)
            else p'.lp == p.lp && p'.supply == p.supply
  {
    if op.Add? { AddOutcome(p, self, op.sender, op.amountA, op.amountB); }
  }

  /** The LP balances add up to the LP supply, after every run. */
  lemma {:induction false} LpSumsToSupply(p: Pool, self: Address, ops: seq<Op>)
    requires Deployed(p)
    ensures Total(Run(p, self, ops).lp) == Run(p, self, ops).supply
  {
    if ops != [] {
      var before, op := Run(p, self, ops[..|ops| - 1]), ops[|ops| - 1];
      LpSumsToSupply(p, self, ops[..|ops| - 1]);
      if op.Add? && Apply(before, self, op).Some? {
        var minted := Apply(before, self, op).value.supply - before.supply;
        TotalUpdated(before.lp, op.sender, Of(before.lp, op.sender) + minted);
      }
    }
  }

  /** Main result: over any run of a pool with LP tokens out, the reserve product behind one
      share never shrinks, whoever deposits, swaps or donates. */
  lemma {:induction false} ShareNeverDiluted(p: Pool, self: Address, ops: seq<Op>)
    requires Backed(p, self) && p.supply > 0
    ensures var q := Run(p, self, ops);
            && Backed(q, self) && q.supply >= p.supply
            && ShareKept(Product(p, self), p.supply, Product(q, self), q.supply)
  {
    if ops != [] {
      ShareNeverDiluted(p, self, ops[..|ops| - 1]);
      var before := Run(p, self, ops[..|ops| - 1]);
      if Apply(before, self, ops[|ops| - 1]).Some? {
        ApplyKeeps(before, self, ops[|ops| - 1]);
        var after := Apply(before, self, ops[|ops| - 1]).value;
        ShareKeptTrans(
          Product(p, self), p.supply, Product(before, self), before.supply, Product(after, self), after.supply);
      }
    }
  }

  /** Trading alone, in any order and by anyone, never lowers the product. */
  lemma {:induction false} TradingKeepsProduct(p: Pool, self: Address, ops: seq<Op>)
    requires forall i :: 0 <= i < |ops| ==> !ops[i].Add?
    ensures var q := Run(p, self, ops); q.supply == p.supply && Product(p, self) <= Product(q, self)
  {
    if ops != [] {
      TradingKeepsProduct(p, self, ops[..|ops| - 1]);
      var before := Run(p, self, ops[..|ops| - 1]);
      if Apply(before, self, ops[|ops| - 1]).Some? {
        TradeKeepsProduct(before, self, ops[|ops| - 1]);
      }
    }
  }

  /** Main result: no run of trades that leaves the pool no more of one token than it had can
      leave it less of the other; in particular, swapping there and back never pays. */
  lemma NoFreeLunch(p: Pool, self: Address, ops: seq<Op>)
    requires forall i :: 0 <= i < |ops| ==> !ops[i].Add?
    requires ResA(p, self) > 0 && ResB(p, self) > 0
    ensures var q := Run(p, self, ops);
            && (ResB(q, self) <= ResB(p, self) ==> ResA(q, self) >= ResA(p, self))
            && (ResA(q, self) <= ResA(p, self) ==> ResB(q, self) >= ResB(p, self))
  {
    TradingKeepsProduct(p, self, ops);
    var q := Run(p, self, ops);
    var a, b, a', b' := ResA(p, self), ResB(p, self), ResA(q, self), ResB(q, self);
    if b' <= b {
      MulMono(b', b, a');
      MulCancel(a, a', b);
    }
    if a' <= a {
      MulMono(a', a, b');
      MulCancel(b, b', a);
    }
  }

  /** Swapping in and then the whole payout back, in either direction and with any reserves,
      returns no more than was put in. */
  lemma RoundTripNeverGains(tokenIn: Token, tokenOut: Token, self: Address, sender: Address, amountIn: u256)
    requires sender != self && Swap(tokenIn, tokenOut, self, sender, amountIn).Some?
    ensures var (tokenIn', tokenOut', out) := Swap(tokenIn, tokenOut, self, sender, amountIn).value;
            Swap(tokenOut', tokenIn', self, sender, out).Some? ==>
              Swap(tokenOut', tokenIn', self, sender, out).value.2 <= amountIn
  {
    var (tokenIn', tokenOut', out) := Swap(tokenIn, tokenOut, self, sender, amountIn).value;
    SwapReserves(tokenIn, tokenOut, self, sender, amountIn);
    if Swap(tokenOut', tokenIn', self, sender, out).Some? {
      SwapReserves(tokenOut', tokenIn', self, sender, out);
      ReturnSwapBound(amountIn, Of(tokenIn.balances, self), Of(tokenOut.balances, self));
    }
  }
}
