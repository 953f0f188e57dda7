/** The nonlinear facts behind the constant-product pool. */
module DexMath {

  function Times(a: nat, b: nat): nat {
    a * b
  }

  lemma MulMono(a: nat, b: nat, c: nat)
    requires a <= b
    ensures a * c <= b * c
  {
  }

  lemma DivTimes(n: nat, d: nat)
    requires d > 0
    ensures n / d * d <= n
  {
  }

  lemma QuotientWithin(n: nat, d: nat)
    requires d > 0
    ensures n / d <= n
  {
    var q: nat := n / d;
    DivTimes(n, d);
    MulMono(1, d, q);
  }

  function Quotient(n: nat, d: nat): (q: nat)
    requires d > 0
    ensures q <= n
  {
    QuotientWithin(n, d);
    n / d
  }

  /** What a swap pays out, rounded down, after the 0.3% fee. */
  function SwapOut(amountIn: nat, resIn: nat, resOut: nat): nat
    requires resIn * 1000 + amountIn * 997 > 0
  {
    Quotient(Times(amountIn * 997, resOut), resIn * 1000 + amountIn * 997)
  }

  lemma MulCancel(a: int, b: int, c: int)
    requires c > 0 && a * c <= b * c
    ensures a <= b
  {
    if a > b { MulMono(1, a - b, c); }
  }

  lemma QuotientIsLargest(n: nat, d: nat, q: nat)
    requires d > 0
    ensures q <= n / d <==> q * d <= n
  {
    var m := n / d;
    assert n == m * d + n % d;
    if q <= m {
      MulMono(q, m, d);
    } else {
      MulMono(m + 1, q, d);
      assert (m + 1) * d == m * d + d;
    }
  }

  /** The payout is the largest whole number that keeps the product, counting the input at
      997 parts in 1000. */
  lemma SwapOutIsLargest(amountIn: nat, resIn: nat, resOut: nat, out: nat)
    requires resIn * 1000 + amountIn * 997 > 0
    ensures out <= SwapOut(amountIn, resIn, resOut) <==>
            (resIn * 1000 + amountIn * 997) * (resOut - out) >= 1000 * (resIn * resOut)
  {
    var d := resIn * 1000 + amountIn * 997;
    var owed: nat := amountIn * 997 * resOut;
    QuotientIsLargest(owed, d, out);
    assert d * (resOut - out) == d * resOut - out * d;
    assert d * resOut == 1000 * (resIn * resOut) + owed;
  }

  /** The payout never exceeds what the fee-free product rule would allow. */
  lemma SwapBound(amountIn: nat, resIn: nat, resOut: nat)
    requires resIn * 1000 + amountIn * 997 > 0
    ensures SwapOut(amountIn, resIn, resOut) * (resIn + amountIn) <= amountIn * resOut
  {
    var d := resIn * 1000 + amountIn * 997;
    var out := SwapOut(amountIn, resIn, resOut);
    DivTimes(amountIn * 997 * resOut, d);
    assert out * d <= amountIn * 997 * resOut;
    assert out * d == 997 * (out * (resIn + amountIn)) + 3 * (out * resIn);
    assert amountIn * 997 * resOut == 997 * (amountIn * resOut);
    assert out * resIn >= 0;
  }

  /** A swap takes less than the whole output reserve, unless the input reserve is empty. */
  lemma SwapLeavesSome(amountIn: nat, resIn: nat, resOut: nat)
    requires resIn > 0 && resOut > 0
    ensures SwapOut(amountIn, resIn, resOut) < resOut
  {
    var out := SwapOut(amountIn, resIn, resOut);
    SwapBound(amountIn, resIn, resOut);
    assert resOut * (resIn + amountIn) == resOut * resIn + amountIn * resOut;
    assert resOut * resIn > 0;
    if out >= resOut { MulMono(resOut, out, resIn + amountIn); }
  }

  lemma SwapOutWithin(amountIn: nat, resIn: nat, resOut: nat)
    requires resIn * 1000 + amountIn * 997 > 0
    ensures SwapOut(amountIn, resIn, resOut) <= resOut
  {
    if resIn > 0 && resOut > 0 {
      SwapLeavesSome(amountIn, resIn, resOut);
    } else if resIn == 0 {
      SwapBound(amountIn, 0, resOut);
      MulCancel(SwapOut(amountIn, 0, resOut), resOut, amountIn);
    } else {
      assert amountIn * 997 * 0 == 0;
    }
  }

  /** The payout, swapped back at the reserves the swap left, buys back no more than it cost. */
  lemma ReturnSwapBound(amountIn: nat, resIn: nat, resOut: nat)
    requires resIn * 1000 + amountIn * 997 > 0
    requires 0 < SwapOut(amountIn, resIn, resOut) <= resOut
    ensures var out := SwapOut(amountIn, resIn, resOut);
            SwapOut(out, resOut - out, resIn + amountIn) <= amountIn
  {
    var out := SwapOut(amountIn, resIn, resOut);
    SwapBound(amountIn, resIn, resOut);
    SwapBound(out, resOut - out, resIn + amountIn);
    MulCancel(SwapOut(out, resOut - out, resIn + amountIn), amountIn, resOut);
  }

  /** Swaps never lower the product of the reserves. */
  lemma SwapKeepsProduct(amountIn: nat, resIn: nat, resOut: nat)
    requires resIn * 1000 + amountIn * 997 > 0
    ensures var out := SwapOut(amountIn, resIn, resOut);
            resIn * resOut <= (resIn + amountIn) * (resOut - out)
  {
    var out := SwapOut(amountIn, resIn, resOut);
    SwapBound(amountIn, resIn, resOut);
    assert (resIn + amountIn) * (resOut - out) == resIn * resOut + amountIn * resOut - out * (resIn + amountIn);
  }

  lemma ProductMono(a: nat, b: nat, c: nat, d: nat)
    requires a <= b && c <= d
    ensures a * c <= b * d
  {
    MulMono(a, b, c);
    MulMono(c, d, b);
  }

  /** `k` is the product of the reserves and `s` the LP supply: from (k, s) to (k', s') the
      product behind one LP share has not shrunk. */
  predicate ShareKept(k: nat, s: nat, k': nat, s': nat) {
    k * (s' * s') <= k' * (s * s)
  }

  lemma ShareKeptTrans(k: nat, s: nat, k': nat, s': nat, k'': nat, s'': nat)
    requires s' > 0 && ShareKept(k, s, k', s') && ShareKept(k', s', k'', s'')
    ensures ShareKept(k, s, k'', s'')
  {
    var a, b, c := s * s, s' * s', s'' * s'';
    MulMono(k * b, k' * a, c);
    MulMono(k' * c, k'' * b, a);
    Regroup(k, b, c);
    Regroup(k', a, c);
    Regroup(k'', b, a);
    MulCancel(k * c, k'' * a, b);
  }

  lemma Regroup(x: int, y: int, z: int)
    ensures x * y * z == x * z * y
  {
  }

  /** Rounded-down proportional minting leaves each reserve per share at least as large. */
  lemma MintBound(amount: nat, supply: nat, res: nat, minted: nat)
    requires res > 0 && minted <= amount * supply / res
    ensures (supply + minted) * res <= supply * (res + amount)
  {
    var owed: nat := amount * supply;
    DivTimes(owed, res);
    MulMono(minted, owed / res, res);
    assert (supply + minted) * res == supply * res + minted * res;
    assert supply * (res + amount) == supply * res + owed;
  }

  lemma Interleave(a: int, b: int, c: int, d: int)
    ensures (a * b) * (c * d) == (b * d) * (a * c)
  {
    assert (a * b) * (c * d) == a * (b * (c * d));
    assert b * (c * d) == c * (b * d);
    assert a * (c * (b * d)) == (a * c) * (b * d);
  }

  /** Minting keeps the product per share, and each reserve per share. */
  lemma MintKeepsShare(s: nat, resA: nat, resB: nat, a: nat, b: nat, minted: nat)
    requires resA > 0 && resB > 0
    requires minted <= a * s / resA && minted <= b * s / resB
    ensures ShareKept(resA * resB, s, (resA + a) * (resB + b), s + minted)
    ensures (s + minted) * resA <= s * (resA + a) && (s + minted) * resB <= s * (resB + b)
  {
    MintBound(a, s, resA, minted);
    MintBound(b, s, resB, minted);
    var s' := s + minted;
    ProductMono(s' * resA, s * (resA + a), s' * resB, s * (resB + b));
    Interleave(s', resA, s', resB);
    Interleave(s, resA + a, s, resB + b);
  }

  /** A pool backing its supply goes on backing it while the product per share holds. */
  lemma BackingKept(k: nat, s: nat, k': nat, s': nat)
    requires k > 0 && s * s <= k && ShareKept(k, s, k', s')
    ensures s' * s' <= k'
  {
    MulMono(s * s, k, k');
    Regroup(1, s * s, k');
    assert k * (s' * s') <= k' * (s * s) <= k' * k;
    MulCancel(s' * s', k', k);
  }
}
