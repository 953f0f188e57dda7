/** Fee estimate and UTXO selection. */
module Selection {
  import opened Machine

  const BASE_SUBMIT_FEE_SOMPI := 200_000
  const FEE_PER_KIB_SOMPI := 20_000
  const EXTRA_INPUT_FEE_SOMPI := 10_000
  const MIN_CHANGE_SOMPI := 1_000

  datatype Utxo = Utxo(outpoint: string, amount: u64)

  datatype Selected =
    | Insufficient
    | Inputs(inputs: seq<Utxo>, total: u64, fee: u64, output: u64)

  function DivCeil(n: nat, d: nat): nat
    requires d > 0
  {
    if n % d == 0 then n / d else n / d + 1
  }

  /** The fee saturates with the u64 range. */
  function EstimatedFee(payloadLen: nat, inputs: nat): u64 {
    var kib: u64 := Min(DivCeil(payloadLen, 1024), U64_MAX);
    var tail: u64 := Min(Max(inputs - 1, 0), U64_MAX);
    SatAdd(SatAdd(BASE_SUBMIT_FEE_SOMPI, SatMul(kib, FEE_PER_KIB_SOMPI)), SatMul(tail, EXTRA_INPUT_FEE_SOMPI))
  }

  lemma DivCeilSteps(n: nat)
    ensures DivCeil(n + 1024, 1024) == DivCeil(n, 1024) + 1
    ensures n % 1024 != 0 ==> DivCeil(n + 1, 1024) == DivCeil(n, 1024)
  {
  }

  /** Saturating at every operation comes to saturating the exact sum once. */
  lemma FeeIsSum(payloadLen: nat, inputs: nat)
    ensures EstimatedFee(payloadLen, inputs) ==
            Min(BASE_SUBMIT_FEE_SOMPI + DivCeil(payloadLen, 1024) * FEE_PER_KIB_SOMPI
                + Max(inputs - 1, 0) * EXTRA_INPUT_FEE_SOMPI, U64_MAX)
  {
  }

  /** The fee starts at the base, and every further KiB and every further input adds its price;
      the sums saturate. */
  lemma FeeSteps(payloadLen: nat, inputs: nat)
    ensures EstimatedFee(0, 1) == EstimatedFee(0, 0) == 200_000
    ensures EstimatedFee(payloadLen + 1024, inputs) == Min(EstimatedFee(payloadLen, inputs) + 20_000, U64_MAX)
    ensures inputs > 0 ==>
              EstimatedFee(payloadLen, inputs + 1) == Min(EstimatedFee(payloadLen, inputs) + 10_000, U64_MAX)
    ensures 0 < payloadLen <= 1024 ==> EstimatedFee(payloadLen, 1) == 220_000
    ensures payloadLen % 1024 != 0 ==> EstimatedFee(payloadLen + 1, inputs) == EstimatedFee(payloadLen, inputs)
  {
    DivCeilSteps(payloadLen);
    FeeIsSum(0, 1);
    FeeIsSum(0, 0);
    FeeIsSum(payloadLen, 1);
    FeeIsSum(payloadLen, inputs);
    FeeIsSum(payloadLen + 1024, inputs);
    FeeIsSum(payloadLen, inputs + 1);
    FeeIsSum(payloadLen + 1, inputs);
  }

  lemma FeeMonotone(payloadLen: nat, a: nat, b: nat)
    requires a <= b
    ensures EstimatedFee(payloadLen, a) <= EstimatedFee(payloadLen, b)
  {
  }

  function Sum(utxos: seq<Utxo>): nat {
    if utxos == [] then 0 else utxos[0].amount + Sum(utxos[1..])
  }

  lemma {:induction false} SumSplit(a: seq<Utxo>, b: seq<Utxo>)
    ensures Sum(a + b) == Sum(a) + Sum(b)
  {
    if a == [] {
      assert a + b == b;
    } else {
      assert (a + b)[1..] == a[1..] + b;
      SumSplit(a[1..], b);
    }
  }

  // ---- the descending, stable sort ----------------------------------------

  predicate Descending(utxos: seq<Utxo>) {
    forall i, j :: 0 <= i < j < |utxos| ==> utxos[i].amount >= utxos[j].amount
  }

  lemma DescendingCons(u: Utxo, utxos: seq<Utxo>)
    requires Descending(utxos) && (utxos != [] ==> u.amount >= utxos[0].amount)
    ensures Descending([u] + utxos)
  {
    var r := [u] + utxos;
    forall i, j | 0 <= i < j < |r| ensures r[i].amount >= r[j].amount {
      assert r[j] == utxos[j - 1];
      if i > 0 { assert r[i] == utxos[i - 1]; }
    }
  }

  function InsertDescending(u: Utxo, utxos: seq<Utxo>): (r: seq<Utxo>)
    requires Descending(utxos)
    ensures Descending(r) && multiset(r) == multiset{u} + multiset(utxos)
    ensures r != [] && (r[0] == u || (utxos != [] && r[0] == utxos[0]))
  {
    if utxos == [] || u.amount >= utxos[0].amount then
      DescendingCons(u, utxos);
      [u] + utxos
    else
      var rest := InsertDescending(u, utxos[1..]);
      assert utxos == [utxos[0]] + utxos[1..];
      DescendingCons(utxos[0], rest);
      [utxos[0]] + rest
  }

  /** `sort_by_key(Reverse(amount))`: equal amounts keep their order. */
  function SortDescending(utxos: seq<Utxo>): (r: seq<Utxo>)
    ensures Descending(r) && multiset(r) == multiset(utxos)
  {
    if utxos == [] then []
    else
      assert utxos == [utxos[0]] + utxos[1..];
      InsertDescending(utxos[0], SortDescending(utxos[1..]))
  }

  function OfAmount(utxos: seq<Utxo>, amount: u64): seq<Utxo> {
    if utxos == [] then []
    else (if utxos[0].amount == amount then [utxos[0]] else []) + OfAmount(utxos[1..], amount)
  }

  lemma OfAmountCons(u: Utxo, utxos: seq<Utxo>, amount: u64)
    ensures OfAmount([u] + utxos, amount) == (if u.amount == amount then [u] else []) + OfAmount(utxos, amount)
  {
    assert ([u] + utxos)[1..] == utxos;
  }

  lemma SwapWithEmpty(a: seq<Utxo>, b: seq<Utxo>, c: seq<Utxo>)
    requires a == [] || b == []
    ensures a + (b + c) == b + (a + c)
  {
    if a == [] { assert a + (b + c) == b + c && a + c == c; } else { assert b + c == c && b + (a + c) == a + c; }
  }

  lemma InsertBehind(u: Utxo, utxos: seq<Utxo>)
    requires Descending(utxos) && utxos != [] && u.amount < utxos[0].amount
    ensures Descending(utxos[1..]) && InsertDescending(u, utxos) == [utxos[0]] + InsertDescending(u, utxos[1..])
  {
  }

  lemma {:induction false} InsertIsStable(u: Utxo, utxos: seq<Utxo>, amount: u64)
    requires Descending(utxos)
    ensures OfAmount(InsertDescending(u, utxos), amount)
            == (if u.amount == amount then [u] else []) + OfAmount(utxos, amount)
  {
    if utxos != [] && u.amount < utxos[0].amount {
      var h, t := utxos[0], utxos[1..];
      InsertBehind(u, utxos);
      InsertIsStable(u, t, amount);
      OfAmountCons(h, InsertDescending(u, t), amount);
      SwapWithEmpty(
        if h.amount == amount then [h] else [], if u.amount == amount then [u] else [], OfAmount(t, amount));
    } else {
      OfAmountCons(u, utxos, amount);
    }
  }

  /** UTXOs of equal amount come out in the order they came in. */
  lemma {:induction false} SortIsStable(utxos: seq<Utxo>, amount: u64)
    ensures OfAmount(SortDescending(utxos), amount) == OfAmount(utxos, amount)
  {
    if utxos != [] {
      SortIsStable(utxos[1..], amount);
      InsertIsStable(utxos[0], SortDescending(utxos[1..]), amount);
    }
  }

  // ---- exchange argument --------------------------------------------------

  lemma RemoveOne(chosen: seq<Utxo>, i: nat)
    requires i < |chosen|
    ensures var rest := chosen[..i] + chosen[i + 1..];
            && Sum(chosen) == chosen[i].amount + Sum(rest)
            && multiset(chosen) == multiset{chosen[i]} + multiset(rest)
            && |rest| == |chosen| - 1
  {
    assert chosen == chosen[..i] + [chosen[i]] + chosen[i + 1..];
    SumSplit(chosen[..i] + [chosen[i]], chosen[i + 1..]);
    SumSplit(chosen[..i], [chosen[i]]);
    SumSplit(chosen[..i], chosen[i + 1..]);
  }

  lemma {:induction false} ShiftedPrefix(sorted: seq<Utxo>, k: nat)
    requires Descending(sorted) && k < |sorted|
    ensures Sum(sorted[1..][..k]) <= Sum(sorted[..k])
  {
    if k > 0 {
      ShiftedPrefix(sorted, k - 1);
      assert sorted[1..][..k] == sorted[1..][..k - 1] + [sorted[k]];
      assert sorted[..k] == sorted[..k - 1] + [sorted[k - 1]];
      SumSplit(sorted[1..][..k - 1], [sorted[k]]);
      SumSplit(sorted[..k - 1], [sorted[k - 1]]);
    }
  }

  lemma SizeWithin(chosen: seq<Utxo>, utxos: seq<Utxo>)
    requires multiset(chosen) <= multiset(utxos)
    ensures |chosen| <= |utxos|
  {
    assert |multiset(utxos)| == |multiset(chosen)| + |multiset(utxos) - multiset(chosen)|;
  }

  lemma CancelOne(u: Utxo, a: multiset<Utxo>, b: multiset<Utxo>)
    requires multiset{u} + a <= multiset{u} + b
    ensures a <= b
  {
    forall v ensures a[v] <= b[v] {
      assert (multiset{u} + a)[v] <= (multiset{u} + b)[v];
    }
  }

  lemma SkipFirst(chosen: seq<Utxo>, utxos: seq<Utxo>)
    requires utxos != [] && utxos[0] !in chosen && multiset(chosen) <= multiset(utxos)
    ensures multiset(chosen) <= multiset(utxos[1..])
  {
    assert utxos == [utxos[0]] + utxos[1..];
    assert utxos[0] !in multiset(chosen);
  }

  /** No choice of some size is worth more than that many of the largest. */
  lemma {:induction false} LargestAreBest(chosen: seq<Utxo>, sorted: seq<Utxo>)
    requires Descending(sorted) && multiset(chosen) <= multiset(sorted)
    ensures |chosen| <= |sorted| && Sum(chosen) <= Sum(sorted[..|chosen|])
    decreases |sorted|
  {
    SizeWithin(chosen, sorted);
    if chosen != [] {
      var first, rest := sorted[0], sorted[1..];
      assert sorted == [first] + rest;
      if first in chosen {
        var i :| 0 <= i < |chosen| && chosen[i] == first;
        var fewer := chosen[..i] + chosen[i + 1..];
        RemoveOne(chosen, i);
        CancelOne(first, multiset(fewer), multiset(rest));
        LargestAreBest(fewer, rest);
        assert sorted[..|chosen|] == [first] + rest[..|fewer|];
      } else {
        SkipFirst(chosen, sorted);
        LargestAreBest(chosen, rest);
        ShiftedPrefix(sorted, |chosen|);
      }
    }
  }

  // ---- selection ----------------------------------------------------------

  /** A non-empty pick of the UTXOs that pays its own fee and leaves the minimum change. */
  predicate Affords(payloadLen: nat, utxos: seq<Utxo>, chosen: seq<Utxo>) {
    && chosen != [] && multiset(chosen) <= multiset(utxos)
    && EstimatedFee(payloadLen, |chosen|) + MIN_CHANGE_SOMPI <= U64_MAX
    && Sum(chosen) >= EstimatedFee(payloadLen, |chosen|) + MIN_CHANGE_SOMPI
  }

  predicate Covers(payloadLen: nat, sorted: seq<Utxo>, k: nat)
    requires k <= |sorted|
  {
    Sum(sorted[..k]) >= SatAdd(EstimatedFee(payloadLen, k), MIN_CHANGE_SOMPI)
  }

  /** Any pick that pays stops the greedy scan at its size or before, with no larger fee. */
  lemma GreedyStopsBy(payloadLen: nat, utxos: seq<Utxo>, sorted: seq<Utxo>, chosen: seq<Utxo>, k: nat)
    requires Descending(sorted) && multiset(sorted) == multiset(utxos)
    requires 0 < k <= |sorted|
    requires forall j :: 0 < j < k ==> !Covers(payloadLen, sorted, j)
    requires k == |sorted| || Covers(payloadLen, sorted, k)
    requires Affords(payloadLen, utxos, chosen)
    ensures k <= |chosen| && Covers(payloadLen, sorted, k)
    ensures EstimatedFee(payloadLen, k) <= EstimatedFee(payloadLen, |chosen|)
  {
    LargestAreBest(chosen, sorted);
    assert Covers(payloadLen, sorted, |chosen|);
    FeeMonotone(payloadLen, k, |chosen|);
  }

  /** Takes the largest UTXOs until they cover their fee and the minimum change, or run out. */
  method GreedyScan(payloadLen: nat, sorted: seq<Utxo>) returns (selected: seq<Utxo>, total: u64)
    requires sorted != []
    ensures 0 < |selected| <= |sorted| && selected == sorted[..|selected|]
    ensures total == Min(Sum(selected), U64_MAX)
    ensures forall j :: 0 < j < |selected| ==> !Covers(payloadLen, sorted, j)
    ensures |selected| == |sorted| || Covers(payloadLen, sorted, |selected|)
  {
    selected := [];
    total := 0;
    for i := 0 to |sorted|
      invariant selected == sorted[..i]
      invariant total == Min(Sum(selected), U64_MAX)
      invariant forall j :: 0 < j <= i ==> !Covers(payloadLen, sorted, j)
    {
      SumSplit(selected, [sorted[i]]);
      total := SatAdd(total, sorted[i].amount);
      selected := selected + [sorted[i]];
      assert selected == sorted[..i + 1];
      var requiredFee := EstimatedFee(payloadLen, |selected|);
      if total >= SatAdd(requiredFee, MIN_CHANGE_SOMPI) {
        return;
      }
    }
    assert selected == sorted;
  }

  /** What the checks after the scan decide. */
  lemma ScanDecides(payloadLen: nat, utxos: seq<Utxo>, sorted: seq<Utxo>, k: nat)
    requires Descending(sorted) && multiset(sorted) == multiset(utxos) && 0 < k <= |sorted|
    requires forall j :: 0 < j < k ==> !Covers(payloadLen, sorted, j)
    requires k == |sorted| || Covers(payloadLen, sorted, k)
    ensures var enough := Covers(payloadLen, sorted, k) && EstimatedFee(payloadLen, k) + MIN_CHANGE_SOMPI <= U64_MAX;
            && (enough ==> Affords(payloadLen, utxos, sorted[..k]))
            && (!enough ==> forall chosen :: !Affords(payloadLen, utxos, chosen))
    ensures forall chosen :: Affords(payloadLen, utxos, chosen) ==>
              k <= |chosen| && EstimatedFee(payloadLen, k) <= EstimatedFee(payloadLen, |chosen|)
  {
    assert sorted == sorted[..k] + sorted[k..];
    forall chosen | Affords(payloadLen, utxos, chosen)
      ensures k <= |chosen| && Covers(payloadLen, sorted, k)
      ensures EstimatedFee(payloadLen, k) <= EstimatedFee(payloadLen, |chosen|)
    {
      GreedyStopsBy(payloadLen, utxos, sorted, chosen, k);
    }
  }

  /** What pays, in sompi. */
  lemma AffordsMeaning(payloadLen: nat, utxos: seq<Utxo>, chosen: seq<Utxo>)
    ensures Affords(payloadLen, utxos, chosen) <==>
            && |chosen| > 0 && multiset(chosen) <= multiset(utxos)
            && EstimatedFee(payloadLen, |chosen|) + 1_000 <= Min(Sum(chosen), U64_MAX)
  {
  }

  /** Nothing left behind is larger than what is taken. */
  ghost predicate TakesLargest(utxos: seq<Utxo>, taken: seq<Utxo>) {
    forall u, v :: u in taken && v in multiset(utxos) - multiset(taken) ==> v.amount <= u.amount
  }

  /** A pick that pays with the fewest inputs, the largest there are. */
  ghost predicate BestPick(payloadLen: nat, utxos: seq<Utxo>, picked: seq<Utxo>) {
    && Affords(payloadLen, utxos, picked)
    && (forall chosen :: Affords(payloadLen, utxos, chosen) ==> |picked| <= |chosen|)
    && TakesLargest(utxos, picked)
  }

  lemma RestOfPrefix(utxos: seq<Utxo>, sorted: seq<Utxo>, k: nat)
    requires multiset(sorted) == multiset(utxos) && k <= |sorted|
    ensures multiset(utxos) - multiset(sorted[..k]) == multiset(sorted[k..])
  {
    assert sorted == sorted[..k] + sorted[k..];
  }

  lemma PrefixTakesLargest(utxos: seq<Utxo>, sorted: seq<Utxo>, k: nat)
    requires Descending(sorted) && multiset(sorted) == multiset(utxos) && k <= |sorted|
    ensures TakesLargest(utxos, sorted[..k])
  {
    RestOfPrefix(utxos, sorted, k);
    forall u, v | u in sorted[..k] && v in multiset(sorted[k..]) ensures v.amount <= u.amount {
      var i :| 0 <= i < k && sorted[i] == u;
      assert v in sorted[k..];
      var j :| k <= j < |sorted| && sorted[j] == v;
    }
  }

  /** Fails exactly when no pick pays; otherwise uses the fewest inputs, and so the lowest fee,
      of any pick that does: the largest ones. Totals saturate as they do in the source. */
  method SelectInputs(payloadLen: nat, utxos: seq<Utxo>) returns (r: Selected)
    ensures r.Insufficient? <==> !exists chosen :: Affords(payloadLen, utxos, chosen)
    ensures r.Inputs? ==>
              && BestPick(payloadLen, utxos, r.inputs)
              && r.total == Min(Sum(r.inputs), U64_MAX)
              && r.fee == EstimatedFee(payloadLen, |r.inputs|)
              && r.total == r.output + r.fee && r.output >= 1_000
    ensures r.Inputs? ==> r.inputs <= SortDescending(utxos)
    ensures r.Inputs? ==> forall chosen :: Affords(payloadLen, utxos, chosen) ==>
              r.fee <= EstimatedFee(payloadLen, |chosen|)
  {
    if utxos == [] {
      return Insufficient;
    }
    var sorted := SortDescending(utxos);
    SizeWithin(utxos, sorted);
    var selected, total := GreedyScan(payloadLen, sorted);
    ScanDecides(payloadLen, utxos, sorted, |selected|);
    var fee := EstimatedFee(payloadLen, |selected|);
    if total < SatAdd(fee, MIN_CHANGE_SOMPI) {
      return Insufficient;
    }
    var output := SatSub(total, fee);
    if output < MIN_CHANGE_SOMPI {
      return Insufficient;
    }
    PrefixTakesLargest(utxos, sorted, |selected|);
    r := Inputs(selected, total, fee, output);
  }
}
