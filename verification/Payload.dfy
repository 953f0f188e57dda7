/** Building the transaction that carries a payload: selection, then mining. */
module Payload {
  import opened Machine
  import opened Selection
  import opened Mining

  datatype BuildError = InsufficientUtxos | EmptyPrefix | MiningTimeout

  datatype Built = Failed(error: BuildError) | Mined(payloadNonce: u64, tx: Body, fee: u64)

  /** `usize` lengths saturate. */
  function PayloadLength(l2data: seq<byte>): u64 {
    SatAdd(SatAdd(1, Min(|l2data|, U64_MAX)), 4)
  }

  lemma LengthEstimated(header: byte, l2data: seq<byte>, nonce: u32)
    ensures |l2data| + 5 <= U64_MAX ==> PayloadLength(l2data) == |BuildPayload(header, l2data, nonce)|
  {
  }

  lemma WrapsAccounted(inputs: seq<Utxo>, total: u64, fee: u64, output: u64, tries: nat)
    requires total == Min(Sum(inputs), U64_MAX) && total == output + fee
    ensures Sum(inputs) <= U64_MAX ==>
              Sum(inputs) == CandidateOutput(output, tries) + fee + Min(tries / NONCES, Sum(inputs) - fee)
  {
  }

  /** A built transaction carries the payload with the mined nonce under an id with the prefix,
      its fee is the one for the payload and inputs it has, and it accounts for every sompi:
      output, fee, and one per wrap of the nonce. */
  ghost predicate WellBuilt(
    r: Built, header: byte, l2data: seq<byte>, prefix: TxId, idOf: Body -> TxId, tries: nat)
    requires r.Mined?
  {
    && prefix <= idOf(r.tx)
    && r.payloadNonce <= U32_MAX && r.tx.payload == BuildPayload(header, l2data, r.payloadNonce)
    && r.fee == EstimatedFee(PayloadLength(l2data), |r.tx.inputs|)
    && (|l2data| + 5 <= U64_MAX ==> r.fee == EstimatedFee(|r.tx.payload|, |r.tx.inputs|))
    && (Sum(r.tx.inputs) <= U64_MAX ==>
          && r.fee <= Sum(r.tx.inputs)
          && Sum(r.tx.inputs) == r.tx.output + r.fee + Min(tries / NONCES, Sum(r.tx.inputs) - r.fee))
  }

  /** Mines what was selected. */
  method MineSelected(
    header: byte, l2data: seq<byte>, prefix: TxId, selected: Selected,
    idOf: Body -> TxId, timedOut: nat -> bool, ghost deadline: nat)
    returns (r: Built, tries: nat)
    requires timedOut(deadline)
    requires selected.Inputs? && selected.total == Min(Sum(selected.inputs), U64_MAX)
    requires selected.total == selected.output + selected.fee
    requires selected.fee == EstimatedFee(PayloadLength(l2data), |selected.inputs|)
    ensures r.Failed? ==> r.error == MiningTimeout && timedOut(tries)
    ensures r.Mined? ==> r.tx.inputs == selected.inputs && WellBuilt(r, header, l2data, prefix, idOf, tries)
  {
    var mined;
    mined, tries := Mine(selected.inputs, selected.output, header, l2data, prefix, idOf, timedOut, deadline);
    match mined {
      case TimedOut => r := Failed(MiningTimeout);
      case Found(nonce, tx) =>
        LengthEstimated(header, l2data, nonce);
        WrapsAccounted(selected.inputs, selected.total, selected.fee, selected.output, tries);
        r := Mined(nonce, tx, selected.fee);
    }
  }

  /** Which error wins is decided by the inputs alone, except for the clock; a built transaction
      spends the best affordable pick. */
  method MineAndBuild(
    header: byte, l2data: seq<byte>, prefix: TxId, utxos: seq<Utxo>,
    idOf: Body -> TxId, timedOut: nat -> bool, ghost deadline: nat)
    returns (r: Built, tries: nat)
    requires timedOut(deadline)
    ensures r == Failed(EmptyPrefix) <==> utxos != [] && prefix == []
    ensures r == Failed(InsufficientUtxos) <==>
              utxos == [] || (prefix != [] && !exists chosen :: Affords(PayloadLength(l2data), utxos, chosen))
    ensures r == Failed(MiningTimeout) ==> timedOut(tries)
    ensures r.Mined? ==>
              && BestPick(PayloadLength(l2data), utxos, r.tx.inputs)
              && WellBuilt(r, header, l2data, prefix, idOf, tries)
  {
    tries := 0;
    if utxos == [] {
      return Failed(InsufficientUtxos), 0;
    }
    if prefix == [] {
      return Failed(EmptyPrefix), 0;
    }
    var selected := SelectInputs(PayloadLength(l2data), utxos);
    if selected.Insufficient? {
      return Failed(InsufficientUtxos), 0;
    }
    r, tries := MineSelected(header, l2data, prefix, selected, idOf, timedOut, deadline);
  }
}
