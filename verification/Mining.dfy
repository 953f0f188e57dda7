/** Payload layout and the search for a transaction id with the wanted prefix. */
module Mining {
  import opened Machine
  import opened Selection

  const NONCES := 0x1_0000_0000

  function BigEndian(nonce: u32): seq<byte> {
    [nonce / 0x100_0000, nonce / 0x1_0000 % 0x100, nonce / 0x100 % 0x100, nonce % 0x100]
  }

  function FromBigEndian(bytes: seq<byte>): u32
    requires |bytes| == 4
  {
    var b0: int, b1: int, b2: int, b3: int := bytes[0], bytes[1], bytes[2], bytes[3];
    b0 * 0x100_0000 + b1 * 0x1_0000 + b2 * 0x100 + b3
  }

  /** `[1-byte header] [L2Data] [4-byte big-endian nonce]` */
  function BuildPayload(header: byte, l2data: seq<byte>, nonce: u32): seq<byte> {
    [header] + l2data + BigEndian(nonce)
  }

  datatype PayloadParts = PayloadParts(header: byte, l2data: seq<byte>, nonce: u32)

  function ReadPayload(payload: seq<byte>): PayloadParts
    requires |payload| >= 5
  {
    PayloadParts(payload[0], payload[1..|payload| - 4], FromBigEndian(payload[|payload| - 4..]))
  }

  /** One header byte, the data, and the nonce with its most significant byte first. */
  lemma PayloadLayout(header: byte, l2data: seq<byte>, nonce: u32)
    ensures var payload, n := BuildPayload(header, l2data, nonce), |l2data| + 1;
            && |payload| == n + 4 && payload[0] == header && payload[1..n] == l2data
            && var b0: int, b1: int, b2: int, b3: int := payload[n], payload[n + 1], payload[n + 2], payload[n + 3];
            b0 * 0x100_0000 + b1 * 0x1_0000 + b2 * 0x100 + b3 == nonce
  {
    BigEndianRoundTrip(nonce);
    var payload := BuildPayload(header, l2data, nonce);
    assert payload[|l2data| + 1..] == BigEndian(nonce);
  }

  lemma BigEndianRoundTrip(nonce: u32)
    ensures FromBigEndian(BigEndian(nonce)) == nonce
  {
    assert nonce == nonce / 0x100 * 0x100 + nonce % 0x100;
    var n1 := nonce / 0x100;
    assert n1 == n1 / 0x100 * 0x100 + n1 % 0x100;
    var n2 := n1 / 0x100;
    assert n2 == n2 / 0x100 * 0x100 + n2 % 0x100;
    assert nonce / 0x1_0000 == n2 && nonce / 0x100_0000 == n2 / 0x100;
  }

  lemma FromBigEndianRoundTrip(bytes: seq<byte>)
    requires |bytes| == 4
    ensures BigEndian(FromBigEndian(bytes)) == bytes
  {
    var b0: int, b1: int, b2: int, b3: int := bytes[0], bytes[1], bytes[2], bytes[3];
    var n := FromBigEndian(bytes);
    var high := b0 * 0x1_0000 + b1 * 0x100 + b2;
    assert n == high * 0x100 + b3 && n / 0x100 == high;
    assert high / 0x100 == b0 * 0x100 + b1 && n / 0x1_0000 == b0 * 0x100 + b1;
    assert n / 0x100_0000 == b0;
  }

  /** The layout loses nothing and adds nothing: reading back gives the parts that were
      written, and writing what was read gives the same bytes. */
  lemma PayloadRoundTrip(header: byte, l2data: seq<byte>, nonce: u32, payload: seq<byte>)
    requires |payload| >= 5
    ensures ReadPayload(BuildPayload(header, l2data, nonce)) == PayloadParts(header, l2data, nonce)
    ensures var parts := ReadPayload(payload);
            BuildPayload(parts.header, parts.l2data, parts.nonce) == payload
  {
    BigEndianRoundTrip(nonce);
    var built := BuildPayload(header, l2data, nonce);
    assert built[|built| - 4..] == BigEndian(nonce);
    assert built[1..|built| - 4] == l2data;
    FromBigEndianRoundTrip(payload[|payload| - 4..]);
  }

  // ---- candidates ---------------------------------------------------------

  /** Inputs, output and payload: everything the id depends on. Signatures are not part of it. */
  datatype Body = Body(inputs: seq<Utxo>, output: u64, payload: seq<byte>)

  type TxId = seq<byte>

  function CandidateNonce(i: nat): u32 {
    i % NONCES
  }

  function CandidateOutput(output: u64, i: nat): u64 {
    Max(output - i / NONCES, 0)
  }

  function Candidate(inputs: seq<Utxo>, output: u64, header: byte, l2data: seq<byte>, i: nat): Body {
    Body(inputs, CandidateOutput(output, i), BuildPayload(header, l2data, CandidateNonce(i)))
  }

  /** Two tries build the same transaction exactly when they share the nonce and the output
      has reached zero by both: before that no candidate comes twice. */
  lemma CandidatesRepeatIff(inputs: seq<Utxo>, output: u64, header: byte, l2data: seq<byte>, i: nat, j: nat)
    ensures Candidate(inputs, output, header, l2data, i) == Candidate(inputs, output, header, l2data, j) <==>
            i == j || (i % NONCES == j % NONCES && output <= i / NONCES && output <= j / NONCES)
  {
    var a, b := Candidate(inputs, output, header, l2data, i), Candidate(inputs, output, header, l2data, j);
    PayloadRoundTrip(header, l2data, CandidateNonce(i), a.payload);
    PayloadRoundTrip(header, l2data, CandidateNonce(j), b.payload);
    assert i == i / NONCES * NONCES + i % NONCES && j == j / NONCES * NONCES + j % NONCES;
  }

  // ---- the search ---------------------------------------------------------

  class KaspaTransaction {
    const inputs: seq<Utxo>
    const idOf: Body -> TxId
    const payload: array<byte>
    var output: u64
    var id: TxId

    constructor (inputs: seq<Utxo>, output: u64, bytes: seq<byte>, idOf: Body -> TxId)
      ensures fresh(payload) && payload[..] == bytes
      ensures this.inputs == inputs && this.output == output && this.idOf == idOf
      ensures id == idOf(Contents())
    {
      this.inputs, this.output, this.idOf := inputs, output, idOf;
      payload := new byte[|bytes|](i requires 0 <= i < |bytes| => bytes[i]);
      this.id := [];
      new;
      assert payload[..] == bytes;
      Finalize();
    }

    function Contents(): Body
      reads this, payload
    {
      Body(inputs, output, payload[..])
    }

    method Finalize()
      modifies this`id
      ensures id == idOf(Contents())
    {
      id := idOf(Body(inputs, output, payload[..]));
    }

    /** `payload[nonce_offset..].copy_from_slice(&nonce.to_be_bytes())` */
    method OverwriteNonce(nonce: u32)
      requires payload.Length >= 5
      modifies payload
      ensures payload[..] == old(payload[..payload.Length - 4]) + BigEndian(nonce)
    {
      var offset := payload.Length - 4;
      var bytes := BigEndian(nonce);
      for k := 0 to 4
        invariant payload[..offset] == old(payload[..payload.Length - 4])
        invariant payload[offset..offset + k] == bytes[..k]
      {
        payload[offset + k] := bytes[k];
      }
      assert payload[..] == payload[..offset] + payload[offset..];
    }
  }

  datatype Mined = TimedOut | Found(nonce: u32, tx: Body)

  predicate FruitlessTry(
    inputs: seq<Utxo>, output: u64, header: byte, l2data: seq<byte>, idOf: Body -> TxId, prefix: TxId,
    timedOut: nat -> bool, i: nat)
  {
    !timedOut(i) && !(prefix <= idOf(Candidate(inputs, output, header, l2data, i)))
  }

  /** No try below `n` timed out or met the prefix. */
  ghost predicate Fruitless(
    inputs: seq<Utxo>, output: u64, header: byte, l2data: seq<byte>, idOf: Body -> TxId, prefix: TxId,
    timedOut: nat -> bool, n: nat)
  {
    forall i: nat :: i < n ==> FruitlessTry(inputs, output, header, l2data, idOf, prefix, timedOut, i)
  }

  /** Returns the first candidate whose id has the prefix, or times out having found none.
      `timedOut(i)` is what the clock says before try `i`; it says yes at some point. */
  method Mine(
    inputs: seq<Utxo>, output: u64, header: byte, l2data: seq<byte>, prefix: TxId,
    idOf: Body -> TxId, timedOut: nat -> bool, ghost deadline: nat)
    returns (r: Mined, tries: nat)
    requires timedOut(deadline)
    ensures Fruitless(inputs, output, header, l2data, idOf, prefix, timedOut, tries)
    ensures r.TimedOut? <==> timedOut(tries)
    ensures r.Found? ==>
              && r.tx == Candidate(inputs, output, header, l2data, tries)
              && r.nonce == CandidateNonce(tries)
              && prefix <= idOf(r.tx)
  {
    var tx := new KaspaTransaction(inputs, output, BuildPayload(header, l2data, 0), idOf);
    var nonce: u32 := 0;
    tries := 0;
    while true
      invariant tries <= deadline
      invariant nonce == CandidateNonce(tries) && tx.output == CandidateOutput(output, tries)
      invariant tx.payload.Length == |l2data| + 5
      invariant tx.payload[..|l2data| + 1] == [header] + l2data
      invariant Fruitless(inputs, output, header, l2data, idOf, prefix, timedOut, tries)
      decreases deadline - tries
    {
      if timedOut(tries) {
        return TimedOut, tries;
      }
      tx.OverwriteNonce(nonce);
      tx.Finalize();
      assert tx.Contents() == Candidate(inputs, output, header, l2data, tries);
      if prefix <= tx.id {
        return Found(nonce, tx.Contents()), tries;
      }
      assert FruitlessTry(inputs, output, header, l2data, idOf, prefix, timedOut, tries);
      nonce := if nonce == U32_MAX then 0 else nonce + 1;
      if nonce == 0 {
        tx.output := SatSub(tx.output, 1);
        tx.Finalize();
      }
      NextCandidate(output, tries);
      assert tx.payload[..|l2data| + 1] == [header] + l2data;
      tries := tries + 1;
    }
  }

  /** The search starts with nonce zero and the whole output. */
  lemma FirstCandidate(inputs: seq<Utxo>, output: u64, header: byte, l2data: seq<byte>)
    ensures Candidate(inputs, output, header, l2data, 0) == Body(inputs, output, BuildPayload(header, l2data, 0))
    ensures forall i :: Candidate(inputs, output, header, l2data, i).inputs == inputs
    ensures forall i :: Candidate(inputs, output, header, l2data, i).payload
                        == BuildPayload(header, l2data, CandidateNonce(i))
    ensures forall i :: Candidate(inputs, output, header, l2data, i).output == CandidateOutput(output, i)
  {
  }

  /** One more try: the nonce wraps every 2^32 tries and takes one sompi with it. */
  lemma NextCandidate(output: u64, i: nat)
    ensures CandidateNonce(i + 1) == if CandidateNonce(i) == U32_MAX then 0 else CandidateNonce(i) + 1
    ensures CandidateOutput(output, i + 1) ==
            if CandidateNonce(i) == U32_MAX then SatSub(CandidateOutput(output, i), 1) else CandidateOutput(output, i)
  {
    var q, m := i / NONCES, i % NONCES;
    assert i == q * NONCES + m;
    if m == U32_MAX {
      assert i + 1 == (q + 1) * NONCES;
    } else {
      assert i + 1 == q * NONCES + (m + 1);
    }
  }
}
