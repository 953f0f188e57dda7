/** The SQLite tables behind `IgraStore` as maps, and every transaction the store
    runs as a function from the tables before it to the tables after it. */
module StoreModel {
  import opened Machine

  const NONCE_GAP_CODE := "IGRA_NONCE_001"
  const LOCK_TIMEOUT_CODE := "IGRA_NONCE_002"
  const REPLACEMENT_CANDIDATE_CODE := "IGRA_NONCE_004"

  const SCHEMA_VERSION_KEY := "tx_map_schema_version"
  const CHAIN_ID_KEY := "profile.expected_el_chain_id"
  const NETWORK_KEY := "profile.kaspa_network"
  const EL_FINGERPRINT_KEY := "profile.el_rpc_fingerprint"
  const KASPA_FINGERPRINT_KEY := "profile.kaspa_rpc_fingerprint"

  datatype TxState =
    | ReceivedRawL2
    | KaspaUnsignedCreated
    | KaspaPrefixMined
    | KaspaSigned
    | KaspaBroadcasted
    | FailedRecoverable
    | BlockedNonceGap
    | BlockedLockTimeout
    | StaleReplacementCandidate

  datatype LockRow = LockRow(owner: string, expiresAtMs: i64, updatedAtMs: i64)

  datatype NonceRow = NonceRow(nextExpected: i64, updatedAtMs: i64)

  datatype TxRow = TxRow(
    sender: string, l2Nonce: i64, payloadNonce: Option<i64>, kaspaTxId: Option<string>,
    state: TxState, chainId: i64, network: string,
    elFingerprint: Option<string>, kaspaFingerprint: Option<string>,
    correlationId: string, attempts: u32, errorCode: Option<string>,
    createdAtMs: i64, updatedAtMs: i64)

  /** The four tables, each keyed by its primary key. */
  datatype Db = Db(
    locks: map<string, LockRow>,
    nonces: map<string, NonceRow>,
    txMap: map<string, TxRow>,
    meta: map<string, string>)

  const EMPTY_DB := Db(map[], map[], map[], map[])

  /** What a store handle stamps on the rows it writes. */
  datatype Profile = Profile(
    chainId: u64, network: string,
    elFingerprint: Option<string>, kaspaFingerprint: Option<string>)

  datatype Update = Update(
    hash: string, sender: string, l2Nonce: u64, payloadNonce: Option<u64>,
    kaspaTxId: Option<string>, state: TxState, correlationId: string,
    errorCode: Option<string>, increment: bool)

  datatype Classification =
    | InOrder(expected: u64)
    | Stale(expected: u64, replacement: bool)
    | Gap(expected: u64, got: u64)

  // ---- sender locks -------------------------------------------------------

  /** The lease is twice the timeout, so it outlives the call that waits for it, until both are
      cut off at the u64 maximum. */
  lemma LeaseTwiceTimeout(timeoutSecs: u64)
    ensures TimeoutMs(timeoutSecs) == Min(timeoutSecs * 1000, 0xFFFF_FFFF_FFFF_FFFF)
    ensures LeaseMs(timeoutSecs) == Min(timeoutSecs * 2000, 0xFFFF_FFFF_FFFF_FFFF)
  {
  }

  function TimeoutMs(timeoutSecs: u64): u64 {
    SatMul(timeoutSecs, 1000)
  }

  function LeaseMs(timeoutSecs: u64): u64 {
    SatMul(TimeoutMs(timeoutSecs), 2)
  }

  predicate CanAcquire(db: Db, sender: string, owner: string, now: u64) {
    sender !in db.locks
    || db.locks[sender].owner == owner
    || AsU64(db.locks[sender].expiresAtMs) < now
  }

  function UpsertLock(db: Db, sender: string, owner: string, now: u64, lease: u64): Db {
    db.(locks := db.locks[sender := LockRow(owner, AsI64(SatAdd(now, lease)), AsI64(now))])
  }

  function TryAcquire(db: Db, sender: string, owner: string, now: u64, lease: u64): (Db, bool) {
    if CanAcquire(db, sender, owner, now)
    then (UpsertLock(db, sender, owner, now, lease), true)
    else (db, false)
  }

  function Release(db: Db, sender: string, owner: string): Db {
    if sender in db.locks && db.locks[sender].owner == owner
    then db.(locks := db.locks - {sender})
    else db
  }

  /** True when `owner` holds the lock row of `sender` and the row lasts until `expires`. */
  predicate HasLease(db: Db, sender: string, owner: string, expires: u64) {
    && sender in db.locks
    && db.locks[sender].owner == owner
    && AsU64(db.locks[sender].expiresAtMs) == expires
  }

  /** A lock goes to whoever finds it free, their own or run out; nobody else's row changes. */
  lemma AcquireOutcome(db: Db, sender: string, owner: string, now: u64, lease: u64)
    ensures var (db', acquired) := TryAcquire(db, sender, owner, now, lease);
            && (acquired <==> sender !in db.locks || db.locks[sender].owner == owner
                              || AsU64(db.locks[sender].expiresAtMs) < now)
            && (acquired ==>
                  && HasLease(db', sender, owner, Min(now + lease, 0xFFFF_FFFF_FFFF_FFFF))
                  && AsU64(db'.locks[sender].updatedAtMs) == now)
            && db'.(locks := db.locks) == db && db'.locks - {sender} == db.locks - {sender}
            && (!acquired ==> db' == db)
  {
    assert AsU64(AsI64(SatAdd(now, lease))) == SatAdd(now, lease);
  }

  /** A release takes away the sender's row exactly when it is the owner's, and nothing else. */
  lemma ReleaseOutcome(db: Db, sender: string, owner: string)
    ensures var db' := Release(db, sender, owner);
            && (sender in db'.locks <==> sender in db.locks && db.locks[sender].owner != owner)
            && (sender in db'.locks ==> db'.locks[sender] == db.locks[sender])
            && db'.(locks := db.locks) == db && db'.locks - {sender} == db.locks - {sender}
  {
  }

  // ---- sender nonces ------------------------------------------------------

  function Next(db: Db, sender: string): u64
    requires sender in db.nonces
  {
    AsU64(db.nonces[sender].nextExpected)
  }

  predicate IsReplacementCandidate(db: Db, sender: string, nonce: u64, hash: string) {
    exists other :: other in db.txMap && other != hash
                    && db.txMap[other].sender == sender && db.txMap[other].l2Nonce == AsI64(nonce)
  }

  /** `wall` is the clock reading taken inside the transaction. */
  function Classify(db: Db, sender: string, nonce: u64, hash: Option<string>, wall: u64): (Db, Classification) {
    var seen := if sender in db.nonces then db
                else db.(nonces := db.nonces[sender := NonceRow(AsI64(nonce), AsI64(wall))]);
    var expected := Next(seen, sender);
    if nonce > expected then (seen, Gap(expected, nonce))
    else if nonce == expected then (seen, InOrder(expected))
    else (seen, Stale(expected, hash.Some? && IsReplacementCandidate(seen, sender, nonce, hash.value)))
  }

  /** The nonce is measured against the stored next one, or starts the sender's sequence; the
      answer carries both numbers. */
  lemma ClassifyOutcome(db: Db, sender: string, nonce: u64, hash: Option<string>, wall: u64)
    ensures var (db', ordering) := Classify(db, sender, nonce, hash, wall);
            var next := if sender in db.nonces then Next(db, sender) else nonce;
            && (nonce > next ==> ordering == Gap(next, nonce))
            && (nonce == next ==> ordering == InOrder(next))
            && (nonce < next ==> ordering.Stale? && ordering.expected == next)
            && (nonce < next ==> (ordering.replacement <==>
                  exists h :: h in db.txMap && Some(h) != hash && hash.Some?
                              && db.txMap[h].sender == sender && AsU64(db.txMap[h].l2Nonce) == nonce))
            && sender in db'.nonces && Next(db', sender) == next
            && (sender !in db.nonces ==> AsU64(db'.nonces[sender].updatedAtMs) == wall)
            && db'.(nonces := db.nonces) == db && db'.nonces - {sender} == db.nonces - {sender}
            && (sender in db.nonces ==> db' == db)
  {
  }

  /** Lock and classify in one transaction. A gap is an error, and an error drops the
      transaction, so the lock row it has just written goes away with it. */
  function TryAcquireAndClassify(
    db: Db, sender: string, owner: string, nonce: u64, hash: string, now: u64, lease: u64, wall: u64)
    : (Db, Option<Classification>)
  {
    if !CanAcquire(db, sender, owner, now) then (db, None)
    else
      var (classified, ordering) :=
        Classify(UpsertLock(db, sender, owner, now, lease), sender, nonce, Some(hash), wall);
      if ordering.Gap? then (db, Some(ordering)) else (classified, Some(ordering))
  }

  /** A replacement candidate is a second transaction for a sender and nonce already on record
      under another hash. */
  lemma ReplacementMeaning(db: Db, sender: string, nonce: u64, hash: string)
    ensures IsReplacementCandidate(db, sender, nonce, hash) <==>
            exists h :: h != hash && Load(db, h).Some?
                        && Load(db, h).value.sender == sender && Load(db, h).value.l2Nonce == nonce
  {
    if IsReplacementCandidate(db, sender, nonce, hash) {
      var h :| h in db.txMap && h != hash && db.txMap[h].sender == sender && db.txMap[h].l2Nonce == AsI64(nonce);
      assert Load(db, h).value.l2Nonce == nonce;
    }
  }

  /** What the joint transaction leaves behind: a gap or a held lock changes nothing; an ordering
      comes with a lease for the owner that ends one lease after its clock reading, and with a
      nonce row that the ordering compares against. */
  lemma AttemptOutcome(
    db: Db, sender: string, owner: string, nonce: u64, hash: string, now: u64, lease: u64, wall: u64)
    ensures var (db', outcome) := TryAcquireAndClassify(db, sender, owner, nonce, hash, now, lease, wall);
            && (outcome.None? <==> !CanAcquire(db, sender, owner, now))
            && (outcome.None? || outcome.value.Gap? ==> db' == db)
            && (outcome.Some? && outcome.value.Gap? ==>
                  sender in db.nonces && nonce > Next(db, sender) && outcome.value == Gap(Next(db, sender), nonce))
            && (outcome.Some? && !outcome.value.Gap? ==>
                  && HasLease(db', sender, owner, SatAdd(now, lease))
                  && db'.locks - {sender} == db.locks - {sender} && db'.txMap == db.txMap
                  && sender in db'.nonces && outcome.value.expected == Next(db', sender)
                  && (outcome.value.InOrder? <==> nonce == Next(db', sender))
                  && (outcome.value.Stale? <==> nonce < Next(db', sender))
                  && (outcome.value.Stale? ==>
                        (outcome.value.replacement <==> IsReplacementCandidate(db, sender, nonce, hash)))
                  && (sender in db.nonces ==> db'.nonces == db.nonces)
                  && (sender !in db.nonces ==> outcome.value == InOrder(nonce)))
  {
    assert AsU64(AsI64(SatAdd(now, lease))) == SatAdd(now, lease);
  }

  /** None is the overflow error. */
  function MarkSubmitted(db: Db, sender: string, nonce: u64, wall: u64): Option<Db> {
    if nonce == U64_MAX then None
    else if sender !in db.nonces || Next(db, sender) == nonce then
      Some(db.(nonces := db.nonces[sender := NonceRow(AsI64(nonce + 1), AsI64(wall))]))
    else Some(db)
  }

  /** A mark moves the next nonce past its own, unless the row is elsewhere; a missing row starts
      there. Only the largest nonce cannot be marked. */
  lemma MarkOutcome(db: Db, sender: string, nonce: u64, wall: u64)
    ensures var marked := MarkSubmitted(db, sender, nonce, wall);
            && (marked.None? <==> nonce == 0xFFFF_FFFF_FFFF_FFFF)
            && (marked.Some? ==>
                  var db' := marked.value;
                  && sender in db'.nonces
                  && Next(db', sender) == (if sender in db.nonces && Next(db, sender) != nonce then Next(db, sender)
                                           else nonce + 1)
                  && (db' != db ==> AsU64(db'.nonces[sender].updatedAtMs) == wall)
                  && db'.(nonces := db.nonces) == db && db'.nonces - {sender} == db.nonces - {sender})
  {
  }

  // ---- tx lifecycle rows --------------------------------------------------

  function Persist(db: Db, profile: Profile, u: Update, wall: u64): Db {
    var bump: u32 := if u.increment then 1 else 0;
    var attempts: u32 :=
      if u.hash in db.txMap then Min(db.txMap[u.hash].attempts + bump, U32_MAX) else bump;
    var createdAtMs := if u.hash in db.txMap then db.txMap[u.hash].createdAtMs else AsI64(wall);
    var row := TxRow(
      u.sender, AsI64(u.l2Nonce),
      if u.payloadNonce.Some? then Some(AsI64(u.payloadNonce.value)) else None,
      u.kaspaTxId, u.state, AsI64(profile.chainId), profile.network,
      profile.elFingerprint, profile.kaspaFingerprint,
      u.correlationId, attempts, u.errorCode, createdAtMs, AsI64(wall));
    db.(txMap := db.txMap[u.hash := row])
  }

  /** A row as `load_tx` hands it back. */
  datatype TxRecord = TxRecord(
    hash: string, sender: string, l2Nonce: u64, payloadNonce: Option<u64>,
    kaspaTxId: Option<string>, state: TxState, profile: Profile,
    correlationId: string, attempts: u32, errorCode: Option<string>,
    createdAtMs: u64, updatedAtMs: u64)

  function Load(db: Db, hash: string): Option<TxRecord> {
    if hash !in db.txMap then None
    else
      var row := db.txMap[hash];
      Some(TxRecord(
        hash, row.sender, AsU64(row.l2Nonce),
        if row.payloadNonce.Some? then Some(AsU64(row.payloadNonce.value)) else None,
        row.kaspaTxId, row.state,
        Profile(AsU64(row.chainId), row.network, row.elFingerprint, row.kaspaFingerprint),
        row.correlationId, row.attempts, row.errorCode,
        AsU64(row.createdAtMs), AsU64(row.updatedAtMs)))
  }

  /** Loading what was persisted gives back every value of the update, through both casts, with
      the handle's profile. */
  lemma PersistThenLoad(db: Db, profile: Profile, u: Update, wall: u64)
    ensures var loaded := Load(Persist(db, profile, u, wall), u.hash);
            && loaded.Some?
            && var r := loaded.value;
               && r.hash == u.hash && r.sender == u.sender && r.l2Nonce == u.l2Nonce
               && r.payloadNonce == u.payloadNonce && r.kaspaTxId == u.kaspaTxId && r.state == u.state
               && r.profile == profile && r.correlationId == u.correlationId && r.errorCode == u.errorCode
               && r.updatedAtMs == wall
               && r.attempts == Min((if Load(db, u.hash).Some? then Load(db, u.hash).value.attempts else 0)
                                    + (if u.increment then 1 else 0), 0xFFFF_FFFF)
               && r.createdAtMs == (if Load(db, u.hash).Some? then Load(db, u.hash).value.createdAtMs else wall)
    ensures forall h :: h != u.hash ==> Load(Persist(db, profile, u, wall), h) == Load(db, h)
  {
    assert forall x: u64 :: AsU64(AsI64(x)) == x;
  }

  /** States that no pruning statement names. */
  predicate InFlight(state: TxState) {
    state.ReceivedRawL2? || state.KaspaUnsignedCreated? || state.KaspaPrefixMined? || state.KaspaSigned?
  }

  // ---- profile ------------------------------------------------------------

  function Lookup(meta: map<string, string>, key: string): Option<string> {
    if key in meta then Some(meta[key]) else None
  }

  function SetMeta(meta: map<string, string>, key: string, value: Option<string>): map<string, string> {
    if value.Some? then meta[key := value.value] else meta - {key}
  }

  /** A missing chain id or network is not a change; a missing fingerprint is compared as it stands. */
  predicate ProfileChanged(meta: map<string, string>, profile: Profile) {
    || (CHAIN_ID_KEY in meta && meta[CHAIN_ID_KEY] != Decimal(profile.chainId))
    || (NETWORK_KEY in meta && meta[NETWORK_KEY] != profile.network)
    || Lookup(meta, EL_FINGERPRINT_KEY) != profile.elFingerprint
    || Lookup(meta, KASPA_FINGERPRINT_KEY) != profile.kaspaFingerprint
  }

  function StampProfile(meta: map<string, string>, profile: Profile): map<string, string> {
    var m1 := SetMeta(meta, CHAIN_ID_KEY, Some(Decimal(profile.chainId)));
    var m2 := SetMeta(m1, NETWORK_KEY, Some(profile.network));
    var m3 := SetMeta(m2, EL_FINGERPRINT_KEY, profile.elFingerprint);
    SetMeta(m3, KASPA_FINGERPRINT_KEY, profile.kaspaFingerprint)
  }

  function Reconcile(db: Db, profile: Profile): Db {
    var kept := if ProfileChanged(db.meta, profile) then EMPTY_DB.(meta := db.meta) else db;
    kept.(meta := StampProfile(db.meta, profile))
  }

  /** An open keeps every row when the recorded profile is missing or the same, fingerprints
      included, and otherwise drops all three tables; afterwards its own profile is recorded. */
  lemma ReconcileOutcome(db: Db, profile: Profile)
    ensures var db' := Reconcile(db, profile);
            var same := && Lookup(db.meta, CHAIN_ID_KEY) in {None, Some(Decimal(profile.chainId))}
                        && Lookup(db.meta, NETWORK_KEY) in {None, Some(profile.network)}
                        && Lookup(db.meta, EL_FINGERPRINT_KEY) == profile.elFingerprint
                        && Lookup(db.meta, KASPA_FINGERPRINT_KEY) == profile.kaspaFingerprint;
            && (same ==> db'.(meta := db.meta) == db)
            && (!same ==> db'.locks == map[] && db'.nonces == map[] && db'.txMap == map[])
            && Lookup(db'.meta, CHAIN_ID_KEY) == Some(Decimal(profile.chainId))
            && Lookup(db'.meta, NETWORK_KEY) == Some(profile.network)
            && Lookup(db'.meta, EL_FINGERPRINT_KEY) == profile.elFingerprint
            && Lookup(db'.meta, KASPA_FINGERPRINT_KEY) == profile.kaspaFingerprint
  {
  }

  /** A writable open: migrate, reconcile, and prune away `evicted`. */
  function Opened(db: Db, profile: Profile, evicted: set<string>): Db {
    var reconciled := Reconcile(db.(meta := db.meta[SCHEMA_VERSION_KEY := "1"]), profile);
    reconciled.(txMap := reconciled.txMap - evicted)
  }
}
