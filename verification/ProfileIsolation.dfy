/** Rows in `tx_map` carry the profile recorded in `schema_meta`. */
module ProfileIsolation {
  import opened Machine
  import opened StoreModel

  /** What a store handle, and whoever holds one, can do to the tables. */
  datatype Op =
    | Open(profile: Profile, evicted: set<string>)
    | Write(update: Update, wall: u64)
    | Lock(sender: string, owner: string, nonce: u64, hash: string, now: u64, lease: u64, wall: u64)
    | Unlock(sender: string, owner: string)
    | MarkNonce(sender: string, nonce: u64, wall: u64)

  /** The tables, and the profile of the handle opened last. */
  datatype Session = Session(db: Db, handle: Option<Profile>)

  function Step(s: Session, op: Op): Session {
    match op
    case Open(profile, evicted) =>
      Session(Opened(s.db, profile, evicted), Some(profile))
    case Write(update, wall) =>
      if s.handle.None? then s else s.(db := Persist(s.db, s.handle.value, update, wall))
    case Lock(sender, owner, nonce, hash, now, lease, wall) =>
      s.(db := TryAcquireAndClassify(s.db, sender, owner, nonce, hash, now, lease, wall).0)
    case Unlock(sender, owner) => s.(db := Release(s.db, sender, owner))
    case MarkNonce(sender, nonce, wall) =>
      var marked := MarkSubmitted(s.db, sender, nonce, wall);
      if marked.Some? then s.(db := marked.value) else s
  }

  function Sessions(ops: seq<Op>): Session {
    if ops == [] then Session(EMPTY_DB, None) else Step(Sessions(ops[..|ops| - 1]), ops[|ops| - 1])
  }

  /** The metadata records exactly this profile. */
  predicate Records(meta: map<string, string>, profile: Profile) {
    && Lookup(meta, CHAIN_ID_KEY) == Some(Decimal(profile.chainId))
    && Lookup(meta, NETWORK_KEY) == Some(profile.network)
    && Lookup(meta, EL_FINGERPRINT_KEY) == profile.elFingerprint
    && Lookup(meta, KASPA_FINGERPRINT_KEY) == profile.kaspaFingerprint
  }

  function Stamp(row: TxRow): Profile {
    Profile(AsU64(row.chainId), row.network, row.elFingerprint, row.kaspaFingerprint)
  }

  ghost predicate Isolated(db: Db) {
    forall h :: h in db.txMap ==> Records(db.meta, Stamp(db.txMap[h]))
  }

  /** A recorded profile is unique, so rows that match it agree with one another. */
  lemma RecordsOne(meta: map<string, string>, p: Profile, q: Profile)
    requires Records(meta, p) && Records(meta, q)
    ensures p == q
  {
    DecimalInjective(p.chainId, q.chainId);
  }

  /** Once a profile is recorded, any other one is a change. */
  lemma ChangedIff(meta: map<string, string>, recorded: Profile, profile: Profile)
    requires Records(meta, recorded)
    ensures ProfileChanged(meta, profile) <==> profile != recorded
  {
    if !ProfileChanged(meta, profile) { RecordsOne(meta, recorded, profile); }
  }

  lemma ReconcileRecords(db: Db, profile: Profile)
    ensures Records(Reconcile(db, profile).meta, profile)
  {
  }

  /** Opening keeps rows only when the recorded profile is the handle's own. */
  lemma ReconcileIsolates(db: Db, profile: Profile)
    requires Isolated(db)
    ensures Isolated(Reconcile(db, profile))
  {
    ReconcileRecords(db, profile);
    forall h | h in Reconcile(db, profile).txMap
      ensures Records(Reconcile(db, profile).meta, Stamp(db.txMap[h]))
    {
      assert !ProfileChanged(db.meta, profile);
      assert Records(db.meta, Stamp(db.txMap[h]));
    }
  }

  /** A write keeps the table isolated exactly when its handle's profile is the recorded one:
      what goes wrong with a second handle, and all that goes wrong. */
  lemma WriteIsolatedIff(db: Db, profile: Profile, update: Update, wall: u64)
    requires Isolated(db)
    ensures Isolated(Persist(db, profile, update, wall)) <==> Records(db.meta, profile)
  {
    var after := Persist(db, profile, update, wall);
    assert Stamp(after.txMap[update.hash]) == profile;
    assert forall h :: h in after.txMap && h != update.hash ==> after.txMap[h] == db.txMap[h];
  }

  ghost predicate SessionInv(s: Session) {
    && Isolated(s.db)
    && (s.handle.Some? ==> Records(s.db.meta, s.handle.value))
  }

  lemma OpenKeeps(db: Db, profile: Profile, evicted: set<string>)
    requires Isolated(db)
    ensures Isolated(Opened(db, profile, evicted)) && Records(Opened(db, profile, evicted).meta, profile)
  {
    var migrated := db.(meta := db.meta[SCHEMA_VERSION_KEY := "1"]);
    forall h | h in migrated.txMap ensures Records(migrated.meta, Stamp(migrated.txMap[h])) {
      assert Records(db.meta, Stamp(db.txMap[h]));
    }
    ReconcileRecords(migrated, profile);
    ReconcileIsolates(migrated, profile);
  }

  lemma StepKeeps(s: Session, op: Op)
    requires SessionInv(s)
    ensures SessionInv(Step(s, op))
  {
    match op
    case Open(profile, evicted) => OpenKeeps(s.db, profile, evicted);
    case Write(update, wall) =>
      if s.handle.Some? {
        WriteIsolatedIff(s.db, s.handle.value, update, wall);
      }
    case _ =>
  }

  lemma {:induction false} SessionInvHolds(ops: seq<Op>)
    ensures SessionInv(Sessions(ops))
  {
    if ops != [] {
      SessionInvHolds(ops[..|ops| - 1]);
      StepKeeps(Sessions(ops[..|ops| - 1]), ops[|ops| - 1]);
    }
  }

  /** Main result: after any opens with any profiles and any writes through the handle opened
      last, every row carries the recorded chain id, network and fingerprints. */
  lemma ProfileIsolationHolds(ops: seq<Op>, h: string)
    requires h in Sessions(ops).db.txMap
    ensures var s := Sessions(ops);
            && s.handle.Some?
            && Records(s.db.meta, s.handle.value)
            && Stamp(s.db.txMap[h]) == s.handle.value
  {
    SessionInvHolds(ops);
    RowsNeedHandle(ops);
    var s := Sessions(ops);
    RecordsOne(s.db.meta, Stamp(s.db.txMap[h]), s.handle.value);
  }

  lemma {:induction false} RowsNeedHandle(ops: seq<Op>)
    ensures Sessions(ops).handle.None? ==> Sessions(ops).db.txMap == map[]
  {
    if ops != [] {
      RowsNeedHandle(ops[..|ops| - 1]);
    }
  }

  /** With two handles it does go wrong: a store is opened for one profile, then for another, and
      then written through the first handle. */
  lemma SecondHandleBreaksIsolation(first: Profile, second: Profile, update: Update, wall: u64)
    requires first != second
    ensures var both := Opened(Opened(EMPTY_DB, first, {}), second, {});
            Isolated(both) && !Isolated(Persist(both, first, update, wall))
  {
    var once := Opened(EMPTY_DB, first, {});
    var both := Opened(once, second, {});
    OpenKeeps(EMPTY_DB, first, {});
    OpenKeeps(once, second, {});
    WriteIsolatedIff(both, first, update, wall);
    if Records(both.meta, first) { RecordsOne(both.meta, first, second); }
  }
}
