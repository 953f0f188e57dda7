/** `IgraStore`: handles over one SQLite file, whose tables they update in place. */
module Store {
  import opened Machine
  import opened StoreModel

  class Database {
    var locks: map<string, LockRow>
    var nonces: map<string, NonceRow>
    var txMap: map<string, TxRow>
    var meta: map<string, string>

    function Tables(): Db
      reads this
    {
      Db(locks, nonces, txMap, meta)
    }

    constructor ()
      ensures Tables() == EMPTY_DB
    {
      locks, nonces, txMap, meta := map[], map[], map[], map[];
    }

    /** Other processes have committed since this handle last looked. */
    method Observe(found: Db)
      modifies this
      ensures Tables() == found
    {
      locks, nonces, txMap, meta := found.locks, found.nonces, found.txMap, found.meta;
    }
  }

  /** What one poll of the lock loop meets: a busy database, or these tables. */
  datatype Poll = Busy | Found(db: Db)

  datatype LockResult = Ordering(ordering: Classification) | NonceGap(expected: u64, got: u64) | LockTimeout

  /** What the poll that gets the lock is told, read off the nonce row it meets. */
  function Verdict(db: Db, sender: string, nonce: u64, hash: string): LockResult {
    if sender !in db.nonces then Ordering(InOrder(nonce))
    else if nonce > Next(db, sender) then NonceGap(Next(db, sender), nonce)
    else if nonce == Next(db, sender) then Ordering(InOrder(nonce))
    else Ordering(Stale(Next(db, sender), IsReplacementCandidate(db, sender, nonce, hash)))
  }

  lemma VerdictIsOutcome(
    db: Db, sender: string, owner: string, nonce: u64, hash: string, now: u64, lease: u64, wall: u64)
    requires CanAcquire(db, sender, owner, now)
    ensures TryAcquireAndClassify(db, sender, owner, nonce, hash, now, lease, wall).1 ==
            match Verdict(db, sender, nonce, hash)
            case Ordering(ordering) => Some(ordering)
            case NonceGap(expected, got) => Some(Gap(expected, got))
            case LockTimeout => None
  {
    AttemptOutcome(db, sender, owner, nonce, hash, now, lease, wall);
  }

  const EVICTION_BATCH := 1024
  const MS_PER_HOUR := 3_600_000

  /** `clock(0)` is read when the call starts, `clock(i + 1)` by poll `i`. */
  predicate InVain(
    clock: nat -> u64, found: nat -> Poll, i: nat, sender: string, owner: string, timeoutSecs: u64)
  {
    && clock(i + 1) < SatAdd(clock(0), TimeoutMs(timeoutSecs))
    && (found(i).Found? ==> !CanAcquire(found(i).db, sender, owner, clock(i + 1)))
  }

  ghost predicate PollsInVain(
    clock: nat -> u64, found: nat -> Poll, n: nat, sender: string, owner: string, timeoutSecs: u64)
  {
    forall i: nat :: i < n ==> InVain(clock, found, i, sender, owner, timeoutSecs)
  }

  /** The call answers at poll `n`: past the deadline with a timeout, before it with the verdict of
      the first tables that let the owner in. */
  ghost predicate AnswersAt(
    clock: nat -> u64, found: nat -> Poll, n: nat, sender: string, owner: string, nonce: u64, hash: string,
    timeoutSecs: u64, result: LockResult)
  {
    && PollsInVain(clock, found, n, sender, owner, timeoutSecs)
    && if clock(n + 1) >= SatAdd(clock(0), TimeoutMs(timeoutSecs)) then result == LockTimeout
       else
         && found(n).Found? && CanAcquire(found(n).db, sender, owner, clock(n + 1))
         && result == Verdict(found(n).db, sender, nonce, hash)
  }

  ghost predicate Answers(
    clock: nat -> u64, found: nat -> Poll, sender: string, owner: string, nonce: u64, hash: string,
    timeoutSecs: u64, result: LockResult)
  {
    exists n: nat :: AnswersAt(clock, found, n, sender, owner, nonce, hash, timeoutSecs, result)
  }

  /** What the polls meet decides the answer. */
  lemma AnswersUnique(
    clock: nat -> u64, found: nat -> Poll, sender: string, owner: string, nonce: u64, hash: string,
    timeoutSecs: u64, a: LockResult, b: LockResult)
    requires Answers(clock, found, sender, owner, nonce, hash, timeoutSecs, a)
    requires Answers(clock, found, sender, owner, nonce, hash, timeoutSecs, b)
    ensures a == b
  {
    var m: nat :| AnswersAt(clock, found, m, sender, owner, nonce, hash, timeoutSecs, a);
    var n: nat :| AnswersAt(clock, found, n, sender, owner, nonce, hash, timeoutSecs, b);
    assert m < n ==> InVain(clock, found, m, sender, owner, timeoutSecs);
    assert n < m ==> InVain(clock, found, n, sender, owner, timeoutSecs);
  }

  /** The tables are as they were at the start or as one of the first `n` polls met them. */
  ghost predicate AsFound(db: Db, start: Db, found: nat -> Poll, n: nat) {
    db == start || exists i: nat :: i < n && found(i) == Found(db)
  }

  /** The row belongs to somebody else, under the same timeout, and it was granted at a reading
      `g` no more than one timeout before `start`. */
  ghost predicate FreshLeaseElsewhere(db: Db, sender: string, owner: string, timeoutSecs: u64, start: u64) {
    && sender in db.locks && db.locks[sender].owner != owner
    && exists g: u64 ::
         && g + TimeoutMs(timeoutSecs) >= start
         && AsU64(db.locks[sender].expiresAtMs) == SatAdd(g, LeaseMs(timeoutSecs))
  }

  lemma FreshLeaseOutlastsCall(db: Db, sender: string, owner: string, timeoutSecs: u64, start: u64, now: u64)
    requires FreshLeaseElsewhere(db, sender, owner, timeoutSecs, start)
    requires now < SatAdd(start, TimeoutMs(timeoutSecs))
    ensures !CanAcquire(db, sender, owner, now)
  {
  }

  // ---- pruning ------------------------------------------------------------

  predicate Evictable(row: TxRow) {
    !InFlight(row.state)
  }

  /** `after` is `before` without some evictable rows, each no newer than every evictable row
      that stayed. */
  ghost predicate OldestEvicted(before: map<string, TxRow>, after: map<string, TxRow>) {
    && (forall h :: h in after ==> h in before && after[h] == before[h])
    && (forall h :: h in before && h !in after ==> Evictable(before[h]))
    && (forall h, k :: h in before && h !in after && k in after && Evictable(after[k]) ==>
          before[h].updatedAtMs <= after[k].updatedAtMs)
  }

  lemma EvictionsCompose(a: map<string, TxRow>, b: map<string, TxRow>, c: map<string, TxRow>)
    requires OldestEvicted(a, b) && OldestEvicted(b, c)
    ensures OldestEvicted(a, c)
  {
  }

  function Candidates(rows: map<string, TxRow>): set<string> {
    set h | h in rows && Evictable(rows[h])
  }

  lemma {:induction false} OldestExists(rows: map<string, TxRow>, among: set<string>)
    requires among != {} && forall h :: h in among ==> h in rows
    ensures exists h :: h in among && forall k :: k in among ==> rows[h].updatedAtMs <= rows[k].updatedAtMs
  {
    var h :| h in among;
    if among != {h} {
      OldestExists(rows, among - {h});
      var o :| o in among - {h} && forall k :: k in among - {h} ==> rows[o].updatedAtMs <= rows[k].updatedAtMs;
      var best := if rows[h].updatedAtMs < rows[o].updatedAtMs then h else o;
      assert best in among && forall k :: k in among ==> rows[best].updatedAtMs <= rows[k].updatedAtMs;
    } else {
      assert forall k :: k in among ==> rows[h].updatedAtMs <= rows[k].updatedAtMs;
    }
  }

  function Cutoff(wall: u64, retentionHours: u64): i64 {
    SatSubI64(AsI64(wall), SatMulI64(AsI64(retentionHours), MS_PER_HOUR))
  }

  predicate Expired(row: TxRow, completedCutoff: i64, failedCutoff: i64) {
    || (row.state.KaspaBroadcasted? && row.updatedAtMs < completedCutoff)
    || ((row.state.FailedRecoverable? || row.state.BlockedNonceGap? || row.state.BlockedLockTimeout?)
        && row.updatedAtMs < failedCutoff)
  }

  /** A retention reaches so many hours back from the clock. One of 2^63 hours or more is read as a
      negative one and reaches into the future. */
  lemma CutoffMeaning(wall: u64, hours: u64)
    requires wall < 0x8000_0000_0000_0000
    ensures hours < 0x8000_0000_0000_0000 ==>
              Cutoff(wall, hours) == wall - Min(hours * 3_600_000, 0x7FFF_FFFF_FFFF_FFFF)
    ensures hours >= 0x8000_0000_0000_0000 ==>
              var ahead := Min((0x1_0000_0000_0000_0000 - hours) * 3_600_000, 0x8000_0000_0000_0000);
              Cutoff(wall, hours) == Min(wall + ahead, 0x7FFF_FFFF_FFFF_FFFF)
  {
  }

  /** What expires: broadcasted rows after one retention, failed and blocked ones after the other,
      and no other rows. */
  lemma ExpiryOutcome(rows: map<string, TxRow>, completedCutoff: i64, failedCutoff: i64, h: string)
    requires h in rows
    ensures var kept, row := Unexpired(rows, completedCutoff, failedCutoff), rows[h];
            && (h in kept ==> kept[h] == row)
            && (h !in kept <==>
                  match row.state
                  case KaspaBroadcasted => row.updatedAtMs < completedCutoff
                  case FailedRecoverable => row.updatedAtMs < failedCutoff
                  case BlockedNonceGap => row.updatedAtMs < failedCutoff
                  case BlockedLockTimeout => row.updatedAtMs < failedCutoff
                  case _ => false)
  {
  }

  /** The states that eviction may take, and the ones in flight that nothing takes. */
  lemma EvictableStates(row: TxRow)
    ensures Evictable(row) <==>
            row.state in
            {FailedRecoverable, BlockedNonceGap, BlockedLockTimeout, StaleReplacementCandidate, KaspaBroadcasted}
    ensures InFlight(row.state) <==>
            row.state in {ReceivedRawL2, KaspaUnsignedCreated, KaspaPrefixMined, KaspaSigned}
  {
  }

  function Unexpired(rows: map<string, TxRow>, completedCutoff: i64, failedCutoff: i64): map<string, TxRow> {
    map h | h in rows && !Expired(rows[h], completedCutoff, failedCutoff) :: rows[h]
  }

  class IgraStore {
    const database: Database
    const profile: Profile
    const senderLockTimeoutSecs: u64
    const completedRetentionHours: u64
    const failedRetentionHours: u64
    const maxDbSizeMb: u64

    /** A writable open: migrate, reconcile the profile, prune. `size(i)` is the file size the
        i-th look at it returns. The whole open is one `OpenStore` of the tables. */
    constructor (
      database: Database, profile: Profile, senderLockTimeoutSecs: u64,
      completedRetentionHours: u64, failedRetentionHours: u64, maxDbSizeMb: u64,
      wall: u64, size: nat -> u64)
      modifies database
      ensures this.database == database && this.profile == profile
      ensures this.senderLockTimeoutSecs == senderLockTimeoutSecs
      ensures var migrated := old(database.Tables()).(meta := old(database.meta)[SCHEMA_VERSION_KEY := "1"]);
              var reconciled := Reconcile(migrated, profile);
              && database.Tables() == reconciled.(txMap := database.txMap)
              && OldestEvicted(
                   Unexpired(
                     reconciled.txMap, Cutoff(wall, completedRetentionHours), Cutoff(wall, failedRetentionHours)),
                   database.txMap)
    {
      this.database := database;
      this.profile := profile;
      this.senderLockTimeoutSecs := senderLockTimeoutSecs;
      this.completedRetentionHours := completedRetentionHours;
      this.failedRetentionHours := failedRetentionHours;
      this.maxDbSizeMb := maxDbSizeMb;
      new;
      database.meta := database.meta[SCHEMA_VERSION_KEY := "1"];
      ReconcileProfileCache();
      var _ := PruneCache(wall, size);
    }

    method TryAcquireSenderLockOnce(sender: string, owner: string, now: u64, lease: u64) returns (acquired: bool)
      modifies database
      ensures (database.Tables(), acquired) == TryAcquire(old(database.Tables()), sender, owner, now, lease)
    {
      acquired :=
        sender !in database.locks
        || database.locks[sender].owner == owner
        || AsU64(database.locks[sender].expiresAtMs) < now;
      if acquired {
        var expires := SatAdd(now, lease);
        database.locks := database.locks[sender := LockRow(owner, AsI64(expires), AsI64(now))];
      }
    }

    method ReleaseSenderLock(sender: string, owner: string)
      modifies database
      ensures database.Tables() == Release(old(database.Tables()), sender, owner)
    {
      if sender in database.locks && database.locks[sender].owner == owner {
        database.locks := database.locks - {sender};
      }
    }

    method ClassifyNonceInTx(sender: string, nonce: u64, hash: Option<string>, wall: u64)
      returns (ordering: Classification)
      modifies database
      ensures (database.Tables(), ordering) == Classify(old(database.Tables()), sender, nonce, hash, wall)
    {
      var expected: u64;
      if sender in database.nonces {
        expected := AsU64(database.nonces[sender].nextExpected);
      } else {
        database.nonces := database.nonces[sender := NonceRow(AsI64(nonce), AsI64(wall))];
        expected := nonce;
      }
      if nonce > expected {
        return Gap(expected, nonce);
      }
      if nonce == expected {
        return InOrder(expected);
      }
      var replacement := false;
      if hash.Some? {
        replacement := exists other ::
            other in database.txMap && other != hash.value
            && database.txMap[other].sender == sender && database.txMap[other].l2Nonce == AsI64(nonce);
      }
      return Stale(expected, replacement);
    }

    method ClassifyNonce(sender: string, nonce: u64, wall: u64) returns (ordering: Classification)
      modifies database
      ensures var (tables, expected) := Classify(old(database.Tables()), sender, nonce, None, wall);
              && ordering == expected
              && database.Tables() == if expected.Gap? then old(database.Tables()) else tables
    {
      ghost var before := database.Tables();
      var nonces := database.nonces;
      ordering := ClassifyNonceInTx(sender, nonce, None, wall);
      if ordering.Gap? {
        database.nonces := nonces;
        assert database.Tables() == before;
      }
    }

    /** Lock, classify and commit; or, on a gap, roll everything back. */
    method TryAcquireSenderLockAndClassifyOnce(
      sender: string, owner: string, nonce: u64, hash: string, now: u64, lease: u64, wall: u64)
      returns (outcome: Option<Classification>)
      modifies database
      ensures (database.Tables(), outcome) ==
              TryAcquireAndClassify(old(database.Tables()), sender, owner, nonce, hash, now, lease, wall)
    {
      var locks, nonces := database.locks, database.nonces;
      var acquired := TryAcquireSenderLockOnce(sender, owner, now, lease);
      if !acquired {
        return None;
      }
      var ordering := ClassifyNonceInTx(sender, nonce, Some(hash), wall);
      if ordering.Gap? {
        database.locks, database.nonces := locks, nonces;
        assert database.Tables() == old(database.Tables());
      }
      outcome := Some(ordering);
    }

    /** Polls until the lock is free or the deadline passes. The tables each poll meets are
        whatever other processes have made of them. */
    method AcquireSenderLock(
      sender: string, owner: string, clock: nat -> u64, found: nat -> Poll, ghost horizon: nat)
      returns (acquired: bool, polls: nat)
      requires clock(horizon + 1) >= SatAdd(clock(0), TimeoutMs(senderLockTimeoutSecs))
      modifies database
      ensures PollsInVain(clock, found, polls, sender, owner, senderLockTimeoutSecs)
      ensures acquired <==> clock(polls + 1) < SatAdd(clock(0), TimeoutMs(senderLockTimeoutSecs))
      ensures acquired ==>
                && found(polls).Found?
                && (database.Tables(), true) ==
                   TryAcquire(found(polls).db, sender, owner, clock(polls + 1), LeaseMs(senderLockTimeoutSecs))
      ensures !acquired ==> AsFound(database.Tables(), old(database.Tables()), found, polls)
      ensures (forall i: nat {:trigger found(i)} :: found(i).Found? ==>
                 FreshLeaseElsewhere(found(i).db, sender, owner, senderLockTimeoutSecs, clock(0))) ==> !acquired
    {
      var deadline := SatAdd(clock(0), TimeoutMs(senderLockTimeoutSecs));
      var lease := LeaseMs(senderLockTimeoutSecs);
      polls := 0;
      while true
        invariant polls <= horizon
        invariant PollsInVain(clock, found, polls, sender, owner, senderLockTimeoutSecs)
        invariant AsFound(database.Tables(), old(database.Tables()), found, polls)
        decreases horizon - polls
      {
        var now := clock(polls + 1);
        if now >= deadline {
          return false, polls;
        }
        match found(polls) {
          case Busy =>
          case Found(db) =>
            database.Observe(db);
            acquired := TryAcquireSenderLockOnce(sender, owner, now, lease);
            if acquired {
              if FreshLeaseElsewhere(db, sender, owner, senderLockTimeoutSecs, clock(0)) {
                FreshLeaseOutlastsCall(db, sender, owner, senderLockTimeoutSecs, clock(0), now);
              }
              return;
            }
        }
        assert InVain(clock, found, polls, sender, owner, senderLockTimeoutSecs);
        polls := polls + 1;
      }
    }

    /** The same loop around the joint transaction. A gap ends it with an error. */
    method AcquireSenderLockAndClassifyNonce(
      sender: string, owner: string, nonce: u64, hash: string,
      clock: nat -> u64, wall: nat -> u64, found: nat -> Poll, ghost horizon: nat)
      returns (result: LockResult, polls: nat)
      requires clock(horizon + 1) >= SatAdd(clock(0), TimeoutMs(senderLockTimeoutSecs))
      modifies database
      ensures PollsInVain(clock, found, polls, sender, owner, senderLockTimeoutSecs)
      ensures result.LockTimeout? <==> clock(polls + 1) >= SatAdd(clock(0), TimeoutMs(senderLockTimeoutSecs))
      ensures !result.LockTimeout? ==>
                && found(polls).Found?
                && var (tables, outcome) := TryAcquireAndClassify(
                     found(polls).db, sender, owner, nonce, hash, clock(polls + 1),
                     LeaseMs(senderLockTimeoutSecs), wall(polls));
                   && database.Tables() == tables
                   && outcome == Some(if result.NonceGap? then Gap(result.expected, result.got) else result.ordering)
                   && (result.Ordering? ==> !result.ordering.Gap?)
      ensures AnswersAt(clock, found, polls, sender, owner, nonce, hash, senderLockTimeoutSecs, result)
      ensures result.NonceGap? ==>
                && sender in found(polls).db.nonces && result.expected == Next(found(polls).db, sender) < nonce
                && result.got == nonce && database.Tables() == found(polls).db
      ensures result.Ordering? ==>
                && sender in database.nonces && result.ordering.expected == Next(database.Tables(), sender)
                && (result.ordering.InOrder? <==> result.ordering.expected == nonce)
                && HasLease(database.Tables(), sender, owner,
                            SatAdd(clock(polls + 1), LeaseMs(senderLockTimeoutSecs)))
      ensures result.LockTimeout? ==> AsFound(database.Tables(), old(database.Tables()), found, polls)
      ensures (forall i: nat {:trigger found(i)} :: found(i).Found? ==>
                 FreshLeaseElsewhere(found(i).db, sender, owner, senderLockTimeoutSecs, clock(0))) ==>
                result.LockTimeout?
    {
      var deadline := SatAdd(clock(0), TimeoutMs(senderLockTimeoutSecs));
      var lease := LeaseMs(senderLockTimeoutSecs);
      polls := 0;
      while true
        invariant polls <= horizon
        invariant PollsInVain(clock, found, polls, sender, owner, senderLockTimeoutSecs)
        invariant AsFound(database.Tables(), old(database.Tables()), found, polls)
        decreases horizon - polls
      {
        var now := clock(polls + 1);
        if now >= deadline {
          return LockTimeout, polls;
        }
        match found(polls) {
          case Busy =>
          case Found(db) =>
            database.Observe(db);
            var outcome := TryAcquireSenderLockAndClassifyOnce(sender, owner, nonce, hash, now, lease, wall(polls));
            AttemptOutcome(db, sender, owner, nonce, hash, now, lease, wall(polls));
            if outcome.Some? {
              VerdictIsOutcome(db, sender, owner, nonce, hash, now, lease, wall(polls));
              if FreshLeaseElsewhere(db, sender, owner, senderLockTimeoutSecs, clock(0)) {
                FreshLeaseOutlastsCall(db, sender, owner, senderLockTimeoutSecs, clock(0), now);
              }
              match outcome.value {
                case Gap(expected, got) => return NonceGap(expected, got), polls;
                case _ => return Ordering(outcome.value), polls;
              }
            }
        }
        assert InVain(clock, found, polls, sender, owner, senderLockTimeoutSecs);
        polls := polls + 1;
      }
    }

    method MarkSubmittedInOrderNonce(sender: string, nonce: u64, wall: u64) returns (ok: bool)
      modifies database
      ensures var marked := MarkSubmitted(old(database.Tables()), sender, nonce, wall);
              && ok == marked.Some?
              && database.Tables() == if ok then marked.value else old(database.Tables())
    {
      if nonce == U64_MAX {
        return false;
      }
      if sender in database.nonces {
        if AsU64(database.nonces[sender].nextExpected) == nonce {
          database.nonces := database.nonces[sender := NonceRow(AsI64(nonce + 1), AsI64(wall))];
        }
      } else {
        database.nonces := database.nonces[sender := NonceRow(AsI64(nonce + 1), AsI64(wall))];
      }
      ok := true;
    }

    method PersistTransition(update: Update, wall: u64)
      modifies database
      ensures database.Tables() == Persist(old(database.Tables()), profile, update, wall)
      ensures update.hash in database.txMap
              && var row := database.txMap[update.hash];
                 && row.sender == update.sender && row.l2Nonce == AsI64(update.l2Nonce)
                 && row.state == update.state && row.kaspaTxId == update.kaspaTxId
                 && row.chainId == AsI64(profile.chainId) && row.network == profile.network
                 && row.elFingerprint == profile.elFingerprint && row.kaspaFingerprint == profile.kaspaFingerprint
                 && row.correlationId == update.correlationId && row.errorCode == update.errorCode
                 && row.updatedAtMs == AsI64(wall)
      ensures database.txMap - {update.hash} == old(database.txMap) - {update.hash}
    {
      var attempts: u32 := if update.increment then 1 else 0;
      var createdAtMs := AsI64(wall);
      if update.hash in database.txMap {
        var existing := database.txMap[update.hash];
        attempts := Min(existing.attempts + attempts, U32_MAX);
        createdAtMs := existing.createdAtMs;
      }
      var payloadNonce := if update.payloadNonce.Some? then Some(AsI64(update.payloadNonce.value)) else None;
      database.txMap := database.txMap[update.hash := TxRow(
        update.sender, AsI64(update.l2Nonce), payloadNonce, update.kaspaTxId, update.state,
        AsI64(profile.chainId), profile.network, profile.elFingerprint, profile.kaspaFingerprint,
        update.correlationId, attempts, update.errorCode, createdAtMs, AsI64(wall))];
    }

    method LoadTx(hash: string) returns (record: Option<TxRecord>)
      ensures record == Load(database.Tables(), hash)
    {
      if hash !in database.txMap {
        return None;
      }
      var row := database.txMap[hash];
      var payloadNonce := if row.payloadNonce.Some? then Some(AsU64(row.payloadNonce.value)) else None;
      record := Some(TxRecord(
        hash, row.sender, AsU64(row.l2Nonce), payloadNonce, row.kaspaTxId, row.state,
        Profile(AsU64(row.chainId), row.network, row.elFingerprint, row.kaspaFingerprint),
        row.correlationId, row.attempts, row.errorCode,
        AsU64(row.createdAtMs), AsU64(row.updatedAtMs)));
    }

    method SetMetadataValue(key: string, value: Option<string>)
      modifies database`meta
      ensures database.meta == SetMeta(old(database.meta), key, value)
      ensures Lookup(database.meta, key) == value
      ensures forall other :: other != key ==> Lookup(database.meta, other) == Lookup(old(database.meta), other)
    {
      if value.Some? {
        database.meta := database.meta[key := value.value];
      } else {
        database.meta := database.meta - {key};
      }
    }

    method ReconcileProfileCache()
      modifies database
      ensures database.Tables() == Reconcile(old(database.Tables()), profile)
    {
      var chainId := Decimal(profile.chainId);
      var changed :=
        || (CHAIN_ID_KEY in database.meta && database.meta[CHAIN_ID_KEY] != chainId)
        || (NETWORK_KEY in database.meta && database.meta[NETWORK_KEY] != profile.network)
        || Lookup(database.meta, EL_FINGERPRINT_KEY) != profile.elFingerprint
        || Lookup(database.meta, KASPA_FINGERPRINT_KEY) != profile.kaspaFingerprint;
      if changed {
        database.txMap, database.nonces, database.locks := map[], map[], map[];
      }
      SetMetadataValue(CHAIN_ID_KEY, Some(chainId));
      SetMetadataValue(NETWORK_KEY, Some(profile.network));
      SetMetadataValue(EL_FINGERPRINT_KEY, profile.elFingerprint);
      SetMetadataValue(KASPA_FINGERPRINT_KEY, profile.kaspaFingerprint);
    }

    /** Expired rows go first, then the oldest evictable ones until the file fits. Rows in
        flight stay as they are. */
    method PruneCache(wall: u64, size: nat -> u64) returns (looks: nat)
      modifies database`txMap
      ensures OldestEvicted(
                Unexpired(
                  old(database.txMap), Cutoff(wall, completedRetentionHours), Cutoff(wall, failedRetentionHours)),
                database.txMap)
      ensures forall h :: h in old(database.txMap) && InFlight(old(database.txMap)[h].state) ==>
                h in database.txMap && database.txMap[h] == old(database.txMap)[h]
      ensures maxDbSizeMb == 0
              || size(looks) <= SatMul(maxDbSizeMb, 1024 * 1024)
              || Candidates(database.txMap) == {}
      ensures maxDbSizeMb == 0 || size(0) <= SatMul(maxDbSizeMb, 1024 * 1024) ==>
                database.txMap ==
                Unexpired(
                  old(database.txMap), Cutoff(wall, completedRetentionHours), Cutoff(wall, failedRetentionHours))
    {
      var completedCutoff := Cutoff(wall, completedRetentionHours);
      var failedCutoff := Cutoff(wall, failedRetentionHours);
      database.txMap := Unexpired(database.txMap, completedCutoff, failedCutoff);
      looks := EnforceSizeBudget(size);
    }

    /** One DELETE of the oldest evictable rows, a batch at most. */
    method EvictBatch() returns (deleted: nat)
      modifies database`txMap
      ensures OldestEvicted(old(database.txMap), database.txMap)
      ensures deleted == Min(1024, |Candidates(old(database.txMap))|)
      ensures |Candidates(database.txMap)| == |Candidates(old(database.txMap))| - deleted
    {
      deleted := 0;
      var candidates := set h | h in database.txMap && Evictable(database.txMap[h]);
      while deleted < EVICTION_BATCH && candidates != {}
        invariant candidates == Candidates(database.txMap)
        invariant deleted <= EVICTION_BATCH
        invariant |candidates| + deleted == |Candidates(old(database.txMap))|
        invariant OldestEvicted(old(database.txMap), database.txMap)
      {
        OldestExists(database.txMap, candidates);
        var rows := database.txMap;
        var oldest :| oldest in candidates
                      && forall k :: k in candidates ==> rows[oldest].updatedAtMs <= rows[k].updatedAtMs;
        ghost var before := database.txMap;
        database.txMap := database.txMap - {oldest};
        EvictionsCompose(old(database.txMap), before, database.txMap);
        candidates := candidates - {oldest};
        deleted := deleted + 1;
      }
    }

    /** Evicts batches until a look at the file finds it within the budget or a batch is empty. */
    method EnforceSizeBudget(size: nat -> u64) returns (looks: nat)
      modifies database`txMap
      ensures OldestEvicted(old(database.txMap), database.txMap)
      ensures maxDbSizeMb == 0
              || size(looks) <= SatMul(maxDbSizeMb, 1024 * 1024)
              || Candidates(database.txMap) == {}
      ensures maxDbSizeMb == 0 || size(0) <= SatMul(maxDbSizeMb, 1024 * 1024) ==>
                database.txMap == old(database.txMap)
      ensures forall i: nat {:trigger size(i)} :: i < looks ==> size(i) > SatMul(maxDbSizeMb, 1024 * 1024)
      ensures |Candidates(old(database.txMap))| - |Candidates(database.txMap)|
              == Min(Max(looks - 1, 0) * 1024, |Candidates(old(database.txMap))|)
    {
      looks := 0;
      if maxDbSizeMb == 0 {
        return;
      }
      var maxBytes := SatMul(maxDbSizeMb, 1024 * 1024);
      if size(0) <= maxBytes {
        return;
      }
      while true
        invariant OldestEvicted(old(database.txMap), database.txMap)
        invariant forall i: nat {:trigger size(i)} :: i <= looks ==> size(i) > maxBytes
        invariant |Candidates(old(database.txMap))| - |Candidates(database.txMap)|
                  == Min(looks * 1024, |Candidates(old(database.txMap))|)
        decreases |Candidates(database.txMap)|
      {
        looks := looks + 1;
        if size(looks) <= maxBytes {
          return;
        }
        ghost var before := database.txMap;
        var deleted := EvictBatch();
        EvictionsCompose(old(database.txMap), before, database.txMap);
        if deleted == 0 {
          return;
        }
      }
    }
  }
}
