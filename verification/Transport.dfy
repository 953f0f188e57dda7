/** The raw-send branch of the transport as straight-line code over a store that others use at
    the same time. Everything it does is a step of its request in `Protocol`. */
module Transport {
  import opened Machine
  import opened StoreModel
  import opened Store
  import opened Protocol
  import opened Lifecycle
  import opened OwnSteps

  datatype TrackedSend = TrackedSend(hash: string, sender: string, nonce: u64, correlationId: string)

  /** `format!("{sender}:{nonce}:{correlation_id}")`. */
  function LockOwnerId(sender: string, nonce: u64, correlationId: string): string {
    sender + ":" + Decimal(nonce) + ":" + correlationId
  }

  /** Text up to the first separator determines where it is. */
  lemma {:induction false} SplitUnique(a: string, b: string, restA: string, restB: string, mark: char)
    requires mark !in a && mark !in b
    requires a + [mark] + restA == b + [mark] + restB
    ensures a == b && restA == restB
  {
    var text := a + [mark] + restA;
    assert text == b + [mark] + restB;
    assert text[|a|] == mark && text[|b|] == mark;
    assert forall k :: 0 <= k < |a| ==> text[k] == a[k];
    assert forall k :: 0 <= k < |b| ==> text[k] == b[k];
    assert |a| == |b|;
    assert a == text[..|a|] == b;
    assert restA == text[|a| + 1..] == restB;
  }

  /** Owner ids tell requests apart: two equal ids have the same sender, nonce and correlation
      id. Senders are hex addresses, so they hold no colon. */
  lemma OwnerIdInjective(s: string, n: u64, c: string, s': string, n': u64, c': string)
    requires ':' !in s && ':' !in s'
    requires LockOwnerId(s, n, c) == LockOwnerId(s', n', c')
    ensures s == s' && n == n' && c == c'
  {
    var tail, tail' := Decimal(n) + ":" + c, Decimal(n') + ":" + c';
    assert LockOwnerId(s, n, c) == s + [':'] + tail;
    assert LockOwnerId(s', n', c') == s' + [':'] + tail';
    SplitUnique(s, s', tail, tail', ':');
    assert tail == Decimal(n) + [':'] + c && tail' == Decimal(n') + [':'] + c';
    SplitUnique(Decimal(n), Decimal(n'), c, c', ':');
    DecimalInjective(n, n');
  }

  /** No lock row of the sender carries this owner id. */
  ghost predicate Unowned(db: Db, sender: string, owner: string) {
    sender in db.locks ==> db.locks[sender].owner != owner
  }

  // ---- surroundings --------------------------------------------------------

  // The store calls of one request besides the lock loop.
  const RECEIVED := 0
  const CLASSIFIED := 1
  const UNSIGNED := 2
  const MINED := 3
  const SIGNED := 4
  const BROADCASTED := 5
  const MARK := 6
  const FAILED := 7
  const RELEASE := 8

  /** For each store call: the clock inside it, whether it works, and what others have done to
      the tables just before it. */
  datatype Env = Env(wall: nat -> u64, works: nat -> bool, others: (nat, Db) -> Db)

  /** The lock task answers, fails with a store error, or is lost with or without having run. */
  datatype LockTask = Joins | Breaks | Lost(ran: bool)

  predicate NoForgery(sender: string, owner: string, db: Db, db': Db) {
    sender in db'.locks && db'.locks[sender].owner == owner ==>
      sender in db.locks && db.locks[sender] == db'.locks[sender]
  }

  predicate SameNonce(sender: string, db: Db, db': Db) {
    && (sender in db.nonces <==> sender in db'.nonces)
    && (sender in db.nonces ==> db'.nonces[sender] == db.nonces[sender])
  }

  predicate SameRow(hash: string, db: Db, db': Db) {
    && (hash in db.txMap <==> hash in db'.txMap)
    && (hash in db.txMap ==> db'.txMap[hash] == db.txMap[hash])
  }

  /** Others do what they like with the tables, but forge no lock row with this owner id. */
  ghost predicate Honest(t: TrackedSend, owner: string, env: Env) {
    forall k: nat, db: Db :: NoForgery(t.sender, owner, db, env.others(k, db))
  }

  /** Others leave the sender's nonce alone. */
  ghost predicate SparesNonce(t: TrackedSend, env: Env) {
    forall k: nat, db: Db :: SameNonce(t.sender, db, env.others(k, db))
  }

  /** Others leave the hash's row alone. */
  ghost predicate SparesRow(t: TrackedSend, env: Env) {
    forall k: nat, db: Db :: SameRow(t.hash, db, env.others(k, db))
  }

  ghost predicate WritesWork(env: Env) {
    forall k: nat :: k != MARK && k != RELEASE ==> env.works(k)
  }

  // ---- what a request does, from its inputs alone --------------------------

  /** The state, if that write works. */
  ghost function Wrote(env: Env, k: nat, state: TxState): seq<TxState> {
    if env.works(k) then [state] else []
  }

  /** The lock task lets the request go on: it breaks, or it answers with an ordering. */
  predicate LetsThrough(lockTask: LockTask, answer: LockResult) {
    lockTask.Breaks? || (lockTask.Joins? && answer.Ordering?)
  }

  /** The same from what the polls meet: some first poll before the deadline lets the owner in and
      finds a nonce that is new or not ahead. */
  ghost predicate GetsThrough(
    t: TrackedSend, owner: string, lockTask: LockTask, clock: nat -> u64, found: nat -> Poll, timeoutSecs: u64)
  {
    || lockTask.Breaks?
    || (lockTask.Joins?
        && exists n: nat ::
             && PollsInVain(clock, found, n, t.sender, owner, timeoutSecs)
             && clock(n + 1) < SatAdd(clock(0), TimeoutMs(timeoutSecs))
             && found(n).Found? && CanAcquire(found(n).db, t.sender, owner, clock(n + 1))
             && (t.sender in found(n).db.nonces ==> t.nonce <= Next(found(n).db, t.sender)))
  }

  lemma LetsThroughIff(
    t: TrackedSend, owner: string, lockTask: LockTask, clock: nat -> u64, found: nat -> Poll, timeoutSecs: u64,
    answer: LockResult)
    requires lockTask.Joins? ==> Answers(clock, found, t.sender, owner, t.nonce, t.hash, timeoutSecs, answer)
    ensures LetsThrough(lockTask, answer) <==> GetsThrough(t, owner, lockTask, clock, found, timeoutSecs)
  {
    if lockTask.Joins? {
      var n: nat :| AnswersAt(clock, found, n, t.sender, owner, t.nonce, t.hash, timeoutSecs, answer);
      if m: nat :|
        && PollsInVain(clock, found, m, t.sender, owner, timeoutSecs)
        && clock(m + 1) < SatAdd(clock(0), TimeoutMs(timeoutSecs))
        && found(m).Found? && CanAcquire(found(m).db, t.sender, owner, clock(m + 1))
        && (t.sender in found(m).db.nonces ==> t.nonce <= Next(found(m).db, t.sender))
      {
        var verdict := Verdict(found(m).db, t.sender, t.nonce, t.hash);
        assert AnswersAt(clock, found, m, t.sender, owner, t.nonce, t.hash, timeoutSecs, verdict);
        AnswersUnique(clock, found, t.sender, owner, t.nonce, t.hash, timeoutSecs, answer, verdict);
      }
    }
  }

  predicate IsReplacement(lockTask: LockTask, answer: LockResult) {
    lockTask.Joins? && answer.Ordering? && answer.ordering.Stale? && answer.ordering.replacement
  }

  ghost function LockWrites(env: Env, lockTask: LockTask, answer: LockResult): seq<TxState> {
    if IsReplacement(lockTask, answer) then Wrote(env, CLASSIFIED, StaleReplacementCandidate)
    else if lockTask.Joins? && answer.LockTimeout? then Wrote(env, CLASSIFIED, BlockedLockTimeout)
    else if lockTask.Joins? && answer.NonceGap? then Wrote(env, CLASSIFIED, BlockedNonceGap)
    else []
  }

  ghost function SubmitWrites(env: Env, submitted: SubmitResult): seq<TxState> {
    Wrote(env, UNSIGNED, KaspaUnsignedCreated)
    + if submitted.Accepted?
      then
        Wrote(env, MINED, KaspaPrefixMined) + Wrote(env, SIGNED, KaspaSigned)
        + Wrote(env, BROADCASTED, KaspaBroadcasted)
      else []
  }

  /** All that a request writes, in order, before its answer is settled. */
  ghost function ProcessWrites(
    env: Env, prefix: bool, lockTask: LockTask, answer: LockResult, submitted: SubmitResult): seq<TxState>
  {
    if !prefix then []
    else Wrote(env, RECEIVED, ReceivedRawL2) + LockWrites(env, lockTask, answer)
         + if LetsThrough(lockTask, answer) then SubmitWrites(env, submitted) else []
  }

  predicate Succeeds(prefix: bool, lockTask: LockTask, answer: LockResult, submitted: SubmitResult) {
    submitted.Accepted? && prefix && LetsThrough(lockTask, answer)
  }

  ghost function RequestWrites(
    env: Env, prefix: bool, lockTask: LockTask, answer: LockResult, submitted: SubmitResult): seq<TxState>
  {
    ProcessWrites(env, prefix, lockTask, answer, submitted)
    + if Succeeds(prefix, lockTask, answer, submitted) then [] else Wrote(env, FAILED, FailedRecoverable)
  }

  /** When all its writes work: the sequence, case by case. */
  lemma WorkingWrites(
    env: Env, prefix: bool, lockTask: LockTask, answer: LockResult, submitted: SubmitResult)
    requires WritesWork(env)
    ensures var opening :=
              if IsReplacement(lockTask, answer) then [ReceivedRawL2, StaleReplacementCandidate] else [ReceivedRawL2];
            RequestWrites(env, prefix, lockTask, answer, submitted) ==
            if !prefix then [FailedRecoverable]
            else if lockTask.Lost? then [ReceivedRawL2, FailedRecoverable]
            else if lockTask.Joins? && answer.LockTimeout? then [ReceivedRawL2, BlockedLockTimeout, FailedRecoverable]
            else if lockTask.Joins? && answer.NonceGap? then [ReceivedRawL2, BlockedNonceGap, FailedRecoverable]
            else if submitted.Accepted? then
              opening + [KaspaUnsignedCreated, KaspaPrefixMined, KaspaSigned, KaspaBroadcasted]
            else opening + [KaspaUnsignedCreated, FailedRecoverable]
  {
  }

  /** With its task not lost, that is a complete trace. */
  lemma WorkingWritesComplete(
    env: Env, prefix: bool, lockTask: LockTask, answer: LockResult, submitted: SubmitResult)
    requires WritesWork(env) && !lockTask.Lost?
    ensures RequestWrites(env, prefix, lockTask, answer, submitted) != []
    ensures CompleteTrace(RequestWrites(env, prefix, lockTask, answer, submitted),
                          Succeeds(prefix, lockTask, answer, submitted))
  {
    WorkingWrites(env, prefix, lockTask, answer, submitted);
    var writes := RequestWrites(env, prefix, lockTask, answer, submitted);
    if !Succeeds(prefix, lockTask, answer, submitted) {
      assert FailedPrefix(writes[..|writes| - 1]);
    }
  }

  lemma RowStays(before: Db, after: Db, r: Request, phase: Phase)
    requires RowMatches(before, r) && SameRow(r.hash, before, after)
    ensures RowMatches(after, r.(phase := phase))
  {
    SameRowMatches(before, r, after, r.(phase := phase));
  }

  class IgraTransport {
    const store: IgraStore
    const txIdPrefix: Option<string>

    constructor (store: IgraStore, txIdPrefix: Option<string>)
      ensures this.store == store && this.txIdPrefix == txIdPrefix
    {
      this.store, this.txIdPrefix := store, txIdPrefix;
    }

    ghost function NewRequest(t: TrackedSend): Request {
      Request(t.sender, t.nonce, t.hash, t.correlationId, store.senderLockTimeoutSecs, store.profile,
              Created, false, false, false, 0, None, [])
    }

    ghost predicate Tracks(t: TrackedSend, r: Request) {
      && r.sender == t.sender && r.nonce == t.nonce && r.hash == t.hash
      && r.correlationId == t.correlationId && r.profile == store.profile
      && r.timeoutSecs == store.senderLockTimeoutSecs
    }

    /** One write. A write that fails is passed over. */
    method PersistTransitionSafe(
      t: TrackedSend, k: nat, state: TxState, payloadNonce: Option<u64>, kaspaTxId: Option<string>,
      errorCode: Option<string>, increment: bool, env: Env,
      ghost o: string, ghost walk: seq<Snap>, ghost r: Request)
      returns (ghost walk': seq<Snap>, ghost r': Request)
      requires Tracks(t, r) && PendingWrite(r.phase) == Some(state)
      requires Update(t.hash, t.sender, t.nonce, payloadNonce, kaspaTxId, state, t.correlationId, errorCode, increment)
               == WriteOf(r)
      requires At(o, walk, store.database.Tables(), r) && Honest(t, o, env)
      modifies store.database
      ensures At(o, walk', store.database.Tables(), r') && walk <= walk' && Tracks(t, r')
      ensures r' == r.(phase := AfterWrite(r), writes := if env.works(k) then r.writes + [state] else r.writes)
      ensures NoForgery(t.sender, o, old(store.database.Tables()), store.database.Tables())
      ensures SparesNonce(t, env) ==> SameNonce(t.sender, old(store.database.Tables()), store.database.Tables())
      ensures env.works(k) && (r.phase.Created? ==> !r.replacement) ==> RowMatches(store.database.Tables(), r')
    {
      walk' := Elsewhere(o, walk, store.database.Tables(), r, env.others(k, store.database.Tables()));
      store.database.Observe(env.others(k, store.database.Tables()));
      walk' := Step(o, walk', store.database.Tables(), r, env.wall(k), Write(o, env.works(k)));
      r' := r.(phase := AfterWrite(r), writes := if env.works(k) then r.writes + [state] else r.writes);
      if env.works(k) {
        if r.phase.Created? ==> !r.replacement { WriteMatches(store.database.Tables(), r, env.wall(k)); }
        store.PersistTransition(
          Update(t.hash, t.sender, t.nonce, payloadNonce, kaspaTxId, state, t.correlationId, errorCode, increment),
          env.wall(k));
      }
    }

    /** The lock task, as it is left when it is lost: it may have run to a commit. */
    method LoseLockTask(
      t: TrackedSend, owner: string, ran: bool, clock: nat -> u64, wall: nat -> u64, found: nat -> Poll,
      ghost horizon: nat, ghost walk: seq<Snap>, ghost r: Request)
      returns (ghost walk': seq<Snap>, ghost r': Request)
      requires clock(horizon + 1) >= SatAdd(clock(0), TimeoutMs(store.senderLockTimeoutSecs))
      requires Tracks(t, r) && r.phase.Received? && At(owner, walk, store.database.Tables(), r)
      modifies store.database
      ensures At(owner, walk', store.database.Tables(), r') && walk <= walk'
      ensures r' == r.(phase := Failing)
      ensures !ran ==> store.database.Tables() == old(store.database.Tables())
    {
      r' := r.(phase := Failing);
      if !ran {
        walk' := Step(owner, walk, store.database.Tables(), r, clock(0), LoseTask(owner));
        return;
      }
      ghost var start := store.database.Tables();
      var result, polls := store.AcquireSenderLockAndClassifyNonce(
        t.sender, owner, t.nonce, t.hash, clock, wall, found, horizon);
      if result.LockTimeout? {
        ghost var db';
        walk', db' := VainPolls(owner, walk, start, r, clock, found, polls);
        walk' := Step(owner, walk', db', r.(phase := Polling(clock(0))), clock(polls), LoseTask(owner));
        walk' := Elsewhere(owner, walk', db', r', store.database.Tables());
      } else {
        walk' := LastPoll(owner, walk, start, r, clock, found, polls, found(polls).db);
        walk' := Step(owner, walk', found(polls).db, r.(phase := Polled(clock(0), clock(polls + 1))),
                      wall(polls), Attempt(owner, RunsUnheard));
      }
    }

    /** The lock task that answers: a lock with an ordering, a timeout, or a gap. */
    method Lock(
      t: TrackedSend, owner: string, clock: nat -> u64, wall: nat -> u64, found: nat -> Poll,
      ghost horizon: nat, ghost walk: seq<Snap>, ghost r: Request)
      returns (result: LockResult, ghost walk': seq<Snap>, ghost r': Request)
      requires clock(horizon + 1) >= SatAdd(clock(0), TimeoutMs(store.senderLockTimeoutSecs))
      requires Tracks(t, r) && r.phase.Received? && At(owner, walk, store.database.Tables(), r)
      requires Unowned(store.database.Tables(), t.sender, owner)
      requires forall i: nat {:trigger found(i)} :: found(i).Found? ==> Unowned(found(i).db, t.sender, owner)
      modifies store.database
      ensures At(owner, walk', store.database.Tables(), r') && walk <= walk'
      ensures match result
              case Ordering(ordering) =>
                && !ordering.Gap?
                && r' == r.(
                     phase := if IsReplacement(Joins, result) then Observed else Protocol.Classified,
                     lockAcquired := true, inOrder := ordering.InOrder?, replacement := IsReplacement(Joins, result),
                     expires := r'.expires)
                && t.sender in store.database.nonces
                && (ordering.InOrder? ==> Next(store.database.Tables(), t.sender) == t.nonce)
              case LockTimeout => r' == r.(phase := BlockedOnLock)
              case NonceGap(_, _) => r' == r.(phase := BlockedOnGap)
      ensures !result.Ordering? ==> Unowned(store.database.Tables(), t.sender, owner)
      ensures Answers(clock, found, t.sender, owner, t.nonce, t.hash, store.senderLockTimeoutSecs, result)
    {
      ghost var start := store.database.Tables();
      var polls;
      result, polls := store.AcquireSenderLockAndClassifyNonce(
        t.sender, owner, t.nonce, t.hash, clock, wall, found, horizon);
      if result.LockTimeout? {
        walk' := TimedOut(owner, walk, start, r, clock, found, polls, store.database.Tables());
        r' := r.(phase := BlockedOnLock);
      } else {
        ghost var met, polled := found(polls).db, r.(phase := Polled(clock(0), clock(polls + 1)));
        AttemptOutcome(met, t.sender, owner, t.nonce, t.hash, clock(polls + 1), LeaseMs(r.timeoutSecs), wall(polls));
        walk' := LastPoll(owner, walk, start, r, clock, found, polls, met);
        walk' := Step(owner, walk', met, polled, wall(polls), Attempt(owner, Runs));
        r' := if result.NonceGap? then r.(phase := BlockedOnGap) else AfterGrant(polled, result.ordering);
      }
    }

    /** What an answering lock task leads to. */
    method ClassifyJoined(
      t: TrackedSend, owner: string, env: Env, clock: nat -> u64, wall: nat -> u64, found: nat -> Poll,
      ghost horizon: nat, ghost walk: seq<Snap>, ghost r: Request)
      returns (go: bool, inOrder: bool, observed: Option<string>,
               ghost answer: LockResult, ghost walk': seq<Snap>, ghost r': Request)
      requires clock(horizon + 1) >= SatAdd(clock(0), TimeoutMs(store.senderLockTimeoutSecs))
      requires Tracks(t, r) && r.phase.Received? && !r.lockAcquired && !r.inOrder && !r.replacement && r.answer.None?
      requires At(owner, walk, store.database.Tables(), r) && Honest(t, owner, env)
      requires Unowned(store.database.Tables(), t.sender, owner)
      requires forall i: nat {:trigger found(i)} :: found(i).Found? ==> Unowned(found(i).db, t.sender, owner)
      modifies store.database
      ensures At(owner, walk', store.database.Tables(), r') && walk <= walk' && Tracks(t, r')
      ensures r'.lockAcquired == go && r'.inOrder == inOrder && r'.answer.None?
      ensures observed == (if r'.replacement then Some(REPLACEMENT_CANDIDATE_CODE) else None)
      ensures !go ==> Unowned(store.database.Tables(), t.sender, owner)
      ensures inOrder ==> t.sender in store.database.nonces && Next(store.database.Tables(), t.sender) == t.nonce
      ensures r'.phase == if go then Protocol.Classified else Failing
      ensures Answers(clock, found, t.sender, owner, t.nonce, t.hash, store.senderLockTimeoutSecs, answer)
      ensures go == answer.Ordering? && inOrder == (answer.Ordering? && answer.ordering.InOrder?)
      ensures r'.writes == r.writes + LockWrites(env, Joins, answer)
    {
      var result;
      result, walk', r' := Lock(t, owner, clock, wall, found, horizon, walk, r);
      answer := result;
      go := result.Ordering?;
      inOrder := result.Ordering? && result.ordering.InOrder?;
      observed := None;
      if result.Ordering? && (result.ordering.InOrder? || !result.ordering.replacement) {
        return;
      }
      if result.Ordering? { observed := Some(REPLACEMENT_CANDIDATE_CODE); }
      walk', r' := NoteLock(t, result, env, owner, walk', r');
    }

    /** The write that goes with a replacement candidate, a timeout or a gap. */
    method NoteLock(
      t: TrackedSend, result: LockResult, env: Env, ghost o: string, ghost walk: seq<Snap>, ghost r: Request)
      returns (ghost walk': seq<Snap>, ghost r': Request)
      requires Tracks(t, r) && At(o, walk, store.database.Tables(), r) && Honest(t, o, env)
      requires match result
               case Ordering(_) => IsReplacement(Joins, result) && r.phase.Observed? && r.replacement
               case LockTimeout => r.phase.BlockedOnLock?
               case NonceGap(_, _) => r.phase.BlockedOnGap?
      modifies store.database
      ensures At(o, walk', store.database.Tables(), r') && walk <= walk'
      ensures r' == r.(phase := if result.Ordering? then Protocol.Classified else Failing,
                       writes := r.writes + LockWrites(env, Joins, result))
      ensures NoForgery(t.sender, o, old(store.database.Tables()), store.database.Tables())
    {
      var state, code;
      match result {
        case Ordering(_) => state, code := StaleReplacementCandidate, REPLACEMENT_CANDIDATE_CODE;
        case LockTimeout => state, code := BlockedLockTimeout, LOCK_TIMEOUT_CODE;
        case NonceGap(_, _) => state, code := BlockedNonceGap, NONCE_GAP_CODE;
      }
      walk', r' := PersistTransitionSafe(t, CLASSIFIED, state, None, None, Some(code), false, env, o, walk, r);
    }

    /** From RECEIVED_RAW_L2 to where the request may submit, or must fail. */
    method Classify(
      t: TrackedSend, owner: string, lockTask: LockTask, env: Env,
      clock: nat -> u64, wall: nat -> u64, found: nat -> Poll,
      ghost horizon: nat, ghost walk: seq<Snap>, ghost r: Request)
      returns (go: bool, lockAcquired: bool, inOrder: bool, observed: Option<string>,
               ghost answer: LockResult, ghost walk': seq<Snap>, ghost r': Request)
      requires clock(horizon + 1) >= SatAdd(clock(0), TimeoutMs(store.senderLockTimeoutSecs))
      requires Tracks(t, r) && r.phase.Received? && !r.lockAcquired && !r.inOrder && !r.replacement && r.answer.None?
      requires At(owner, walk, store.database.Tables(), r) && Honest(t, owner, env)
      requires Unowned(store.database.Tables(), t.sender, owner)
      requires forall i: nat {:trigger found(i)} :: found(i).Found? ==> Unowned(found(i).db, t.sender, owner)
      modifies store.database
      ensures At(owner, walk', store.database.Tables(), r') && walk <= walk' && Tracks(t, r')
      ensures r'.lockAcquired == lockAcquired && r'.inOrder == inOrder && (inOrder ==> lockAcquired)
      ensures observed == (if r'.replacement then Some(REPLACEMENT_CANDIDATE_CODE) else None) && r'.answer.None?
      ensures lockTask != Lost(true) && !lockAcquired ==> Unowned(store.database.Tables(), t.sender, owner)
      ensures inOrder ==> t.sender in store.database.nonces && Next(store.database.Tables(), t.sender) == t.nonce
      ensures if go then r'.phase.Classified? else r'.phase == Failing && !lockAcquired
      ensures lockTask.Joins? ==>
                Answers(clock, found, t.sender, owner, t.nonce, t.hash, store.senderLockTimeoutSecs, answer)
      ensures go <==> LetsThrough(lockTask, answer)
      ensures lockAcquired <==> lockTask.Joins? && answer.Ordering?
      ensures inOrder <==> lockTask.Joins? && answer.Ordering? && answer.ordering.InOrder?
      ensures r'.writes == r.writes + LockWrites(env, lockTask, answer)
    {
      lockAcquired, inOrder, observed, go := false, false, None, false;
      answer := LockTimeout;
      match lockTask {
        case Lost(ran) =>
          walk', r' := LoseLockTask(t, owner, ran, clock, wall, found, horizon, walk, r);
        case Breaks =>
          walk' := Step(owner, walk, store.database.Tables(), r, clock(0), LockFails(owner));
          r' := r.(phase := Classified);
          go := true;
        case Joins =>
          go, inOrder, observed, answer, walk', r' :=
            ClassifyJoined(t, owner, env, clock, wall, found, horizon, walk, r);
          lockAcquired := go;
      }
    }

    /** The first two of the three states of a submission that was accepted. */
    method WriteSigned(
      t: TrackedSend, payloadNonce: u64, observed: Option<string>, env: Env,
      ghost o: string, ghost walk: seq<Snap>, ghost r: Request)
      returns (ghost walk': seq<Snap>, ghost r': Request)
      requires Tracks(t, r) && r.phase == Landed(0) && WasAccepted(r) && r.answer.value.payloadNonce == payloadNonce
      requires observed == if r.replacement then Some(REPLACEMENT_CANDIDATE_CODE) else None
      requires At(o, walk, store.database.Tables(), r) && Honest(t, o, env)
      modifies store.database
      ensures At(o, walk', store.database.Tables(), r') && walk <= walk' && Tracks(t, r')
      ensures r' == r.(phase := Landed(2), writes := r.writes + Wrote(env, MINED, KaspaPrefixMined)
                                                     + Wrote(env, SIGNED, KaspaSigned))
      ensures NoForgery(t.sender, o, old(store.database.Tables()), store.database.Tables())
      ensures SparesNonce(t, env) ==> SameNonce(t.sender, old(store.database.Tables()), store.database.Tables())
    {
      walk', r' := PersistTransitionSafe(
        t, MINED, KaspaPrefixMined, Some(payloadNonce), None, observed, false, env, o, walk, r);
      walk', r' := PersistTransitionSafe(
        t, SIGNED, KaspaSigned, Some(payloadNonce), None, observed, false, env, o, walk', r');
    }

    /** The three states of a submission that was accepted. */
    method WriteLanding(
      t: TrackedSend, payloadNonce: u64, kaspaTxId: string, observed: Option<string>, env: Env,
      ghost o: string, ghost walk: seq<Snap>, ghost r: Request)
      returns (ghost walk': seq<Snap>, ghost r': Request)
      requires Tracks(t, r) && r.phase == Landed(0) && r.answer == Some(Accepted(payloadNonce, kaspaTxId))
      requires observed == if r.replacement then Some(REPLACEMENT_CANDIDATE_CODE) else None
      requires At(o, walk, store.database.Tables(), r) && Honest(t, o, env)
      modifies store.database
      ensures At(o, walk', store.database.Tables(), r') && walk <= walk' && Tracks(t, r')
      ensures r' == r.(phase := if r.inOrder then Landed(3) else Finishing(true), writes := r'.writes)
      ensures r'.writes == r.writes + Wrote(env, MINED, KaspaPrefixMined) + Wrote(env, SIGNED, KaspaSigned)
                           + Wrote(env, BROADCASTED, KaspaBroadcasted)
      ensures NoForgery(t.sender, o, old(store.database.Tables()), store.database.Tables())
      ensures SparesNonce(t, env) ==> SameNonce(t.sender, old(store.database.Tables()), store.database.Tables())
      ensures WritesWork(env) ==> RowMatches(store.database.Tables(), r')
    {
      walk', r' := WriteSigned(t, payloadNonce, observed, env, o, walk, r);
      walk', r' := PersistTransitionSafe(
        t, BROADCASTED, KaspaBroadcasted, Some(payloadNonce), Some(kaspaTxId), observed, false, env, o, walk', r');
    }

    /** What follows an accepted submission: three writes, then the mark of an in-order one. */
    method RecordSubmission(
      t: TrackedSend, payloadNonce: u64, kaspaTxId: string, observed: Option<string>, inOrder: bool, env: Env,
      ghost o: string, ghost walk: seq<Snap>, ghost r: Request)
      returns (ghost walk': seq<Snap>, ghost r': Request)
      requires Tracks(t, r) && r.phase == Landed(0) && r.answer == Some(Accepted(payloadNonce, kaspaTxId))
      requires r.inOrder == inOrder
      requires observed == if r.replacement then Some(REPLACEMENT_CANDIDATE_CODE) else None
      requires At(o, walk, store.database.Tables(), r) && Honest(t, o, env)
      modifies store.database
      ensures At(o, walk', store.database.Tables(), r') && walk <= walk' && Tracks(t, r')
      ensures r' == r.(phase := Finishing(true), writes := r'.writes)
      ensures r'.writes == r.writes + Wrote(env, MINED, KaspaPrefixMined) + Wrote(env, SIGNED, KaspaSigned)
                           + Wrote(env, BROADCASTED, KaspaBroadcasted)
      ensures NoForgery(t.sender, o, old(store.database.Tables()), store.database.Tables())
      ensures WritesWork(env) && SparesRow(t, env) ==> RowMatches(store.database.Tables(), r')
      ensures inOrder && env.works(MARK) && SparesNonce(t, env)
              && old(t.sender in store.database.nonces)
              && old(Next(store.database.Tables(), t.sender)) == t.nonce < U64_MAX ==>
                t.sender in store.database.nonces && Next(store.database.Tables(), t.sender) == t.nonce + 1
      ensures !inOrder && SparesNonce(t, env) ==>
                SameNonce(t.sender, old(store.database.Tables()), store.database.Tables())
    {
      walk', r' := WriteLanding(t, payloadNonce, kaspaTxId, observed, env, o, walk, r);
      if inOrder {
        walk', r' := MarkNonce(t, env, o, walk', r');
      }
    }

    /** The mark. A mark that fails is passed over. */
    method MarkNonce(t: TrackedSend, env: Env, ghost o: string, ghost walk: seq<Snap>, ghost r: Request)
      returns (ghost walk': seq<Snap>, ghost r': Request)
      requires Tracks(t, r) && r.phase == Landed(3)
      requires At(o, walk, store.database.Tables(), r) && Honest(t, o, env)
      modifies store.database
      ensures At(o, walk', store.database.Tables(), r') && walk <= walk'
      ensures r' == r.(phase := Finishing(true))
      ensures NoForgery(t.sender, o, old(store.database.Tables()), store.database.Tables())
      ensures SparesRow(t, env) ==> SameRow(t.hash, old(store.database.Tables()), store.database.Tables())
      ensures SparesRow(t, env) && old(RowMatches(store.database.Tables(), r)) ==>
                RowMatches(store.database.Tables(), r')
      ensures env.works(MARK) && SparesNonce(t, env)
              && old(t.sender in store.database.nonces)
              && old(Next(store.database.Tables(), t.sender)) == t.nonce < U64_MAX ==>
                t.sender in store.database.nonces && Next(store.database.Tables(), t.sender) == t.nonce + 1
    {
      ghost var before := store.database.Tables();
      walk' := Elsewhere(o, walk, before, r, env.others(MARK, before));
      store.database.Observe(env.others(MARK, store.database.Tables()));
      walk' := Step(o, walk', store.database.Tables(), r, env.wall(MARK), Mark(o, env.works(MARK)));
      r' := r.(phase := Finishing(true));
      if env.works(MARK) {
        var _ := store.MarkSubmittedInOrderNonce(t.sender, t.nonce, env.wall(MARK));
      }
      if SparesRow(t, env) && RowMatches(before, r) { RowStays(before, store.database.Tables(), r, Finishing(true)); }
    }

    /** The state before the submission, and its answer. */
    method AskSubmitter(
      t: TrackedSend, submitted: SubmitResult, observed: Option<string>, env: Env,
      ghost o: string, ghost walk: seq<Snap>, ghost r: Request)
      returns (ghost walk': seq<Snap>, ghost r': Request)
      requires Tracks(t, r) && r.phase.Classified? && r.answer.None?
      requires observed == if r.replacement then Some(REPLACEMENT_CANDIDATE_CODE) else None
      requires At(o, walk, store.database.Tables(), r) && Honest(t, o, env)
      modifies store.database
      ensures At(o, walk', store.database.Tables(), r') && walk <= walk' && Tracks(t, r')
      ensures r' == r.(phase := if submitted.Accepted? then Landed(0) else Failing, answer := Some(submitted),
                       writes := r.writes + Wrote(env, UNSIGNED, KaspaUnsignedCreated))
      ensures NoForgery(t.sender, o, old(store.database.Tables()), store.database.Tables())
      ensures SparesNonce(t, env) ==> SameNonce(t.sender, old(store.database.Tables()), store.database.Tables())
    {
      walk', r' := PersistTransitionSafe(
        t, UNSIGNED, KaspaUnsignedCreated, None, None, observed, false, env, o, walk, r);
      walk' := Step(o, walk', store.database.Tables(), r', env.wall(UNSIGNED), Action.Submit(o, submitted));
      r' := r'.(phase := if submitted.Accepted? then Landed(0) else Failing, answer := Some(submitted));
    }

    /** From the classified request to the answer of `submit_payload` and what it entails. */
    method Submit(
      t: TrackedSend, submitted: SubmitResult, observed: Option<string>, inOrder: bool, env: Env,
      ghost o: string, ghost walk: seq<Snap>, ghost r: Request)
      returns (ok: bool, code: Option<string>, ghost walk': seq<Snap>, ghost r': Request)
      requires Tracks(t, r) && r.phase.Classified? && r.inOrder == inOrder && r.answer.None?
      requires observed == if r.replacement then Some(REPLACEMENT_CANDIDATE_CODE) else None
      requires At(o, walk, store.database.Tables(), r) && Honest(t, o, env)
      modifies store.database
      ensures At(o, walk', store.database.Tables(), r') && walk <= walk' && Tracks(t, r')
      ensures r'.lockAcquired == r.lockAcquired && r'.inOrder == inOrder && r'.answer == Some(submitted)
      ensures r'.phase == (if ok then Finishing(true) else Failing) && ok == submitted.Accepted?
      ensures r'.writes == r.writes + SubmitWrites(env, submitted)
      ensures code == (if submitted.Rejected? then submitted.code else None) && (!ok ==> code == RejectionCode(r'))
      ensures NoForgery(t.sender, o, old(store.database.Tables()), store.database.Tables())
      ensures WritesWork(env) && SparesRow(t, env) && ok ==> RowMatches(store.database.Tables(), r')
      ensures ok && inOrder && env.works(MARK) && SparesNonce(t, env)
              && old(t.sender in store.database.nonces)
              && old(Next(store.database.Tables(), t.sender)) == t.nonce < U64_MAX ==>
                t.sender in store.database.nonces && Next(store.database.Tables(), t.sender) == t.nonce + 1
    {
      walk', r' := AskSubmitter(t, submitted, observed, env, o, walk, r);
      ok, code := false, None;
      match submitted {
        case Accepted(payloadNonce, kaspaTxId) =>
          walk', r' := RecordSubmission(t, payloadNonce, kaspaTxId, observed, inOrder, env, o, walk', r');
          ok := true;
        case Rejected(reason) =>
          code := reason;
      }
    }

    /** The first write and the lock, up to where the request may submit, or must fail. */
    method Prepare(
      t: TrackedSend, owner: string, lockTask: LockTask, env: Env,
      clock: nat -> u64, wall: nat -> u64, found: nat -> Poll,
      ghost horizon: nat, ghost walk: seq<Snap>, ghost r: Request)
      returns (go: bool, lockAcquired: bool, inOrder: bool, observed: Option<string>,
               ghost answer: LockResult, ghost walk': seq<Snap>, ghost r': Request)
      requires clock(horizon + 1) >= SatAdd(clock(0), TimeoutMs(store.senderLockTimeoutSecs))
      requires r == NewRequest(t) && At(owner, walk, store.database.Tables(), r) && Honest(t, owner, env)
      requires Unowned(store.database.Tables(), t.sender, owner)
      requires forall i: nat {:trigger found(i)} :: found(i).Found? ==> Unowned(found(i).db, t.sender, owner)
      modifies store.database
      ensures At(owner, walk', store.database.Tables(), r') && walk <= walk' && Tracks(t, r')
      ensures r'.lockAcquired == lockAcquired && r'.inOrder == inOrder && r'.answer.None?
      ensures observed == (if r'.replacement then Some(REPLACEMENT_CANDIDATE_CODE) else None)
      ensures lockTask != Lost(true) && !lockAcquired ==> Unowned(store.database.Tables(), t.sender, owner)
      ensures inOrder ==> t.sender in store.database.nonces && Next(store.database.Tables(), t.sender) == t.nonce
      ensures r'.phase == if go then Protocol.Classified else Failing
      ensures lockTask.Joins? ==>
                Answers(clock, found, t.sender, owner, t.nonce, t.hash, store.senderLockTimeoutSecs, answer)
      ensures go <==> LetsThrough(lockTask, answer)
      ensures lockAcquired <==> lockTask.Joins? && answer.Ordering?
      ensures inOrder <==> lockTask.Joins? && answer.Ordering? && answer.ordering.InOrder?
      ensures r'.writes == Wrote(env, RECEIVED, ReceivedRawL2) + LockWrites(env, lockTask, answer)
    {
      walk', r' := PersistTransitionSafe(t, RECEIVED, ReceivedRawL2, None, None, None, false, env, owner, walk, r);
      go, lockAcquired, inOrder, observed, answer, walk', r' :=
        Classify(t, owner, lockTask, env, clock, wall, found, horizon, walk', r');
    }

    /** The inner block of the request: everything that an error skips. */
    method Process(
      t: TrackedSend, owner: string, lockTask: LockTask, submitted: SubmitResult, env: Env,
      clock: nat -> u64, wall: nat -> u64, found: nat -> Poll,
      ghost horizon: nat, ghost walk: seq<Snap>, ghost r: Request)
      returns (ok: bool, code: Option<string>, lockAcquired: bool,
               ghost answer: LockResult, ghost walk': seq<Snap>, ghost r': Request)
      requires clock(horizon + 1) >= SatAdd(clock(0), TimeoutMs(store.senderLockTimeoutSecs))
      requires r == NewRequest(t) && At(owner, walk, store.database.Tables(), r) && Honest(t, owner, env)
      requires Unowned(store.database.Tables(), t.sender, owner)
      requires forall i: nat {:trigger found(i)} :: found(i).Found? ==> Unowned(found(i).db, t.sender, owner)
      modifies store.database
      ensures At(owner, walk', store.database.Tables(), r') && walk <= walk' && Tracks(t, r')
      ensures r'.phase == (if ok then Finishing(true) else Failing) && r'.lockAcquired == lockAcquired
      ensures !ok ==> code == RejectionCode(r')
      ensures lockTask != Lost(true) && !lockAcquired ==> Unowned(store.database.Tables(), t.sender, owner)
      ensures txIdPrefix.Some? && lockTask.Joins? ==>
                Answers(clock, found, t.sender, owner, t.nonce, t.hash, store.senderLockTimeoutSecs, answer)
      ensures ok <==> submitted.Accepted? && txIdPrefix.Some? && LetsThrough(lockTask, answer)
      ensures lockAcquired <==> txIdPrefix.Some? && lockTask.Joins? && answer.Ordering?
      ensures r'.inOrder <==> lockAcquired && answer.ordering.InOrder?
      ensures r'.writes ==
              ProcessWrites(env, txIdPrefix.Some?, lockTask, answer, submitted)
      ensures code == if submitted.Rejected? && txIdPrefix.Some? && LetsThrough(lockTask, answer)
                      then submitted.code else None
      ensures WritesWork(env) && SparesRow(t, env) && ok ==> RowMatches(store.database.Tables(), r')
      ensures ok && r'.inOrder && env.works(MARK) && SparesNonce(t, env) && t.nonce < U64_MAX ==>
                t.sender in store.database.nonces && Next(store.database.Tables(), t.sender) == t.nonce + 1
    {
      ok, code, lockAcquired, answer := false, None, false, LockTimeout;
      if txIdPrefix.None? {
        walk' := Step(owner, walk, store.database.Tables(), r, env.wall(RECEIVED), MissingPrefix(owner));
        r' := r.(phase := Failing);
        return;
      }
      var go, inOrder, observed;
      go, lockAcquired, inOrder, observed, answer, walk', r' :=
        Prepare(t, owner, lockTask, env, clock, wall, found, horizon, walk, r);
      if go {
        ok, code, walk', r' := Submit(t, submitted, observed, inOrder, env, owner, walk', r');
      }
    }

    /** What a request does once it has its answer: the last state of a failure, and the release. */
    method Finish(
      t: TrackedSend, ok: bool, code: Option<string>, lockAcquired: bool, env: Env,
      o: string, ghost walk: seq<Snap>, ghost r: Request)
      returns (ghost walk': seq<Snap>, ghost r': Request)
      requires Tracks(t, r) && r.phase == (if ok then Finishing(true) else Failing) && r.lockAcquired == lockAcquired
      requires !ok ==> code == RejectionCode(r)
      requires At(o, walk, store.database.Tables(), r) && Honest(t, o, env)
      modifies store.database
      ensures At(o, walk', store.database.Tables(), r') && walk <= walk'
      ensures Tracks(t, r') && r' == r.(phase := Done(ok), writes := r'.writes)
      ensures r'.writes == r.writes + if ok then [] else Wrote(env, FAILED, FailedRecoverable)
      ensures (lockAcquired && env.works(RELEASE)) || old(Unowned(store.database.Tables(), t.sender, o)) ==>
                Unowned(store.database.Tables(), t.sender, o)
      ensures WritesWork(env) && SparesRow(t, env)
              && (ok ==> old(RowMatches(store.database.Tables(), r))) ==>
                RowMatches(store.database.Tables(), r')
      ensures ok && SparesNonce(t, env) ==>
                SameNonce(t.sender, old(store.database.Tables()), store.database.Tables())
    {
      walk', r' := walk, r;
      if !ok {
        walk', r' := PersistTransitionSafe(t, FAILED, FailedRecoverable, None, None, code, true, env, o, walk, r);
      }
      walk', r' := Release(t, ok, lockAcquired, env, o, walk', r');
    }

    /** The release. One that fails is passed over. */
    method ReleaseLock(t: TrackedSend, ok: bool, env: Env, o: string, ghost walk: seq<Snap>, ghost r: Request)
      returns (ghost walk': seq<Snap>)
      requires Tracks(t, r) && r.phase == Finishing(ok) && r.lockAcquired
      requires At(o, walk, store.database.Tables(), r) && Honest(t, o, env)
      modifies store.database
      ensures At(o, walk', store.database.Tables(), r.(phase := Done(ok))) && walk <= walk'
      ensures NoForgery(t.sender, o, old(store.database.Tables()), store.database.Tables())
      ensures env.works(RELEASE) ==> Unowned(store.database.Tables(), t.sender, o)
      ensures SparesRow(t, env) ==> SameRow(t.hash, old(store.database.Tables()), store.database.Tables())
      ensures SparesNonce(t, env) ==> SameNonce(t.sender, old(store.database.Tables()), store.database.Tables())
    {
      walk' := Elsewhere(o, walk, store.database.Tables(), r, env.others(RELEASE, store.database.Tables()));
      store.database.Observe(env.others(RELEASE, store.database.Tables()));
      walk' := Step(o, walk', store.database.Tables(), r, env.wall(RELEASE), Leave(o, env.works(RELEASE)));
      if env.works(RELEASE) {
        store.ReleaseSenderLock(t.sender, o);
      }
    }

    method Release(
      t: TrackedSend, ok: bool, lockAcquired: bool, env: Env,
      o: string, ghost walk: seq<Snap>, ghost r: Request)
      returns (ghost walk': seq<Snap>, ghost r': Request)
      requires Tracks(t, r) && r.phase == Finishing(ok) && r.lockAcquired == lockAcquired
      requires At(o, walk, store.database.Tables(), r) && Honest(t, o, env)
      modifies store.database
      ensures At(o, walk', store.database.Tables(), r') && walk <= walk'
      ensures r' == r.(phase := Done(ok))
      ensures (lockAcquired && env.works(RELEASE)) || old(Unowned(store.database.Tables(), t.sender, o)) ==>
                Unowned(store.database.Tables(), t.sender, o)
      ensures SparesRow(t, env) && old(RowMatches(store.database.Tables(), r)) ==>
                RowMatches(store.database.Tables(), r')
      ensures !lockAcquired ==> store.database.Tables() == old(store.database.Tables())
      ensures SparesNonce(t, env) ==> SameNonce(t.sender, old(store.database.Tables()), store.database.Tables())
    {
      ghost var before := store.database.Tables();
      r' := r.(phase := Done(ok));
      if !lockAcquired {
        walk' := Step(o, walk, before, r, env.wall(RELEASE), Leave(o, true));
      } else {
        walk' := ReleaseLock(t, ok, env, o, walk, r);
      }
      if SparesRow(t, env) && RowMatches(before, r) { RowStays(before, store.database.Tables(), r, Done(ok)); }
    }

    /** One tracked request, while others commit between its polls and before its other store
        calls, calls fail and the lock task may be lost. It walks its request of `Protocol` from
        `Created` to `Done`; `submitted` is the answer of `submit_payload`. */
    method RawSend(
      t: TrackedSend, lockTask: LockTask, submitted: SubmitResult, env: Env,
      clock: nat -> u64, wall: nat -> u64, found: nat -> Poll, ghost horizon: nat)
      returns (ok: bool, ghost answer: LockResult, ghost walk: seq<Snap>, ghost r: Request)
      requires clock(horizon + 1) >= SatAdd(clock(0), TimeoutMs(store.senderLockTimeoutSecs))
      requires Unowned(store.database.Tables(), t.sender, LockOwnerId(t.sender, t.nonce, t.correlationId))
      requires Honest(t, LockOwnerId(t.sender, t.nonce, t.correlationId), env)
      requires forall i: nat {:trigger found(i)} :: found(i).Found? ==>
                 Unowned(found(i).db, t.sender, LockOwnerId(t.sender, t.nonce, t.correlationId))
      modifies store.database
      ensures At(LockOwnerId(t.sender, t.nonce, t.correlationId), walk, store.database.Tables(), r)
      ensures walk[0] == Snap(old(store.database.Tables()), NewRequest(t)) && r.phase == Done(ok) && Tracks(t, r)
      ensures lockTask != Lost(true) && (r.lockAcquired ==> env.works(RELEASE)) ==>
                Unowned(store.database.Tables(), t.sender, LockOwnerId(t.sender, t.nonce, t.correlationId))
      ensures WritesWork(env) && !lockTask.Lost? ==>
                CompleteTrace(r.writes, ok) && r.writes != []
      ensures WritesWork(env) && !lockTask.Lost? && SparesRow(t, env) ==> RowMatches(store.database.Tables(), r)
      ensures txIdPrefix.Some? && lockTask.Joins? ==>
                Answers(clock, found, t.sender, LockOwnerId(t.sender, t.nonce, t.correlationId), t.nonce, t.hash,
                        store.senderLockTimeoutSecs, answer)
      ensures ok <==> submitted.Accepted? && txIdPrefix.Some? && LetsThrough(lockTask, answer)
      ensures ok <==> submitted.Accepted? && txIdPrefix.Some?
                      && GetsThrough(t, LockOwnerId(t.sender, t.nonce, t.correlationId), lockTask, clock, found,
                                     store.senderLockTimeoutSecs)
      ensures r.lockAcquired <==> txIdPrefix.Some? && lockTask.Joins? && answer.Ordering?
      ensures r.inOrder <==> r.lockAcquired && answer.ordering.InOrder?
      ensures r.writes ==
              RequestWrites(env, txIdPrefix.Some?, lockTask, answer, submitted)
      ensures txIdPrefix.Some? && env.works(RECEIVED) ==> r.writes != [] && r.writes[0] == ReceivedRawL2
      ensures ok && r.inOrder && env.works(MARK) && SparesNonce(t, env) && t.nonce < U64_MAX ==>
                t.sender in store.database.nonces && Next(store.database.Tables(), t.sender) == t.nonce + 1
    {
      var owner := LockOwnerId(t.sender, t.nonce, t.correlationId);
      walk, r := [Snap(store.database.Tables(), NewRequest(t))], NewRequest(t);
      var lockAcquired, code;
      ok, code, lockAcquired, answer, walk, r :=
        Process(t, owner, lockTask, submitted, env, clock, wall, found, horizon, walk, r);
      if txIdPrefix.Some? {
        LetsThroughIff(t, owner, lockTask, clock, found, store.senderLockTimeoutSecs, answer);
      }
      if WritesWork(env) && !lockTask.Lost? {
        WorkingWritesComplete(env, txIdPrefix.Some?, lockTask, answer, submitted);
      }
      walk, r := Finish(t, ok, code, lockAcquired, env, owner, walk, r);
    }
  }
}
