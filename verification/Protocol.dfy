/** Concurrent raw-send requests over one shared store.

    Every request is a program counter walking the raw-send branch of the transport;
    every SQLite transaction, clock reading and submission is one atomic action; any
    request may take the next action. Failures are actions too: each leaves a mark in
    `faults` that names the request, sender or hash it concerns, and a theorem names the
    marks it cannot tolerate. */
module Protocol {
  import opened Machine
  import opened StoreModel

  datatype Phase =
    | Created                                  // owner id built, nothing written
    | Received                                 // RECEIVED_RAW_L2 written
    | Polling(started: u64)                    // between two polls of a call that started then
    | Polled(started: u64, now: u64)           // clock read, transaction not started
    | BlockedOnLock                            // deadline passed
    | BlockedOnGap                             // nonce ahead of the sequence
    | Observed                                 // replacement candidate, not yet written
    | Classified                               // about to write KASPA_UNSIGNED_CREATED
    | Submitting                               // inside `submit_payload`
    | Landed(written: nat)                     // accepted; so many of its three writes done
    | Failing                                  // about to write FAILED_RECOVERABLE
    | Finishing(ok: bool)                      // about to release
    | Done(ok: bool)
    | Crashed

  datatype Request = Request(
    sender: string, nonce: u64, hash: string, correlationId: string,
    timeoutSecs: u64, profile: Profile,
    phase: Phase,
    lockAcquired: bool, inOrder: bool, replacement: bool,
    expires: u64,                  // end of the granted lease
    answer: Option<SubmitResult>,  // what `submit_payload` returned
    writes: seq<TxState>)          // states this request has written, in order

  /** One `submit_payload` call that returned. */
  datatype Submission = Submission(sender: string, nonce: u64, owner: string, inOrder: bool, ok: bool)

  datatype Fault =
    | StoreError(sender: string)    // lock transaction failed; the request goes on unlocked
    | JoinFailure(owner: string)    // lock task lost; its transaction may have committed
    | PersistFailed(owner: string)
    | MarkFailed(sender: string)
    | ReleaseFailed(owner: string)
    | LostMark(sender: string)      // crash between an in-order submission and its mark
    | LeaseOverrun(sender: string)  // a critical section outlived its lease
    | ProfileWipe(sender: string)   // an open dropped the sender's lock or nonce row
    | RowRemoved(hash: string)      // pruning or a wipe removed the hash's tx row
    | Overlap(hash: string)         // two live requests for one hash

  datatype World = World(
    clock: u64, db: Db, reqs: map<string, Request>,
    log: seq<Submission>,
    base: map<string, u64>,       // first nonce classified, per sender
    faults: set<Fault>)

  /** How a lock transaction goes: to its end, not at all, or to a commit that nobody hears of. */
  datatype LockTxn = Runs | Busy | RunsUnheard

  datatype SubmitResult =
    | Accepted(payloadNonce: u64, kaspaTxId: string)
    | Rejected(code: Option<string>)

  datatype Action =
    | Tick(to: u64)
    | Arrive(owner: string, sender: string, nonce: u64, hash: string, correlationId: string,
             timeoutSecs: u64, profile: Profile)
    | MissingPrefix(owner: string)
    | Write(owner: string, works: bool)
    | Begin(owner: string)
    | ReadClock(owner: string)
    | Attempt(owner: string, how: LockTxn)
    | LockFails(owner: string)                 // a store error other than a timeout or a gap
    | LoseTask(owner: string)                  // the lock task is gone, nothing committed
    | Submit(owner: string, result: SubmitResult)
    | Mark(owner: string, works: bool)
    | Leave(owner: string, works: bool)
    | Crash(owner: string)
    | OpenStore(profile: Profile, evicted: set<string>)

  predicate Over(phase: Phase) {
    phase.Done? || phase.Crashed?
  }

  /** Waiting for the lock task. */
  predicate Locking(phase: Phase) {
    phase.Received? || phase.Polling? || phase.Polled?
  }

  /** Inside the critical section: lock committed, release not yet run. */
  predicate Holding(r: Request) {
    r.lockAcquired && !Over(r.phase)
  }

  // ---- lifecycle writes ---------------------------------------------------

  function PendingWrite(phase: Phase): Option<TxState> {
    match phase
    case Created => Some(ReceivedRawL2)
    case BlockedOnLock => Some(BlockedLockTimeout)
    case BlockedOnGap => Some(BlockedNonceGap)
    case Observed => Some(StaleReplacementCandidate)
    case Classified => Some(KaspaUnsignedCreated)
    case Landed(written) =>
      if written == 0 then Some(KaspaPrefixMined)
      else if written == 1 then Some(KaspaSigned)
      else if written == 2 then Some(KaspaBroadcasted)
      else None
    case Failing => Some(FailedRecoverable)
    case _ => None
  }

  function AfterWrite(r: Request): Phase
    requires PendingWrite(r.phase).Some?
  {
    match r.phase
    case Created => Received
    case BlockedOnLock => Failing
    case BlockedOnGap => Failing
    case Observed => Classified
    case Classified => Submitting
    case Landed(written) =>
      if written == 2 && !r.inOrder then Finishing(true) else Landed(written + 1)
    case Failing => Finishing(false)
  }

  predicate WasAccepted(r: Request) {
    r.answer.Some? && r.answer.value.Accepted?
  }

  /** The error code of a refusal; other failures have none. */
  function RejectionCode(r: Request): Option<string> {
    if r.answer.Some? && r.answer.value.Rejected? then r.answer.value.code else None
  }

  function WriteOf(r: Request): Update
    requires PendingWrite(r.phase).Some?
  {
    var state := PendingWrite(r.phase).value;
    var observed := if r.replacement then Some(REPLACEMENT_CANDIDATE_CODE) else None;
    var errorCode :=
      match r.phase
      case BlockedOnLock => Some(LOCK_TIMEOUT_CODE)
      case BlockedOnGap => Some(NONCE_GAP_CODE)
      case Failing => RejectionCode(r)
      case _ => observed;
    Update(
      r.hash, r.sender, r.nonce,
      if r.phase.Landed? && WasAccepted(r) then Some(r.answer.value.payloadNonce) else None,
      if state.KaspaBroadcasted? && WasAccepted(r) then Some(r.answer.value.kaspaTxId) else None,
      state, r.correlationId, errorCode, state.FailedRecoverable?)
  }

  // ---- actions ------------------------------------------------------------

  predicate Enabled(w: World, a: Action) {
    match a
    case Tick(to) => w.clock <= to
    case Arrive(owner, _, _, _, _, _, _) => owner !in w.reqs
    case MissingPrefix(o) => o in w.reqs && w.reqs[o].phase.Created?
    case Write(o, _) => o in w.reqs && PendingWrite(w.reqs[o].phase).Some?
    case Begin(o) => o in w.reqs && w.reqs[o].phase.Received?
    case ReadClock(o) => o in w.reqs && w.reqs[o].phase.Polling?
    case Attempt(o, _) => o in w.reqs && w.reqs[o].phase.Polled?
    case LockFails(o) => o in w.reqs && Locking(w.reqs[o].phase)
    case LoseTask(o) => o in w.reqs && Locking(w.reqs[o].phase)
    case Submit(o, _) => o in w.reqs && w.reqs[o].phase.Submitting?
    case Mark(o, _) => o in w.reqs && w.reqs[o].phase.Landed? && w.reqs[o].phase.written == 3
    case Leave(o, _) => o in w.reqs && w.reqs[o].phase.Finishing?
    case Crash(o) => o in w.reqs && !Over(w.reqs[o].phase)
    case OpenStore(_, evicted) =>
      forall h :: h in evicted ==> h in w.db.txMap && !InFlight(w.db.txMap[h].state)
  }

  predicate HasActor(a: Action) {
    !a.Tick? && !a.OpenStore?
  }

  /** The lock transaction of a polled request, run against the current tables with the clock
      reading the request took before it. */
  function LockTransaction(w: World, o: string): (Db, Option<Classification>)
    requires o in w.reqs && w.reqs[o].phase.Polled?
  {
    var r := w.reqs[o];
    TryAcquireAndClassify(
      w.db, r.sender, o, r.nonce, r.hash, r.phase.now, LeaseMs(r.timeoutSecs), w.clock)
  }

  function LeaseEnd(r: Request): u64
    requires r.phase.Polled?
  {
    SatAdd(r.phase.now, LeaseMs(r.timeoutSecs))
  }

  predicate Grants(w: World, o: string, how: LockTxn)
    requires o in w.reqs && w.reqs[o].phase.Polled?
  {
    how.Runs? && LockTransaction(w, o).1.Some? && !LockTransaction(w, o).1.value.Gap?
  }

  function AfterGrant(r: Request, ordering: Classification): Request
    requires r.phase.Polled? && !ordering.Gap?
  {
    var replacement := ordering.Stale? && ordering.replacement;
    r.(phase := if replacement then Observed else Classified,
       lockAcquired := true, inOrder := ordering.InOrder?, replacement := replacement,
       expires := LeaseEnd(r))
  }

  function AfterAttempt(w: World, o: string, how: LockTxn): Request
    requires Enabled(w, Attempt(o, how))
  {
    var r := w.reqs[o];
    if Grants(w, o, how) then AfterGrant(r, LockTransaction(w, o).1.value)
    else
      r.(phase :=
           match how
           case RunsUnheard => Failing
           case Busy => Polling(r.phase.started)
           case Runs => if LockTransaction(w, o).1.Some? then BlockedOnGap else Polling(r.phase.started))
  }

  /** The acting request after the action. */
  function NextReq(w: World, a: Action): Request
    requires Enabled(w, a) && HasActor(a)
  {
    match a
    case Arrive(_, sender, nonce, hash, correlationId, timeoutSecs, profile) =>
      Request(sender, nonce, hash, correlationId, timeoutSecs, profile, Created, false, false, false, 0, None, [])
    case MissingPrefix(o) => w.reqs[o].(phase := Failing)
    case Write(o, works) =>
      var r := w.reqs[o];
      r.(phase := AfterWrite(r),
         writes := if works then r.writes + [PendingWrite(r.phase).value] else r.writes)
    case Begin(o) => w.reqs[o].(phase := Polling(w.clock))
    case ReadClock(o) =>
      var started := w.reqs[o].phase.started;
      var deadline := SatAdd(started, TimeoutMs(w.reqs[o].timeoutSecs));
      w.reqs[o].(phase := if w.clock >= deadline then BlockedOnLock else Polled(started, w.clock))
    case Attempt(o, how) => AfterAttempt(w, o, how)
    case LockFails(o) => w.reqs[o].(phase := Classified)
    case LoseTask(o) => w.reqs[o].(phase := Failing)
    case Submit(o, result) =>
      w.reqs[o].(phase := if result.Accepted? then Landed(0) else Failing, answer := Some(result))
    case Mark(o, _) => w.reqs[o].(phase := Finishing(true))
    case Leave(o, _) => w.reqs[o].(phase := Done(w.reqs[o].phase.ok))
    case Crash(o) => w.reqs[o].(phase := Crashed)
  }

  /** The shared tables after the action. */
  function NextDb(w: World, a: Action): Db
    requires Enabled(w, a)
  {
    match a
    case Write(o, works) =>
      if works then Persist(w.db, w.reqs[o].profile, WriteOf(w.reqs[o]), w.clock) else w.db
    case Attempt(o, how) =>
      if how.Busy? then w.db else LockTransaction(w, o).0
    case Mark(o, works) =>
      var marked := MarkSubmitted(w.db, w.reqs[o].sender, w.reqs[o].nonce, w.clock);
      if works && marked.Some? then marked.value else w.db
    case Leave(o, works) =>
      if w.reqs[o].lockAcquired && works then Release(w.db, w.reqs[o].sender, o) else w.db
    case OpenStore(profile, evicted) => Opened(w.db, profile, evicted)
    case _ => w.db
  }

  function NextLog(w: World, a: Action): seq<Submission>
    requires Enabled(w, a)
  {
    match a
    case Submit(o, result) =>
      var r := w.reqs[o];
      w.log + [Submission(r.sender, r.nonce, o, r.inOrder, result.Accepted?)]
    case _ => w.log
  }

  function NextBase(w: World, a: Action): map<string, u64>
    requires Enabled(w, a)
  {
    if HasActor(a) && a.owner in w.reqs
       && w.reqs[a.owner].sender !in w.db.nonces && w.reqs[a.owner].sender in NextDb(w, a).nonces
    then w.base[w.reqs[a.owner].sender := w.reqs[a.owner].nonce]
    else w.base
  }

  /** The senders whose critical sections outlive their leases when the clock gets to `at`. */
  function Overrunning(w: World, at: u64): set<Fault> {
    set o | o in w.reqs && Holding(w.reqs[o]) && w.reqs[o].expires < at :: LeaseOverrun(w.reqs[o].sender)
  }

  function Overlapping(w: World, hash: string): set<Fault> {
    if exists o :: o in w.reqs && w.reqs[o].hash == hash && !Over(w.reqs[o].phase) then {Overlap(hash)} else {}
  }

  /** The lock, nonce and tx rows that an open drops. */
  function Dropped(db: Db, profile: Profile, evicted: set<string>): set<Fault> {
    var kept := Opened(db, profile, evicted);
    (set s | s in db.locks && s !in kept.locks :: ProfileWipe(s))
    + (set s | s in db.nonces && s !in kept.nonces :: ProfileWipe(s))
    + (set h | h in db.txMap && h !in kept.txMap :: RowRemoved(h))
  }

  /** The faults an action leaves behind. */
  function Raises(w: World, a: Action): set<Fault>
    requires Enabled(w, a)
  {
    match a
    case Tick(to) => Overrunning(w, to)
    case Arrive(_, _, _, hash, _, _, _) => Overlapping(w, hash)
    case Write(o, works) => if works then {} else {PersistFailed(o)}
    case Attempt(o, how) =>
      if how.RunsUnheard? then {JoinFailure(o)}
      else if Grants(w, o, how) && LeaseEnd(w.reqs[o]) < w.clock then {LeaseOverrun(w.reqs[o].sender)}
      else {}
    case LockFails(o) => {StoreError(w.reqs[o].sender)}
    case LoseTask(o) => {JoinFailure(o)}
    case Mark(o, works) =>
      if works && MarkSubmitted(w.db, w.reqs[o].sender, w.reqs[o].nonce, w.clock).Some? then {}
      else {MarkFailed(w.reqs[o].sender)}
    case Leave(o, works) => if w.reqs[o].lockAcquired && !works then {ReleaseFailed(o)} else {}
    case Crash(o) => if w.reqs[o].phase.Landed? && w.reqs[o].inOrder then {LostMark(w.reqs[o].sender)} else {}
    case OpenStore(profile, evicted) => Dropped(w.db, profile, evicted)
    case _ => {}
  }

  /** What a request's own faults stand for: each is raised by that and by nothing else. */
  lemma OwnFaults(w: World, a: Action, f: Fault)
    requires Enabled(w, a) && HasActor(a) && !a.Arrive?
    ensures var r := w.reqs[a.owner];
            f in Raises(w, a) <==>
            match f
            case StoreError(s) => a.LockFails? && s == r.sender
            case JoinFailure(o) => (a.LoseTask? || (a.Attempt? && a.how.RunsUnheard?)) && o == a.owner
            case PersistFailed(o) => a.Write? && !a.works && o == a.owner
            case MarkFailed(s) => a.Mark? && (!a.works || r.nonce == 0xFFFF_FFFF_FFFF_FFFF) && s == r.sender
            case ReleaseFailed(o) => a.Leave? && !a.works && r.lockAcquired && o == a.owner
            case LostMark(s) => a.Crash? && r.phase.Landed? && r.inOrder && s == r.sender
            case LeaseOverrun(s) =>
              a.Attempt? && Classifies(NextReq(w, a).phase) && NextReq(w, a).expires < w.clock && s == r.sender
            case _ => false
  {
  }

  predicate Classifies(phase: Phase) {
    phase.Observed? || phase.Classified?
  }

  /** And what the faults of the surroundings stand for. */
  lemma OtherFaults(w: World, a: Action, f: Fault)
    requires Enabled(w, a) && (!HasActor(a) || a.Arrive?)
    ensures f in Raises(w, a) <==>
            match f
            case LeaseOverrun(s) =>
              a.Tick? && exists o :: o in w.reqs && w.reqs[o].sender == s && w.reqs[o].lockAcquired
                                     && !Over(w.reqs[o].phase) && w.reqs[o].expires < a.to
            case Overlap(h) =>
              a.Arrive? && a.hash == h && exists o :: o in w.reqs && w.reqs[o].hash == h && !Over(w.reqs[o].phase)
            case ProfileWipe(s) =>
              a.OpenStore? && ((s in w.db.locks && s !in NextDb(w, a).locks)
                               || (s in w.db.nonces && s !in NextDb(w, a).nonces))
            case RowRemoved(h) => a.OpenStore? && h in w.db.txMap && h !in NextDb(w, a).txMap
            case _ => false
  {
  }

  function Do(w: World, a: Action): World
    requires Enabled(w, a)
  {
    World(
      if a.Tick? then a.to else w.clock,
      NextDb(w, a),
      if HasActor(a) then w.reqs[a.owner := NextReq(w, a)] else w.reqs,
      NextLog(w, a),
      NextBase(w, a),
      w.faults + Raises(w, a))
  }

  function Start(clock: u64): World {
    World(clock, EMPTY_DB, map[], [], map[], {})
  }

  /** `trace` is a run: worlds joined by enabled actions, from an empty store. */
  ghost predicate Run(trace: seq<World>, actions: seq<Action>) {
    && |trace| == |actions| + 1
    && trace[0] == Start(trace[0].clock)
    && forall i :: 0 <= i < |actions| ==> Enabled(trace[i], actions[i]) && trace[i + 1] == Do(trace[i], actions[i])
  }
}
