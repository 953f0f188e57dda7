/** What a tracked request writes to `tx_map` on its way, and what its row says at the end. */
module Lifecycle {
  import opened Machine
  import opened StoreModel
  import opened Protocol

  /** The request's own failures that take it off the listed traces. */
  function TraceFaults(o: string): set<Fault> {
    {PersistFailed(o), JoinFailure(o)}
  }

  function Opening(replacement: bool): seq<TxState> {
    if replacement then [ReceivedRawL2, StaleReplacementCandidate] else [ReceivedRawL2]
  }

  const LANDING: seq<TxState> := [KaspaPrefixMined, KaspaSigned, KaspaBroadcasted]

  /** What a failing request can have written before FAILED_RECOVERABLE. */
  predicate FailedPrefix(writes: seq<TxState>) {
    || writes == []
    || writes == [ReceivedRawL2, BlockedLockTimeout]
    || writes == [ReceivedRawL2, BlockedNonceGap]
    || writes == [ReceivedRawL2, KaspaUnsignedCreated]
    || writes == [ReceivedRawL2, StaleReplacementCandidate, KaspaUnsignedCreated]
  }

  /** The complete traces of a request that answered with `ok`. */
  predicate CompleteTrace(writes: seq<TxState>, ok: bool) {
    if ok then
      || writes == Opening(false) + [KaspaUnsignedCreated] + LANDING
      || writes == Opening(true) + [KaspaUnsignedCreated] + LANDING
    else
      && |writes| > 0 && writes[|writes| - 1] == FailedRecoverable
      && FailedPrefix(writes[..|writes| - 1])
  }

  ghost predicate TraceSoFar(r: Request) {
    match r.phase
    case Created => r.writes == [] && !r.replacement
    case Received => r.writes == Opening(false) && !r.replacement
    case Polling(_) => r.writes == Opening(false) && !r.replacement
    case Polled(_, _) => r.writes == Opening(false) && !r.replacement
    case BlockedOnLock => r.writes == Opening(false)
    case BlockedOnGap => r.writes == Opening(false)
    case Observed => r.writes == Opening(false) && r.replacement
    case Classified => r.writes == Opening(r.replacement)
    case Submitting => r.writes == Opening(r.replacement) + [KaspaUnsignedCreated]
    case Landed(written) =>
      written <= 3 && r.writes == Opening(r.replacement) + [KaspaUnsignedCreated] + LANDING[..written]
    case Failing => FailedPrefix(r.writes)
    case Finishing(ok) => CompleteTrace(r.writes, ok)
    case Done(ok) => CompleteTrace(r.writes, ok)
    case Crashed => true
  }

  /** `submit_payload` has answered yes, has answered no or not been asked, or not been asked. */
  ghost predicate AnswerSoFar(r: Request) {
    match r.phase
    case Landed(_) => WasAccepted(r)
    case Failing => !WasAccepted(r)
    case Finishing(ok) => WasAccepted(r) == ok
    case Done(ok) => WasAccepted(r) == ok
    case Crashed => true
    case _ => r.answer.None?
  }

  ghost predicate OnTrace(r: Request) {
    TraceSoFar(r) && AnswerSoFar(r) && (r.phase.Landed? && r.phase.written == 3 ==> r.inOrder)
  }

  function Written(r: Request): Request
    requires PendingWrite(r.phase).Some?
  {
    r.(phase := AfterWrite(r), writes := r.writes + [PendingWrite(r.phase).value])
  }

  lemma LandingKeepsTrace(r: Request)
    requires OnTrace(r) && PendingWrite(r.phase).Some? && r.phase.Landed?
    ensures OnTrace(Written(r))
  {
    var k := r.phase.written;
    assert LANDING[..k + 1] == LANDING[..k] + [LANDING[k]];
    assert LANDING[..3] == LANDING;
    assert Written(r).writes == Opening(r.replacement) + [KaspaUnsignedCreated] + LANDING[..k + 1];
  }

  lemma FailureKeepsTrace(r: Request)
    requires OnTrace(r) && PendingWrite(r.phase).Some? && r.phase.Failing?
    ensures OnTrace(Written(r))
  {
    assert Written(r).writes[..|r.writes|] == r.writes;
  }

  lemma WriteKeepsTrace(r: Request)
    requires OnTrace(r) && PendingWrite(r.phase).Some?
    ensures OnTrace(Written(r))
  {
    if r.phase.Landed? {
      LandingKeepsTrace(r);
    } else if r.phase.Failing? {
      FailureKeepsTrace(r);
    }
  }

  lemma TraceStep(w: World, a: Action)
    requires Enabled(w, a) && HasActor(a)
    requires Raises(w, a) !! TraceFaults(a.owner)
    requires a.owner in w.reqs && OnTrace(w.reqs[a.owner])
    ensures OnTrace(NextReq(w, a))
  {
    assert PersistFailed(a.owner) in TraceFaults(a.owner) && JoinFailure(a.owner) in TraceFaults(a.owner);
    if a.Write? {
      WriteKeepsTrace(w.reqs[a.owner]);
    } else if a.Attempt? {
      assert w.reqs[a.owner].writes == Opening(false);
    }
  }

  lemma {:induction false} TraceHolds(trace: seq<World>, actions: seq<Action>, n: nat, o: string)
    requires Run(trace, actions) && n < |trace|
    requires trace[n].faults !! TraceFaults(o)
    requires o in trace[n].reqs
    ensures OnTrace(trace[n].reqs[o])
  {
    if n > 0 {
      var w, a := trace[n - 1], actions[n - 1];
      assert w.faults <= trace[n].faults && Raises(w, a) <= trace[n].faults;
      if o in w.reqs {
        TraceHolds(trace, actions, n - 1, o);
        if HasActor(a) && a.owner == o { TraceStep(w, a); }
      }
    }
  }

  /** Main result: whatever else runs and whatever befalls other requests, one that has answered
      wrote one of the listed sequences, and its answer is success exactly when the last state is
      KASPA_BROADCASTED. */
  lemma LifecycleTraces(trace: seq<World>, actions: seq<Action>, n: nat, o: string)
    requires Run(trace, actions) && n < |trace|
    requires trace[n].faults !! TraceFaults(o)
    requires o in trace[n].reqs && trace[n].reqs[o].phase.Done?
    ensures var r := trace[n].reqs[o];
            && CompleteTrace(r.writes, r.phase.ok)
            && |r.writes| > 0
            && r.phase.ok == (r.writes[|r.writes| - 1] == KaspaBroadcasted)
            && !r.phase.ok == (r.writes[|r.writes| - 1] == FailedRecoverable)
  {
    TraceHolds(trace, actions, n, o);
  }

  // ---- the row behind the trace -------------------------------------------

  function CodeFor(r: Request, state: TxState): Option<string> {
    match state
    case ReceivedRawL2 => None
    case BlockedLockTimeout => Some(LOCK_TIMEOUT_CODE)
    case BlockedNonceGap => Some(NONCE_GAP_CODE)
    case FailedRecoverable => RejectionCode(r)
    case _ => if r.replacement then Some(REPLACEMENT_CANDIDATE_CODE) else None
  }

  /** The row of a request that has written something carries its last write: the Kaspa id and
      the payload nonce it was answered with, and the code that goes with the state. */
  ghost predicate RowMatches(db: Db, r: Request) {
    r.writes != [] ==>
      && r.hash in db.txMap
      && var row := db.txMap[r.hash];
         && row.state == r.writes[|r.writes| - 1]
         && row.sender == r.sender && row.l2Nonce == AsI64(r.nonce)
         && row.correlationId == r.correlationId
         && row.errorCode == CodeFor(r, row.state)
         && row.kaspaTxId ==
            (if row.state.KaspaBroadcasted? && WasAccepted(r) then Some(r.answer.value.kaspaTxId) else None)
         && row.payloadNonce ==
            (if row.state in LANDING && WasAccepted(r) then Some(AsI64(r.answer.value.payloadNonce)) else None)
  }

  lemma SameIdentity(w: World, a: Action)
    requires Enabled(w, a) && HasActor(a) && !a.Arrive?
    ensures var r, r' := w.reqs[a.owner], NextReq(w, a);
            && r'.hash == r.hash && r'.sender == r.sender && r'.nonce == r.nonce
            && r'.correlationId == r.correlationId
            && !Over(r.phase)
            && (!a.Write? ==> r'.writes == r.writes)
  {
  }

  /** Only a working write changes a tx row, and it changes the row of its hash. */
  lemma RowsTouched(w: World, a: Action, h: string)
    requires Enabled(w, a) && RowRemoved(h) !in Raises(w, a)
    requires h in w.db.txMap && !(a.Write? && a.works && w.reqs[a.owner].hash == h)
    ensures h in NextDb(w, a).txMap && NextDb(w, a).txMap[h] == w.db.txMap[h]
  {
  }

  lemma WriteMatches(db: Db, r: Request, wall: u64)
    requires PendingWrite(r.phase).Some? && (r.phase.Created? ==> !r.replacement)
    ensures RowMatches(Persist(db, r.profile, WriteOf(r), wall), Written(r))
  {
  }

  /** The row of a request depends on nothing else that a quiet step changes. */
  lemma SameRowMatches(db: Db, r: Request, db': Db, r': Request)
    requires RowMatches(db, r)
    requires r.hash in db.txMap ==> r.hash in db'.txMap && db'.txMap[r.hash] == db.txMap[r.hash]
    requires r'.writes == r.writes && r'.hash == r.hash && r'.sender == r.sender && r'.nonce == r.nonce
    requires r'.correlationId == r.correlationId
    requires r.writes != [] ==>
               var state := r.writes[|r.writes| - 1];
               && CodeFor(r', state) == CodeFor(r, state)
               && (state in LANDING ==> r'.answer == r.answer)
    ensures RowMatches(db', r')
  {
  }

  lemma QuietStepKeepsRows(w: World, a: Action)
    requires Enabled(w, a) && HasActor(a) && !a.Write?
    ensures NextDb(w, a).txMap == w.db.txMap
  {
  }

  lemma AttemptKeepsCode(w: World, a: Action)
    requires Enabled(w, a) && a.Attempt? && OnTrace(w.reqs[a.owner]) && w.reqs[a.owner].writes != []
    ensures var r, r' := w.reqs[a.owner], NextReq(w, a);
            var state := r.writes[|r.writes| - 1];
            CodeFor(r', state) == CodeFor(r, state) && r'.answer == r.answer
  {
  }

  lemma SubmitKeepsCode(w: World, a: Action)
    requires Enabled(w, a) && a.Submit? && OnTrace(w.reqs[a.owner]) && w.reqs[a.owner].writes != []
    ensures var r, r' := w.reqs[a.owner], NextReq(w, a);
            var state := r.writes[|r.writes| - 1];
            CodeFor(r', state) == CodeFor(r, state) && state !in LANDING
  {
    var r := w.reqs[a.owner];
    assert r.writes == Opening(r.replacement) + [KaspaUnsignedCreated];
    assert r.writes[|r.writes| - 1] == KaspaUnsignedCreated;
  }

  lemma QuietStepKeepsCode(w: World, a: Action)
    requires Enabled(w, a) && HasActor(a) && !a.Arrive? && !a.Write?
    requires OnTrace(w.reqs[a.owner]) && w.reqs[a.owner].writes != []
    ensures var r, r' := w.reqs[a.owner], NextReq(w, a);
            var state := r.writes[|r.writes| - 1];
            CodeFor(r', state) == CodeFor(r, state) && (state in LANDING ==> r'.answer == r.answer)
  {
    if a.Attempt? {
      AttemptKeepsCode(w, a);
    } else if a.Submit? {
      SubmitKeepsCode(w, a);
    }
  }

  /** Between its writes a request changes nothing that its row was written with. */
  lemma QuietStepMatches(w: World, a: Action)
    requires Enabled(w, a) && HasActor(a) && !a.Arrive? && !a.Write?
    requires RowMatches(w.db, w.reqs[a.owner]) && OnTrace(w.reqs[a.owner])
    ensures RowMatches(NextDb(w, a), NextReq(w, a))
  {
    SameIdentity(w, a);
    QuietStepKeepsRows(w, a);
    if w.reqs[a.owner].writes != [] { QuietStepKeepsCode(w, a); }
    SameRowMatches(w.db, w.reqs[a.owner], NextDb(w, a), NextReq(w, a));
  }

  lemma ActorRowMatches(w: World, a: Action)
    requires Enabled(w, a) && HasActor(a) && PersistFailed(a.owner) !in Raises(w, a)
    requires a.Arrive? || (RowMatches(w.db, w.reqs[a.owner]) && OnTrace(w.reqs[a.owner]))
    ensures RowMatches(NextDb(w, a), NextReq(w, a))
  {
    if a.Write? {
      WriteMatches(w.db, w.reqs[a.owner], w.clock);
    } else if !a.Arrive? {
      QuietStepMatches(w, a);
    }
  }

  /** The action takes away or overwrites the row that `o` has written. */
  predicate Disturbs(w: World, a: Action, o: string)
    requires Enabled(w, a) && o in w.reqs
  {
    && w.reqs[o].writes != []
    && (|| RowRemoved(w.reqs[o].hash) in Raises(w, a)
        || (a.Write? && a.works && a.owner != o && w.reqs[a.owner].hash == w.reqs[o].hash))
  }

  lemma OthersKeepRow(w: World, a: Action, o: string)
    requires Enabled(w, a) && o in w.reqs && (HasActor(a) ==> a.owner != o)
    requires !Disturbs(w, a, o) && RowMatches(w.db, w.reqs[o])
    ensures RowMatches(NextDb(w, a), w.reqs[o])
  {
    var r := w.reqs[o];
    if r.writes != [] {
      RowsTouched(w, a, r.hash);
      SameRowMatches(w.db, r, NextDb(w, a), r);
    }
  }

  lemma RowStep(w: World, a: Action, o: string)
    requires Enabled(w, a) && o in w.reqs && !Disturbs(w, a, o) && PersistFailed(o) !in Raises(w, a)
    requires RowMatches(w.db, w.reqs[o]) && OnTrace(w.reqs[o])
    ensures RowMatches(NextDb(w, a), Do(w, a).reqs[o])
  {
    if HasActor(a) && a.owner == o {
      ActorRowMatches(w, a);
    } else {
      OthersKeepRow(w, a, o);
    }
  }

  /** Since `o` wrote its row nobody has taken it away or written over it. What happened to the
      hash before does not matter. */
  ghost predicate RowLeftAlone(trace: seq<World>, actions: seq<Action>, n: nat, o: string)
    requires Run(trace, actions) && n < |trace|
  {
    forall i :: 0 <= i < n && o in trace[i].reqs ==> !Disturbs(trace[i], actions[i], o)
  }

  /** While its row is left alone, a request on a trace of its own writes finds its last write in
      the row of its hash. */
  lemma {:induction false} RowInvHolds(trace: seq<World>, actions: seq<Action>, n: nat, o: string)
    requires Run(trace, actions) && n < |trace| && o in trace[n].reqs
    requires trace[n].faults !! TraceFaults(o) && RowLeftAlone(trace, actions, n, o)
    ensures RowMatches(trace[n].db, trace[n].reqs[o])
  {
    if n > 0 {
      var w, a := trace[n - 1], actions[n - 1];
      assert trace[n] == Do(w, a);
      if o in w.reqs {
        FaultsGrow(trace, actions, n, o);
        RowInvHolds(trace, actions, n - 1, o);
        TraceHolds(trace, actions, n - 1, o);
        RowStep(w, a, o);
      } else {
        assert trace[n].reqs[o].writes == [];
      }
    }
  }

  /** What such a row says, in full: a blocked request leaves the code of what blocked it, a
      refused one the code of the refusal, a replacement candidate its own; the payload nonce is
      there from the mined prefix on and the Kaspa id from the broadcast on. */
  lemma RowContents(trace: seq<World>, actions: seq<Action>, n: nat, o: string)
    requires Run(trace, actions) && n < |trace| && o in trace[n].reqs && trace[n].reqs[o].writes != []
    requires trace[n].faults !! TraceFaults(o) && RowLeftAlone(trace, actions, n, o)
    ensures var r, db := trace[n].reqs[o], trace[n].db;
            && r.hash in db.txMap
            && var row, accepted := db.txMap[r.hash], r.answer.Some? && r.answer.value.Accepted?;
            && row.state == r.writes[|r.writes| - 1]
            && row.sender == r.sender && row.correlationId == r.correlationId
            && row.l2Nonce == (if r.nonce < 0x8000_0000_0000_0000 then r.nonce else r.nonce - 0x1_0000_0000_0000_0000)
            && (row.state == BlockedLockTimeout ==> row.errorCode == Some("IGRA_NONCE_002"))
            && (row.state == BlockedNonceGap ==> row.errorCode == Some("IGRA_NONCE_001"))
            && (row.state == ReceivedRawL2 ==> row.errorCode == None)
            && (row.state == FailedRecoverable ==>
                  row.errorCode ==
                  if r.answer.Some? && r.answer.value.Rejected? then r.answer.value.code else None)
            && (row.state in [StaleReplacementCandidate, KaspaUnsignedCreated] + LANDING ==>
                  row.errorCode == if r.replacement then Some("IGRA_NONCE_004") else None)
            && (row.state == KaspaBroadcasted && accepted ==> row.kaspaTxId == Some(r.answer.value.kaspaTxId))
            && (row.state != KaspaBroadcasted ==> row.kaspaTxId == None)
            && (row.state in [KaspaPrefixMined, KaspaSigned, KaspaBroadcasted] && accepted ==>
                  row.payloadNonce == Some(AsI64(r.answer.value.payloadNonce)))
            && (row.state !in [KaspaPrefixMined, KaspaSigned, KaspaBroadcasted] ==> row.payloadNonce == None)
  {
    RowInvHolds(trace, actions, n, o);
  }

  lemma FaultsGrow(trace: seq<World>, actions: seq<Action>, n: nat, o: string)
    requires Run(trace, actions) && 0 < n < |trace| && trace[n].faults !! TraceFaults(o)
    ensures trace[n - 1].faults !! TraceFaults(o) && PersistFailed(o) !in Raises(trace[n - 1], actions[n - 1])
  {
    assert trace[n].faults == trace[n - 1].faults + Raises(trace[n - 1], actions[n - 1]);
    assert PersistFailed(o) in TraceFaults(o);
  }

  /** Main result: as long as its row is left alone, from the answer of a request on the row is
      KASPA_BROADCASTED with a Kaspa id if the answer was success, and FAILED_RECOVERABLE without
      one if it was not. */
  lemma AnswerMatchesRow(trace: seq<World>, actions: seq<Action>, n: nat, o: string)
    requires Run(trace, actions) && n < |trace|
    requires o in trace[n].reqs && trace[n].reqs[o].phase.Done?
    requires trace[n].faults !! TraceFaults(o) && RowLeftAlone(trace, actions, n, o)
    ensures var r, db := trace[n].reqs[o], trace[n].db;
            && r.hash in db.txMap
            && (r.phase.ok <==> db.txMap[r.hash].state.KaspaBroadcasted? && db.txMap[r.hash].kaspaTxId.Some?)
            && (r.phase.ok ==> WasAccepted(r) && db.txMap[r.hash].kaspaTxId == Some(r.answer.value.kaspaTxId))
            && (!r.phase.ok <==> db.txMap[r.hash].state.FailedRecoverable?)
  {
    TraceHolds(trace, actions, n, o);
    LifecycleTraces(trace, actions, n, o);
    RowInvHolds(trace, actions, n, o);
  }

  /** Nobody but `o` is at work on its hash. */
  ghost predicate Sole(w: World, o: string) {
    o in w.reqs && forall p :: p in w.reqs && p != o && w.reqs[p].hash == w.reqs[o].hash ==> Over(w.reqs[p].phase)
  }

  lemma SoleStep(w: World, a: Action, o: string)
    requires Enabled(w, a) && Sole(w, o) && !(a.Arrive? && a.hash == w.reqs[o].hash)
    ensures Sole(Do(w, a), o) && Do(w, a).reqs[o].hash == w.reqs[o].hash
  {
    if HasActor(a) && !a.Arrive? { SameIdentity(w, a); }
  }

  /** A request that came when nobody was at work on its hash, and since when nobody came for it,
      is alone with its row; only an open that prunes the row can still disturb it. */
  lemma {:induction false} SoleHolds(trace: seq<World>, actions: seq<Action>, m: nat, n: nat, o: string)
    requires Run(trace, actions) && m < n < |trace|
    requires actions[m].Arrive? && actions[m].owner == o && Overlap(actions[m].hash) !in Raises(trace[m], actions[m])
    requires forall i :: m < i < n && actions[i].Arrive? ==> actions[i].hash != actions[m].hash
    ensures Sole(trace[n], o) && trace[n].reqs[o].hash == actions[m].hash
  {
    if n == m + 1 {
      assert trace[n] == Do(trace[m], actions[m]);
    } else {
      SoleHolds(trace, actions, m, n - 1, o);
      SoleStep(trace[n - 1], actions[n - 1], o);
    }
  }

  lemma {:induction false} NotYetThere(trace: seq<World>, actions: seq<Action>, i: nat, m: nat, o: string)
    requires Run(trace, actions) && i <= m < |trace| && o !in trace[m].reqs
    ensures o !in trace[i].reqs
  {
    if i < m {
      assert trace[m] == Do(trace[m - 1], actions[m - 1]);
      NotYetThere(trace, actions, i, m - 1, o);
    }
  }

  /** So a resend finds its row alone, whatever overlapped or was pruned before it came. */
  lemma SoleRequestLeftAlone(trace: seq<World>, actions: seq<Action>, m: nat, n: nat, o: string)
    requires Run(trace, actions) && m < n < |trace|
    requires actions[m].Arrive? && actions[m].owner == o && Overlap(actions[m].hash) !in Raises(trace[m], actions[m])
    requires forall i :: m < i < n && actions[i].Arrive? ==> actions[i].hash != actions[m].hash
    requires forall i :: m < i < n && o in trace[i].reqs && trace[i].reqs[o].writes != [] ==>
               RowRemoved(actions[m].hash) !in Raises(trace[i], actions[i])
    ensures RowLeftAlone(trace, actions, n, o)
  {
    forall i | 0 <= i < n && o in trace[i].reqs ensures !Disturbs(trace[i], actions[i], o) {
      if i <= m {
        NotYetThere(trace, actions, i, m, o);
      } else {
        SoleHolds(trace, actions, m, i, o);
      }
    }
  }

  // ---- attempts and creation time -----------------------------------------

  /** The action completes a request for `h` as failed. */
  predicate FailsFor(w: World, a: Action, h: string)
    requires Enabled(w, a)
  {
    a.Write? && a.works && w.reqs[a.owner].hash == h && w.reqs[a.owner].phase.Failing?
  }

  /** Failed completions for `h` since its row was last created. */
  ghost function Failures(trace: seq<World>, actions: seq<Action>, n: nat, h: string): nat
    requires Run(trace, actions) && n < |trace|
  {
    if n == 0 || h !in trace[n].db.txMap then 0
    else Failures(trace, actions, n - 1, h) + if FailsFor(trace[n - 1], actions[n - 1], h) then 1 else 0
  }

  lemma RowCounters(w: World, a: Action, h: string)
    requires Enabled(w, a) && h in NextDb(w, a).txMap
    ensures var row' := NextDb(w, a).txMap[h];
            var bump := if FailsFor(w, a, h) then 1 else 0;
            if h in w.db.txMap
            then
              && row'.attempts == Min(w.db.txMap[h].attempts + bump, U32_MAX)
              && row'.createdAtMs == w.db.txMap[h].createdAtMs
            else row'.attempts == bump && row'.createdAtMs == AsI64(w.clock)
  {
  }

  lemma AttemptsStep(w: World, a: Action, h: string, failures: nat)
    requires Enabled(w, a) && h in NextDb(w, a).txMap
    requires if h in w.db.txMap then w.db.txMap[h].attempts == Min(failures, U32_MAX) else failures == 0
    ensures NextDb(w, a).txMap[h].attempts == Min(failures + if FailsFor(w, a, h) then 1 else 0, U32_MAX)
  {
    RowCounters(w, a, h);
  }

  /** Main result, for every run: `attempts` counts the failed completions since the row was
      created, saturating at the u32 maximum. */
  lemma {:induction false} AttemptsCountFailures(trace: seq<World>, actions: seq<Action>, n: nat, h: string)
    requires Run(trace, actions) && n < |trace| && h in trace[n].db.txMap
    ensures trace[n].db.txMap[h].attempts == Min(Failures(trace, actions, n, h), U32_MAX)
  {
    if n > 0 {
      if h in trace[n - 1].db.txMap {
        AttemptsCountFailures(trace, actions, n - 1, h);
      }
      AttemptsStep(trace[n - 1], actions[n - 1], h, Failures(trace, actions, n - 1, h));
    }
  }

  /** For every run: a row keeps the creation time it was born with for as long as it exists. */
  lemma {:induction false} CreatedAtIsFixed(trace: seq<World>, actions: seq<Action>, m: nat, n: nat, h: string)
    requires Run(trace, actions) && m <= n < |trace|
    requires forall i :: m <= i <= n ==> h in trace[i].db.txMap
    ensures trace[n].db.txMap[h].createdAtMs == trace[m].db.txMap[h].createdAtMs
    ensures m > 0 && h !in trace[m - 1].db.txMap ==>
              trace[n].db.txMap[h].createdAtMs == AsI64(trace[m - 1].clock)
  {
    if m < n {
      CreatedAtIsFixed(trace, actions, m, n - 1, h);
      assert h in trace[n].db.txMap;
      RowCounters(trace[n - 1], actions[n - 1], h);
    } else if m > 0 {
      assert h in trace[m].db.txMap;
      RowCounters(trace[m - 1], actions[m - 1], h);
    }
  }
}
