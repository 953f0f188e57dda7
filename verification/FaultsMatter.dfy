/** Why the main results name the faults they exclude: what each does when it happens, in runs
    from an empty store. */
module FaultsMatter {
  import opened Machine
  import opened StoreModel
  import opened Protocol
  import opened NonceOrder
  import opened ExactlyOnce
  import opened ProfileIsolation
  import opened Scenarios
  import opened StoreOpens

  // ---- a lease that runs out ----------------------------------------------

  /** `o` is inside its in-order submission when `p`, for the same sender and nonce, reaches its
      lock transaction. */
  ghost predicate Racing(w: World, o: string, p: string) {
    && o in w.reqs && p in w.reqs && o != p
    && w.reqs[o].sender == w.reqs[p].sender && w.reqs[o].nonce == w.reqs[p].nonce
    && InsideInOrder(w, o, w.reqs[o].sender, w.reqs[o].nonce)
    && w.reqs[o].sender in w.db.nonces && Next(w.db, w.reqs[o].sender) == w.reqs[o].nonce
    && HasLease(w.db, w.reqs[o].sender, o, w.reqs[o].expires)
    && w.reqs[p].phase.Polled?
  }

  /** The second request gets through exactly when the first one's lease ended before the clock
      reading it polled with. */
  lemma RacerGrantedIff(w: World, o: string, p: string)
    requires Racing(w, o, p)
    ensures Grants(w, p, Runs) <==> w.reqs[o].expires < w.reqs[p].phase.now
  {
    var r := w.reqs[p];
    AttemptOutcome(w.db, r.sender, p, r.nonce, r.hash, r.phase.now, LeaseMs(r.timeoutSecs), w.clock);
  }

  lemma DeliveredAppends(log: seq<Submission>, e: Submission, s: string)
    ensures Delivered(log + [e], s) == Delivered(log, s) + if e.sender == s && e.inOrder && e.ok then [e.nonce] else []
  {
    assert (log + [e])[..|log|] == log;
  }

  /** Two requests inside in-order submissions of one nonce deliver it twice. */
  lemma BothDeliver(
    trace: seq<World>, actions: seq<Action>, o: string, p: string, s: string, nonce: u64, result: SubmitResult)
    returns (trace': seq<World>, actions': seq<Action>)
    requires Run(trace, actions) && result.Accepted? && o != p
    requires InsideInOrder(trace[|actions|], o, s, nonce) && InsideInOrder(trace[|actions|], p, s, nonce)
    ensures Run(trace', actions') && trace'[|actions'|].faults == trace[|actions|].faults
    ensures Delivered(trace'[|actions'|].log, s) == Delivered(trace[|actions|].log, s) + [nonce as int, nonce as int]
  {
    var log, first := trace[|actions|].log, Submission(s, nonce, p, true, true);
    trace', actions' := Land(trace, actions, p, s, nonce, result);
    trace', actions' := Land(trace', actions', o, s, nonce, result);
    DeliveredAppends(log, first, s);
    DeliveredAppends(log + [first], Submission(s, nonce, o, true, true), s);
  }

  lemma Alone(w: World, o: string, s: string, nonce: u64, to: u64)
    requires w.reqs.Keys == {o} && InsideInOrder(w, o, s, nonce) && w.reqs[o].expires < to
    ensures Overrunning(w, to) == {LeaseOverrun(s)}
  {
    assert LeaseOverrun(w.reqs[o].sender) in Overrunning(w, to);
  }

  lemma DistinctHashes()
    ensures "0xaa" != "0xbb"
  {
    assert "0xaa"[2] != "0xbb"[2];
  }

  lemma BothInside(s: string, nonce: u64, o: string, p: string, profile: Profile)
    returns (trace: seq<World>, actions: seq<Action>)
    requires o != p
    ensures Run(trace, actions)
    ensures var w := trace[|actions|];
            && w.faults == {LeaseOverrun(s)} && w.log == []
            && InsideInOrder(w, o, s, nonce) && InsideInOrder(w, p, s, nonce)
  {
    var lapsed := LeaseMs(TIMEOUT_SECS) + 1;
    trace, actions := Admit([Start(0)], [], o, s, nonce, "0xaa", profile);
    Alone(trace[|actions|], o, s, nonce, lapsed);
    trace, actions := Pass(trace, actions, lapsed);
    DistinctHashes();
    trace, actions := Admit(trace, actions, p, s, nonce, "0xbb", profile);
  }

  /** For any sender and nonce there is a run in which nothing goes wrong but one lease overrun,
      and the nonce is delivered twice. */
  lemma OverrunDeliversTwice(s: string, nonce: u64, o: string, p: string, profile: Profile, result: SubmitResult)
    returns (trace: seq<World>, actions: seq<Action>)
    requires o != p && result.Accepted?
    ensures Run(trace, actions)
    ensures trace[|actions|].faults == {LeaseOverrun(s)}
    ensures Delivered(trace[|actions|].log, s) == [nonce as int, nonce as int]
  {
    trace, actions := BothInside(s, nonce, o, p, profile);
    trace, actions := BothDeliver(trace, actions, o, p, s, nonce, result);
  }

  // ---- a lost mark ---------------------------------------------------------

  lemma LandedAndCrashed(s: string, nonce: u64, o: string, profile: Profile, result: SubmitResult)
    returns (trace: seq<World>, actions: seq<Action>)
    requires result.Accepted?
    ensures Run(trace, actions)
    ensures var w := trace[|actions|];
            && w.faults == {LostMark(s)} && w.reqs.Keys == {o} && w.reqs[o].phase.Crashed? && w.reqs[o].hash == "0xaa"
            && w.clock == 0 && w.log == [Submission(s, nonce, o, true, true)]
            && HasLease(w.db, s, o, LeaseMs(TIMEOUT_SECS)) && s in w.db.nonces && Next(w.db, s) == nonce
  {
    trace, actions := Admit([Start(0)], [], o, s, nonce, "0xaa", profile);
    trace, actions := Land(trace, actions, o, s, nonce, result);
    trace, actions := CrashUnmarked(trace, actions, o);
  }

  /** For any sender and nonce there is a run in which nothing goes wrong but one crash between a
      submission and its mark, and the nonce is delivered twice. */
  lemma LostMarkDeliversTwice(s: string, nonce: u64, o: string, p: string, profile: Profile, result: SubmitResult)
    returns (trace: seq<World>, actions: seq<Action>)
    requires o != p && result.Accepted?
    ensures Run(trace, actions)
    ensures trace[|actions|].faults == {LostMark(s)}
    ensures Delivered(trace[|actions|].log, s) == [nonce as int, nonce as int]
  {
    trace, actions := LandedAndCrashed(s, nonce, o, profile, result);
    trace, actions := Pass(trace, actions, LeaseMs(TIMEOUT_SECS) + 1);
    DistinctHashes();
    trace, actions := Admit(trace, actions, p, s, nonce, "0xbb", profile);
    trace, actions := Land(trace, actions, p, s, nonce, result);
    DeliveredAppends([], Submission(s, nonce, o, true, true), s);
    DeliveredAppends([Submission(s, nonce, o, true, true)], Submission(s, nonce, p, true, true), s);
  }

  lemma LandedUnmarked(s: string, nonce: u64, o: string, profile: Profile, result: SubmitResult)
    returns (trace: seq<World>, actions: seq<Action>)
    requires result.Accepted?
    ensures Run(trace, actions)
    ensures var w := trace[|actions|];
            && w.faults == {MarkFailed(s)} && w.reqs.Keys == {o} && w.reqs[o].hash == "0xaa"
            && w.clock == 0 && w.log == [Submission(s, nonce, o, true, true)]
            && s !in w.db.locks && s in w.db.nonces && Next(w.db, s) == nonce
  {
    trace, actions := Admit([Start(0)], [], o, s, nonce, "0xaa", profile);
    trace, actions := Land(trace, actions, o, s, nonce, result);
    trace, actions := FailMark(trace, actions, o);
    trace, actions := Depart(trace, actions, o, s);
  }

  /** The same with a mark that fails. */
  lemma FailedMarkDeliversTwice(s: string, nonce: u64, o: string, p: string, profile: Profile, result: SubmitResult)
    returns (trace: seq<World>, actions: seq<Action>)
    requires o != p && result.Accepted?
    ensures Run(trace, actions)
    ensures trace[|actions|].faults == {MarkFailed(s)}
    ensures Delivered(trace[|actions|].log, s) == [nonce as int, nonce as int]
  {
    trace, actions := LandedUnmarked(s, nonce, o, profile, result);
    DistinctHashes();
    trace, actions := Admit(trace, actions, p, s, nonce, "0xbb", profile);
    trace, actions := Land(trace, actions, p, s, nonce, result);
    DeliveredAppends([], Submission(s, nonce, o, true, true), s);
    DeliveredAppends([Submission(s, nonce, o, true, true)], Submission(s, nonce, p, true, true), s);
  }

  // ---- another profile -----------------------------------------------------

  lemma OpenForAnother(
    trace: seq<World>, actions: seq<Action>, recorded: Profile, profile: Profile, s: string)
    returns (trace': seq<World>, actions': seq<Action>)
    requires Run(trace, actions)
    requires var w := trace[|actions|];
             w.db.locks.Keys == {s} && w.db.nonces.Keys == {s} && Records(w.db.meta, recorded) && profile != recorded
    ensures Run(trace', actions')
    ensures var w, w' := trace[|actions|], trace'[|actions'|];
            && w'.db.locks == map[] && w'.db.nonces == map[]
            && w'.(db := w.db, faults := w.faults) == w
            && ProfileWipe(s) in w'.faults
            && forall f :: f in w'.faults && !f.RowRemoved? && f !in w.faults ==> f == ProfileWipe(s)
  {
    WipesIff(trace[|actions|], recorded, profile, {}, s);
    ChangedIff(trace[|actions|].db.meta[SCHEMA_VERSION_KEY := "1"], recorded, profile);
    trace', actions' := Then(trace, actions, OpenStore(profile, {}));
  }

  lemma BothInsideAfterWipe(s: string, nonce: u64, o: string, p: string, mine: Profile, other: Profile)
    returns (trace: seq<World>, actions: seq<Action>)
    requires o != p && mine != other
    ensures Run(trace, actions)
    ensures var w := trace[|actions|];
            && (forall f :: f in w.faults && !f.RowRemoved? ==> f == ProfileWipe(s)) && w.log == []
            && InsideInOrder(w, o, s, nonce) && InsideInOrder(w, p, s, nonce)
  {
    trace, actions := FirstOpen(mine);
    trace, actions := Admit(trace, actions, o, s, nonce, "0xaa", mine);
    trace, actions := OpenForAnother(trace, actions, mine, other, s);
    DistinctHashes();
    trace, actions := Admit(trace, actions, p, s, nonce, "0xbb", other);
  }

  /** For any sender and nonce there is a run in which one process opens the store for another
      profile, and the nonce is delivered twice. */
  lemma WipeDeliversTwice(
    s: string, nonce: u64, o: string, p: string, mine: Profile, other: Profile, result: SubmitResult)
    returns (trace: seq<World>, actions: seq<Action>)
    requires o != p && mine != other && result.Accepted?
    ensures Run(trace, actions)
    ensures forall f :: f in trace[|actions|].faults && !f.RowRemoved? ==> f == ProfileWipe(s)
    ensures Delivered(trace[|actions|].log, s) == [nonce as int, nonce as int]
  {
    trace, actions := BothInsideAfterWipe(s, nonce, o, p, mine, other);
    trace, actions := BothDeliver(trace, actions, o, p, s, nonce, result);
  }

  // ---- a store error while locking ----------------------------------------

  /** A nonce has been classified and not yet submitted when a later one reaches its lock
      transaction. */
  lemma LaterWaits(s: string, first: u64, later: u64, o: string, p: string, profile: Profile)
    returns (trace: seq<World>, actions: seq<Action>)
    requires o != p
    ensures Run(trace, actions)
    ensures var w := trace[|actions|];
            && w.faults == {} && w.log == [] && s in w.base && w.base[s] == first
            && s in w.db.nonces && Next(w.db, s) == first
            && Enabled(w, LockFails(p)) && w.reqs[p].sender == s && w.reqs[p].nonce == later
  {
    trace, actions := Admit([Start(0)], [], o, s, first, "0xaa", profile);
    DistinctHashes();
    trace, actions := Queue(trace, actions, p, s, later, "0xbb", profile);
  }

  /** After a store error it submits all the same. */
  lemma ProceedUnclassified(trace: seq<World>, actions: seq<Action>, o: string)
    returns (trace': seq<World>, actions': seq<Action>)
    requires Run(trace, actions) && Enabled(trace[|actions|], LockFails(o))
    ensures Run(trace', actions')
    ensures var w, w' := trace[|actions|], trace'[|actions'|];
            && w'.faults == w.faults + {StoreError(w.reqs[o].sender)}
            && w'.log == w.log && w'.base == w.base && w'.db.nonces == w.db.nonces
            && o in w'.reqs && w'.reqs[o].phase.Submitting?
            && w'.reqs[o].sender == w.reqs[o].sender && w'.reqs[o].nonce == w.reqs[o].nonce
  {
    trace', actions' := Then(trace, actions, LockFails(o));
    trace', actions' := WriteUnsigned(trace', actions', o);
  }

  /** For any sender and any two nonces there is a run in which nothing goes wrong but one store
      error, and the later nonce is submitted although the earlier one never was. */
  lemma StoreErrorSkipsNonce(
    s: string, first: u64, later: u64, o: string, p: string, profile: Profile, result: SubmitResult)
    returns (trace: seq<World>, actions: seq<Action>)
    requires o != p && first < later
    ensures Run(trace, actions)
    ensures var w := trace[|actions|];
            && w.faults == {StoreError(s)} && !PrefixClosed(w.base, w.log, s)
            && |w.log| == 1 && w.log[0].nonce == later && s in w.base && w.base[s] == first
  {
    trace, actions := LaterWaits(s, first, later, o, p, profile);
    trace, actions := ProceedUnclassified(trace, actions, p);
    var before := |actions|;
    trace, actions := Then(trace, actions, Submit(p, result));
    SubmissionClosedIff(trace, actions, before, s);
  }
}
