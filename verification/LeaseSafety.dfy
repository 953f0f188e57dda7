/** Mutual exclusion of the sender lock, relative to the lease, over every run. */
module LeaseSafety {
  import opened Machine
  import opened StoreModel
  import opened Protocol

  /** Program points before any lock transaction has committed for the request. */
  predicate Early(phase: Phase) {
    || phase.Created? || phase.Received? || phase.Polling? || phase.Polled?
    || phase.BlockedOnLock? || phase.BlockedOnGap?
  }

  ghost predicate FlagsOf(clock: u64, r: Request) {
    && (Early(r.phase) ==> !r.lockAcquired)
    && (r.phase.Polled? ==> r.phase.now <= clock && r.phase.now < SatAdd(r.phase.started, TimeoutMs(r.timeoutSecs)))
  }

  ghost predicate LockFlags(w: World) {
    forall o :: o in w.reqs ==> FlagsOf(w.clock, w.reqs[o])
  }

  ghost predicate LeaseHeld(w: World, o: string) {
    o in w.reqs && Holding(w.reqs[o]) && w.clock <= w.reqs[o].expires ==>
      HasLease(w.db, w.reqs[o].sender, o, w.reqs[o].expires)
  }

  ghost predicate LeasesHeld(w: World, s: string) {
    forall o :: o in w.reqs && w.reqs[o].sender == s ==> LeaseHeld(w, o)
  }

  lemma ActorFlags(w: World, a: Action)
    requires Enabled(w, a) && HasActor(a) && LockFlags(w)
    ensures FlagsOf(w.clock, NextReq(w, a))
  {
  }

  lemma LockFlagsStep(w: World, a: Action)
    requires Enabled(w, a) && LockFlags(w)
    ensures LockFlags(Do(w, a))
  {
    if HasActor(a) {
      ActorFlags(w, a);
    }
  }

  /** A lock transaction of `o` cannot take the row of another request whose lease still runs,
      although its own clock reading is older than the transaction. */
  lemma LeaseSurvives(w: World, a: Action, p: string)
    requires Enabled(w, a) && LockFlags(w)
    requires p in w.reqs && (HasActor(a) ==> a.owner != p)
    requires HasLease(w.db, w.reqs[p].sender, p, w.reqs[p].expires) && w.clock <= w.reqs[p].expires
    requires ProfileWipe(w.reqs[p].sender) !in Raises(w, a)
    ensures HasLease(NextDb(w, a), w.reqs[p].sender, p, w.reqs[p].expires)
  {
  }

  /** A request that enters its critical section owns the row it has just written, and keeps
      it through its own steps. */
  lemma ActorHoldsLease(w: World, a: Action)
    requires Enabled(w, a) && LockFlags(w) && HasActor(a) && LeaseHeld(w, a.owner)
    requires Holding(NextReq(w, a)) && w.clock <= NextReq(w, a).expires
    ensures HasLease(NextDb(w, a), NextReq(w, a).sender, a.owner, NextReq(w, a).expires)
  {
  }

  /** The action drops a lock row from under a request that holds it. */
  predicate WipesHolder(w: World, a: Action, o: string)
    requires Enabled(w, a)
  {
    o in w.reqs && Holding(w.reqs[o]) && ProfileWipe(w.reqs[o].sender) in Raises(w, a)
  }

  lemma LeaseHeldStep(w: World, a: Action, o: string)
    requires Enabled(w, a) && LockFlags(w) && LeaseHeld(w, o) && !WipesHolder(w, a, o)
    ensures LeaseHeld(Do(w, a), o)
  {
    var w' := Do(w, a);
    if o in w'.reqs && Holding(w'.reqs[o]) && w'.clock <= w'.reqs[o].expires {
      if HasActor(a) && a.owner == o {
        ActorHoldsLease(w, a);
      } else {
        LeaseSurvives(w, a, o);
      }
    }
  }

  lemma {:induction false} LockFlagsHold(trace: seq<World>, actions: seq<Action>, n: nat)
    requires Run(trace, actions) && n < |trace|
    ensures LockFlags(trace[n])
  {
    if n > 0 {
      LockFlagsHold(trace, actions, n - 1);
      LockFlagsStep(trace[n - 1], actions[n - 1]);
    }
  }

  /** No open has dropped the sender's rows while `o` was in its critical section. */
  ghost predicate Unwiped(trace: seq<World>, actions: seq<Action>, n: nat, o: string)
    requires Run(trace, actions) && n < |trace|
  {
    forall i :: 0 <= i < n ==> !WipesHolder(trace[i], actions[i], o)
  }

  lemma {:induction false} LeaseHeldInRuns(trace: seq<World>, actions: seq<Action>, n: nat, o: string)
    requires Run(trace, actions) && n < |trace| && Unwiped(trace, actions, n, o)
    ensures LeaseHeld(trace[n], o)
  {
    if n > 0 {
      LeaseHeldInRuns(trace, actions, n - 1, o);
      LockFlagsHold(trace, actions, n - 1);
      LeaseHeldStep(trace[n - 1], actions[n - 1], o);
    }
  }

  lemma {:induction false} FaultsStay(trace: seq<World>, actions: seq<Action>, i: nat, n: nat)
    requires Run(trace, actions) && i < n < |trace|
    ensures trace[i].faults + Raises(trace[i], actions[i]) <= trace[n].faults
  {
    if i + 1 < n { FaultsStay(trace, actions, i, n - 1); }
    assert trace[n].faults == trace[n - 1].faults + Raises(trace[n - 1], actions[n - 1]);
  }

  lemma {:induction false} SameSender(trace: seq<World>, actions: seq<Action>, i: nat, n: nat, o: string)
    requires Run(trace, actions) && i <= n < |trace| && o in trace[i].reqs
    ensures o in trace[n].reqs && trace[n].reqs[o].sender == trace[i].reqs[o].sender
  {
    if i < n { SameSender(trace, actions, i, n - 1, o); }
  }

  lemma LeasesHeldInRuns(trace: seq<World>, actions: seq<Action>, n: nat, s: string)
    requires Run(trace, actions) && n < |trace|
    requires ProfileWipe(s) !in trace[n].faults
    ensures LeasesHeld(trace[n], s)
  {
    forall o | o in trace[n].reqs && trace[n].reqs[o].sender == s ensures LeaseHeld(trace[n], o) {
      forall i | 0 <= i < n ensures !WipesHolder(trace[i], actions[i], o) {
        FaultsStay(trace, actions, i, n);
        if o in trace[i].reqs { SameSender(trace, actions, i, n, o); }
      }
      LeaseHeldInRuns(trace, actions, n, o);
    }
  }

  /** Main result: two requests of one sender are never both in their critical sections with
      both leases running, and whoever is within its lease still owns the lock row. All it takes
      is that no open has dropped the sender's rows while they were in there. */
  lemma MutualExclusion(trace: seq<World>, actions: seq<Action>, n: nat, o: string, p: string)
    requires Run(trace, actions) && n < |trace|
    requires o in trace[n].reqs && p in trace[n].reqs
    requires trace[n].reqs[o].sender == trace[n].reqs[p].sender
    requires Unwiped(trace, actions, n, o) && Unwiped(trace, actions, n, p)
    requires Holding(trace[n].reqs[o]) && trace[n].clock <= trace[n].reqs[o].expires
    requires Holding(trace[n].reqs[p]) && trace[n].clock <= trace[n].reqs[p].expires
    ensures o == p
    ensures HasLease(trace[n].db, trace[n].reqs[o].sender, o, trace[n].reqs[o].expires)
  {
    LeaseHeldInRuns(trace, actions, n, o);
    LeaseHeldInRuns(trace, actions, n, p);
  }

  /** Main result: a call that started at `s` cannot take the unreleased lock another owner was
      granted at clock reading `g`, under the same timeout, when `g + timeout >= s`. It holds at
      the saturating ends of the clock as well. */
  lemma FreshLeaseNotTaken(trace: seq<World>, actions: seq<Action>, n: nat, o: string, how: LockTxn, g: u64, s: u64)
    requires Run(trace, actions) && n < |trace|
    requires Enabled(trace[n], Attempt(o, how))
    requires var r := trace[n].reqs[o];
             && r.phase.started == s
             && r.sender in trace[n].db.locks && trace[n].db.locks[r.sender].owner != o
             && AsU64(trace[n].db.locks[r.sender].expiresAtMs) == SatAdd(g, LeaseMs(r.timeoutSecs))
             && g + TimeoutMs(r.timeoutSecs) >= s
    ensures !Grants(trace[n], o, how)
    ensures NextDb(trace[n], Attempt(o, how)) == trace[n].db
  {
    LockFlagsHold(trace, actions, n);
    assert FlagsOf(trace[n].clock, trace[n].reqs[o]);
  }
}
