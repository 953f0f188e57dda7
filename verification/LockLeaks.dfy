/** A finished request leaves no lock row behind. */
module LockLeaks {
  import opened StoreModel
  import opened Protocol
  import opened LeaseSafety

  /** A lock row with this owner id belongs to the request that committed it and has not
      released it. */
  ghost predicate RowOwned(w: World, o: string, s: string) {
    s in w.db.locks && w.db.locks[s].owner == o ==>
      o in w.reqs && w.reqs[o].sender == s && w.reqs[o].lockAcquired && !w.reqs[o].phase.Done?
  }

  ghost predicate RowsOwned(w: World, o: string) {
    forall s :: RowOwned(w, o, s)
  }

  /** Whoever has not come to the end of a lock transaction has no row. */
  ghost predicate NoRowYet(w: World, o: string) {
    o !in w.reqs || Early(w.reqs[o].phase) ==> forall s :: s in w.db.locks ==> w.db.locks[s].owner != o
  }

  /** A lock row after an action was there before it, and not released by it, or was just
      committed by the acting request, heard of or not. */
  lemma LockRowOrigin(w: World, a: Action, s: string)
    requires Enabled(w, a) && s in NextDb(w, a).locks
    ensures var row := NextDb(w, a).locks[s];
            || (&& a.Attempt? && row.owner == a.owner && w.reqs[a.owner].sender == s
                && (Grants(w, a.owner, a.how) || a.how.RunsUnheard?))
            || (&& s in w.db.locks && w.db.locks[s] == row
                && (a.Leave? && a.works && row.owner == a.owner ==>
                      !(w.reqs[a.owner].lockAcquired && w.reqs[a.owner].sender == s)))
  {
  }

  lemma RowOwnedStep(w: World, a: Action, o: string, s: string)
    requires Enabled(w, a) && RowOwned(w, o, s)
    requires JoinFailure(o) !in Raises(w, a) && ReleaseFailed(o) !in Raises(w, a)
    ensures RowOwned(Do(w, a), o, s)
  {
    if s in NextDb(w, a).locks { LockRowOrigin(w, a, s); }
  }

  lemma {:induction false} RowsOwnedHolds(trace: seq<World>, actions: seq<Action>, n: nat, o: string)
    requires Run(trace, actions) && n < |trace|
    requires JoinFailure(o) !in trace[n].faults && ReleaseFailed(o) !in trace[n].faults
    ensures RowsOwned(trace[n], o)
  {
    if n > 0 {
      RowsOwnedHolds(trace, actions, n - 1, o);
      forall s ensures RowOwned(trace[n], o, s) {
        RowOwnedStep(trace[n - 1], actions[n - 1], o, s);
      }
    }
  }

  /** Main result: on whatever path a request finished, no row carries its owner id. It needs
      the request's own lock task not lost and its own release not failed; what happens to
      others does not matter. */
  lemma NoLeakedLocks(trace: seq<World>, actions: seq<Action>, n: nat, o: string, s: string)
    requires Run(trace, actions) && n < |trace|
    requires JoinFailure(o) !in trace[n].faults && ReleaseFailed(o) !in trace[n].faults
    requires o in trace[n].reqs && trace[n].reqs[o].phase.Done? && s in trace[n].db.locks
    ensures trace[n].db.locks[s].owner != o
  {
    RowsOwnedHolds(trace, actions, n, o);
    assert RowOwned(trace[n], o, s);
  }

  /** Once every request has finished like that, the lock table is empty. */
  lemma NoLocksLeft(trace: seq<World>, actions: seq<Action>, n: nat)
    requires Run(trace, actions) && n < |trace|
    requires forall o :: o in trace[n].reqs ==>
               && trace[n].reqs[o].phase.Done?
               && JoinFailure(o) !in trace[n].faults && ReleaseFailed(o) !in trace[n].faults
    ensures trace[n].db.locks == map[]
  {
    var w := trace[n];
    forall s ensures s !in w.db.locks {
      if s in w.db.locks {
        var o := w.db.locks[s].owner;
        NoRowYetHolds(trace, actions, n, o);
        NoLeakedLocks(trace, actions, n, o, s);
      }
    }
  }

  lemma NoRowYetStep(w: World, a: Action, o: string)
    requires Enabled(w, a) && NoRowYet(w, o)
    ensures NoRowYet(Do(w, a), o)
  {
    var w' := Do(w, a);
    if o !in w'.reqs || Early(w'.reqs[o].phase) {
      forall s | s in w'.db.locks ensures w'.db.locks[s].owner != o {
        LockRowOrigin(w, a, s);
      }
    }
  }

  lemma {:induction false} NoRowYetHolds(trace: seq<World>, actions: seq<Action>, n: nat, o: string)
    requires Run(trace, actions) && n < |trace|
    ensures NoRowYet(trace[n], o)
  {
    if n > 0 {
      NoRowYetHolds(trace, actions, n - 1, o);
      NoRowYetStep(trace[n - 1], actions[n - 1], o);
    }
  }

  /** The flag tells the truth, in every run: after a lock transaction that ran to its end, the
      request counts its lock as acquired exactly when the row is its own, and otherwise nothing
      was changed. */
  lemma FlagMatchesCommit(trace: seq<World>, actions: seq<Action>, n: nat)
    requires Run(trace, actions) && n < |actions|
    requires actions[n].Attempt? && !actions[n].how.RunsUnheard?
    ensures var o, w, w' := actions[n].owner, trace[n], trace[n + 1];
            && w'.reqs[o].lockAcquired == HasLease(w'.db, w.reqs[o].sender, o, LeaseEnd(w.reqs[o]))
            && (!w'.reqs[o].lockAcquired ==> w'.db == w.db)
  {
    var w, a := trace[n], actions[n];
    NoRowYetHolds(trace, actions, n, a.owner);
    LockFlagsHold(trace, actions, n);
    assert FlagsOf(w.clock, w.reqs[a.owner]);
    var r := w.reqs[a.owner];
    AttemptOutcome(w.db, r.sender, a.owner, r.nonce, r.hash, r.phase.now, LeaseMs(r.timeoutSecs), w.clock);
  }
}
