/** Opening the store while others use it: what keeps their locks and nonces safe. */
module StoreOpens {
  import opened Machine
  import opened StoreModel
  import opened Protocol
  import opened ProfileIsolation
  import opened Scenarios

  /** Every open in the run is for this profile. */
  ghost predicate OneProfile(actions: seq<Action>, profile: Profile) {
    forall i :: 0 <= i < |actions| && actions[i].OpenStore? ==> actions[i].profile == profile
  }

  /** Nobody sends a transaction before some process has opened the store. */
  ghost predicate OpensFirst(actions: seq<Action>) {
    forall i :: 0 <= i < |actions| && actions[i].Arrive? ==> exists j :: 0 <= j < i && actions[j].OpenStore?
  }

  ghost predicate Settled(w: World, profile: Profile) {
    Records(w.db.meta, profile) || (w.reqs == map[] && w.db.locks == map[] && w.db.nonces == map[])
  }

  /** Once a profile is recorded, an open drops a sender's rows exactly when there are some and
      it is for another profile. */
  lemma WipesIff(w: World, recorded: Profile, profile: Profile, evicted: set<string>, s: string)
    requires Enabled(w, OpenStore(profile, evicted)) && Records(w.db.meta, recorded)
    ensures ProfileWipe(s) in Raises(w, OpenStore(profile, evicted)) <==>
            profile != recorded && (s in w.db.locks || s in w.db.nonces)
  {
    var migrated := w.db.meta[SCHEMA_VERSION_KEY := "1"];
    assert Records(migrated, recorded);
    ChangedIff(migrated, recorded, profile);
  }

  lemma SettledStep(w: World, a: Action, profile: Profile, s: string)
    requires Enabled(w, a) && Settled(w, profile)
    requires a.OpenStore? ==> a.profile == profile
    requires a.Arrive? ==> Records(w.db.meta, profile)
    ensures Settled(Do(w, a), profile) && ProfileWipe(s) !in Raises(w, a)
    ensures Records(w.db.meta, profile) || a.OpenStore? ==> Records(Do(w, a).db.meta, profile)
  {
    if a.OpenStore? {
      if Records(w.db.meta, profile) { WipesIff(w, profile, a.profile, a.evicted, s); }
      ReconcileRecords(w.db.(meta := w.db.meta[SCHEMA_VERSION_KEY := "1"]), profile);
    }
  }

  lemma {:induction false} SettledHolds(trace: seq<World>, actions: seq<Action>, n: nat, profile: Profile, s: string)
    requires Run(trace, actions) && n < |trace|
    requires OneProfile(actions, profile) && OpensFirst(actions)
    ensures Settled(trace[n], profile) && ProfileWipe(s) !in trace[n].faults
    ensures (exists j :: 0 <= j < n && actions[j].OpenStore?) ==> Records(trace[n].db.meta, profile)
  {
    if n > 0 {
      SettledHolds(trace, actions, n - 1, profile, s);
      SettledStep(trace[n - 1], actions[n - 1], profile, s);
    }
  }

  /** As long as every process opens the store for the same profile, and opens it before it
      sends, no open ever drops a lock or a nonce, however often and whenever it happens. */
  lemma OneProfileNeverWipes(
    trace: seq<World>, actions: seq<Action>, n: nat, profile: Profile, s: string)
    requires Run(trace, actions) && n < |trace|
    requires OneProfile(actions, profile) && OpensFirst(actions)
    ensures ProfileWipe(s) !in trace[n].faults
  {
    SettledHolds(trace, actions, n, profile, s);
  }

  lemma OpenAgain(w: World, profile: Profile)
    requires Records(w.db.meta, profile)
    ensures Enabled(w, OpenStore(profile, {}))
    ensures var w' := Do(w, OpenStore(profile, {}));
            && w'.db.(meta := w.db.meta) == w.db && w'.reqs == w.reqs && w'.faults == w.faults
  {
    var after := Opened(w.db, profile, {});
    assert !ProfileChanged(w.db.meta[SCHEMA_VERSION_KEY := "1"], profile);
    assert after.txMap == w.db.txMap;
  }

  lemma FirstOpen(profile: Profile) returns (trace: seq<World>, actions: seq<Action>)
    ensures Run(trace, actions) && actions == [OpenStore(profile, {})]
    ensures var w := trace[1];
            && w.clock == 0 && w.reqs == map[] && w.db.locks == map[] && w.db.nonces == map[]
            && w.faults == {} && Records(w.db.meta, profile)
  {
    ReconcileRecords(EMPTY_DB.(meta := map[SCHEMA_VERSION_KEY := "1"]), profile);
    trace, actions := Then([Start(0)], [], OpenStore(profile, {}));
  }

  /** And there are such runs: a second process opens the store while a request of the first
      holds its lock, and the lock stays. */
  lemma SecondOpenKeepsLock(profile: Profile, o: string, s: string, nonce: u64, hash: string)
    returns (trace: seq<World>, actions: seq<Action>)
    ensures Run(trace, actions) && |actions| == 8
    ensures actions[0] == OpenStore(profile, {}) && actions[7] == OpenStore(profile, {})
    ensures trace[8].faults == {}
    ensures InsideInOrder(trace[8], o, s, nonce) && HasLease(trace[8].db, s, o, trace[8].reqs[o].expires)
  {
    trace, actions := FirstOpen(profile);
    trace, actions := Admit(trace, actions, o, s, nonce, hash, profile);
    OpenAgain(trace[7], profile);
    trace, actions := Then(trace, actions, OpenStore(profile, {}));
  }
}
