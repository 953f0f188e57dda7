/** The class methods of the store as actions of the protocol. */
module Refinement {
  import opened Machine
  import opened StoreModel
  import opened Store
  import opened Protocol

  /** What an eviction of the oldest removes are rows an open may evict. */
  lemma EvictedRows(db: Db, profile: Profile, completedCutoff: i64, failedCutoff: i64, txMap: map<string, TxRow>)
    returns (evicted: set<string>)
    requires OldestEvicted(Unexpired(Opened(db, profile, {}).txMap, completedCutoff, failedCutoff), txMap)
    ensures forall h :: h in evicted ==>
              h in Opened(db, profile, {}).txMap && !InFlight(Opened(db, profile, {}).txMap[h].state)
    ensures Opened(db, profile, evicted) == Opened(db, profile, {}).(txMap := txMap)
  {
    var kept := Opened(db, profile, {}).txMap;
    evicted := kept.Keys - txMap.Keys;
    assert kept - evicted == txMap;
  }

  /** Opening a store, with all the pruning it does, is one `OpenStore` action: the rows it
      evicts are rows that action may evict. */
  lemma OpenIsOneAction(w: World, profile: Profile, completedCutoff: i64, failedCutoff: i64, txMap: map<string, TxRow>)
    requires OldestEvicted(
               Unexpired(Opened(w.db, profile, {}).txMap, completedCutoff, failedCutoff), txMap)
    ensures exists evicted ::
              && Enabled(w, OpenStore(profile, evicted))
              && NextDb(w, OpenStore(profile, evicted)) == Opened(w.db, profile, {}).(txMap := txMap)
  {
    var evicted := EvictedRows(w.db, profile, completedCutoff, failedCutoff, txMap);
    assert Enabled(w, OpenStore(profile, evicted));
  }

  /** A lock call that ends after some polls is, at its last poll, one `Attempt` of the request
      on the tables that poll found. */
  lemma LastPollIsOneAction(w: World, o: string, polledDb: Db, result: LockResult)
    requires o in w.reqs && w.reqs[o].phase.Polled? && w.db == polledDb
    requires var r := w.reqs[o];
             var outcome := TryAcquireAndClassify(
               polledDb, r.sender, o, r.nonce, r.hash, r.phase.now, LeaseMs(r.timeoutSecs), w.clock).1;
             && !result.LockTimeout?
             && outcome == Some(if result.NonceGap? then Gap(result.expected, result.got) else result.ordering)
             && (result.Ordering? ==> !result.ordering.Gap?)
    ensures var r' := NextReq(w, Attempt(o, Runs));
            && (result.NonceGap? <==> r'.phase.BlockedOnGap?)
            && (result.Ordering? <==> Grants(w, o, Runs))
            && (result.Ordering? ==> r' == AfterGrant(w.reqs[o], result.ordering))
  {
  }
}
