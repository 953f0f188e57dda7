/** Exactly-once, in-order delivery to a sender whose critical sections end within their leases
    and whose marks are not lost. */
module ExactlyOnce {
  import opened StoreModel
  import opened Protocol
  import opened LeaseSafety
  import opened NonceOrder

  /** What costs one sender its exactly-once delivery. Other senders' faults do not matter. */
  function OnceFaults(s: string): set<Fault> {
    {ProfileWipe(s), MarkFailed(s), LostMark(s), LeaseOverrun(s)}
  }

  /** The accepted in-order nonces of a sender, in submission order. */
  function Delivered(log: seq<Submission>, s: string): seq<int> {
    if log == [] then []
    else
      var e := log[|log| - 1];
      Delivered(log[..|log| - 1], s) + if e.sender == s && e.inOrder && e.ok then [e.nonce] else []
  }

  lemma {:induction false} DeliveredMeaning(log: seq<Submission>, s: string, m: int)
    ensures m in Delivered(log, s) <==>
            exists j :: 0 <= j < |log| && log[j].sender == s && log[j].nonce == m && log[j].inOrder && log[j].ok
  {
    if log != [] {
      var rest, n := log[..|log| - 1], |log| - 1;
      DeliveredMeaning(rest, s, m);
      if m in Delivered(rest, s) {
        var j :| 0 <= j < n && rest[j].sender == s && rest[j].nonce == m && rest[j].inOrder && rest[j].ok;
        assert log[j] == rest[j];
      }
    }
  }

  function Range(from: int, to: int): (r: seq<int>)
    requires from <= to
  {
    seq(to - from, i requires 0 <= i < to - from => from + i)
  }

  predicate Unmarked(r: Request) {
    r.inOrder && r.phase.Landed?
  }

  /** Some in-order submission of `s` has landed and is not yet marked. */
  predicate Pending(reqs: map<string, Request>, s: string) {
    exists o :: o in reqs && reqs[o].sender == s && Unmarked(reqs[o])
  }

  ghost predicate SoleUnmarked(reqs: map<string, Request>, s: string) {
    forall o, p ::
      o in reqs && p in reqs && reqs[o].sender == s && reqs[p].sender == s && Unmarked(reqs[o]) && Unmarked(reqs[p])
      ==> o == p
  }

  ghost predicate WithinLease(w: World, s: string) {
    forall o :: o in w.reqs && w.reqs[o].sender == s && Holding(w.reqs[o]) ==> w.clock <= w.reqs[o].expires
  }

  ghost predicate OrderFlags(r: Request) {
    && (r.inOrder ==> r.lockAcquired)
    && (r.phase.Landed? && r.phase.written == 3 ==> r.inOrder)
    && (r.phase.Landed? ==> r.phase.written <= 3)
  }

  ghost predicate AtFront(db: Db, r: Request) {
    r.inOrder && Cleared(r.phase) && r.sender in db.nonces ==> r.nonce == Next(db, r.sender)
  }

  ghost predicate DeliveredUpTo(w: World, s: string) {
    Delivered(w.log, s) ==
      if s in w.db.nonces && s in w.base && w.base[s] <= Next(w.db, s)
      then Range(w.base[s], Next(w.db, s) + if Pending(w.reqs, s) then 1 else 0)
      else []
  }

  ghost predicate AllOrderFlags(w: World, s: string) {
    forall o :: o in w.reqs && w.reqs[o].sender == s ==> OrderFlags(w.reqs[o])
  }

  ghost predicate OnceInv(w: World, s: string) {
    && WithinLease(w, s)
    && AllOrderFlags(w, s)
    && (forall o :: o in w.reqs && w.reqs[o].sender == s ==> AtFront(w.db, w.reqs[o]))
    && DeliveredUpTo(w, s)
  }

  /** What earlier modules have established about a sender, bundled. */
  ghost predicate Ready(w: World, s: string) {
    LockFlags(w) && LeasesHeld(w, s) && SequenceInv(w, s) && OnceInv(w, s)
  }

  lemma SoleHolder(w: World, s: string, o: string, p: string)
    requires LeasesHeld(w, s) && WithinLease(w, s)
    requires o in w.reqs && p in w.reqs && Holding(w.reqs[o]) && Holding(w.reqs[p])
    requires w.reqs[o].sender == s && w.reqs[p].sender == s
    ensures o == p
  {
  }

  lemma WithinLeaseStep(w: World, a: Action, s: string)
    requires Enabled(w, a) && WithinLease(w, s) && LockFlags(w)
    requires LeaseOverrun(s) !in Raises(w, a)
    ensures WithinLease(Do(w, a), s)
  {
  }

  lemma OrderFlagsStep(w: World, a: Action, s: string)
    requires Enabled(w, a) && HasActor(a) && LockFlags(w)
    requires NextReq(w, a).sender == s && AllOrderFlags(w, s)
    ensures OrderFlags(NextReq(w, a))
  {
    if a.Attempt? {
      assert OrderFlags(w.reqs[a.owner]);
    }
  }

  lemma ActorAtFront(w: World, a: Action, s: string)
    requires Enabled(w, a) && HasActor(a) && Ready(w, s) && Raises(w, a) !! OnceFaults(s)
    requires NextReq(w, a).sender == s
    ensures AtFront(NextDb(w, a), NextReq(w, a))
  {
    if a.Attempt? && s !in w.db.nonces {
      NonceRowBorn(w, a, s);
    }
  }

  /** While a request sits at the front of its sender's sequence nobody else moves the front. */
  lemma FrontStays(w: World, a: Action, s: string, p: string)
    requires Enabled(w, a) && Ready(w, s) && Raises(w, a) !! OnceFaults(s)
    requires p in w.reqs && w.reqs[p].sender == s && (HasActor(a) ==> a.owner != p)
    ensures AtFront(NextDb(w, a), w.reqs[p])
  {
    var r := w.reqs[p];
    assert ProfileWipe(s) in OnceFaults(s);
    if r.inOrder && Cleared(r.phase) {
      NonceRowKept(w, a, s);
      if a.Mark? && w.reqs[a.owner].sender == s {
        SoleHolder(w, s, a.owner, p);
      }
    }
  }

  predicate Lands(w: World, a: Action, s: string)
    requires Enabled(w, a)
  {
    a.Submit? && a.result.Accepted? && w.reqs[a.owner].inOrder && w.reqs[a.owner].sender == s
  }

  predicate Marks(w: World, a: Action, s: string)
    requires Enabled(w, a)
  {
    a.Mark? && w.reqs[a.owner].sender == s
  }

  lemma PendingStep(w: World, a: Action, s: string)
    requires Enabled(w, a) && Ready(w, s) && LostMark(s) !in Raises(w, a)
    ensures Lands(w, a, s) ==> !Pending(w.reqs, s) && Pending(Do(w, a).reqs, s)
    ensures Marks(w, a, s) ==> Pending(w.reqs, s) && !Pending(Do(w, a).reqs, s)
    ensures !Lands(w, a, s) && !Marks(w, a, s) ==> Pending(Do(w, a).reqs, s) == Pending(w.reqs, s)
  {
    var w' := Do(w, a);
    if Lands(w, a, s) {
      assert Unmarked(w'.reqs[a.owner]);
      forall p | p in w.reqs && w.reqs[p].sender == s ensures !Unmarked(w.reqs[p]) {
        if Unmarked(w.reqs[p]) { SoleHolder(w, s, a.owner, p); }
      }
    } else if Marks(w, a, s) {
      assert OrderFlags(w.reqs[a.owner]) && Unmarked(w.reqs[a.owner]);
      forall p | p in w'.reqs && w'.reqs[p].sender == s ensures !Unmarked(w'.reqs[p]) {
        if Unmarked(w'.reqs[p]) { SoleHolder(w, s, a.owner, p); }
      }
    } else {
      PendingOtherwise(w, a, s);
    }
  }

  lemma ActorUnmarked(w: World, a: Action, s: string)
    requires Enabled(w, a) && HasActor(a) && LockFlags(w) && LostMark(s) !in Raises(w, a)
    requires NextReq(w, a).sender == s && AllOrderFlags(w, s)
    ensures a.owner in w.reqs ==> NextReq(w, a).sender == w.reqs[a.owner].sender
    ensures a.owner in w.reqs && !a.Mark? && Unmarked(w.reqs[a.owner]) ==> Unmarked(NextReq(w, a))
    ensures Unmarked(NextReq(w, a)) ==>
              a.owner in w.reqs && (Unmarked(w.reqs[a.owner]) || Lands(w, a, w.reqs[a.owner].sender))
  {
    if a.Attempt? { assert OrderFlags(w.reqs[a.owner]); }
  }

  lemma PendingStays(w: World, a: Action, s: string)
    requires Enabled(w, a) && Ready(w, s) && LostMark(s) !in Raises(w, a)
    requires !Marks(w, a, s) && Pending(w.reqs, s)
    ensures Pending(Do(w, a).reqs, s)
  {
    var p :| p in w.reqs && w.reqs[p].sender == s && Unmarked(w.reqs[p]);
    if HasActor(a) && a.owner == p { ActorUnmarked(w, a, s); }
    assert p in Do(w, a).reqs && Unmarked(Do(w, a).reqs[p]);
  }

  lemma PendingBefore(w: World, a: Action, s: string)
    requires Enabled(w, a) && Ready(w, s) && LostMark(s) !in Raises(w, a)
    requires !Lands(w, a, s) && Pending(Do(w, a).reqs, s)
    ensures Pending(w.reqs, s)
  {
    var p :| p in Do(w, a).reqs && Do(w, a).reqs[p].sender == s && Unmarked(Do(w, a).reqs[p]);
    if HasActor(a) && a.owner == p { ActorUnmarked(w, a, s); }
    assert p in w.reqs && Unmarked(w.reqs[p]);
  }

  lemma PendingOtherwise(w: World, a: Action, s: string)
    requires Enabled(w, a) && Ready(w, s) && LostMark(s) !in Raises(w, a)
    requires !Lands(w, a, s) && !Marks(w, a, s)
    ensures Pending(Do(w, a).reqs, s) == Pending(w.reqs, s)
  {
    if Pending(w.reqs, s) { PendingStays(w, a, s); }
    if Pending(Do(w, a).reqs, s) { PendingBefore(w, a, s); }
  }

  lemma DeliveredStep(w: World, a: Action, s: string)
    requires Enabled(w, a)
    ensures Delivered(NextLog(w, a), s) ==
            Delivered(w.log, s) + if Lands(w, a, s) then [w.reqs[a.owner].nonce] else []
  {
    if a.Submit? {
      assert NextLog(w, a)[..|w.log|] == w.log;
    }
  }

  lemma NothingPendingBeforeFirst(w: World, s: string)
    requires AllSequenced(w, s) && s !in w.db.nonces
    ensures !Pending(w.reqs, s)
  {
    forall p | p in w.reqs && w.reqs[p].sender == s ensures !Unmarked(w.reqs[p]) {
      assert RequestSequenced(w, w.reqs[p]);
    }
  }

  /** What an action does to the front of a sender that already has a nonce row. */
  lemma FrontStep(w: World, a: Action, s: string)
    requires Enabled(w, a) && Ready(w, s) && Raises(w, a) !! OnceFaults(s) && s in w.db.nonces
    ensures s in NextDb(w, a).nonces && s in NextBase(w, a) && NextBase(w, a)[s] == w.base[s]
    ensures Next(NextDb(w, a), s) == Next(w.db, s) + if Marks(w, a, s) then 1 else 0
    ensures Lands(w, a, s) ==> w.reqs[a.owner].nonce == Next(w.db, s)
  {
    assert ProfileWipe(s) in OnceFaults(s) && MarkFailed(s) in OnceFaults(s);
    NonceRowKept(w, a, s);
    if (a.Mark? || a.Submit?) && w.reqs[a.owner].sender == s {
      assert AtFront(w.db, w.reqs[a.owner]) && OrderFlags(w.reqs[a.owner]);
    }
  }

  lemma UpToFront(w: World, s: string)
    requires Sequenced(w, s) && s in w.db.nonces
    ensures DeliveredUpTo(w, s) <==>
            Delivered(w.log, s) == Range(w.base[s], Next(w.db, s) + if Pending(w.reqs, s) then 1 else 0)
  {
  }

  lemma RangeGrows(from: int, to: int)
    requires from <= to
    ensures Range(from, to + 1) == Range(from, to) + [to]
  {
  }

  lemma DeliveredUpToLater(w: World, a: Action, s: string)
    requires Enabled(w, a) && Ready(w, s) && Raises(w, a) !! OnceFaults(s) && s in w.db.nonces
    ensures DeliveredUpTo(Do(w, a), s)
  {
    assert LostMark(s) in OnceFaults(s) && ProfileWipe(s) in OnceFaults(s);
    UpToFront(w, s);
    PendingStep(w, a, s);
    DeliveredStep(w, a, s);
    FrontStep(w, a, s);
    SequencedStep(w, a, s);
    RangeGrows(w.base[s], Next(w.db, s));
    UpToFront(Do(w, a), s);
  }

  lemma DeliveredUpToFirst(w: World, a: Action, s: string)
    requires Enabled(w, a) && Ready(w, s) && Raises(w, a) !! OnceFaults(s) && s !in w.db.nonces
    ensures DeliveredUpTo(Do(w, a), s)
  {
    assert LostMark(s) in OnceFaults(s);
    assert DeliveredUpTo(w, s);
    assert !Lands(w, a, s) && !Marks(w, a, s) by {
      if (a.Submit? || a.Mark?) && w.reqs[a.owner].sender == s { assert RequestSequenced(w, w.reqs[a.owner]); }
    }
    NothingPendingBeforeFirst(w, s);
    PendingOtherwise(w, a, s);
    DeliveredStep(w, a, s);
    NonceRowBorn(w, a, s);
  }

  lemma OnceInvStep(w: World, a: Action, s: string)
    requires Enabled(w, a) && Ready(w, s) && Raises(w, a) !! OnceFaults(s)
    ensures OnceInv(Do(w, a), s)
  {
    var w' := Do(w, a);
    assert LeaseOverrun(s) in OnceFaults(s);
    WithinLeaseStep(w, a, s);
    forall o | o in w'.reqs && w'.reqs[o].sender == s
      ensures OrderFlags(w'.reqs[o]) && AtFront(w'.db, w'.reqs[o])
    {
      if HasActor(a) && a.owner == o {
        OrderFlagsStep(w, a, s);
        ActorAtFront(w, a, s);
      } else {
        FrontStays(w, a, s, o);
      }
    }
    if s in w.db.nonces { DeliveredUpToLater(w, a, s); } else { DeliveredUpToFirst(w, a, s); }
  }

  lemma {:induction false} ReadyHolds(trace: seq<World>, actions: seq<Action>, n: nat, s: string)
    requires Run(trace, actions) && n < |trace|
    requires trace[n].faults !! OnceFaults(s)
    ensures Ready(trace[n], s)
  {
    assert ProfileWipe(s) in OnceFaults(s);
    LockFlagsHold(trace, actions, n);
    LeasesHeldInRuns(trace, actions, n, s);
    SequenceInvHolds(trace, actions, n, s);
    if n > 0 {
      var w, a := trace[n - 1], actions[n - 1];
      assert w.faults <= trace[n].faults && Raises(w, a) <= trace[n].faults;
      ReadyHolds(trace, actions, n - 1, s);
      OnceInvStep(w, a, s);
    }
  }

  /** Main result: a sender's accepted in-order submissions are its first nonce, the next one,
      and so on up to the recorded next expected nonce, each once and in that order, with at
      most one more that is landed but not yet marked, and a unique request stands behind it.
      Only faults of this sender matter. */
  lemma InOrderExactlyOnce(trace: seq<World>, actions: seq<Action>, n: nat, s: string)
    requires Run(trace, actions) && n < |trace|
    requires trace[n].faults !! OnceFaults(s)
    ensures var w := trace[n];
            if s in w.db.nonces then
              && s in w.base && w.base[s] <= Next(w.db, s)
              && (|| Delivered(w.log, s) == Range(w.base[s], Next(w.db, s))
                  || (&& Delivered(w.log, s) == Range(w.base[s], Next(w.db, s) + 1)
                      && exists o :: o in w.reqs && w.reqs[o].sender == s && Unmarked(w.reqs[o])
                                     && w.reqs[o].nonce == Next(w.db, s)))
            else Delivered(w.log, s) == []
    ensures SoleUnmarked(trace[n].reqs, s)
  {
    ReadyHolds(trace, actions, n, s);
    var w := trace[n];
    if s in w.db.nonces && Pending(w.reqs, s) {
      var o :| o in w.reqs && w.reqs[o].sender == s && Unmarked(w.reqs[o]);
      assert AtFront(w.db, w.reqs[o]);
    }
    forall o, p | o in w.reqs && p in w.reqs && w.reqs[o].sender == s && w.reqs[p].sender == s
                  && Unmarked(w.reqs[o]) && Unmarked(w.reqs[p])
      ensures o == p
    {
      SoleHolder(w, s, o, p);
    }
  }
}
