/** Order of submitted nonces per sender: prefix closure in every run, with no assumption on
    leases, clocks or crashes. */
module NonceOrder {
  import opened Machine
  import opened StoreModel
  import opened Protocol

  /** What breaks the order of one sender. */
  function PrefixFaults(s: string): set<Fault> {
    {StoreError(s), ProfileWipe(s)}
  }

  /** Nonce `m` of `s` was accepted by one of the first `n` submissions. */
  ghost predicate Sent(log: seq<Submission>, n: nat, s: string, m: int) {
    exists j :: 0 <= j < n && j < |log| && log[j].sender == s && log[j].nonce == m && log[j].ok
  }

  /** The request has a classification it can act on. */
  predicate Cleared(phase: Phase) {
    phase.Observed? || phase.Classified? || phase.Submitting? || phase.Landed?
  }

  ghost predicate Sequenced(w: World, s: string) {
    && (s in w.base <==> s in w.db.nonces)
    && (s in w.base ==> w.base[s] <= Next(w.db, s))
    && (forall m {:trigger Sent(w.log, |w.log|, s, m)} ::
          s in w.base && w.base[s] <= m < Next(w.db, s) ==> Sent(w.log, |w.log|, s, m))
  }

  ghost predicate RequestSequenced(w: World, r: Request) {
    && (Cleared(r.phase) && r.inOrder ==>
          && r.sender in w.db.nonces && r.nonce <= Next(w.db, r.sender)
          && r.sender in w.base && w.base[r.sender] <= r.nonce)
    && (r.phase.Landed? ==> Sent(w.log, |w.log|, r.sender, r.nonce))
    && (r.phase.Landed? && r.phase.written >= 3 ==> r.inOrder)
    && (r.phase.Created? || Locking(r.phase) ==> !r.inOrder)
  }

  ghost predicate AllSequenced(w: World, s: string) {
    forall o :: o in w.reqs && w.reqs[o].sender == s ==> RequestSequenced(w, w.reqs[o])
  }

  /** The stored sequence is accounted for by acceptances, whatever store errors there have been. */
  ghost predicate SequenceInv(w: World, s: string) {
    Sequenced(w, s) && AllSequenced(w, s)
  }

  /** A request that is cleared out of order repeats a nonce. */
  ghost predicate AllBehind(w: World, s: string) {
    forall o :: o in w.reqs && w.reqs[o].sender == s && Cleared(w.reqs[o].phase) && !w.reqs[o].inOrder ==>
      s in w.db.nonces && w.reqs[o].nonce < Next(w.db, s)
  }

  /** Every submission of the sender, accepted or not, was preceded by acceptances of the whole
      range from its first nonce up to it. */
  ghost predicate PrefixClosed(base: map<string, u64>, log: seq<Submission>, s: string) {
    forall i :: 0 <= i < |log| && log[i].sender == s ==> ClosedAt(base, log, s, i)
  }

  ghost predicate ClosedAt(base: map<string, u64>, log: seq<Submission>, s: string, i: nat)
    requires i < |log|
  {
    && s in base
    && forall m {:trigger Sent(log, i, s, m)} :: base[s] <= m < log[i].nonce ==> Sent(log, i, s, m)
  }

  ghost predicate NonceInv(w: World, s: string) {
    SequenceInv(w, s) && AllBehind(w, s) && PrefixClosed(w.base, w.log, s)
  }

  lemma SentExtends(log: seq<Submission>, e: Submission, n: nat, s: string, m: int)
    requires n <= |log|
    ensures Sent(log, n, s, m) ==> Sent(log + [e], n, s, m) && Sent(log + [e], |log + [e]|, s, m)
    ensures Sent(log + [e], n, s, m) ==> Sent(log, n, s, m)
  {
    if Sent(log, n, s, m) {
      var j :| 0 <= j < n && log[j].sender == s && log[j].nonce == m && log[j].ok;
      assert (log + [e])[j] == log[j];
    }
  }

  lemma SentKept(w: World, a: Action, s: string, m: int)
    requires Enabled(w, a)
    ensures Sent(w.log, |w.log|, s, m) ==> Sent(NextLog(w, a), |NextLog(w, a)|, s, m)
  {
    if a.Submit? {
      var r := w.reqs[a.owner];
      SentExtends(w.log, Submission(r.sender, r.nonce, a.owner, r.inOrder, a.result.Accepted?), |w.log|, s, m);
    }
  }

  /** A nonce row never goes away, and moves only when a landed in-order request marks its own
      nonce: by exactly one. */
  lemma NonceRowKept(w: World, a: Action, s: string)
    requires Enabled(w, a) && SequenceInv(w, s)
    requires ProfileWipe(s) !in Raises(w, a)
    requires s in w.db.nonces
    ensures s in NextDb(w, a).nonces && s in NextBase(w, a) && NextBase(w, a)[s] == w.base[s]
    ensures || Next(NextDb(w, a), s) == Next(w.db, s)
            || (&& a.Mark? && w.reqs[a.owner].sender == s && w.reqs[a.owner].nonce == Next(w.db, s)
                && Next(NextDb(w, a), s) == Next(w.db, s) + 1)
  {
  }

  /** A nonce row appears with the first classified nonce as both its base and its next value. */
  lemma NonceRowBorn(w: World, a: Action, s: string)
    requires Enabled(w, a) && SequenceInv(w, s)
    requires s !in w.db.nonces
    ensures s in NextBase(w, a) <==> s in NextDb(w, a).nonces
    ensures s in NextDb(w, a).nonces ==>
              && a.Attempt? && w.reqs[a.owner].sender == s
              && NextBase(w, a)[s] == Next(NextDb(w, a), s) == w.reqs[a.owner].nonce
  {
  }

  lemma SequencedStep(w: World, a: Action, s: string)
    requires Enabled(w, a) && SequenceInv(w, s)
    requires ProfileWipe(s) !in Raises(w, a)
    ensures Sequenced(Do(w, a), s)
  {
    var w' := Do(w, a);
    if s in w.db.nonces { NonceRowKept(w, a, s); } else { NonceRowBorn(w, a, s); }
    forall m | s in w'.base && w'.base[s] <= m < Next(w'.db, s)
      ensures Sent(w'.log, |w'.log|, s, m)
    {
      if s in w.db.nonces {
        assert Sent(w.log, |w.log|, s, m);
        SentKept(w, a, s, m);
      }
    }
  }

  /** The acting request, when its action leaves it cleared in order, sits within the sequence. */
  lemma ActorSequenced(w: World, a: Action, s: string)
    requires Enabled(w, a) && HasActor(a) && NextReq(w, a).sender == s && SequenceInv(w, s)
    ensures var r := NextReq(w, a);
            && (Cleared(r.phase) && r.inOrder ==>
                  && s in NextDb(w, a).nonces && r.nonce <= Next(NextDb(w, a), s)
                  && s in NextBase(w, a) && NextBase(w, a)[s] <= r.nonce)
            && (r.phase.Landed? && r.phase.written >= 3 ==> r.inOrder)
            && (r.phase.Created? || Locking(r.phase) ==> !r.inOrder)
  {
    if a.Attempt? {
      if s !in w.db.nonces { NonceRowBorn(w, a, s); }
    }
  }

  lemma ActorBehind(w: World, a: Action, s: string)
    requires Enabled(w, a) && HasActor(a) && NextReq(w, a).sender == s && SequenceInv(w, s) && AllBehind(w, s)
    requires StoreError(s) !in Raises(w, a)
    ensures var r := NextReq(w, a);
            Cleared(r.phase) && !r.inOrder ==> s in NextDb(w, a).nonces && r.nonce < Next(NextDb(w, a), s)
  {
    if a.Attempt? {
      if s !in w.db.nonces { NonceRowBorn(w, a, s); }
    }
  }

  lemma ActorSent(w: World, a: Action, s: string)
    requires Enabled(w, a) && HasActor(a) && NextReq(w, a).sender == s && AllSequenced(w, s)
    ensures NextReq(w, a).phase.Landed? ==> Sent(NextLog(w, a), |NextLog(w, a)|, s, NextReq(w, a).nonce)
  {
    if a.Submit? {
      assert NextLog(w, a)[|w.log|].sender == w.reqs[a.owner].sender;
    }
  }

  lemma AllSequencedStep(w: World, a: Action, s: string)
    requires Enabled(w, a) && SequenceInv(w, s)
    requires ProfileWipe(s) !in Raises(w, a)
    ensures AllSequenced(Do(w, a), s)
  {
    var w' := Do(w, a);
    forall o | o in w'.reqs && w'.reqs[o].sender == s
      ensures RequestSequenced(w', w'.reqs[o])
    {
      if HasActor(a) && a.owner == o {
        ActorSequenced(w, a, s);
        ActorSent(w, a, s);
      } else {
        var r := w.reqs[o];
        if Cleared(r.phase) && r.inOrder { NonceRowKept(w, a, s); }
        SentKept(w, a, s, r.nonce);
      }
    }
  }

  lemma AllBehindStep(w: World, a: Action, s: string)
    requires Enabled(w, a) && SequenceInv(w, s) && AllBehind(w, s)
    requires Raises(w, a) !! PrefixFaults(s)
    ensures AllBehind(Do(w, a), s)
  {
    var w' := Do(w, a);
    assert StoreError(s) in PrefixFaults(s) && ProfileWipe(s) in PrefixFaults(s);
    forall o | o in w'.reqs && w'.reqs[o].sender == s && Cleared(w'.reqs[o].phase) && !w'.reqs[o].inOrder
      ensures s in w'.db.nonces && w'.reqs[o].nonce < Next(w'.db, s)
    {
      if HasActor(a) && a.owner == o { ActorBehind(w, a, s); } else { NonceRowKept(w, a, s); }
    }
  }

  lemma ClosedAtExtends(base: map<string, u64>, log: seq<Submission>, e: Submission, s: string, i: nat)
    requires i < |log|
    ensures ClosedAt(base, log + [e], s, i) <==> ClosedAt(base, log, s, i)
  {
    forall m ensures Sent(log + [e], i, s, m) <==> Sent(log, i, s, m) {
      SentExtends(log, e, i, s, m);
    }
  }

  /** The newest submission is closed when all it needs was accepted before. */
  lemma ClosedAtLast(base: map<string, u64>, log: seq<Submission>, e: Submission, s: string)
    ensures ClosedAt(base, log + [e], s, |log|) <==>
            s in base && forall m {:trigger Sent(log, |log|, s, m)} :: base[s] <= m < e.nonce ==> Sent(log, |log|, s, m)
  {
    forall m ensures Sent(log + [e], |log|, s, m) <==> Sent(log, |log|, s, m) {
      SentExtends(log, e, |log|, s, m);
    }
  }

  lemma PrefixClosedStep(w: World, a: Action, s: string)
    requires Enabled(w, a) && NonceInv(w, s)
    requires ProfileWipe(s) !in Raises(w, a)
    ensures PrefixClosed(NextBase(w, a), NextLog(w, a), s)
  {
    var log', base' := NextLog(w, a), NextBase(w, a);
    forall i | 0 <= i < |log'| && log'[i].sender == s
      ensures ClosedAt(base', log', s, i)
    {
      if i == |w.log| {
        assert RequestSequenced(w, w.reqs[a.owner]);
        NonceRowKept(w, a, s);
        ClosedAtLast(base', w.log, log'[i], s);
      } else {
        assert ClosedAt(w.base, w.log, s, i);
        NonceRowKept(w, a, s);
        if a.Submit? { ClosedAtExtends(base', w.log, log'[|w.log|], s, i); }
      }
    }
  }

  lemma {:induction false} SequenceInvHolds(trace: seq<World>, actions: seq<Action>, n: nat, s: string)
    requires Run(trace, actions) && n < |trace|
    requires ProfileWipe(s) !in trace[n].faults
    ensures SequenceInv(trace[n], s)
  {
    if n > 0 {
      SequenceInvHolds(trace, actions, n - 1, s);
      SequencedStep(trace[n - 1], actions[n - 1], s);
      AllSequencedStep(trace[n - 1], actions[n - 1], s);
    }
  }

  lemma {:induction false} NonceInvHolds(trace: seq<World>, actions: seq<Action>, n: nat, s: string)
    requires Run(trace, actions) && n < |trace|
    requires trace[n].faults !! PrefixFaults(s)
    ensures NonceInv(trace[n], s)
  {
    assert ProfileWipe(s) in PrefixFaults(s);
    SequenceInvHolds(trace, actions, n, s);
    if n > 0 {
      var w, a := trace[n - 1], actions[n - 1];
      assert w.faults <= trace[n].faults && Raises(w, a) <= trace[n].faults;
      NonceInvHolds(trace, actions, n - 1, s);
      AllBehindStep(w, a, s);
      PrefixClosedStep(w, a, s);
    }
  }

  /** Main result: with no assumption on leases, clocks or crashes, when a nonce is submitted
      every nonce from the sender's first one up to it has been accepted before. Only a store
      error or a wipe of this very sender can break it. */
  lemma PrefixClosure(trace: seq<World>, actions: seq<Action>, n: nat, s: string)
    requires Run(trace, actions) && n < |trace|
    requires trace[n].faults !! PrefixFaults(s)
    ensures PrefixClosed(trace[n].base, trace[n].log, s)
  {
    NonceInvHolds(trace, actions, n, s);
  }

  /** The next expected nonce starts at the sender's first classified nonce, which never
      changes afterwards, and each action leaves it alone or raises it by exactly one. */
  lemma NextGrowsByOne(trace: seq<World>, actions: seq<Action>, n: nat, s: string)
    requires Run(trace, actions) && n < |actions|
    requires ProfileWipe(s) !in trace[n + 1].faults
    ensures s in trace[n].db.nonces ==>
              && s in trace[n + 1].db.nonces
              && s in trace[n].base && s in trace[n + 1].base && trace[n + 1].base[s] == trace[n].base[s]
              && 0 <= Next(trace[n + 1].db, s) - Next(trace[n].db, s) <= 1
    ensures s !in trace[n].db.nonces && s in trace[n + 1].db.nonces ==>
              && s in trace[n + 1].base && trace[n + 1].base[s] == Next(trace[n + 1].db, s)
              && actions[n].Attempt? && trace[n].reqs[actions[n].owner].nonce == trace[n + 1].base[s]
  {
    var w, a := trace[n], actions[n];
    assert w.faults <= trace[n + 1].faults && Raises(w, a) <= trace[n + 1].faults;
    SequenceInvHolds(trace, actions, n, s);
    if s in w.db.nonces { NonceRowKept(w, a, s); } else { NonceRowBorn(w, a, s); }
  }

  // ---- the exact condition -------------------------------------------------

  predicate Submits(w: World, a: Action, s: string)
    requires Enabled(w, a)
  {
    a.Submit? && w.reqs[a.owner].sender == s
  }

  /** To be checked before `o` submits: its nonce is not ahead of the stored sequence, or follows
      right after one that has been accepted. */
  ghost predicate Follows(w: World, o: string)
    requires o in w.reqs
  {
    var s, nonce := w.reqs[o].sender, w.reqs[o].nonce;
    s in w.db.nonces && (nonce <= Next(w.db, s) || Sent(w.log, |w.log|, s, nonce - 1))
  }

  lemma LastDecides(base: map<string, u64>, log: seq<Submission>, e: Submission, s: string)
    requires e.sender == s
    ensures PrefixClosed(base, log + [e], s) <==> PrefixClosed(base, log, s) && ClosedAt(base, log + [e], s, |log|)
  {
    forall i | 0 <= i < |log| && log[i].sender == s
      ensures ClosedAt(base, log + [e], s, i) <==> ClosedAt(base, log, s, i)
    {
      ClosedAtExtends(base, log, e, s, i);
      assert (log + [e])[i] == log[i];
    }
    assert (log + [e])[|log|] == e;
  }

  /** A closed log that has accepted a nonce has accepted all before it. */
  lemma SentClosesBelow(base: map<string, u64>, log: seq<Submission>, s: string, k: int, m: int)
    requires PrefixClosed(base, log, s) && s in base && Sent(log, |log|, s, k) && base[s] <= m <= k
    ensures Sent(log, |log|, s, m)
  {
    var j :| 0 <= j < |log| && log[j].sender == s && log[j].nonce == k && log[j].ok;
    assert ClosedAt(base, log, s, j);
    if m < k { assert Sent(log, j, s, m); }
  }

  /** Main result, for every run without a wipe of the sender's rows, with any number of store
      errors and anything in between: a submission keeps the prefix closed exactly when it
      follows. */
  lemma SubmissionClosedIff(trace: seq<World>, actions: seq<Action>, n: nat, s: string)
    requires Run(trace, actions) && n < |actions|
    requires ProfileWipe(s) !in trace[n].faults && Submits(trace[n], actions[n], s)
    ensures PrefixClosed(trace[n + 1].base, trace[n + 1].log, s) <==>
            PrefixClosed(trace[n].base, trace[n].log, s) && Follows(trace[n], actions[n].owner)
  {
    SequenceInvHolds(trace, actions, n, s);
    ClosedIffFollows(trace[n], actions[n], s);
  }

  lemma ClosedIffFollows(w: World, a: Action, s: string)
    requires Enabled(w, a) && SequenceInv(w, s) && Submits(w, a, s)
    ensures PrefixClosed(NextBase(w, a), NextLog(w, a), s) <==> PrefixClosed(w.base, w.log, s) && Follows(w, a.owner)
  {
    var r := w.reqs[a.owner];
    var e := NextLog(w, a)[|w.log|];
    assert NextLog(w, a) == w.log + [e] && NextBase(w, a) == w.base && e.nonce == r.nonce;
    LastDecides(w.base, w.log, e, s);
    ClosedAtLast(w.base, w.log, e, s);
    if PrefixClosed(w.base, w.log, s) && Follows(w, a.owner) && r.nonce > Next(w.db, s) {
      forall m | w.base[s] <= m < r.nonce ensures Sent(w.log, |w.log|, s, m) {
        SentClosesBelow(w.base, w.log, s, r.nonce - 1, m);
      }
    }
  }

  lemma OthersKeepClosed(w: World, a: Action, s: string)
    requires Enabled(w, a) && SequenceInv(w, s) && PrefixClosed(w.base, w.log, s)
    requires ProfileWipe(s) !in Raises(w, a) && !Submits(w, a, s)
    ensures PrefixClosed(NextBase(w, a), NextLog(w, a), s)
  {
    forall i | 0 <= i < |NextLog(w, a)| && NextLog(w, a)[i].sender == s
      ensures ClosedAt(NextBase(w, a), NextLog(w, a), s, i)
    {
      assert ClosedAt(w.base, w.log, s, i);
      NonceRowKept(w, a, s);
      if a.Submit? { ClosedAtExtends(NextBase(w, a), w.log, NextLog(w, a)[|w.log|], s, i); }
    }
  }

  /** Main result: the submissions of a sender are prefix closed at every point of a run exactly
      when each of them followed when it was made. */
  lemma {:induction false} PrefixClosedIff(trace: seq<World>, actions: seq<Action>, n: nat, s: string)
    requires Run(trace, actions) && n < |trace|
    requires ProfileWipe(s) !in trace[n].faults
    ensures (forall i :: 0 <= i <= n ==> PrefixClosed(trace[i].base, trace[i].log, s)) <==>
            (forall i :: 0 <= i < n && Submits(trace[i], actions[i], s) ==> Follows(trace[i], actions[i].owner))
  {
    if n > 0 {
      PrefixClosedIff(trace, actions, n - 1, s);
      SequenceInvHolds(trace, actions, n - 1, s);
      if Submits(trace[n - 1], actions[n - 1], s) {
        SubmissionClosedIff(trace, actions, n - 1, s);
      } else if PrefixClosed(trace[n - 1].base, trace[n - 1].log, s) {
        OthersKeepClosed(trace[n - 1], actions[n - 1], s);
      }
    }
  }
}
