/** When exactly an in-order submission repeats a nonce: over every run, with leases that run out,
    marks that are lost and any number of other faults. */
module Deliveries {
  import opened StoreModel
  import opened Protocol
  import opened NonceOrder
  import opened ExactlyOnce

  // ---- requests and the log -----------------------------------------------

  /** An accepted answer belongs to the program points after it, and the other way round. */
  ghost predicate AnswerPhase(r: Request) {
    && (WasAccepted(r) ==> r.phase.Landed? || r.phase == Finishing(true) || r.phase == Done(true) || r.phase.Crashed?)
    && (r.phase.Landed? ==> WasAccepted(r))
    && (r.phase.Finishing? || r.phase.Done? ==> r.phase.ok == WasAccepted(r))
  }

  predicate Entry(e: Submission, o: string, r: Request) {
    e.ok && e.owner == o && e.sender == r.sender && e.nonce == r.nonce && e.inOrder == r.inOrder
  }

  /** Accepted requests and accepted submissions are the same thing. */
  ghost predicate LogMatches(w: World) {
    && (forall o :: o in w.reqs ==> AnswerPhase(w.reqs[o]))
    && (forall o :: o in w.reqs && WasAccepted(w.reqs[o]) ==> Logged(w.log, o, w.reqs[o]))
    && (forall j :: 0 <= j < |w.log| && w.log[j].ok ==>
          var o := w.log[j].owner; o in w.reqs && WasAccepted(w.reqs[o]) && Entry(w.log[j], o, w.reqs[o]))
  }

  ghost predicate Logged(log: seq<Submission>, o: string, r: Request) {
    exists j :: 0 <= j < |log| && Entry(log[j], o, r)
  }

  lemma ActorAnswer(w: World, a: Action)
    requires Enabled(w, a) && HasActor(a)
    requires a.owner in w.reqs ==> AnswerPhase(w.reqs[a.owner])
    ensures AnswerPhase(NextReq(w, a))
    ensures WasAccepted(NextReq(w, a)) ==>
              a.owner in w.reqs && (WasAccepted(w.reqs[a.owner]) || (a.Submit? && a.result.Accepted?))
  {
  }

  /** Nothing about an accepted submission changes afterwards. */
  lemma AcceptedStays(w: World, a: Action)
    requires Enabled(w, a) && HasActor(a) && !a.Arrive?
    requires AnswerPhase(w.reqs[a.owner]) && WasAccepted(w.reqs[a.owner])
    ensures var r, r' := w.reqs[a.owner], NextReq(w, a);
            && r'.sender == r.sender && r'.nonce == r.nonce && r'.inOrder == r.inOrder && r'.answer == r.answer
            && !a.Submit? && !a.Attempt?
  {
  }

  lemma LoggedStays(log: seq<Submission>, e: Submission, o: string, r: Request)
    requires Logged(log, o, r)
    ensures Logged(log + [e], o, r)
  {
    var j :| 0 <= j < |log| && Entry(log[j], o, r);
    assert (log + [e])[j] == log[j];
  }

  lemma ActorLogged(w: World, a: Action)
    requires Enabled(w, a) && HasActor(a) && LogMatches(w) && WasAccepted(NextReq(w, a))
    ensures Logged(NextLog(w, a), a.owner, NextReq(w, a))
  {
    ActorAnswer(w, a);
    if a.Submit? {
      assert Entry(NextLog(w, a)[|w.log|], a.owner, NextReq(w, a));
    } else {
      AcceptedStays(w, a);
      var j :| 0 <= j < |w.log| && Entry(w.log[j], a.owner, w.reqs[a.owner]);
      assert Entry(NextLog(w, a)[j], a.owner, NextReq(w, a));
    }
  }

  lemma LogMatchesStep(w: World, a: Action)
    requires Enabled(w, a) && LogMatches(w)
    ensures LogMatches(Do(w, a))
  {
    var w' := Do(w, a);
    if HasActor(a) { ActorAnswer(w, a); }
    forall o | o in w'.reqs && WasAccepted(w'.reqs[o]) ensures Logged(w'.log, o, w'.reqs[o]) {
      if HasActor(a) && a.owner == o {
        ActorLogged(w, a);
      } else if a.Submit? {
        LoggedStays(w.log, w'.log[|w.log|], o, w.reqs[o]);
      }
    }
    forall j | 0 <= j < |w'.log| && w'.log[j].ok
      ensures var o := w'.log[j].owner; o in w'.reqs && WasAccepted(w'.reqs[o]) && Entry(w'.log[j], o, w'.reqs[o])
    {
      if j < |w.log| { EntryStays(w, a, j); }
    }
  }

  lemma EntryStays(w: World, a: Action, j: nat)
    requires Enabled(w, a) && LogMatches(w) && j < |w.log| && w.log[j].ok
    ensures var o, w' := w.log[j].owner, Do(w, a);
            w'.log[j] == w.log[j] && o in w'.reqs && WasAccepted(w'.reqs[o]) && Entry(w.log[j], o, w'.reqs[o])
  {
    if HasActor(a) && a.owner == w.log[j].owner { AcceptedStays(w, a); }
  }

  lemma {:induction false} LogMatchesHolds(trace: seq<World>, actions: seq<Action>, n: nat)
    requires Run(trace, actions) && n < |trace|
    ensures LogMatches(trace[n])
  {
    if n > 0 {
      LogMatchesHolds(trace, actions, n - 1);
      LogMatchesStep(trace[n - 1], actions[n - 1]);
    }
  }

  /** In every run: a nonce has been accepted exactly when some request for it was answered yes. */
  lemma SentIffAccepted(trace: seq<World>, actions: seq<Action>, n: nat, s: string, m: int)
    requires Run(trace, actions) && n < |trace|
    ensures var w := trace[n];
            Sent(w.log, |w.log|, s, m) <==>
            exists o :: o in w.reqs && w.reqs[o].sender == s && w.reqs[o].nonce == m && WasAccepted(w.reqs[o])
  {
    var w := trace[n];
    LogMatchesHolds(trace, actions, n);
    if o :| o in w.reqs && w.reqs[o].sender == s && w.reqs[o].nonce == m && WasAccepted(w.reqs[o]) {
      var j :| 0 <= j < |w.log| && Entry(w.log[j], o, w.reqs[o]);
    }
  }

  /** The request has delivered this nonce in order. */
  predicate Delivers(r: Request, s: string, m: int) {
    r.sender == s && r.nonce == m && r.inOrder && WasAccepted(r)
  }

  ghost predicate Covered(reqs: map<string, Request>, s: string, m: int) {
    exists o :: o in reqs && Delivers(reqs[o], s, m)
  }

  lemma DeliveredIffCovered(w: World, s: string, m: int)
    requires LogMatches(w)
    ensures m in Delivered(w.log, s) <==> Covered(w.reqs, s, m)
  {
    DeliveredMeaning(w.log, s, m);
    if o :| o in w.reqs && Delivers(w.reqs[o], s, m) {
      var j :| 0 <= j < |w.log| && Entry(w.log[j], o, w.reqs[o]);
    }
  }

  // ---- deliveries and the nonce row ---------------------------------------

  /** Everything below the stored next nonce has been delivered, and nothing above it. */
  ghost predicate DeliveryInv(w: World, s: string) {
    && (forall m {:trigger Covered(w.reqs, s, m)} ::
          s in w.db.nonces && s in w.base && w.base[s] <= m < Next(w.db, s) ==> Covered(w.reqs, s, m))
    && (forall m {:trigger Covered(w.reqs, s, m)} ::
          Covered(w.reqs, s, m) ==> s in w.db.nonces && s in w.base && w.base[s] <= m <= Next(w.db, s))
  }

  lemma LandingDelivers(w: World, a: Action, s: string)
    requires Enabled(w, a) && Lands(w, a, s)
    ensures Delivers(NextReq(w, a), s, w.reqs[a.owner].nonce)
  {
  }

  lemma DelivererStays(w: World, a: Action, o: string, s: string, m: int)
    requires Enabled(w, a) && LogMatches(w) && o in w.reqs && Delivers(w.reqs[o], s, m)
    ensures o in Do(w, a).reqs && Delivers(Do(w, a).reqs[o], s, m)
  {
    if HasActor(a) && a.owner == o { AcceptedStays(w, a); }
  }

  lemma CoveredStays(w: World, a: Action, s: string, m: int)
    requires Enabled(w, a) && LogMatches(w)
    requires Covered(w.reqs, s, m) || (Lands(w, a, s) && w.reqs[a.owner].nonce == m)
    ensures Covered(Do(w, a).reqs, s, m)
  {
    if Lands(w, a, s) && w.reqs[a.owner].nonce == m {
      LandingDelivers(w, a, s);
      assert Delivers(Do(w, a).reqs[a.owner], s, m);
    } else {
      var o :| o in w.reqs && Delivers(w.reqs[o], s, m);
      DelivererStays(w, a, o, s, m);
    }
  }

  lemma CoveredBefore(w: World, a: Action, s: string, m: int)
    requires Enabled(w, a) && LogMatches(w) && Covered(Do(w, a).reqs, s, m)
    ensures Covered(w.reqs, s, m) || (Lands(w, a, s) && w.reqs[a.owner].nonce == m)
  {
    var o :| o in Do(w, a).reqs && Delivers(Do(w, a).reqs[o], s, m);
    if HasActor(a) && a.owner == o {
      ActorAnswer(w, a);
      if WasAccepted(w.reqs[o]) { AcceptedStays(w, a); }
    }
  }

  lemma CoveredStep(w: World, a: Action, s: string, m: int)
    requires Enabled(w, a) && LogMatches(w)
    ensures Covered(Do(w, a).reqs, s, m) <==>
            Covered(w.reqs, s, m) || (Lands(w, a, s) && w.reqs[a.owner].nonce == m)
  {
    if Covered(Do(w, a).reqs, s, m) { CoveredBefore(w, a, s, m); }
    if Covered(w.reqs, s, m) || (Lands(w, a, s) && w.reqs[a.owner].nonce == m) { CoveredStays(w, a, s, m); }
  }

  lemma MarkerDelivers(w: World, a: Action, s: string)
    requires Enabled(w, a) && LogMatches(w) && SequenceInv(w, s)
    requires a.Mark? && w.reqs[a.owner].sender == s
    ensures Covered(w.reqs, s, w.reqs[a.owner].nonce)
  {
    assert RequestSequenced(w, w.reqs[a.owner]);
    assert Delivers(w.reqs[a.owner], s, w.reqs[a.owner].nonce);
  }

  lemma DeliveryStep(w: World, a: Action, s: string)
    requires Enabled(w, a) && LogMatches(w) && SequenceInv(w, s) && DeliveryInv(w, s)
    requires ProfileWipe(s) !in Raises(w, a)
    ensures DeliveryInv(Do(w, a), s)
  {
    var w' := Do(w, a);
    if s in w.db.nonces { NonceRowKept(w, a, s); } else { NonceRowBorn(w, a, s); }
    if a.Mark? && w.reqs[a.owner].sender == s { MarkerDelivers(w, a, s); }
    if Lands(w, a, s) { assert RequestSequenced(w, w.reqs[a.owner]); }
    forall m
      ensures Covered(w'.reqs, s, m) <==> Covered(w.reqs, s, m) || (Lands(w, a, s) && w.reqs[a.owner].nonce == m)
    {
      CoveredStep(w, a, s, m);
    }
  }

  lemma {:induction false} DeliveryInvHolds(trace: seq<World>, actions: seq<Action>, n: nat, s: string)
    requires Run(trace, actions) && n < |trace|
    requires ProfileWipe(s) !in trace[n].faults
    ensures SequenceInv(trace[n], s) && LogMatches(trace[n]) && DeliveryInv(trace[n], s)
  {
    SequenceInvHolds(trace, actions, n, s);
    LogMatchesHolds(trace, actions, n);
    if n > 0 {
      DeliveryInvHolds(trace, actions, n - 1, s);
      DeliveryStep(trace[n - 1], actions[n - 1], s);
    }
  }

  // ---- main results --------------------------------------------------------

  /** To be read off the nonce row and the other requests before `o` submits: its nonce is behind
      the row, or another request has delivered it and its mark is not recorded. */
  ghost predicate Repeats(w: World, o: string)
    requires o in w.reqs
  {
    var s, m := w.reqs[o].sender, w.reqs[o].nonce;
    || (s in w.db.nonces && m < Next(w.db, s))
    || exists p :: p in w.reqs && p != o && Delivers(w.reqs[p], s, m)
  }

  /** In every run: an in-order submission delivers a nonce again exactly when another request
      has delivered it. */
  lemma RepeatsAnother(trace: seq<World>, actions: seq<Action>, n: nat, s: string)
    requires Run(trace, actions) && n < |actions| && Lands(trace[n], actions[n], s)
    ensures var w, o := trace[n], actions[n].owner;
            w.reqs[o].nonce as int in Delivered(w.log, s) <==>
            exists p :: p in w.reqs && p != o && Delivers(w.reqs[p], s, w.reqs[o].nonce)
  {
    var w, o := trace[n], actions[n].owner;
    LogMatchesHolds(trace, actions, n);
    DeliveredIffCovered(w, s, w.reqs[o].nonce);
    assert AnswerPhase(w.reqs[o]);
  }

  /** Main result, for every run without a wipe of the sender's rows: it does so exactly when the
      nonce row or the outstanding requests say so. */
  lemma RepeatsIff(trace: seq<World>, actions: seq<Action>, n: nat, s: string)
    requires Run(trace, actions) && n < |actions|
    requires ProfileWipe(s) !in trace[n].faults && Lands(trace[n], actions[n], s)
    ensures var w, o := trace[n], actions[n].owner;
            w.reqs[o].nonce as int in Delivered(w.log, s) <==> Repeats(w, o)
  {
    var w, o := trace[n], actions[n].owner;
    RepeatsAnother(trace, actions, n, s);
    DeliveryInvHolds(trace, actions, n, s);
    DeliveredIffCovered(w, s, w.reqs[o].nonce);
    assert RequestSequenced(w, w.reqs[o]);
  }

  /** In order, each nonce once, from the first one to the stored next one or up to it. */
  ghost predicate OnceInOrder(w: World, s: string) {
    if s in w.db.nonces && s in w.base && w.base[s] <= Next(w.db, s)
    then Delivered(w.log, s) == Range(w.base[s], Next(w.db, s) + if Covered(w.reqs, s, Next(w.db, s)) then 1 else 0)
    else Delivered(w.log, s) == []
  }

  /** One past the last delivered nonce. */
  ghost function Edge(w: World, s: string): int
    requires s in w.db.nonces
  {
    Next(w.db, s) + if Covered(w.reqs, s, Next(w.db, s)) then 1 else 0
  }

  /** Only a landing moves the edge: a mark moves the row up to it. */
  lemma EdgeStep(w: World, a: Action, s: string)
    requires Enabled(w, a) && LogMatches(w) && SequenceInv(w, s) && DeliveryInv(w, s)
    requires ProfileWipe(s) !in Raises(w, a) && s in w.db.nonces
    requires Lands(w, a, s) ==> w.reqs[a.owner].nonce == Next(w.db, s) && !Covered(w.reqs, s, Next(w.db, s))
    ensures s in NextDb(w, a).nonces && s in NextBase(w, a) && NextBase(w, a)[s] == w.base[s]
    ensures Edge(Do(w, a), s) == Edge(w, s) + if Lands(w, a, s) then 1 else 0
  {
    NonceRowKept(w, a, s);
    if a.Mark? && w.reqs[a.owner].sender == s { MarkerDelivers(w, a, s); }
    CoveredStep(w, a, s, Next(w.db, s));
    CoveredStep(w, a, s, Next(w.db, s) + 1);
  }

  lemma OnceStep(w: World, a: Action, s: string)
    requires Enabled(w, a) && LogMatches(w) && SequenceInv(w, s) && DeliveryInv(w, s)
    requires ProfileWipe(s) !in Raises(w, a) && OnceInOrder(w, s)
    requires Lands(w, a, s) ==> s in w.db.nonces
    requires Lands(w, a, s) ==> w.reqs[a.owner].nonce == Next(w.db, s) && !Covered(w.reqs, s, Next(w.db, s))
    ensures OnceInOrder(Do(w, a), s)
  {
    DeliveredStep(w, a, s);
    if s in w.db.nonces {
      EdgeStep(w, a, s);
      SequencedStep(w, a, s);
      OnceUpTo(w, s);
      OnceUpTo(Do(w, a), s);
    } else {
      FirstEdge(w, a, s);
    }
  }

  lemma OnceUpTo(w: World, s: string)
    requires Sequenced(w, s) && s in w.db.nonces
    ensures w.base[s] <= Edge(w, s)
    ensures OnceInOrder(w, s) <==> Delivered(w.log, s) == Range(w.base[s], Edge(w, s))
  {
  }

  lemma FirstEdge(w: World, a: Action, s: string)
    requires Enabled(w, a) && LogMatches(w) && SequenceInv(w, s) && DeliveryInv(w, s) && s !in w.db.nonces
    ensures s in NextDb(w, a).nonces ==>
              && s in NextBase(w, a) && NextBase(w, a)[s] == Next(NextDb(w, a), s)
              && !Covered(Do(w, a).reqs, s, Next(NextDb(w, a), s))
  {
    NonceRowBorn(w, a, s);
    if s in NextDb(w, a).nonces { CoveredStep(w, a, s, Next(NextDb(w, a), s)); }
  }

  ghost predicate NeverRepeats(trace: seq<World>, actions: seq<Action>, n: nat, s: string)
    requires Run(trace, actions) && n < |trace|
  {
    forall i :: 0 <= i < n && Lands(trace[i], actions[i], s) ==> !Repeats(trace[i], actions[i].owner)
  }

  lemma FreshAtFront(w: World, a: Action, s: string)
    requires Enabled(w, a) && LogMatches(w) && SequenceInv(w, s) && Lands(w, a, s) && !Repeats(w, a.owner)
    ensures s in w.db.nonces && w.reqs[a.owner].nonce == Next(w.db, s) && !Covered(w.reqs, s, Next(w.db, s))
  {
    assert RequestSequenced(w, w.reqs[a.owner]) && AnswerPhase(w.reqs[a.owner]);
  }

  lemma {:induction false} NeverRepeatsIsOnce(trace: seq<World>, actions: seq<Action>, n: nat, s: string)
    requires Run(trace, actions) && n < |trace|
    requires ProfileWipe(s) !in trace[n].faults && NeverRepeats(trace, actions, n, s)
    ensures OnceInOrder(trace[n], s)
  {
    if n > 0 {
      var w, a := trace[n - 1], actions[n - 1];
      NeverRepeatsIsOnce(trace, actions, n - 1, s);
      DeliveryInvHolds(trace, actions, n - 1, s);
      if Lands(w, a, s) { FreshAtFront(w, a, s); }
      OnceStep(w, a, s);
    }
  }

  lemma {:induction false} DeliveredPrefix(trace: seq<World>, actions: seq<Action>, i: nat, n: nat, s: string)
    requires Run(trace, actions) && i <= n < |trace|
    ensures Delivered(trace[i].log, s) <= Delivered(trace[n].log, s)
  {
    if i < n {
      DeliveredPrefix(trace, actions, i, n - 1, s);
      DeliveredStep(trace[n - 1], actions[n - 1], s);
    }
  }

  lemma OnceIsNeverRepeats(trace: seq<World>, actions: seq<Action>, n: nat, s: string, i: nat)
    requires Run(trace, actions) && i < n < |trace|
    requires ProfileWipe(s) !in trace[n].faults && OnceInOrder(trace[n], s) && Lands(trace[i], actions[i], s)
    ensures !Repeats(trace[i], actions[i].owner)
  {
    var before, all := Delivered(trace[i].log, s), Delivered(trace[n].log, s);
    var m := trace[i].reqs[actions[i].owner].nonce as int;
    NoWipeYet(trace, actions, i, n, s);
    RepeatsIff(trace, actions, i, s);
    DeliveredStep(trace[i], actions[i], s);
    DeliveredPrefix(trace, actions, i + 1, n, s);
    assert all[|before|] == m;
    assert forall k :: 0 <= k < |before| ==> before[k] == all[k] < m;
  }

  lemma {:induction false} NoWipeYet(trace: seq<World>, actions: seq<Action>, i: nat, n: nat, s: string)
    requires Run(trace, actions) && i <= n < |trace| && ProfileWipe(s) !in trace[n].faults
    ensures ProfileWipe(s) !in trace[i].faults
  {
    if i < n { NoWipeYet(trace, actions, i, n - 1, s); }
  }

  /** Main result: in every run without a wipe of the sender's rows, its in-order submissions are
      delivered once each and in order exactly when none of them met the condition. Leases, marks,
      crashes, store errors and clocks only matter through it. */
  lemma ExactlyOnceIff(trace: seq<World>, actions: seq<Action>, n: nat, s: string)
    requires Run(trace, actions) && n < |trace|
    requires ProfileWipe(s) !in trace[n].faults
    ensures OnceInOrder(trace[n], s) <==> NeverRepeats(trace, actions, n, s)
  {
    if NeverRepeats(trace, actions, n, s) { NeverRepeatsIsOnce(trace, actions, n, s); }
    if OnceInOrder(trace[n], s) {
      forall i | 0 <= i < n && Lands(trace[i], actions[i], s) ensures !Repeats(trace[i], actions[i].owner) {
        OnceIsNeverRepeats(trace, actions, n, s, i);
      }
    }
  }

  // ---- when no mark is lost -----------------------------------------------

  /** Whoever has delivered in order and is not about to mark has marked. */
  ghost predicate AllRecorded(w: World, s: string) {
    forall o :: o in w.reqs && Delivers(w.reqs[o], s, w.reqs[o].nonce) && !Unmarked(w.reqs[o]) ==>
      s in w.db.nonces && w.reqs[o].nonce < Next(w.db, s)
  }

  lemma RecordedStep(w: World, a: Action, s: string)
    requires Enabled(w, a) && LogMatches(w) && SequenceInv(w, s) && AllRecorded(w, s)
    requires ProfileWipe(s) !in Raises(w, a) && MarkFailed(s) !in Raises(w, a) && LostMark(s) !in Raises(w, a)
    ensures AllRecorded(Do(w, a), s)
  {
    var w' := Do(w, a);
    forall o | o in w'.reqs && Delivers(w'.reqs[o], s, w'.reqs[o].nonce) && !Unmarked(w'.reqs[o])
      ensures s in w'.db.nonces && w'.reqs[o].nonce < Next(w'.db, s)
    {
      if HasActor(a) && a.owner == o {
        ActorRecorded(w, a, s);
      } else {
        NonceRowKept(w, a, s);
      }
    }
  }

  lemma ActorRecorded(w: World, a: Action, s: string)
    requires Enabled(w, a) && HasActor(a) && LogMatches(w) && SequenceInv(w, s) && AllRecorded(w, s)
    requires ProfileWipe(s) !in Raises(w, a) && MarkFailed(s) !in Raises(w, a) && LostMark(s) !in Raises(w, a)
    requires Delivers(NextReq(w, a), s, NextReq(w, a).nonce) && !Unmarked(NextReq(w, a))
    ensures s in NextDb(w, a).nonces && NextReq(w, a).nonce < Next(NextDb(w, a), s)
  {
    ActorAnswer(w, a);
    assert WasAccepted(w.reqs[a.owner]);
    AcceptedStays(w, a);
    assert RequestSequenced(w, w.reqs[a.owner]);
    NonceRowKept(w, a, s);
  }

  lemma {:induction false} AllRecordedHolds(trace: seq<World>, actions: seq<Action>, n: nat, s: string)
    requires Run(trace, actions) && n < |trace|
    requires trace[n].faults !! {ProfileWipe(s), MarkFailed(s), LostMark(s)}
    ensures AllRecorded(trace[n], s)
  {
    if n > 0 {
      var w, a := trace[n - 1], actions[n - 1];
      assert trace[n].faults == w.faults + Raises(w, a);
      AllRecordedHolds(trace, actions, n - 1, s);
      DeliveryInvHolds(trace, actions, n - 1, s);
      RecordedStep(w, a, s);
    }
  }

  predicate Outstanding(r: Request, s: string, m: int) {
    r.sender == s && r.nonce == m && Unmarked(r)
  }

  /** With no mark lost, the requests to look at are those that have landed and are not yet
      marked: leases alone then repeat a nonce exactly in this case. */
  lemma RepeatsIffOutstanding(trace: seq<World>, actions: seq<Action>, n: nat, s: string)
    requires Run(trace, actions) && n < |actions|
    requires trace[n].faults !! {ProfileWipe(s), MarkFailed(s), LostMark(s)} && Lands(trace[n], actions[n], s)
    ensures var w, o := trace[n], actions[n].owner; var m := w.reqs[o].nonce;
            m as int in Delivered(w.log, s) <==>
              || (s in w.db.nonces && m < Next(w.db, s))
              || exists p :: p in w.reqs && p != o && Outstanding(w.reqs[p], s, m)
  {
    RepeatsIff(trace, actions, n, s);
    AllRecordedHolds(trace, actions, n, s);
    LogMatchesHolds(trace, actions, n);
    var w, o := trace[n], actions[n].owner;
    if p :| p in w.reqs && p != o && Outstanding(w.reqs[p], s, w.reqs[o].nonce) {
      assert AnswerPhase(w.reqs[p]) && Delivers(w.reqs[p], s, w.reqs[o].nonce);
    }
  }
}
