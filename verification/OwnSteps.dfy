/** One request's own steps of the protocol, with anything at all happening to the tables between
    them: what straight-line code can be held against. */
module OwnSteps {
  import opened Machine
  import opened StoreModel
  import opened Store
  import opened Protocol

  /** What one request sees of the world: the tables and itself. */
  datatype Snap = Snap(db: Db, r: Request)

  /** The world with nobody else in it. */
  function Lone(o: string, clock: u64, s: Snap): World {
    World(clock, s.db, map[o := s.r], [], map[], {})
  }

  predicate Takes(o: string, clock: u64, s: Snap, a: Action, s': Snap) {
    var w := Lone(o, clock, s);
    && HasActor(a) && !a.Arrive? && a.owner == o && Enabled(w, a)
    && s' == Snap(NextDb(w, a), NextReq(w, a))
  }

  /** Seeing no one else makes no difference: a request's action does the same to the tables and
      to itself in any world. */
  lemma SameAnywhere(w: World, a: Action)
    requires HasActor(a) && !a.Arrive? && a.owner in w.reqs
    ensures var s := Snap(w.db, w.reqs[a.owner]);
            && (Enabled(w, a) <==> Enabled(Lone(a.owner, w.clock, s), a))
            && (Enabled(w, a) ==> Takes(a.owner, w.clock, s, a, Snap(NextDb(w, a), NextReq(w, a))))
            && (forall s' :: Takes(a.owner, w.clock, s, a, s') ==>
                  Enabled(w, a) && s' == Snap(Do(w, a).db, Do(w, a).reqs[a.owner]))
  {
  }

  ghost predicate OwnStep(o: string, s: Snap, s': Snap) {
    exists clock, a :: Takes(o, clock, s, a, s')
  }

  /** Own steps, and changes that others make to the tables. */
  ghost predicate Walk(o: string, walk: seq<Snap>) {
    && walk != []
    && (|walk| == 1
        || var last := |walk| - 1;
           Walk(o, walk[..last]) && (walk[last].r == walk[last - 1].r || OwnStep(o, walk[last - 1], walk[last])))
  }

  /** Step by step. */
  lemma {:induction false} WalkSteps(o: string, walk: seq<Snap>, i: nat)
    requires Walk(o, walk) && 0 < i < |walk|
    ensures walk[i].r == walk[i - 1].r || OwnStep(o, walk[i - 1], walk[i])
  {
    if i < |walk| - 1 { WalkSteps(o, walk[..|walk| - 1], i); }
  }

  ghost predicate At(o: string, walk: seq<Snap>, db: Db, r: Request) {
    Walk(o, walk) && walk[|walk| - 1] == Snap(db, r)
  }

  /** Others change the tables. */
  lemma Elsewhere(o: string, walk: seq<Snap>, db: Db, r: Request, db': Db) returns (walk': seq<Snap>)
    requires At(o, walk, db, r)
    ensures At(o, walk', db', r) && walk <= walk'
  {
    walk' := walk + [Snap(db', r)];
    assert walk'[..|walk|] == walk;
  }

  lemma Step(o: string, walk: seq<Snap>, db: Db, r: Request, clock: u64, a: Action) returns (walk': seq<Snap>)
    requires At(o, walk, db, r)
    requires HasActor(a) && !a.Arrive? && a.owner == o && Enabled(Lone(o, clock, Snap(db, r)), a)
    ensures var w := Lone(o, clock, Snap(db, r)); At(o, walk', NextDb(w, a), NextReq(w, a))
    ensures walk <= walk'
  {
    var w := Lone(o, clock, Snap(db, r));
    var next := Snap(NextDb(w, a), NextReq(w, a));
    assert Takes(o, clock, Snap(db, r), a, next);
    walk' := walk + [next];
    assert walk'[..|walk|] == walk;
  }

  // ---- the lock loop as steps ----------------------------------------------

  lemma OneVainPoll(o: string, walk: seq<Snap>, db: Db, r: Request, clock: nat -> u64, found: nat -> Poll, n: nat)
    returns (walk': seq<Snap>, db': Db)
    requires At(o, walk, db, r) && r.phase == Polling(clock(0))
    requires InVain(clock, found, n, r.sender, o, r.timeoutSecs)
    ensures At(o, walk', db', r) && walk <= walk'
  {
    walk' := Step(o, walk, db, r, clock(n + 1), ReadClock(o));
    var polled := r.(phase := Polled(clock(0), clock(n + 1)));
    match found(n) {
      case Busy =>
        db' := db;
        walk' := Step(o, walk', db, polled, clock(n + 1), Attempt(o, Protocol.Busy));
      case Found(met) =>
        db' := met;
        walk' := Elsewhere(o, walk', db, polled, met);
        walk' := Step(o, walk', met, polled, clock(n + 1), Attempt(o, Runs));
    }
  }

  /** The polls before the last one leave the request where it was. */
  lemma {:induction false} VainPolls(
    o: string, walk: seq<Snap>, db: Db, r: Request, clock: nat -> u64, found: nat -> Poll, n: nat)
    returns (walk': seq<Snap>, db': Db)
    requires At(o, walk, db, r) && r.phase.Received? && PollsInVain(clock, found, n, r.sender, o, r.timeoutSecs)
    ensures At(o, walk', db', r.(phase := Polling(clock(0)))) && walk <= walk'
  {
    if n == 0 {
      db' := db;
      walk' := Step(o, walk, db, r, clock(0), Begin(o));
    } else {
      walk', db' := VainPolls(o, walk, db, r, clock, found, n - 1);
      walk', db' := OneVainPoll(o, walk', db', r.(phase := Polling(clock(0))), clock, found, n - 1);
    }
  }

  /** Past the deadline. */
  lemma TimedOut(
    o: string, walk: seq<Snap>, db: Db, r: Request, clock: nat -> u64, found: nat -> Poll, n: nat, after: Db)
    returns (walk': seq<Snap>)
    requires At(o, walk, db, r) && r.phase.Received? && PollsInVain(clock, found, n, r.sender, o, r.timeoutSecs)
    requires clock(n + 1) >= SatAdd(clock(0), TimeoutMs(r.timeoutSecs))
    ensures At(o, walk', after, r.(phase := BlockedOnLock)) && walk <= walk'
  {
    var db';
    walk', db' := VainPolls(o, walk, db, r, clock, found, n);
    walk' := Step(o, walk', db', r.(phase := Polling(clock(0))), clock(n + 1), ReadClock(o));
    walk' := Elsewhere(o, walk', db', r.(phase := BlockedOnLock), after);
  }

  /** The last poll finds the tables `met` and reads the clock before it runs. */
  lemma LastPoll(o: string, walk: seq<Snap>, db: Db, r: Request, clock: nat -> u64, found: nat -> Poll, n: nat, met: Db)
    returns (walk': seq<Snap>)
    requires At(o, walk, db, r) && r.phase.Received? && PollsInVain(clock, found, n, r.sender, o, r.timeoutSecs)
    requires clock(n + 1) < SatAdd(clock(0), TimeoutMs(r.timeoutSecs))
    ensures At(o, walk', met, r.(phase := Polled(clock(0), clock(n + 1)))) && walk <= walk'
  {
    var db';
    walk', db' := VainPolls(o, walk, db, r, clock, found, n);
    walk' := Step(o, walk', db', r.(phase := Polling(clock(0))), clock(n + 1), ReadClock(o));
    walk' := Elsewhere(o, walk', db', r.(phase := Polled(clock(0), clock(n + 1))), met);
  }
}
