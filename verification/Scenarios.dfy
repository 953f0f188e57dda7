/** Stretches of runs from which concrete scenarios are put together. */
module Scenarios {
  import opened Machine
  import opened StoreModel
  import opened Protocol

  const TIMEOUT_SECS: u64 := 60

  /** A run goes on with any enabled action. */
  lemma Then(trace: seq<World>, actions: seq<Action>, a: Action)
    returns (trace': seq<World>, actions': seq<Action>)
    requires Run(trace, actions) && Enabled(trace[|actions|], a)
    ensures Run(trace', actions')
    ensures actions' == actions + [a] && trace' == trace + [Do(trace[|actions|], a)]
  {
    trace', actions' := trace + [Do(trace[|actions|], a)], actions + [a];
    forall i | 0 <= i < |actions'|
      ensures Enabled(trace'[i], actions'[i]) && trace'[i + 1] == Do(trace'[i], actions'[i])
    {
      if i < |actions| {
        assert trace'[i] == trace[i] && trace'[i + 1] == trace[i + 1] && actions'[i] == actions[i];
      }
    }
  }

  /** The same world but for one request and the tx rows. */
  ghost predicate OnlyRequest(w: World, w': World, o: string) {
    && w'.clock == w.clock && w'.log == w.log && w'.base == w.base && w'.faults == w.faults
    && w'.db.(txMap := w.db.txMap) == w.db
    && o in w'.reqs && w'.reqs == w.reqs[o := w'.reqs[o]]
  }

  /** Nobody is working on this hash. */
  ghost predicate Idle(w: World, hash: string) {
    forall o :: o in w.reqs ==> w.reqs[o].hash != hash
  }

  function At(s: string, nonce: u64, hash: string, profile: Profile, phase: Phase): Request {
    Request(s, nonce, hash, "", TIMEOUT_SECS, profile, phase, false, false, false, 0, None, [ReceivedRawL2])
  }

  function Waiting(s: string, nonce: u64, hash: string, profile: Profile, now: u64): Request {
    At(s, nonce, hash, profile, Polled(now, now))
  }

  lemma Receive(
    trace: seq<World>, actions: seq<Action>, o: string, s: string, nonce: u64, hash: string, profile: Profile)
    returns (trace': seq<World>, actions': seq<Action>)
    requires Run(trace, actions) && o !in trace[|actions|].reqs && Idle(trace[|actions|], hash)
    ensures Run(trace', actions') && |actions'| == |actions| + 2 && trace <= trace' && actions <= actions'
    ensures var w, w' := trace[|actions|], trace'[|actions'|];
            OnlyRequest(w, w', o) && w'.reqs[o] == At(s, nonce, hash, profile, Received)
  {
    trace', actions' := Then(trace, actions, Arrive(o, s, nonce, hash, "", TIMEOUT_SECS, profile));
    trace', actions' := Then(trace', actions', Write(o, true));
  }

  /** A new request gets as far as its first lock transaction. */
  lemma Queue(trace: seq<World>, actions: seq<Action>, o: string, s: string, nonce: u64, hash: string, profile: Profile)
    returns (trace': seq<World>, actions': seq<Action>)
    requires Run(trace, actions) && o !in trace[|actions|].reqs && Idle(trace[|actions|], hash)
    requires trace[|actions|].clock < U64_MAX
    ensures Run(trace', actions') && |actions'| == |actions| + 4 && trace <= trace' && actions <= actions'
    ensures var w, w' := trace[|actions|], trace'[|actions'|];
            OnlyRequest(w, w', o) && w'.reqs[o] == Waiting(s, nonce, hash, profile, w.clock)
  {
    trace', actions' := Receive(trace, actions, o, s, nonce, hash, profile);
    trace', actions' := Then(trace', actions', Begin(o));
    trace', actions' := Then(trace', actions', ReadClock(o));
  }

  ghost predicate InsideInOrder(w: World, o: string, s: string, nonce: u64) {
    o in w.reqs && w.reqs[o].sender == s && w.reqs[o].nonce == nonce
    && w.reqs[o].inOrder && w.reqs[o].lockAcquired && w.reqs[o].phase.Submitting?
  }

  /** With the lock to be had and the nonce next in line, the lock transaction grants both. */
  lemma Granted(w: World, o: string, s: string, nonce: u64, hash: string, profile: Profile)
    requires o in w.reqs && w.reqs[o] == Waiting(s, nonce, hash, profile, w.clock)
    requires CanAcquire(w.db, s, o, w.clock) && (s in w.db.nonces ==> Next(w.db, s) == nonce)
    ensures var a := Attempt(o, Runs);
            && NextReq(w, a) == w.reqs[o].(phase := Classified, lockAcquired := true, inOrder := true,
                                           expires := SatAdd(w.clock, LeaseMs(TIMEOUT_SECS)))
            && HasLease(NextDb(w, a), s, o, SatAdd(w.clock, LeaseMs(TIMEOUT_SECS)))
            && s in NextDb(w, a).nonces && Next(NextDb(w, a), s) == nonce
            && NextDb(w, a).locks.Keys == w.db.locks.Keys + {s} && NextDb(w, a).nonces.Keys == w.db.nonces.Keys + {s}
            && NextDb(w, a).meta == w.db.meta && Raises(w, a) == {}
  {
    AttemptOutcome(w.db, s, o, nonce, hash, w.clock, LeaseMs(TIMEOUT_SECS), w.clock);
    assert AsU64(AsI64(nonce)) == nonce;
  }

  lemma WriteUnsigned(trace: seq<World>, actions: seq<Action>, o: string)
    returns (trace': seq<World>, actions': seq<Action>)
    requires Run(trace, actions)
    requires var w := trace[|actions|]; o in w.reqs && w.reqs[o].phase.Classified?
    ensures Run(trace', actions') && |actions'| == |actions| + 1 && trace <= trace' && actions <= actions'
    ensures var w, w' := trace[|actions|], trace'[|actions'|];
            && OnlyRequest(w, w', o)
            && w'.reqs[o] == w.reqs[o].(phase := Submitting, writes := w.reqs[o].writes + [KaspaUnsignedCreated])
  {
    trace', actions' := Then(trace, actions, Write(o, true));
  }

  /** It enters its critical section. */
  lemma Enter(trace: seq<World>, actions: seq<Action>, o: string, s: string, nonce: u64, hash: string, profile: Profile)
    returns (trace': seq<World>, actions': seq<Action>)
    requires Run(trace, actions)
    requires var w := trace[|actions|];
             && o in w.reqs && w.reqs[o] == Waiting(s, nonce, hash, profile, w.clock)
             && CanAcquire(w.db, s, o, w.clock) && (s in w.db.nonces ==> Next(w.db, s) == nonce)
    ensures Run(trace', actions') && |actions'| == |actions| + 2
    ensures trace <= trace' && actions <= actions'
    ensures Entered(trace[|actions|], trace'[|actions'|], o, s, nonce, hash)
  {
    Granted(trace[|actions|], o, s, nonce, hash, profile);
    trace', actions' := Then(trace, actions, Attempt(o, Runs));
    trace', actions' := WriteUnsigned(trace', actions', o);
  }

  /** What has become of the world once `o` is in its critical section. */
  ghost predicate Entered(w: World, w': World, o: string, s: string, nonce: u64, hash: string) {
    && w'.clock == w.clock && w'.log == w.log && w'.db.meta == w.db.meta && w'.faults == w.faults
    && InsideInOrder(w', o, s, nonce) && w'.reqs == w.reqs[o := w'.reqs[o]] && w'.reqs[o].hash == hash
    && w'.reqs[o].expires == SatAdd(w.clock, LeaseMs(TIMEOUT_SECS))
    && HasLease(w'.db, s, o, w'.reqs[o].expires)
    && s in w'.db.nonces && Next(w'.db, s) == nonce
    && w'.db.locks.Keys == w.db.locks.Keys + {s} && w'.db.nonces.Keys == w.db.nonces.Keys + {s}
    && w'.base == (if s in w.db.nonces then w.base else w.base[s := nonce])
  }

  /** From arrival into the critical section in six actions. */
  lemma Admit(trace: seq<World>, actions: seq<Action>, o: string, s: string, nonce: u64, hash: string, profile: Profile)
    returns (trace': seq<World>, actions': seq<Action>)
    requires Run(trace, actions)
    requires var w := trace[|actions|];
             && o !in w.reqs && Idle(w, hash) && w.clock < U64_MAX
             && CanAcquire(w.db, s, o, w.clock) && (s in w.db.nonces ==> Next(w.db, s) == nonce)
    ensures Run(trace', actions') && |actions'| == |actions| + 6 && trace <= trace' && actions <= actions'
    ensures Entered(trace[|actions|], trace'[|actions'|], o, s, nonce, hash)
  {
    trace', actions' := Queue(trace, actions, o, s, nonce, hash, profile);
    trace', actions' := Enter(trace', actions', o, s, nonce, hash, profile);
  }

  /** Its submission is accepted. */
  lemma Land(trace: seq<World>, actions: seq<Action>, o: string, s: string, nonce: u64, result: SubmitResult)
    returns (trace': seq<World>, actions': seq<Action>)
    requires Run(trace, actions) && InsideInOrder(trace[|actions|], o, s, nonce) && result.Accepted?
    ensures Run(trace', actions')
    ensures var w := trace[|actions|];
            trace'[|actions'|] == w.(
              reqs := w.reqs[o := w.reqs[o].(phase := Landed(0), answer := Some(result))],
              log := w.log + [Submission(s, nonce, o, true, true)])
  {
    trace', actions' := Then(trace, actions, Submit(o, result));
  }

  /** And it crashes before the mark. */
  lemma CrashUnmarked(trace: seq<World>, actions: seq<Action>, o: string)
    returns (trace': seq<World>, actions': seq<Action>)
    requires Run(trace, actions)
    requires var w := trace[|actions|]; o in w.reqs && w.reqs[o].phase.Landed? && w.reqs[o].inOrder
    ensures Run(trace', actions')
    ensures var w := trace[|actions|];
            trace'[|actions'|] == w.(
              reqs := w.reqs[o := w.reqs[o].(phase := Crashed)],
              faults := w.faults + {LostMark(w.reqs[o].sender)})
  {
    trace', actions' := Then(trace, actions, Crash(o));
  }

  /** The clock goes on; who is in a critical section may overrun. */
  lemma Pass(trace: seq<World>, actions: seq<Action>, to: u64)
    returns (trace': seq<World>, actions': seq<Action>)
    requires Run(trace, actions) && trace[|actions|].clock <= to
    ensures Run(trace', actions')
    ensures var w := trace[|actions|];
            trace'[|actions'|] == w.(clock := to, faults := w.faults + Overrunning(w, to))
  {
    trace', actions' := Then(trace, actions, Tick(to));
  }

  lemma WriteNext(trace: seq<World>, actions: seq<Action>, o: string)
    returns (trace': seq<World>, actions': seq<Action>)
    requires Run(trace, actions)
    requires var w := trace[|actions|]; o in w.reqs && PendingWrite(w.reqs[o].phase).Some?
    ensures Run(trace', actions')
    ensures var w, w' := trace[|actions|], trace'[|actions'|];
            && OnlyRequest(w, w', o)
            && w'.reqs[o] == w.reqs[o].(phase := AfterWrite(w.reqs[o]), writes := w'.reqs[o].writes)
  {
    trace', actions' := Then(trace, actions, Write(o, true));
  }

  lemma WriteLanded(trace: seq<World>, actions: seq<Action>, o: string)
    returns (trace': seq<World>, actions': seq<Action>)
    requires Run(trace, actions)
    requires var w := trace[|actions|]; o in w.reqs && w.reqs[o].phase == Landed(0) && w.reqs[o].inOrder
    ensures Run(trace', actions')
    ensures var w, w' := trace[|actions|], trace'[|actions'|];
            && OnlyRequest(w, w', o)
            && w'.reqs[o] == w.reqs[o].(phase := Landed(3), writes := w'.reqs[o].writes)
  {
    trace', actions' := WriteNext(trace, actions, o);
    trace', actions' := WriteNext(trace', actions', o);
    trace', actions' := WriteNext(trace', actions', o);
  }

  /** It writes its three states, but its mark fails. */
  lemma FailMark(trace: seq<World>, actions: seq<Action>, o: string)
    returns (trace': seq<World>, actions': seq<Action>)
    requires Run(trace, actions)
    requires var w := trace[|actions|]; o in w.reqs && w.reqs[o].phase == Landed(0) && w.reqs[o].inOrder
    ensures Run(trace', actions')
    ensures var w, w' := trace[|actions|], trace'[|actions'|];
            && OnlyRequest(w, w'.(faults := w.faults), o) && w'.faults == w.faults + {MarkFailed(w.reqs[o].sender)}
            && w'.reqs[o] == w.reqs[o].(phase := Finishing(true), writes := w'.reqs[o].writes)
  {
    trace', actions' := WriteLanded(trace, actions, o);
    trace', actions' := Then(trace', actions', Mark(o, false));
  }

  /** And it leaves. */
  lemma Depart(trace: seq<World>, actions: seq<Action>, o: string, s: string)
    returns (trace': seq<World>, actions': seq<Action>)
    requires Run(trace, actions)
    requires var w := trace[|actions|];
             && o in w.reqs && w.reqs[o].phase.Finishing? && w.reqs[o].lockAcquired && w.reqs[o].sender == s
             && s in w.db.locks && w.db.locks[s].owner == o
    ensures Run(trace', actions')
    ensures var w, w' := trace[|actions|], trace'[|actions'|];
            && w'.db == w.db.(locks := w.db.locks - {s}) && w'.log == w.log && w'.faults == w.faults
            && w'.clock == w.clock && w'.reqs == w.reqs[o := w.reqs[o].(phase := Done(w.reqs[o].phase.ok))]
  {
    trace', actions' := Then(trace, actions, Leave(o, true));
  }
}
