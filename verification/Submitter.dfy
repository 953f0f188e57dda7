/** `InProcessKaspaPayloadSubmitter`: the cache methods as one caller runs them, and the
    two-attempt submission loop. */
module Submitter {
  import opened Machine
  import opened Selection
  import opened UtxoCache

  /** Effects a submission has on the outside world, in order. */
  datatype Effect = Loaded(forced: bool) | Built | Invalidation | Broadcast(accepted: bool)

  /** What the outside answers during one attempt. */
  datatype Answers = Answers(
    utxos: Option<seq<Utxo>>,   // the node's UTXO reply, if it is asked
    builds: bool,
    accepts: bool)

  datatype AttemptEnd = LoadError | NoUtxos | BuildError | Refused | Submitted

  /** How an attempt that got these UTXOs ends. */
  function EndOf(utxos: Option<seq<Utxo>>, answers: Answers): AttemptEnd {
    if utxos.None? then LoadError
    else if utxos.value == [] then NoUtxos
    else if !answers.builds then BuildError
    else if answers.accepts then Submitted
    else Refused
  }

  /** What the first attempt works on: a cached set for the same key that is fresh enough, or the
      node's reply. */
  function FirstUtxos(cache: Option<CachedUtxoSet>, cacheKey: string, now: nat, answers: Answers): Option<seq<Utxo>> {
    if cache.Some? && cache.value.cacheKey == cacheKey && now - cache.value.fetchedAt <= CACHE_TTL_SECS
    then Some(cache.value.entries)
    else answers.utxos
  }

  lemma FirstUtxosOutcome(cache: Option<CachedUtxoSet>, cacheKey: string, now: nat, answers: Answers)
    ensures FirstUtxos(cache, cacheKey, now, answers) != answers.utxos ==>
              cache.Some? && cache.value.cacheKey == cacheKey && now <= cache.value.fetchedAt + 20
    ensures cache.Some? && cache.value.cacheKey == cacheKey && now <= cache.value.fetchedAt + 20 ==>
              FirstUtxos(cache, cacheKey, now, answers) == Some(cache.value.entries)
  {
  }

  /** An attempt goes as far as its UTXOs, the build and the node let it. */
  lemma EndOutcome(utxos: Option<seq<Utxo>>, answers: Answers)
    ensures var end := EndOf(utxos, answers);
            && (end.LoadError? <==> utxos.None?)
            && (end.NoUtxos? <==> utxos == Some([]))
            && (end.BuildError? <==> utxos.Some? && utxos.value != [] && !answers.builds)
            && (end.Submitted? <==> utxos.Some? && utxos.value != [] && answers.builds && answers.accepts)
  {
  }

  /** And leaves these effects behind. */
  lemma EffectsOutcome(forced: bool, end: AttemptEnd)
    ensures EffectsOf(forced, end) ==
            [Loaded(forced)]
            + (if end.LoadError? || end.NoUtxos? then [] else [Built])
            + (if end.Refused? || end.Submitted? then [Invalidation, Broadcast(end.Submitted?)] else [])
            + (if end.Submitted? then [Invalidation] else [])
  {
  }

  /** A second attempt, with a forced refresh, is made exactly when the first found no UTXOs or was
      refused. */
  lemma SecondAttemptIff(first: AttemptEnd, second: AttemptEnd)
    ensures Loaded(true) in Submission(first, second) <==> first.NoUtxos? || first.Refused?
    ensures Submission(first, second)[0] == Loaded(false)
    ensures Loaded(true) in Submission(first, second) ==>
              Submission(first, second) == EffectsOf(false, first) + EffectsOf(true, second)
    ensures Loaded(true) !in Submission(first, second) ==> Submission(first, second) == EffectsOf(false, first)
  {
    if first.NoUtxos? || first.Refused? {
      assert Submission(first, second)[|EffectsOf(false, first)|] == Loaded(true);
    }
  }

  function EffectsOf(forced: bool, end: AttemptEnd): seq<Effect> {
    match end
    case LoadError => [Loaded(forced)]
    case NoUtxos => [Loaded(forced)]
    case BuildError => [Loaded(forced), Built]
    case Refused => [Loaded(forced), Built, Invalidation, Broadcast(false)]
    case Submitted => [Loaded(forced), Built, Invalidation, Broadcast(true), Invalidation]
  }

  /** A second attempt follows when the first found no UTXOs or was refused. */
  predicate Retries(end: AttemptEnd) {
    end.NoUtxos? || end.Refused?
  }

  function Submission(first: AttemptEnd, second: AttemptEnd): seq<Effect> {
    EffectsOf(false, first) + if Retries(first) then EffectsOf(true, second) else []
  }

  /** Each broadcast comes right after an invalidation, and an accepted one is followed by
      another invalidation and by nothing else. */
  predicate Fenced(effects: seq<Effect>) {
    && (forall i :: 0 <= i < |effects| && effects[i].Broadcast? ==> i > 0 && effects[i - 1].Invalidation?)
    && (forall i :: 0 <= i < |effects| && effects[i] == Broadcast(true) ==>
          i == |effects| - 2 && effects[i + 1].Invalidation?)
  }

  lemma BroadcastsAreFenced(first: AttemptEnd, second: AttemptEnd)
    ensures Fenced(Submission(first, second))
    ensures Broadcast(true) in Submission(first, second) <==> first.Submitted? || (Retries(first) && second.Submitted?)
  {
    var effects := Submission(first, second);
    if first.Submitted? || (Retries(first) && second.Submitted?) { assert effects[|effects| - 2] == Broadcast(true); }
  }

  function Broadcasts(effects: seq<Effect>): nat {
    if effects == [] then 0 else (if effects[0].Broadcast? then 1 else 0) + Broadcasts(effects[1..])
  }

  lemma {:induction false} BroadcastsAppend(a: seq<Effect>, b: seq<Effect>)
    ensures Broadcasts(a + b) == Broadcasts(a) + Broadcasts(b)
  {
    if a == [] {
      assert a + b == b;
    } else {
      assert (a + b)[1..] == a[1..] + b;
      BroadcastsAppend(a[1..], b);
    }
  }

  lemma AttemptBroadcasts(forced: bool, end: AttemptEnd)
    ensures Broadcasts(EffectsOf(forced, end)) == if end.Refused? || end.Submitted? then 1 else 0
  {
    var opening := [Loaded(forced)] + [Built] + [Invalidation];
    BroadcastsAppend([Loaded(forced)], [Built]);
    BroadcastsAppend([Loaded(forced)] + [Built], [Invalidation]);
    BroadcastsAppend(opening, [Broadcast(end.Submitted?)]);
    BroadcastsAppend(opening + [Broadcast(true)], [Invalidation]);
    match end
    case BuildError => assert EffectsOf(forced, end) == [Loaded(forced)] + [Built];
    case Refused => assert EffectsOf(forced, end) == opening + [Broadcast(false)];
    case Submitted => assert EffectsOf(forced, end) == opening + [Broadcast(true)] + [Invalidation];
    case _ =>
  }

  /** A submission broadcasts at most twice, and twice only when the node refused the first. */
  lemma AtMostTwoBroadcasts(first: AttemptEnd, second: AttemptEnd)
    ensures Broadcasts(Submission(first, second)) <= 2
    ensures Broadcasts(Submission(first, second)) == 2 <==> first.Refused? && (second.Refused? || second.Submitted?)
  {
    AttemptBroadcasts(false, first);
    AttemptBroadcasts(true, second);
    BroadcastsAppend(EffectsOf(false, first), if Retries(first) then EffectsOf(true, second) else []);
  }

  /** The wrapping epoch reads the same again exactly after a multiple of 2^64 bumps. */
  lemma EpochReturns(bumps: nat, more: nat)
    ensures EpochAfter(bumps + more) == (EpochAfter(bumps) + more) % EPOCHS
    ensures EpochAfter(bumps + more) == EpochAfter(bumps) <==> more % 0x1_0000_0000_0000_0000 == 0
  {
  }

  class InProcessKaspaPayloadSubmitter {
    var utxoCache: Option<CachedUtxoSet>
    var utxoCacheEpoch: u64
    var bumps: nat             // history: invalidations so far
    var effects: seq<Effect>   // history

    ghost predicate Valid()
      reads this
    {
      utxoCacheEpoch == EpochAfter(bumps)
    }

    constructor ()
      ensures Valid() && utxoCache.None? && utxoCacheEpoch == 1 && bumps == 0 && effects == []
    {
      utxoCache, utxoCacheEpoch, bumps, effects := None, 1, 0, [];
    }

    method InvalidateUtxoCache()
      requires Valid()
      modifies this
      ensures Valid() && utxoCache.None? && bumps == old(bumps) + 1
      ensures utxoCacheEpoch == (old(utxoCacheEpoch) + 1) % 0x1_0000_0000_0000_0000
      ensures effects == old(effects) + [Invalidation]
    {
      utxoCacheEpoch := (utxoCacheEpoch + 1) % EPOCHS;
      bumps := bumps + 1;
      utxoCache := None;
      effects := effects + [Invalidation];
    }

    /** A hit answers from the cache; a miss asks the node and keeps the answer if the epoch it
        read has come back, or if it was told to. During the RPC other callers make `meanwhile`
        invalidations and leave `others` in the slot. */
    method LoadUtxos(
      cacheKey: string, forceRefresh: bool, now: nat, rpc: Option<seq<Utxo>>,
      meanwhile: nat, others: Option<CachedUtxoSet>)
      returns (r: Option<seq<Utxo>>)
      requires Valid()
      modifies this
      ensures Valid() && effects == old(effects) + [Loaded(forceRefresh)]
      ensures var hit := !forceRefresh && old(utxoCache).Some? && old(utxoCache).value.cacheKey == cacheKey
                         && now - old(utxoCache).value.fetchedAt <= CACHE_TTL_SECS;
              && (hit ==> r == Some(old(utxoCache).value.entries) && utxoCache == old(utxoCache) && bumps == old(bumps))
              && (!hit ==> r == rpc && bumps == old(bumps) + meanwhile)
              && (!hit && rpc.Some? && (forceRefresh || meanwhile % EPOCHS == 0) ==>
                    utxoCache == Some(CachedUtxoSet(cacheKey, now, rpc.value, old(bumps), forceRefresh)))
              && (!hit && !(rpc.Some? && (forceRefresh || meanwhile % EPOCHS == 0)) ==> utxoCache == others)
    {
      effects := effects + [Loaded(forceRefresh)];
      var readEpoch := utxoCacheEpoch;
      var readBumps := bumps;
      if !forceRefresh {
        if utxoCache.Some? && utxoCache.value.cacheKey == cacheKey
           && now - utxoCache.value.fetchedAt <= CACHE_TTL_SECS {
          return Some(utxoCache.value.entries);
        }
      }
      utxoCacheEpoch := (utxoCacheEpoch + meanwhile) % EPOCHS;
      bumps := bumps + meanwhile;
      utxoCache := others;
      EpochReturns(readBumps, meanwhile);
      if rpc.None? {
        return None;
      }
      if forceRefresh || utxoCacheEpoch == readEpoch {
        utxoCache := Some(CachedUtxoSet(cacheKey, now, rpc.value, readBumps, forceRefresh));
      }
      r := rpc;
    }

    /** Two attempts at most, the second one with a forced refresh. `answers(i)` is what the
        outside says during attempt `i`. */
    method SubmitPayload(
      cacheKey: string, now: nat -> nat, answers: nat -> Answers,
      meanwhile: nat -> nat, others: nat -> Option<CachedUtxoSet>)
      returns (ok: bool, first: AttemptEnd, second: AttemptEnd)
      requires Valid()
      modifies this
      ensures Valid()
      ensures first == EndOf(FirstUtxos(old(utxoCache), cacheKey, now(0), answers(0)), answers(0))
      ensures Retries(first) ==> second == EndOf(answers(1).utxos, answers(1))
      ensures ok <==> first.Submitted? || (Retries(first) && second.Submitted?)
      ensures effects == old(effects) + Submission(first, second)
      ensures first.NoUtxos? || first.Refused? ==>
                && Loaded(true) in effects[|old(effects)|..]
                && second == EndOf(answers(1).utxos, answers(1)) && ok == second.Submitted?
      ensures !first.NoUtxos? && !first.Refused? ==>
                Loaded(true) !in effects[|old(effects)|..] && ok == first.Submitted?
      ensures Fenced(effects[|old(effects)|..]) && Broadcasts(effects[|old(effects)|..]) <= 2
      ensures ok <==> Broadcast(true) in effects[|old(effects)|..]
      ensures Broadcasts(effects[|old(effects)|..]) == 2 <==> first.Refused? && (second.Refused? || second.Submitted?)
      ensures ok ==> utxoCache.None?
    {
      ok, first, second := RunAttempts(cacheKey, now, answers, meanwhile, others);
      assert effects[|old(effects)|..] == Submission(first, second);
      SecondAttemptIff(first, second);
      BroadcastsAreFenced(first, second);
      AtMostTwoBroadcasts(first, second);
    }

    /** The loop over the attempts. */
    method RunAttempts(
      cacheKey: string, now: nat -> nat, answers: nat -> Answers,
      meanwhile: nat -> nat, others: nat -> Option<CachedUtxoSet>)
      returns (ok: bool, first: AttemptEnd, second: AttemptEnd)
      requires Valid()
      modifies this
      ensures Valid()
      ensures first == EndOf(FirstUtxos(old(utxoCache), cacheKey, now(0), answers(0)), answers(0))
      ensures Retries(first) ==> second == EndOf(answers(1).utxos, answers(1))
      ensures ok <==> first.Submitted? || (Retries(first) && second.Submitted?)
      ensures effects == old(effects) + Submission(first, second)
      ensures ok ==> utxoCache.None?
    {
      ok, first, second := false, LoadError, LoadError;
      var attempt := 0;
      while attempt <= 1
        invariant 0 <= attempt <= 2 && Valid() && !ok
        invariant attempt == 0 ==> effects == old(effects) && utxoCache == old(utxoCache)
        invariant attempt >= 1 ==>
                    && Retries(first)
                    && first == EndOf(FirstUtxos(old(utxoCache), cacheKey, now(0), answers(0)), answers(0))
        invariant attempt == 1 ==> effects == old(effects) + EffectsOf(false, first)
        invariant attempt == 2 ==>
                    && second == EndOf(answers(1).utxos, answers(1)) && !second.Submitted?
                    && effects == old(effects) + EffectsOf(false, first) + EffectsOf(true, second)
      {
        ghost var before := effects;
        var utxos := LoadUtxos(
          cacheKey, attempt > 0, now(attempt), answers(attempt).utxos, meanwhile(attempt), others(attempt));
        var end := RunAttempt(utxos, answers(attempt), before, attempt > 0);
        if attempt == 0 { first := end; } else { second := end; }
        if end.Submitted? {
          ok := true;
          return;
        }
        if !Retries(end) {
          return;
        }
        attempt := attempt + 1;
      }
    }

    /** The rest of an attempt once its UTXOs are in. */
    method RunAttempt(utxos: Option<seq<Utxo>>, answers: Answers, ghost before: seq<Effect>, ghost forced: bool)
      returns (end: AttemptEnd)
      requires Valid() && effects == before + [Loaded(forced)]
      modifies this
      ensures Valid() && end == EndOf(utxos, answers)
      ensures effects == before + EffectsOf(forced, end)
      ensures end.Submitted? ==> utxoCache.None?
    {
      if utxos.None? {
        return LoadError;
      }
      if utxos.value == [] {
        return NoUtxos;
      }
      if !answers.builds {
        effects := effects + [Built];
        return BuildError;
      }
      effects := effects + [Built];
      InvalidateUtxoCache();
      effects := effects + [Broadcast(answers.accepts)];
      if answers.accepts {
        InvalidateUtxoCache();
        return Submitted;
      }
      return Refused;
    }
  }
}
