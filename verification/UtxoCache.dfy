/** The shared UTXO cache: an atomic epoch and a mutex-protected slot, used by loads that
    straddle an RPC and by invalidations, interleaved step by step. */
module UtxoCache {
  import opened Machine
  import opened Selection

  const EPOCHS := 0x1_0000_0000_0000_0000
  const CACHE_TTL_SECS := 20

  /** The cached set. `readBumps` and `forced` remember the load that installed it: how many
      invalidations had bumped the epoch when that load read it, and whether it was forced. */
  datatype CachedUtxoSet = CachedUtxoSet(
    cacheKey: string, fetchedAt: nat, entries: seq<Utxo>, readBumps: nat, forced: bool)

  datatype Load = Load(cacheKey: string, forced: bool, readEpoch: u64, readBumps: nat)

  datatype Task =
    | Looking(load: Load)
    | Fetching(load: Load)
    | Fetched(load: Load, entries: seq<Utxo>)
    | Locked(load: Load, entries: seq<Utxo>)
    | Compared(load: Load, entries: seq<Utxo>, install: bool)
    | Returned(entries: seq<Utxo>)
    | LoadFailed
    | Bumped(bump: nat)
    | Invalidated(bump: nat)

  datatype Cache = Cache(
    epoch: u64,
    bumps: nat,                     // invalidations that have bumped so far
    mutex: Option<nat>,             // whoever holds it
    slot: Option<CachedUtxoSet>,
    now: nat,
    tasks: map<nat, Task>)

  datatype Action =
    | Wait(to: nat)
    | BeginLoad(task: nat, cacheKey: string, forced: bool)   // reads the epoch
    | Look(task: nat)                                        // lock, check, unlock
    | Fetch(task: nat, rpc: Option<seq<Utxo>>)
    | Acquire(task: nat)
    | Compare(task: nat)                                     // reads the epoch under the mutex
    | Install(task: nat)                                     // and unlocks
    | Bump(task: nat)
    | Clear(task: nat)                                       // lock, empty the slot, unlock

  function EpochAfter(bumps: nat): u64 {
    (1 + bumps) % EPOCHS
  }

  predicate Hits(c: Cache, load: Load) {
    c.slot.Some? && c.slot.value.cacheKey == load.cacheKey
    && c.now - c.slot.value.fetchedAt <= CACHE_TTL_SECS
  }

  predicate Enabled(c: Cache, a: Action) {
    match a
    case Wait(to) => c.now <= to
    case BeginLoad(t, _, _) => t !in c.tasks
    case Look(t) => t in c.tasks && c.tasks[t].Looking? && c.mutex.None?
    case Fetch(t, _) => t in c.tasks && c.tasks[t].Fetching?
    case Acquire(t) => t in c.tasks && c.tasks[t].Fetched? && c.mutex.None?
    case Compare(t) => t in c.tasks && c.tasks[t].Locked?
    case Install(t) => t in c.tasks && c.tasks[t].Compared?
    case Bump(t) => t !in c.tasks
    case Clear(t) => t in c.tasks && c.tasks[t].Bumped? && c.mutex.None?
  }

  function NextTask(c: Cache, a: Action): Task
    requires Enabled(c, a) && !a.Wait?
  {
    match a
    case BeginLoad(_, key, forced) =>
      var load := Load(key, forced, c.epoch, c.bumps);
      if forced then Fetching(load) else Looking(load)
    case Look(t) =>
      var load := c.tasks[t].load;
      if Hits(c, load) then Returned(c.slot.value.entries) else Fetching(load)
    case Fetch(t, rpc) => if rpc.Some? then Fetched(c.tasks[t].load, rpc.value) else LoadFailed
    case Acquire(t) => Locked(c.tasks[t].load, c.tasks[t].entries)
    case Compare(t) =>
      var load := c.tasks[t].load;
      Compared(load, c.tasks[t].entries, load.forced || c.epoch == load.readEpoch)
    case Install(t) => Returned(c.tasks[t].entries)
    case Bump(_) => Bumped(c.bumps + 1)
    case Clear(t) => Invalidated(c.tasks[t].bump)
  }

  function NextSlot(c: Cache, a: Action): Option<CachedUtxoSet>
    requires Enabled(c, a)
  {
    match a
    case Install(t) =>
      var task := c.tasks[t];
      if task.install then
        Some(CachedUtxoSet(task.load.cacheKey, c.now, task.entries, task.load.readBumps, task.load.forced))
      else c.slot
    case Clear(_) => None
    case _ => c.slot
  }

  function Do(c: Cache, a: Action): Cache
    requires Enabled(c, a)
  {
    Cache(
      if a.Bump? then (c.epoch + 1) % EPOCHS else c.epoch,
      if a.Bump? then c.bumps + 1 else c.bumps,
      if a.Acquire? then Some(a.task) else if a.Install? then None else c.mutex,
      NextSlot(c, a),
      if a.Wait? then a.to else c.now,
      if a.Wait? then c.tasks else c.tasks[a.task := NextTask(c, a)])
  }

  ghost predicate Run(trace: seq<Cache>, actions: seq<Action>) {
    && |trace| == |actions| + 1
    && trace[0] == Cache(1, 0, None, None, trace[0].now, map[])
    && forall i :: 0 <= i < |actions| ==> Enabled(trace[i], actions[i]) && trace[i + 1] == Do(trace[i], actions[i])
  }

  // ---- safety -------------------------------------------------------------

  /** Every finished invalidation bumped the epoch no later than the `count`-th bump. */
  ghost predicate After(c: Cache, count: nat) {
    forall t :: t in c.tasks && c.tasks[t].Invalidated? ==> c.tasks[t].bump <= count
  }

  /** A slot installed without force comes from a load that read the epoch after every
      invalidation that has finished. */
  ghost predicate SlotFresh(c: Cache) {
    c.slot.Some? && !c.slot.value.forced ==> After(c, c.slot.value.readBumps)
  }

  predicate HasLoad(task: Task) {
    task.Looking? || task.Fetching? || task.Fetched? || task.Locked? || task.Compared?
  }

  ghost predicate TaskInv(c: Cache, t: nat, task: Task) {
    && (HasLoad(task) ==>
          task.load.readBumps <= c.bumps && task.load.readEpoch == EpochAfter(task.load.readBumps))
    && (task.Looking? ==> !task.load.forced)
    && (task.Locked? || task.Compared? ==> c.mutex == Some(t))
    && (task.Bumped? || task.Invalidated? ==> task.bump <= c.bumps)
    && (task.Compared? && task.install && !task.load.forced ==> After(c, task.load.readBumps))
  }

  ghost predicate CacheInv(c: Cache) {
    && c.epoch == EpochAfter(c.bumps)
    && SlotFresh(c)
    && forall t :: t in c.tasks ==> TaskInv(c, t, c.tasks[t])
  }

  /** 2^64 or more invalidations have bumped the epoch since the load read it. */
  predicate WrapsRound(c: Cache, a: Action)
    requires Enabled(c, a)
  {
    a.Compare? && c.bumps - c.tasks[a.task].load.readBumps >= EPOCHS
  }

  /** No load compares epochs that far apart. */
  ghost predicate NoWrap(trace: seq<Cache>, actions: seq<Action>, n: nat)
    requires Run(trace, actions) && n < |trace|
  {
    forall i :: 0 <= i < n ==> !WrapsRound(trace[i], actions[i])
  }

  lemma EpochsDiffer(a: nat, b: nat)
    requires a <= b < a + EPOCHS && EpochAfter(a) == EpochAfter(b)
    ensures a == b
  {
  }

  lemma ActorStep(c: Cache, a: Action)
    requires Enabled(c, a) && CacheInv(c) && !a.Wait? && !WrapsRound(c, a)
    ensures TaskInv(Do(c, a), a.task, NextTask(c, a))
  {
    if a.Compare? && c.epoch == c.tasks[a.task].load.readEpoch {
      EpochsDiffer(c.tasks[a.task].load.readBumps, c.bumps);
    }
  }

  /** While a task holds the mutex no invalidation can finish. */
  lemma OthersStep(c: Cache, a: Action, t: nat)
    requires Enabled(c, a) && CacheInv(c) && t in c.tasks && (a.Wait? || a.task != t)
    ensures TaskInv(Do(c, a), t, c.tasks[t])
  {
    var task := c.tasks[t];
    assert TaskInv(c, t, task);
    if a.Install? {
      assert TaskInv(c, a.task, c.tasks[a.task]);
    }
  }

  lemma SlotStep(c: Cache, a: Action)
    requires Enabled(c, a) && CacheInv(c)
    ensures SlotFresh(Do(c, a))
  {
  }

  lemma {:induction false} CacheInvHolds(trace: seq<Cache>, actions: seq<Action>, n: nat)
    requires Run(trace, actions) && n < |trace|
    requires NoWrap(trace, actions, n)
    ensures CacheInv(trace[n])
  {
    if n > 0 {
      var c, a := trace[n - 1], actions[n - 1];
      CacheInvHolds(trace, actions, n - 1);
      SlotStep(c, a);
      forall t | t in trace[n].tasks ensures TaskInv(trace[n], t, trace[n].tasks[t]) {
        if !a.Wait? && a.task == t { ActorStep(c, a); } else { OthersStep(c, a, t); }
      }
    }
  }

  /** Main result: in every interleaving in which no load is overtaken by 2^64 invalidations, once
      one has finished the cache never holds, then or later, what a non-forced load installed
      after reading the epoch before that invalidation bumped it. */
  lemma StaleNeverCached(trace: seq<Cache>, actions: seq<Action>, m: nat, n: nat, t: nat)
    requires Run(trace, actions) && m <= n < |trace|
    requires NoWrap(trace, actions, n)
    requires t in trace[m].tasks && trace[m].tasks[t].Invalidated?
    ensures var slot := trace[n].slot;
            slot.Some? && !slot.value.forced ==> slot.value.readBumps >= trace[m].tasks[t].bump
  {
    CacheInvHolds(trace, actions, n);
    FinishedStays(trace, actions, m, n, t);
  }

  lemma {:induction false} FinishedStays(trace: seq<Cache>, actions: seq<Action>, m: nat, n: nat, t: nat)
    requires Run(trace, actions) && m <= n < |trace|
    requires t in trace[m].tasks && trace[m].tasks[t].Invalidated?
    ensures t in trace[n].tasks && trace[n].tasks[t] == trace[m].tasks[t]
  {
    if m < n {
      FinishedStays(trace, actions, m, n - 1, t);
    }
  }

  /** The same for readers: a hit after a finished invalidation returns entries loaded since
      its bump, or entries some forced load put there. */
  lemma HitsAreFresh(trace: seq<Cache>, actions: seq<Action>, m: nat, n: nat, t: nat)
    requires Run(trace, actions) && m <= n < |actions|
    requires NoWrap(trace, actions, n)
    requires t in trace[m].tasks && trace[m].tasks[t].Invalidated?
    requires actions[n].Look? && trace[n + 1].tasks[actions[n].task].Returned?
    ensures var slot := trace[n].slot;
            && slot.Some? && trace[n + 1].tasks[actions[n].task].entries == slot.value.entries
            && (slot.value.forced || slot.value.readBumps >= trace[m].tasks[t].bump)
  {
    assert Enabled(trace[n], actions[n]);
    StaleNeverCached(trace, actions, m, n, t);
  }

  // ---- what the steps do ---------------------------------------------------

  /** A look answers from the slot exactly when it holds a set for the key, no older than twenty
      seconds; otherwise the node is asked. */
  lemma LookOutcome(c: Cache, t: nat)
    requires Enabled(c, Look(t))
    ensures var task, load := Do(c, Look(t)).tasks[t], c.tasks[t].load;
            if c.slot.Some? && c.slot.value.cacheKey == load.cacheKey && c.now <= c.slot.value.fetchedAt + 20
            then task == Returned(c.slot.value.entries) else task == Fetching(load)
    ensures Do(c, Look(t)).slot == c.slot
  {
  }

  /** Under the mutex, a load decides to install exactly when it is forced or no invalidation has
      bumped since it read the epoch. */
  lemma CompareOutcome(c: Cache, t: nat)
    requires Enabled(c, Compare(t)) && CacheInv(c) && !WrapsRound(c, Compare(t))
    ensures var load, task := c.tasks[t].load, Do(c, Compare(t)).tasks[t];
            && task == Compared(load, c.tasks[t].entries, task.install)
            && (task.install <==> load.forced || c.bumps == load.readBumps)
  {
    assert TaskInv(c, t, c.tasks[t]);
    if c.epoch == c.tasks[t].load.readEpoch { EpochsDiffer(c.tasks[t].load.readBumps, c.bumps); }
  }

  /** What it installs is what it fetched, for its key and as of now; and it returns it in any case. */
  lemma InstallOutcome(c: Cache, t: nat)
    requires Enabled(c, Install(t))
    ensures var load, c' := c.tasks[t].load, Do(c, Install(t));
            && c'.tasks[t] == Returned(c.tasks[t].entries) && c'.mutex.None?
            && (c.tasks[t].install ==>
                  && c'.slot.Some? && c'.slot.value.cacheKey == load.cacheKey && c'.slot.value.fetchedAt == c.now
                  && c'.slot.value.entries == c.tasks[t].entries && c'.slot.value.forced == load.forced
                  && c'.slot.value.readBumps == load.readBumps)
            && (!c.tasks[t].install ==> c'.slot == c.slot)
  {
  }

  // ---- forced loads -------------------------------------------------------

  /** The slot holds what was read before some invalidation that has finished. */
  ghost predicate StaleSlot(c: Cache) {
    c.slot.Some? && !After(c, c.slot.value.readBumps)
  }

  predicate Installs(c: Cache, a: Action)
    requires Enabled(c, a)
  {
    a.Install? && c.tasks[a.task].install
  }

  /** A forced load is about to install although an invalidation that bumped after its epoch read
      has finished. */
  ghost predicate StaleInstall(c: Cache, a: Action)
    requires Enabled(c, a)
  {
    Installs(c, a) && c.tasks[a.task].load.forced && !After(c, c.tasks[a.task].load.readBumps)
  }

  /** An install leaves the slot stale exactly when its load is forced and an invalidation that
      bumped after its epoch read has finished; a clear never does; nothing else makes a
      difference. */
  lemma StaleSlotIff(c: Cache, a: Action)
    requires Enabled(c, a) && CacheInv(c)
    ensures StaleSlot(Do(c, a)) <==>
            if Installs(c, a) then StaleInstall(c, a) else !a.Clear? && StaleSlot(c)
  {
    if Installs(c, a) {
      assert TaskInv(c, a.task, c.tasks[a.task]);
    }
    if !a.Clear? {
      SameFinished(c, a);
    }
  }

  lemma SameFinished(c: Cache, a: Action)
    requires Enabled(c, a) && !a.Clear?
    ensures forall count :: After(Do(c, a), count) <==> After(c, count)
  {
    forall count ensures After(Do(c, a), count) <==> After(c, count) {
      if After(Do(c, a), count) {
        forall t | t in c.tasks && c.tasks[t].Invalidated? ensures c.tasks[t].bump <= count {
          assert Do(c, a).tasks[t] == c.tasks[t];
        }
      }
    }
  }

  predicate Replaces(c: Cache, a: Action)
    requires Enabled(c, a)
  {
    Installs(c, a) || a.Clear?
  }

  /** Over whole runs: the slot is stale exactly when a forced load installed it so and neither an
      install nor a clear has come since. */
  lemma {:induction false} StaleExactlyByForce(trace: seq<Cache>, actions: seq<Action>, n: nat)
    requires Run(trace, actions) && n < |trace|
    requires NoWrap(trace, actions, n)
    ensures StaleSlot(trace[n]) <==> exists m :: StaleSince(trace, actions, m, n)
  {
    if n > 0 {
      var c, a := trace[n - 1], actions[n - 1];
      CacheInvHolds(trace, actions, n - 1);
      StaleExactlyByForce(trace, actions, n - 1);
      StaleSlotIff(c, a);
      if StaleSlot(trace[n]) {
        if Installs(c, a) {
          assert StaleSince(trace, actions, n - 1, n);
        } else {
          var m :| StaleSince(trace, actions, m, n - 1);
          assert StaleSince(trace, actions, m, n);
        }
      }
      if m :| StaleSince(trace, actions, m, n) {
        if m < n - 1 { assert StaleSince(trace, actions, m, n - 1); }
      }
    }
  }

  ghost predicate StaleSince(trace: seq<Cache>, actions: seq<Action>, m: int, n: nat)
    requires Run(trace, actions) && n < |trace|
  {
    && 0 <= m < n && StaleInstall(trace[m], actions[m])
    && forall i :: m < i < n ==> !Replaces(trace[i], actions[i])
  }

  lemma Then(trace: seq<Cache>, actions: seq<Action>, a: Action)
    returns (trace': seq<Cache>, actions': seq<Action>)
    requires Run(trace, actions) && Enabled(trace[|actions|], a)
    ensures Run(trace', actions') && |actions'| == |actions| + 1
    ensures trace'[|actions'|] == Do(trace[|actions|], a)
  {
    trace', actions' := trace + [Do(trace[|actions|], a)], actions + [a];
  }

  /** Forced loads are outside the guarantee: a forced load that fetched before an invalidation
      still installs what it fetched after the invalidation has finished. */
  lemma ForcedLoadCachesStale(entries: seq<Utxo>) returns (trace: seq<Cache>, actions: seq<Action>)
    ensures Run(trace, actions) && |trace| == 8
    ensures var c := trace[7];
            && 1 in c.tasks && c.tasks[1].Invalidated?
            && c.slot.Some? && c.slot.value.entries == entries
            && c.slot.value.readBumps < c.tasks[1].bump
  {
    trace, actions := [Cache(1, 0, None, None, 0, map[])], [];
    trace, actions := Then(trace, actions, BeginLoad(0, "key", true));
    trace, actions := Then(trace, actions, Fetch(0, Some(entries)));
    trace, actions := Then(trace, actions, Bump(1));
    trace, actions := Then(trace, actions, Clear(1));
    trace, actions := Then(trace, actions, Acquire(0));
    trace, actions := Then(trace, actions, Compare(0));
    trace, actions := Then(trace, actions, Install(0));
  }
}
