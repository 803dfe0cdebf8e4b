/**
 The analytics cache as a transition system. `query` suspends at the cache lookup, at the database
 and at the cache write; an eviction deletes without waiting; a backfill deletes a snapshot of the
 tracked keys and, once all deletes are done, forgets the workspace.
 */
module CacheProtocol {
  datatype Key = Key(workspaceId: string, hash: string)

  type Cap = n: nat | n > 0 witness 1

  datatype Execution = Execution(key: Key, stored: bool)
  datatype Sweep = Sweep(workspaceId: string, remaining: set<Key>)

  datatype State = State(
    tracked: map<string, seq<Key>>,
    cached: set<Key>,
    pendingQueries: set<Key>,
    looking: multiset<Key>,
    missed: multiset<Key>,
    executing: seq<Execution>,
    evictions: multiset<Key>,
    sweeps: seq<Sweep>)
  {
    // In order of insertion, the oldest first.
    function Keys(w: string): seq<Key> {
      if w in tracked then tracked[w] else []
    }
  }

  const EMPTY := State(map[], {}, {}, multiset{}, multiset{}, [], multiset{}, [])

  // ----- Steps -----

  predicate Evicts(s: State, key: Key, cap: Cap) {
    |s.Keys(key.workspaceId)| >= cap && key !in s.Keys(key.workspaceId)
  }

  function Tracked(keys: seq<Key>, key: Key, cap: Cap): seq<Key> {
    if key in keys then keys
    else if |keys| >= cap then keys[1..] + [key]
    else keys + [key]
  }

  function Track(s: State, key: Key, cap: Cap): State {
    var w := key.workspaceId;
    s.(tracked := s.tracked[w := Tracked(s.Keys(w), key, cap)],
       evictions := if Evicts(s, key, cap) then s.evictions + multiset{s.Keys(w)[0]} else s.evictions)
  }

  datatype Action =
    | Arrives(key: Key)
    | Looks(key: Key)
    | Proceeds(key: Key)
    | Stores(index: nat)
    | Settles(index: nat)
    | EvictionLands(key: Key)
    | BackfillStarts(workspaceId: string)
    | SweepDeletes(index: nat, key: Key)
    | BackfillEnds(index: nat)
    | Expires(key: Key)

  predicate Enabled(s: State, a: Action) {
    match a
    case Looks(key) => key in s.looking
    case Proceeds(key) => key in s.missed
    case Stores(i) => i < |s.executing| && !s.executing[i].stored
    case Settles(i) => i < |s.executing|
    case EvictionLands(key) => key in s.evictions
    case SweepDeletes(i, key) => i < |s.sweeps| && key in s.sweeps[i].remaining
    case BackfillEnds(i) => i < |s.sweeps| && s.sweeps[i].remaining == {}
    case _ => true
  }

  function Proceed(s: State, key: Key): State {
    var t := s.(missed := s.missed - multiset{key});
    if key in s.pendingQueries then t
    else t.(executing := s.executing + [Execution(key, false)], pendingQueries := s.pendingQueries + {key})
  }

  function Settle(s: State, i: nat): State
    requires i < |s.executing|
  {
    s.(executing := s.executing[..i] + s.executing[i + 1..], pendingQueries := s.pendingQueries - {s.executing[i].key})
  }

  function StartBackfill(s: State, w: string): State {
    if w in s.tracked then s.(sweeps := s.sweeps + [Sweep(w, set k | k in s.tracked[w])]) else s
  }

  function EndBackfill(s: State, i: nat): State
    requires i < |s.sweeps|
  {
    s.(sweeps := s.sweeps[..i] + s.sweeps[i + 1..], tracked := s.tracked - {s.sweeps[i].workspaceId})
  }

  function Step(s: State, a: Action, cap: Cap): State
    requires Enabled(s, a)
  {
    match a
    case Arrives(key) => Track(s, key, cap).(looking := s.looking + multiset{key})
    case Looks(key) =>
      var t := s.(looking := s.looking - multiset{key});
      if key in s.cached then t else t.(missed := s.missed + multiset{key})
    case Proceeds(key) => Proceed(s, key)
    case Stores(i) =>
      s.(cached := s.cached + {s.executing[i].key}, executing := s.executing[i := Execution(s.executing[i].key, true)])
    case Settles(i) => Settle(s, i)
    case EvictionLands(key) => s.(cached := s.cached - {key}, evictions := s.evictions - multiset{key})
    case BackfillStarts(w) => StartBackfill(s, w)
    case SweepDeletes(i, key) =>
      s.(cached := s.cached - {key},
         sweeps := s.sweeps[i := Sweep(s.sweeps[i].workspaceId, s.sweeps[i].remaining - {key})])
    case BackfillEnds(i) => EndBackfill(s, i)
    case Expires(key) => s.(cached := s.cached - {key})
  }

  predicate Run(s: State, actions: seq<Action>, cap: Cap)
    decreases |actions|
  {
    actions == [] || (Enabled(s, actions[0]) && Run(Step(s, actions[0], cap), actions[1..], cap))
  }

  function After(s: State, actions: seq<Action>, cap: Cap): State
    requires Run(s, actions, cap)
    decreases |actions|
  {
    if actions == [] then s else After(Step(s, actions[0], cap), actions[1..], cap)
  }

  // ----- On every run -----

  /** At most one execution per key, exactly for the keys registered as pending. */
  ghost predicate SingleFlight(s: State) {
    && (forall i, j | 0 <= i < j < |s.executing| :: s.executing[i].key != s.executing[j].key)
    && (forall i | 0 <= i < |s.executing| :: s.executing[i].key in s.pendingQueries)
    && (forall key <- s.pendingQueries :: exists i | 0 <= i < |s.executing| :: s.executing[i].key == key)
  }

  ghost predicate Bounded(s: State, cap: Cap) {
    forall w <- s.tracked ::
      && |s.tracked[w]| <= cap
      && (forall i, j | 0 <= i < j < |s.tracked[w]| :: s.tracked[w][i] != s.tracked[w][j])
      && (forall i | 0 <= i < |s.tracked[w]| :: s.tracked[w][i].workspaceId == w)
  }

  lemma ProceedKeepsSingleFlight(s: State, key: Key)
    requires SingleFlight(s)
    ensures SingleFlight(Proceed(s, key))
  {
    var t := Proceed(s, key);
    if key !in s.pendingQueries {
      assert t.executing[|s.executing|].key == key;
      assert forall i | 0 <= i < |s.executing| :: t.executing[i] == s.executing[i];
    }
  }

  lemma SettleKeepsSingleFlight(s: State, i: nat)
    requires SingleFlight(s) && i < |s.executing|
    ensures SingleFlight(Settle(s, i))
  {
    var t := Settle(s, i);
    assert forall j | 0 <= j < |t.executing| :: t.executing[j] == s.executing[if j < i then j else j + 1];
    forall key | key in t.pendingQueries ensures exists j | 0 <= j < |t.executing| :: t.executing[j].key == key {
      var j :| 0 <= j < |s.executing| && s.executing[j].key == key;
      assert t.executing[if j < i then j else j - 1].key == key;
    }
  }

  lemma StoreKeepsSingleFlight(s: State, i: nat, cap: Cap)
    requires SingleFlight(s) && Enabled(s, Stores(i))
    ensures SingleFlight(Step(s, Stores(i), cap))
  {
    var t := Step(s, Stores(i), cap);
    assert forall j | 0 <= j < |s.executing| :: t.executing[j].key == s.executing[j].key;
    forall key | key in t.pendingQueries ensures exists j | 0 <= j < |t.executing| :: t.executing[j].key == key {
      var j :| 0 <= j < |s.executing| && s.executing[j].key == key;
      assert t.executing[j].key == key;
    }
  }

  lemma StepKeepsSingleFlight(s: State, a: Action, cap: Cap)
    requires SingleFlight(s) && Enabled(s, a)
    ensures SingleFlight(Step(s, a, cap))
  {
    match a
    case Proceeds(key) => ProceedKeepsSingleFlight(s, key);
    case Stores(i) => StoreKeepsSingleFlight(s, i, cap);
    case Settles(i) => SettleKeepsSingleFlight(s, i);
    case _ =>
      assert Step(s, a, cap).executing == s.executing && Step(s, a, cap).pendingQueries == s.pendingQueries;
  }

  lemma StepKeepsBounded(s: State, a: Action, cap: Cap)
    requires Bounded(s, cap) && Enabled(s, a)
    ensures Bounded(Step(s, a, cap), cap)
  {
    if a.Arrives? {
      TrackKeepsBounded(s, a.key, cap);
    } else {
      assert forall w <- Step(s, a, cap).tracked :: w in s.tracked && Step(s, a, cap).tracked[w] == s.tracked[w];
    }
  }

  lemma TrackKeepsBounded(s: State, key: Key, cap: Cap)
    requires Bounded(s, cap)
    ensures Bounded(Track(s, key, cap), cap)
  {
    var w := key.workspaceId;
    var before, after := s.Keys(w), Tracked(s.Keys(w), key, cap);
    assert forall v <- s.tracked | v != w :: Track(s, key, cap).tracked[v] == s.tracked[v];
    assert |before| <= cap && |after| <= cap;
  }

  /** Single flight and the bound on tracked keys, on every interleaving. */
  lemma {:induction false} EveryRunIsSingleFlight(s: State, actions: seq<Action>, cap: Cap)
    requires SingleFlight(s) && Bounded(s, cap) && Run(s, actions, cap)
    ensures SingleFlight(After(s, actions, cap)) && Bounded(After(s, actions, cap), cap)
    decreases |actions|
  {
    if actions != [] {
      StepKeepsSingleFlight(s, actions[0], cap);
      StepKeepsBounded(s, actions[0], cap);
      EveryRunIsSingleFlight(Step(s, actions[0], cap), actions[1..], cap);
    }
  }

  // ----- Every query is accounted for -----

  /** How often something of `key` happens along a run. */
  datatype Tally = Tally(arrived: nat, hits: nat, misses: nat, joined: nat, started: nat, settled: nat)

  function Plus(a: Tally, b: Tally): Tally {
    Tally(a.arrived + b.arrived, a.hits + b.hits, a.misses + b.misses, a.joined + b.joined, a.started + b.started,
          a.settled + b.settled)
  }

  const NONE_YET := Tally(0, 0, 0, 0, 0, 0)

  function TallyOf(s: State, a: Action, key: Key): Tally
    requires Enabled(s, a)
  {
    if a == Arrives(key) then NONE_YET.(arrived := 1)
    else if a == Looks(key) then if key in s.cached then NONE_YET.(hits := 1) else NONE_YET.(misses := 1)
    else if a == Proceeds(key) then if key in s.pendingQueries then NONE_YET.(joined := 1) else NONE_YET.(started := 1)
    else if a.Settles? && s.executing[a.index].key == key then NONE_YET.(settled := 1)
    else NONE_YET
  }

  function TallyAll(s: State, actions: seq<Action>, key: Key, cap: Cap): Tally
    requires Run(s, actions, cap)
    decreases |actions|
  {
    if actions == [] then NONE_YET
    else Plus(TallyOf(s, actions[0], key), TallyAll(Step(s, actions[0], cap), actions[1..], key, cap))
  }

  function ExecutionsOf(executing: seq<Execution>, key: Key): nat {
    if executing == [] then 0
    else ExecutionsOf(executing[1..], key) + if executing[0].key == key then 1 else 0
  }

  lemma {:induction false} ExecutionsConcat(a: seq<Execution>, b: seq<Execution>, key: Key)
    ensures ExecutionsOf(a + b, key) == ExecutionsOf(a, key) + ExecutionsOf(b, key)
  {
    if a == [] {
      assert a + b == b;
    } else {
      ExecutionsConcat(a[1..], b, key);
      assert (a + b)[1..] == a[1..] + b;
    }
  }

  lemma OneExecution(e: Execution, key: Key)
    ensures ExecutionsOf([e], key) == if e.key == key then 1 else 0
  {
    assert [e][1..] == [];
  }

  lemma ExecutionsWithout(executing: seq<Execution>, i: nat, key: Key)
    requires i < |executing|
    ensures ExecutionsOf(executing, key)
         == ExecutionsOf(executing[..i] + executing[i + 1..], key) + if executing[i].key == key then 1 else 0
  {
    assert executing == executing[..i] + [executing[i]] + executing[i + 1..];
    ExecutionsConcat(executing[..i] + [executing[i]], executing[i + 1..], key);
    ExecutionsConcat(executing[..i], [executing[i]], key);
    ExecutionsConcat(executing[..i], executing[i + 1..], key);
    OneExecution(executing[i], key);
  }

  lemma ExecutionsStored(executing: seq<Execution>, i: nat, key: Key)
    requires i < |executing|
    ensures ExecutionsOf(executing[i := Execution(executing[i].key, true)], key) == ExecutionsOf(executing, key)
  {
    var after := executing[i := Execution(executing[i].key, true)];
    ExecutionsWithout(executing, i, key);
    ExecutionsWithout(after, i, key);
    assert after[..i] == executing[..i] && after[i + 1..] == executing[i + 1..];
  }

  /** What `t` did to the queries of `key`: each is looking, missed, executing, or done. */
  ghost predicate Accounts(s: State, after: State, t: Tally, key: Key) {
    && s.looking[key] + t.arrived == after.looking[key] + t.hits + t.misses
    && s.missed[key] + t.misses == after.missed[key] + t.joined + t.started
    && ExecutionsOf(s.executing, key) + t.started == ExecutionsOf(after.executing, key) + t.settled
  }

  lemma ProceedAccounts(s: State, k: Key, key: Key, cap: Cap)
    requires k in s.missed
    ensures Accounts(s, Step(s, Proceeds(k), cap), TallyOf(s, Proceeds(k), key), key)
  {
    ExecutionsConcat(s.executing, [Execution(k, false)], key);
    OneExecution(Execution(k, false), key);
  }

  lemma SettleAccounts(s: State, i: nat, key: Key, cap: Cap)
    requires i < |s.executing|
    ensures Accounts(s, Step(s, Settles(i), cap), TallyOf(s, Settles(i), key), key)
  {
    ExecutionsWithout(s.executing, i, key);
  }

  lemma StoreAccounts(s: State, i: nat, key: Key, cap: Cap)
    requires Enabled(s, Stores(i))
    ensures Accounts(s, Step(s, Stores(i), cap), TallyOf(s, Stores(i), key), key)
  {
    ExecutionsStored(s.executing, i, key);
  }

  lemma ArrivalAccounts(s: State, k: Key, key: Key, cap: Cap)
    ensures Accounts(s, Step(s, Arrives(k), cap), TallyOf(s, Arrives(k), key), key)
  {
  }

  lemma LookAccounts(s: State, k: Key, key: Key, cap: Cap)
    requires k in s.looking
    ensures Accounts(s, Step(s, Looks(k), cap), TallyOf(s, Looks(k), key), key)
  {
  }

  lemma OthersTouchNoQuery(s: State, a: Action, cap: Cap)
    requires Enabled(s, a)
    requires a.EvictionLands? || a.BackfillStarts? || a.SweepDeletes? || a.BackfillEnds? || a.Expires?
    ensures var t := Step(s, a, cap);
            t.looking == s.looking && t.missed == s.missed && t.executing == s.executing
  {
  }

  lemma StepAccounts(s: State, a: Action, key: Key, cap: Cap)
    requires Enabled(s, a)
    ensures Accounts(s, Step(s, a, cap), TallyOf(s, a, key), key)
  {
    match a
    case Arrives(k) => ArrivalAccounts(s, k, key, cap);
    case Looks(k) => LookAccounts(s, k, key, cap);
    case Proceeds(k) => ProceedAccounts(s, k, key, cap);
    case Stores(i) => StoreAccounts(s, i, key, cap);
    case Settles(i) => SettleAccounts(s, i, key, cap);
    case _ => OthersTouchNoQuery(s, a, cap);
  }

  /**
   On every run each query of a key ends at the cache or misses, each miss joins an execution or starts
   one, and nothing else starts one: a hit never reaches the database.
   */
  lemma {:induction false} EveryRunAccounts(s: State, actions: seq<Action>, key: Key, cap: Cap)
    requires Run(s, actions, cap)
    ensures Accounts(s, After(s, actions, cap), TallyAll(s, actions, key, cap), key)
    decreases |actions|
  {
    if actions != [] {
      StepAccounts(s, actions[0], key, cap);
      EveryRunAccounts(Step(s, actions[0], cap), actions[1..], key, cap);
    }
  }

  /** The tracked keys are the newest `cap` of those inserted, in order; a key already tracked keeps its place. */
  lemma TrackedAreTheNewest(s: State, key: Key, cap: Cap)
    requires |s.Keys(key.workspaceId)| <= cap
    ensures var before, t := s.Keys(key.workspaceId), Track(s, key, cap);
            var after := t.Keys(key.workspaceId);
            && (key in before ==> after == before && t.evictions == s.evictions)
            && (key !in before ==>
                  && |after| == (if |before| < cap then |before| + 1 else cap)
                  && after == (before + [key])[|before| + 1 - |after|..]
                  && t.evictions == s.evictions + multiset((before + [key])[..|before| + 1 - |after|]))
            && (forall w | w != key.workspaceId :: t.Keys(w) == s.Keys(w))
  {
    var before := s.Keys(key.workspaceId);
    if |before| == cap {
      assert before == [before[0]] + before[1..];
      assert (before + [key])[..1] == [before[0]];
    } else {
      assert (before + [key])[..0] == [];
    }
  }

  // ----- Entries that no backfill will clear -----

  predicate Condemned(s: State, key: Key) {
    key in s.evictions || exists i | 0 <= i < |s.sweeps| :: key in s.sweeps[i].remaining
  }

  /** A cached entry that is neither tracked nor about to be deleted. */
  predicate Orphan(s: State, key: Key) {
    key in s.cached && key !in s.Keys(key.workspaceId) && !Condemned(s, key)
  }

  /** The two steps that make an orphan: a late write, and a backfill that forgets a key tracked meanwhile. */
  predicate Orphans(s: State, a: Action, key: Key)
    requires Enabled(s, a)
  {
    match a
    case Stores(i) => s.executing[i].key == key && key !in s.Keys(key.workspaceId) && !Condemned(s, key)
    case BackfillEnds(i) => s.sweeps[i].workspaceId == key.workspaceId && key in s.cached && !Condemned(s, key)
    case _ => false
  }

  predicate Adopts(a: Action, key: Key) {
    (a.Expires? || a.Arrives?) && a.key == key
  }

  lemma TrackCondemnsExactly(s: State, key: Key, cap: Cap, k: Key)
    requires Bounded(s, cap)
    ensures var t := Track(s, key, cap);
            k in t.Keys(k.workspaceId) || Condemned(t, k) <==> k == key || k in s.Keys(k.workspaceId) || Condemned(s, k)
  {
    var t := Track(s, key, cap);
    var keys := s.Keys(key.workspaceId);
    if Evicts(s, key, cap) {
      assert keys == [keys[0]] + keys[1..];
      assert keys[0].workspaceId == key.workspaceId;
    }
    assert t.sweeps == s.sweeps;
  }

  lemma BackfillCondemnsTracked(s: State, w: string, cap: Cap, k: Key)
    requires Bounded(s, cap)
    ensures Condemned(StartBackfill(s, w), k) <==> Condemned(s, k) || (k.workspaceId == w && k in s.Keys(w))
  {
    if w in s.tracked {
      var t := StartBackfill(s, w);
      assert t.sweeps[|s.sweeps|].remaining == set k | k in s.tracked[w];
      assert forall i | 0 <= i < |s.sweeps| :: t.sweeps[i] == s.sweeps[i];
    }
  }

  lemma SweepSpares(s: State, i: nat, key: Key, cap: Cap, k: Key)
    requires Enabled(s, SweepDeletes(i, key)) && k != key
    ensures Condemned(Step(s, SweepDeletes(i, key), cap), k) <==> Condemned(s, k)
  {
    var t := Step(s, SweepDeletes(i, key), cap);
    assert forall j | 0 <= j < |s.sweeps| :: k in t.sweeps[j].remaining <==> k in s.sweeps[j].remaining;
  }

  lemma EndSpares(s: State, i: nat, k: Key)
    requires i < |s.sweeps| && s.sweeps[i].remaining == {}
    ensures Condemned(EndBackfill(s, i), k) <==> Condemned(s, k)
  {
    var t := EndBackfill(s, i);
    if Condemned(t, k) && k !in s.evictions {
      var j :| 0 <= j < |t.sweeps| && k in t.sweeps[j].remaining;
      assert k in s.sweeps[if j < i then j else j + 1].remaining;
    }
    if Condemned(s, k) && k !in s.evictions {
      var j :| 0 <= j < |s.sweeps| && k in s.sweeps[j].remaining;
      assert k in t.sweeps[if j < i then j else j - 1].remaining;
    }
  }

  lemma StepSpares(s: State, a: Action, cap: Cap, key: Key)
    requires Enabled(s, a)
    requires !a.Arrives? && !a.BackfillStarts? && !a.SweepDeletes? && !a.BackfillEnds? && !a.EvictionLands?
    ensures Step(s, a, cap).sweeps == s.sweeps && Step(s, a, cap).evictions == s.evictions
    ensures Step(s, a, cap).tracked == s.tracked
  {
  }

  lemma EvictionSpares(s: State, k: Key, cap: Cap, key: Key)
    requires Enabled(s, EvictionLands(k))
    ensures Orphan(Step(s, EvictionLands(k), cap), key) <==> Orphan(s, key)
  {
  }

  /** An orphan appears by one of the two steps, and leaves only by expiring or by being asked for again. */
  lemma OrphansExactly(s: State, a: Action, cap: Cap, key: Key)
    requires Bounded(s, cap) && Enabled(s, a)
    ensures Orphan(Step(s, a, cap), key) <==> Orphans(s, a, key) || (Orphan(s, key) && !Adopts(a, key))
  {
    match a
    case Arrives(k) => TrackCondemnsExactly(s, k, cap, key);
    case BackfillStarts(w) => BackfillCondemnsTracked(s, w, cap, key);
    case SweepDeletes(i, k) =>
      if k != key {
        SweepSpares(s, i, k, cap, key);
      }
    case BackfillEnds(i) => EndSpares(s, i, key);
    case EvictionLands(k) => EvictionSpares(s, k, cap, key);
    case _ => StepSpares(s, a, cap, key);
  }

  // ----- Runs where nothing overlaps a query in progress -----

  predicate InUse(s: State, key: Key) {
    key in s.looking || key in s.missed || key in s.pendingQueries
  }

  predicate Sweeping(s: State, w: string) {
    exists i | 0 <= i < |s.sweeps| :: s.sweeps[i].workspaceId == w
  }

  /** An eviction or a backfill hits a query in progress, or a query arrives during a backfill. */
  ghost predicate Overlaps(s: State, a: Action, cap: Cap) {
    match a
    case Arrives(key) => (Evicts(s, key, cap) && InUse(s, s.Keys(key.workspaceId)[0])) || Sweeping(s, key.workspaceId)
    case BackfillStarts(w) => exists key | InUse(s, key) :: key.workspaceId == w
    case _ => false
  }

  ghost predicate QuietRun(s: State, actions: seq<Action>, cap: Cap)
    decreases |actions|
  {
    actions == [] || (
      && Enabled(s, actions[0]) && !Overlaps(s, actions[0], cap)
      && QuietRun(Step(s, actions[0], cap), actions[1..], cap))
  }

  ghost predicate UsedAreTracked(s: State) {
    forall key | InUse(s, key) :: key in s.Keys(key.workspaceId) && !Sweeping(s, key.workspaceId)
  }

  predicate Reachable(s: State, key: Key) {
    key in s.Keys(key.workspaceId) || key in s.evictions
  }

  /** Whatever is cached is tracked, or its delete is on the way. */
  ghost predicate CachedAreReachable(s: State) {
    forall key <- s.cached :: Reachable(s, key)
  }

  ghost predicate SweepsReachAll(s: State) {
    forall i | 0 <= i < |s.sweeps| :: SweepReaches(s, s.sweeps[i])
  }

  ghost predicate SweepReaches(s: State, sweep: Sweep) {
    forall key <- s.cached | key.workspaceId == sweep.workspaceId :: key in sweep.remaining || key in s.evictions
  }

  ghost predicate Calm(s: State, cap: Cap) {
    SingleFlight(s) && Bounded(s, cap) && UsedAreTracked(s) && CachedAreReachable(s) && SweepsReachAll(s)
  }

  lemma TrackKeeps(s: State, key: Key, cap: Cap, k: Key)
    requires Bounded(s, cap)
    ensures Reachable(s, k) ==> Reachable(Track(s, key, cap), k)
    ensures k in s.Keys(k.workspaceId) && !(Evicts(s, key, cap) && k == s.Keys(key.workspaceId)[0]) ==>
              k in Track(s, key, cap).Keys(k.workspaceId)
  {
    var keys := s.Keys(key.workspaceId);
    if Evicts(s, key, cap) {
      assert keys == [keys[0]] + keys[1..];
    }
  }

  lemma UsedBefore(s: State, a: Action, cap: Cap, k: Key)
    requires Enabled(s, a)
    ensures InUse(Step(s, a, cap), k) ==> InUse(s, k) || (a.Arrives? && a.key == k)
  {
  }

  lemma KeysKept(s: State, a: Action, cap: Cap, w: string)
    requires Enabled(s, a) && !a.Arrives?
    requires a.BackfillEnds? ==> s.sweeps[a.index].workspaceId != w
    ensures Step(s, a, cap).Keys(w) == s.Keys(w)
  {
  }

  lemma UsedStayTracked(s: State, a: Action, cap: Cap)
    requires Bounded(s, cap) && UsedAreTracked(s) && Enabled(s, a) && !Overlaps(s, a, cap)
    ensures UsedAreTracked(Step(s, a, cap))
  {
    var t := Step(s, a, cap);
    forall k | InUse(t, k) ensures k in t.Keys(k.workspaceId) && !Sweeping(t, k.workspaceId) {
      UsedBefore(s, a, cap, k);
      SweepingChanges(s, a, cap, k.workspaceId);
      if a.Arrives? {
        TrackKeeps(s, a.key, cap, k);
      } else {
        KeysKept(s, a, cap, k.workspaceId);
      }
    }
  }

  lemma SweepingChanges(s: State, a: Action, cap: Cap, w: string)
    requires Enabled(s, a)
    ensures Sweeping(Step(s, a, cap), w) ==> Sweeping(s, w) || (a.BackfillStarts? && a.workspaceId == w)
    ensures a.BackfillEnds? && s.sweeps[a.index].workspaceId == w ==> Sweeping(s, w)
  {
    var t := Step(s, a, cap);
    if Sweeping(t, w) {
      var j :| 0 <= j < |t.sweeps| && t.sweeps[j].workspaceId == w;
      if a.BackfillEnds? {
        assert t.sweeps[j] == s.sweeps[if j < a.index then j else j + 1];
      } else if j < |s.sweeps| {
        assert s.sweeps[j].workspaceId == w;
      }
    }
  }

  lemma CachedStayReachable(s: State, a: Action, cap: Cap)
    requires Calm(s, cap) && Enabled(s, a)
    ensures CachedAreReachable(Step(s, a, cap))
  {
    forall k | k in Step(s, a, cap).cached ensures Reachable(Step(s, a, cap), k) {
      StaysReachable(s, a, cap, k);
    }
  }

  lemma StaysReachable(s: State, a: Action, cap: Cap, k: Key)
    requires Calm(s, cap) && Enabled(s, a) && k in Step(s, a, cap).cached
    ensures Reachable(Step(s, a, cap), k)
  {
    match a
    case Arrives(key) => TrackKeeps(s, key, cap, k);
    case Stores(i) =>
      if s.executing[i].key == k {
        assert InUse(s, k);
      }
    case BackfillEnds(i) => EndedSweepReached(s, i, k);
    case _ =>
      assert Reachable(s, k);
      KeysKept(s, a, cap, k.workspaceId);
  }

  /** A sweep that ends leaves no cached key of its workspace, apart from those whose eviction is on the way. */
  lemma EndedSweepReached(s: State, i: nat, k: Key)
    requires CachedAreReachable(s) && SweepsReachAll(s)
    requires i < |s.sweeps| && s.sweeps[i].remaining == {} && k in s.cached
    ensures Reachable(EndBackfill(s, i), k)
  {
    assert SweepReaches(s, s.sweeps[i]) && Reachable(s, k);
  }

  lemma SweepsStillReach(s: State, a: Action, cap: Cap)
    requires Calm(s, cap) && Enabled(s, a)
    ensures SweepsReachAll(Step(s, a, cap))
  {
    var t := Step(s, a, cap);
    forall i | 0 <= i < |t.sweeps| ensures SweepReaches(t, t.sweeps[i]) {
      SweepStillReaches(s, a, cap, i);
    }
  }

  lemma SweepsAfter(s: State, a: Action, cap: Cap)
    requires Enabled(s, a)
    ensures Step(s, a, cap).sweeps
         == match a
            case BackfillStarts(w) => StartBackfill(s, w).sweeps
            case SweepDeletes(i, key) => s.sweeps[i := Sweep(s.sweeps[i].workspaceId, s.sweeps[i].remaining - {key})]
            case BackfillEnds(i) => s.sweeps[..i] + s.sweeps[i + 1..]
            case _ => s.sweeps
  {
  }

  /** Where sweep `i` comes from. */
  lemma SweepAt(s: State, a: Action, cap: Cap, i: nat)
    requires Enabled(s, a) && i < |Step(s, a, cap).sweeps|
    ensures Earlier(s, a, i) < |s.sweeps| || (a.BackfillStarts? && a.workspaceId in s.tracked && i == |s.sweeps|)
    ensures Earlier(s, a, i) < |s.sweeps| ==>
              var before, after := s.sweeps[Earlier(s, a, i)], Step(s, a, cap).sweeps[i];
              && after.workspaceId == before.workspaceId
              && after.remaining == if a.SweepDeletes? && a.index == Earlier(s, a, i) then before.remaining - {a.key}
                                    else before.remaining
  {
    SweepsAfter(s, a, cap);
  }

  function Earlier(s: State, a: Action, i: nat): nat {
    if a.BackfillEnds? && i >= a.index then i + 1 else i
  }

  lemma SweepStillReaches(s: State, a: Action, cap: Cap, i: nat)
    requires Calm(s, cap) && Enabled(s, a) && i < |Step(s, a, cap).sweeps|
    ensures SweepReaches(Step(s, a, cap), Step(s, a, cap).sweeps[i])
  {
    SweepAt(s, a, cap, i);
    if Earlier(s, a, i) < |s.sweeps| {
      StillReaches(s, a, cap, Earlier(s, a, i), Step(s, a, cap).sweeps[i]);
    } else {
      StartReaches(s, a.workspaceId);
    }
  }

  lemma StartReaches(s: State, w: string)
    requires CachedAreReachable(s) && w in s.tracked
    ensures var t := StartBackfill(s, w); SweepReaches(t, t.sweeps[|s.sweeps|])
  {
  }

  lemma StillReaches(s: State, a: Action, cap: Cap, j: nat, after: Sweep)
    requires Calm(s, cap) && Enabled(s, a) && j < |s.sweeps|
    requires after.workspaceId == s.sweeps[j].workspaceId
    requires if a.SweepDeletes? && a.index == j then after.remaining == s.sweeps[j].remaining - {a.key}
             else after.remaining == s.sweeps[j].remaining
    ensures SweepReaches(Step(s, a, cap), after)
  {
    var t := Step(s, a, cap);
    assert SweepReaches(s, s.sweeps[j]) && Sweeping(s, after.workspaceId);
    if a.Stores? {
      assert InUse(s, s.executing[a.index].key);
      assert s.executing[a.index].key.workspaceId != after.workspaceId;
    }
    assert forall k <- t.cached | k.workspaceId == after.workspaceId :: k in s.cached;
  }

  lemma StepKeepsCalm(s: State, a: Action, cap: Cap)
    requires Calm(s, cap) && Enabled(s, a) && !Overlaps(s, a, cap)
    ensures Calm(Step(s, a, cap), cap)
  {
    StepKeepsSingleFlight(s, a, cap);
    StepKeepsBounded(s, a, cap);
    UsedStayTracked(s, a, cap);
    CachedStayReachable(s, a, cap);
    SweepsStillReach(s, a, cap);
  }

  lemma {:induction false} QuietRunsStayCalm(s: State, actions: seq<Action>, cap: Cap)
    requires Calm(s, cap) && QuietRun(s, actions, cap)
    ensures Run(s, actions, cap) && Calm(After(s, actions, cap), cap)
    decreases |actions|
  {
    if actions != [] {
      StepKeepsCalm(s, actions[0], cap);
      QuietRunsStayCalm(Step(s, actions[0], cap), actions[1..], cap);
    }
  }

  lemma CalmHasNoOrphan(s: State, cap: Cap)
    requires Calm(s, cap)
    ensures forall key :: !Orphan(s, key)
  {
  }

  lemma CalmSweepClears(s: State, cap: Cap, i: nat)
    requires Calm(s, cap)
    ensures Enabled(s, BackfillEnds(i)) ==>
              forall key <- Step(s, BackfillEnds(i), cap).cached | key.workspaceId == s.sweeps[i].workspaceId ::
                key in s.evictions
  {
    if i < |s.sweeps| {
      assert SweepReaches(s, s.sweeps[i]);
    }
  }

  /**
   On a quiet run there is never an orphan, and a backfill that ends leaves no entry of its
   workspace, apart from those whose eviction is on the way.
   */
  lemma QuietBackfillClears(actions: seq<Action>, cap: Cap, i: nat)
    requires QuietRun(EMPTY, actions, cap)
    ensures Run(EMPTY, actions, cap)
    ensures var s := After(EMPTY, actions, cap);
            && (forall key :: !Orphan(s, key))
            && (Enabled(s, BackfillEnds(i)) ==>
                  forall key <- Step(s, BackfillEnds(i), cap).cached | key.workspaceId == s.sweeps[i].workspaceId ::
                    key in s.evictions)
  {
    QuietRunsStayCalm(EMPTY, actions, cap);
    CalmHasNoOrphan(After(EMPTY, actions, cap), cap);
    CalmSweepClears(After(EMPTY, actions, cap), cap, i);
  }

  lemma RunFrom(s: State, actions: seq<Action>, k: nat, cap: Cap)
    requires k < |actions| && Enabled(s, actions[k]) && Run(Step(s, actions[k], cap), actions[k + 1..], cap)
    ensures Run(s, actions[k..], cap)
    ensures After(s, actions[k..], cap) == After(Step(s, actions[k], cap), actions[k + 1..], cap)
  {
    assert actions[k..][1..] == actions[k + 1..];
  }

  function LateWrite(key: Key): seq<Action> {
    var w := key.workspaceId;
    [Arrives(key), Looks(key), Proceeds(key), BackfillStarts(w), SweepDeletes(0, key), BackfillEnds(0),
     Stores(0), Settles(0), BackfillStarts(w)]
  }

  /** The state in which the query for `key` is running. */
  function Running(key: Key): State {
    EMPTY.(tracked := map[key.workspaceId := [key]], executing := [Execution(key, false)], pendingQueries := {key})
  }

  function Forgotten(key: Key): State {
    Running(key).(tracked := map[])
  }

  function Escaped(key: Key): State {
    EMPTY.(cached := {key})
  }

  lemma LateWriteEnds(key: Key, cap: Cap)
    ensures Run(Forgotten(key), LateWrite(key)[6..], cap)
    ensures After(Forgotten(key), LateWrite(key)[6..], cap) == Escaped(key)
  {
    var actions := LateWrite(key);
    var stored := Forgotten(key).(executing := [Execution(key, true)], cached := {key});
    assert actions[9..] == [];
    RunFrom(Escaped(key), actions, 8, cap);
    assert Step(stored, actions[7], cap) == Escaped(key);
    RunFrom(stored, actions, 7, cap);
    assert Step(Forgotten(key), actions[6], cap) == stored;
    RunFrom(Forgotten(key), actions, 6, cap);
  }

  lemma BackfillForgets(key: Key, cap: Cap)
    ensures Run(Running(key), LateWrite(key)[3..], cap)
    ensures After(Running(key), LateWrite(key)[3..], cap) == Escaped(key)
  {
    var actions, running := LateWrite(key), Running(key);
    var sweeping := running.(sweeps := [Sweep(key.workspaceId, {key})]);
    var swept := running.(sweeps := [Sweep(key.workspaceId, {})]);
    LateWriteEnds(key, cap);
    assert Step(swept, actions[5], cap) == Forgotten(key);
    RunFrom(swept, actions, 5, cap);
    assert {key} - {key} == {};
    assert Step(sweeping, actions[4], cap) == swept;
    RunFrom(sweeping, actions, 4, cap);
    assert (set k | k in [key]) == {key};
    assert Step(running, actions[3], cap) == sweeping;
    RunFrom(running, actions, 3, cap);
  }

  /** A backfill during a query: its late write is an orphan, and the next backfill does not see it. */
  lemma LateWriteEscapesBackfills(key: Key, cap: Cap)
    ensures Run(EMPTY, LateWrite(key), cap)
    ensures Orphan(After(EMPTY, LateWrite(key), cap), key) && After(EMPTY, LateWrite(key), cap).sweeps == []
  {
    var actions := LateWrite(key);
    var looking := EMPTY.(tracked := map[key.workspaceId := [key]], looking := multiset{key});
    var missed := looking.(looking := multiset{}, missed := multiset{key});
    BackfillForgets(key, cap);
    assert Step(missed, actions[2], cap) == Running(key);
    RunFrom(missed, actions, 2, cap);
    assert Step(looking, actions[1], cap) == missed;
    RunFrom(looking, actions, 1, cap);
    assert Tracked([], key, cap) == [key];
    assert Step(EMPTY, actions[0], cap) == looking;
    RunFrom(EMPTY, actions, 0, cap);
    assert actions[0..] == actions;
  }
}
