/** `MigrationsRunner`: at most one major migration per process start, restarted until none is left. */
module MigrationsRunner {
  import opened Events

  // The build's major version, and the migrations registered with it: one per version from 4 to 13.
  const APP_MAJOR_VERSION: nat := 12
  const FIRST_MIGRATION: nat := 4
  const LAST_MIGRATION: nat := 13

  predicate Registered(version: nat) {
    FIRST_MIGRATION <= version <= LAST_MIGRATION
  }

  predicate HasSystemMigration(version: nat) {
    version == 4 || version == 5 || version == 7 || version == 8 || version == 9 || version == 11 || version == 13
  }

  predicate HasWorkspaceMigration(version: nat) {
    version == 4 || version == 6 || version == 10 || version == 12
  }

  datatype Work = SystemWork(version: nat) | WorkspaceWork(version: nat, workspaceId: string)

  /** Everything the migration to `version` does, in order, on the listed workspaces. */
  function WorkOf(version: nat, workspaces: seq<string>): seq<Work> {
    (if HasSystemMigration(version) then [SystemWork(version)] else [])
    + if HasWorkspaceMigration(version)
      then seq(|workspaces|, i requires 0 <= i < |workspaces| => WorkspaceWork(version, workspaces[i])) else []
  }

  // What one process start meets: the first attempt at which ClickHouse answers, a lock held by another
  // instance, the workspaces listed, and how many pieces of work (the version write comes last) succeed.
  datatype Environment = Environment(readyAt: nat, lockHeld: bool, workspaces: seq<string>, succeeds: nat)

  datatype Attempt = Attempt(version: nat, workspaces: seq<string>, done: seq<Work>, recorded: bool)

  datatype Store = Store(version: Option<nat>, attempts: seq<Attempt>)

  datatype Outcome = Serves | Restarts | Throws

  function Prefix(work: seq<Work>, n: nat): seq<Work> {
    if n < |work| then work[..n] else work
  }

  function Start(s: Store, env: Environment, retries: nat): (Store, Outcome) {
    if env.readyAt >= retries then (s, Throws)
    else if env.lockHeld then (s, Restarts)
    else if s.version.None? then
      if env.succeeds > 0 then (s.(version := Some(APP_MAJOR_VERSION)), Serves) else (s, Throws)
    else
      var v := s.version.value;
      if v > APP_MAJOR_VERSION then (s, Throws)
      else if v == APP_MAJOR_VERSION then (s, Serves)
      else if !Registered(v + 1) then (s, Throws)
      else
        var work := WorkOf(v + 1, env.workspaces);
        var recorded := env.succeeds > |work|;
        (Store(if recorded then Some(v + 1) else s.version,
               s.attempts + [Attempt(v + 1, env.workspaces, Prefix(work, env.succeeds), recorded)]),
         if recorded then Restarts else Throws)
  }

  function After(s: Store, starts: seq<Environment>, retries: nat): Store
    decreases |starts|
  {
    if starts == [] then s else After(Start(s, starts[0], retries).0, starts[1..], retries)
  }

  function Recorded(attempts: seq<Attempt>): nat {
    if attempts == [] then 0
    else Recorded(attempts[..|attempts| - 1]) + if attempts[|attempts| - 1].recorded then 1 else 0
  }

  /** Each attempt is at the version right after those already recorded, and a recorded one did all its work. */
  ghost predicate InOrder(attempts: seq<Attempt>, from: nat) {
    attempts == [] ||
    var front, last := attempts[..|attempts| - 1], attempts[|attempts| - 1];
    && InOrder(front, from)
    && last.version == from + Recorded(front) + 1
    && last.done <= WorkOf(last.version, last.workspaces)
    && (last.recorded ==> last.done == WorkOf(last.version, last.workspaces))
  }

  ghost predicate Inv(s: Store, from: nat) {
    && FIRST_MIGRATION <= from <= APP_MAJOR_VERSION
    && s.version == Some(from + Recorded(s.attempts)) && s.version.value <= APP_MAJOR_VERSION
    && InOrder(s.attempts, from)
    && forall a <- s.attempts :: from < a.version <= APP_MAJOR_VERSION
  }

  lemma StartKeepsInv(s: Store, env: Environment, retries: nat, from: nat)
    requires Inv(s, from)
    ensures var t := Start(s, env, retries).0;
            && Inv(t, from)
            && s.version.value <= t.version.value <= s.version.value + 1
            && s.attempts <= t.attempts
  {
    var v := s.version.value;
    if env.readyAt < retries && !env.lockHeld && v < APP_MAJOR_VERSION {
      var work := WorkOf(v + 1, env.workspaces);
      var attempt := Attempt(v + 1, env.workspaces, Prefix(work, env.succeeds), env.succeeds > |work|);
      var t := Start(s, env, retries).0;
      assert t == Store(Some(if attempt.recorded then v + 1 else v), s.attempts + [attempt]);
      AttemptKeepsInv(s, attempt, from);
    } else {
      assert Start(s, env, retries).0 == s;
    }
  }

  lemma AttemptKeepsInv(s: Store, a: Attempt, from: nat)
    requires Inv(s, from) && s.version.value < APP_MAJOR_VERSION && a.version == s.version.value + 1
    requires a.done <= WorkOf(a.version, a.workspaces)
    requires a.recorded ==> a.done == WorkOf(a.version, a.workspaces)
    ensures Inv(Store(Some(if a.recorded then a.version else s.version.value), s.attempts + [a]), from)
  {
    OneMoreAttempt(s.attempts, a, from);
  }

  lemma OneMoreAttempt(attempts: seq<Attempt>, a: Attempt, from: nat)
    requires InOrder(attempts, from) && a.version == from + Recorded(attempts) + 1
    requires a.done <= WorkOf(a.version, a.workspaces)
    requires a.recorded ==> a.done == WorkOf(a.version, a.workspaces)
    ensures InOrder(attempts + [a], from)
    ensures Recorded(attempts + [a]) == Recorded(attempts) + if a.recorded then 1 else 0
  {
    assert (attempts + [a])[..|attempts|] == attempts;
  }

  lemma {:induction false} EveryHistoryKeepsInv(s: Store, starts: seq<Environment>, retries: nat, from: nat)
    requires Inv(s, from)
    ensures Inv(After(s, starts, retries), from)
    ensures s.version.value <= After(s, starts, retries).version.value <= s.version.value + |starts|
    decreases |starts|
  {
    if starts != [] {
      StartKeepsInv(s, starts[0], retries, from);
      EveryHistoryKeepsInv(Start(s, starts[0], retries).0, starts[1..], retries, from);
    }
  }

  lemma {:induction false} RecordedReaches(attempts: seq<Attempt>, from: nat, version: nat) returns (i: nat)
    requires InOrder(attempts, from) && from < version <= from + Recorded(attempts)
    ensures i < |attempts| && attempts[i].version == version && attempts[i].recorded
    ensures attempts[i].done == WorkOf(version, attempts[i].workspaces)
  {
    var last := |attempts| - 1;
    if version <= from + Recorded(attempts[..last]) {
      i := RecordedReaches(attempts[..last], from, version);
    } else {
      i := last;
    }
  }

  lemma {:induction false} NoneBeyondNext(attempts: seq<Attempt>, from: nat)
    requires InOrder(attempts, from)
    ensures forall a <- attempts :: from < a.version <= from + Recorded(attempts) + 1
  {
    if attempts != [] {
      NoneBeyondNext(attempts[..|attempts| - 1], from);
      assert attempts == attempts[..|attempts| - 1] + [attempts[|attempts| - 1]];
    }
  }

  /**
   After any process starts with failures anywhere, the stored version tells the truth: each migration
   up to it was carried out in full on the workspaces listed then, and none beyond the next was begun.
   */
  lemma StoredVersionIsTrue(from: nat, starts: seq<Environment>, retries: nat, version: nat)
    requires FIRST_MIGRATION <= from <= APP_MAJOR_VERSION
    ensures var s := After(Store(Some(from), []), starts, retries);
            && s.version.Some? && from <= s.version.value <= APP_MAJOR_VERSION
            && (from < version <= s.version.value ==>
                  exists i :: 0 <= i < |s.attempts| && s.attempts[i].version == version && s.attempts[i].recorded
                              && s.attempts[i].done == WorkOf(version, s.attempts[i].workspaces))
            && (forall a <- s.attempts :: from < a.version <= s.version.value + 1)
  {
    var s := After(Store(Some(from), []), starts, retries);
    EveryHistoryKeepsInv(Store(Some(from), []), starts, retries, from);
    if from < version <= s.version.value {
      var i := RecordedReaches(s.attempts, from, version);
    }
    NoneBeyondNext(s.attempts, from);
  }

  // ----- What a migration does -----

  const SYSTEM_VERSIONS: set<nat> := {4, 5, 7, 8, 9, 11, 13}
  const WORKSPACE_VERSIONS: set<nat> := {4, 6, 10, 12}

  /** How often a piece of work is carried out. */
  function Times(work: seq<Work>, w: Work): nat {
    multiset(work)[w]
  }

  function OnEach(version: nat, workspaces: seq<string>): seq<Work> {
    seq(|workspaces|, i requires 0 <= i < |workspaces| => WorkspaceWork(version, workspaces[i]))
  }

  lemma {:induction false} EachWorkspaceOnce(version: nat, workspaces: seq<string>, workspaceId: string)
    ensures Times(OnEach(version, workspaces), WorkspaceWork(version, workspaceId)) == multiset(workspaces)[workspaceId]
    ensures Times(OnEach(version, workspaces), SystemWork(version)) == 0
  {
    if workspaces != [] {
      var front, last := workspaces[..|workspaces| - 1], workspaces[|workspaces| - 1];
      EachWorkspaceOnce(version, front, workspaceId);
      assert workspaces == front + [last];
      assert OnEach(version, workspaces) == OnEach(version, front) + [WorkspaceWork(version, last)];
    }
  }

  lemma WorkSplits(version: nat, workspaces: seq<string>)
    ensures WorkOf(version, workspaces)
         == (if version in SYSTEM_VERSIONS then [SystemWork(version)] else [])
            + (if version in WORKSPACE_VERSIONS then OnEach(version, workspaces) else [])
  {
  }

  /** The system is migrated once and first; each workspace as often as it is listed. */
  lemma SystemThenWorkspaces(version: nat, workspaces: seq<string>, workspaceId: string)
    ensures var work := WorkOf(version, workspaces);
            && Times(work, SystemWork(version)) == (if version in SYSTEM_VERSIONS then 1 else 0)
            && (version in SYSTEM_VERSIONS ==> work[0] == SystemWork(version))
            && Times(work, WorkspaceWork(version, workspaceId))
               == if version in WORKSPACE_VERSIONS then multiset(workspaces)[workspaceId] else 0
  {
    WorkSplits(version, workspaces);
    EachWorkspaceOnce(version, workspaces, workspaceId);
  }

  /** Workspaces are migrated in the order of the list, and no work is for another version. */
  lemma WorkspacesInOrder(version: nat, workspaces: seq<string>)
    ensures var work := WorkOf(version, workspaces);
            && (forall w <- work :: w.version == version)
            && (version in WORKSPACE_VERSIONS ==>
                  |work| >= |workspaces| && work[|work| - |workspaces|..] == OnEach(version, workspaces))
  {
    WorkSplits(version, workspaces);
  }

  /** Every version that a history has recorded migrated the system, if it has to, and each listed workspace. */
  lemma RecordedVersionsAreMigrated(from: nat, starts: seq<Environment>, retries: nat, version: nat,
                                    workspaceId: string)
    returns (i: nat)
    requires FIRST_MIGRATION <= from <= APP_MAJOR_VERSION
    requires After(Store(Some(from), []), starts, retries).version.Some?
    requires from < version <= After(Store(Some(from), []), starts, retries).version.value
    ensures var attempts := After(Store(Some(from), []), starts, retries).attempts;
            && i < |attempts| && attempts[i].version == version && attempts[i].recorded
            && (version in SYSTEM_VERSIONS ==> SystemWork(version) in attempts[i].done)
            && (version in WORKSPACE_VERSIONS ==>
                  Times(attempts[i].done, WorkspaceWork(version, workspaceId))
                  == multiset(attempts[i].workspaces)[workspaceId])
  {
    EveryHistoryKeepsInv(Store(Some(from), []), starts, retries, from);
    var attempts := After(Store(Some(from), []), starts, retries).attempts;
    i := RecordedReaches(attempts, from, version);
    SystemThenWorkspaces(version, attempts[i].workspaces, workspaceId);
  }

  // ----- How a start ends -----

  /**
   A start serves only at the code version, asks for a restart only for a held lock or one version more,
   and throws without having moved the version.
   */
  lemma OutcomeTellsVersion(s: Store, env: Environment, retries: nat)
    ensures var (t, outcome) := Start(s, env, retries);
            && (outcome == Serves ==> t.version == Some(12) && t.attempts == s.attempts)
            && (outcome == Throws ==> t.version == s.version)
            && (outcome == Restarts ==>
                  (env.lockHeld && t == s)
                  || (s.version.Some? && t.version == Some(s.version.value + 1) && |t.attempts| == |s.attempts| + 1))
            && (env.lockHeld ==> t == s && outcome != Serves)
            && (env.readyAt >= retries ==> t == s && outcome == Throws)
  {
  }

  /** Along a history with the lock free, a process serves exactly when the version stored before it is the code's. */
  lemma ServesExactlyAtCode(from: nat, starts: seq<Environment>, env: Environment, retries: nat)
    requires FIRST_MIGRATION <= from <= APP_MAJOR_VERSION && env.readyAt < retries && !env.lockHeld
    ensures var s := After(Store(Some(from), []), starts, retries);
            && s.version.Some?
            && (Start(s, env, retries).1 == Serves <==> s.version.value == APP_MAJOR_VERSION)
            && (Start(s, env, retries).1 == Throws <==>
                  s.version.value < APP_MAJOR_VERSION
                  && env.succeeds <= |WorkOf(s.version.value + 1, env.workspaces)|)
  {
    EveryHistoryKeepsInv(Store(Some(from), []), starts, retries, from);
  }

  /** No failure in this start: ClickHouse answers in time, the lock is free, all work succeeds. */
  predicate Smooth(env: Environment, retries: nat) {
    env.readyAt < retries && !env.lockHeld && env.succeeds > |env.workspaces| + 1
  }

  /** Failure-free restarts reach the code version in as many starts as versions are missing, then serve. */
  lemma {:induction false} SmoothStartsReachCode(s: Store, starts: seq<Environment>, retries: nat)
    requires s.version.Some? && FIRST_MIGRATION <= s.version.value <= APP_MAJOR_VERSION
    requires forall env <- starts :: Smooth(env, retries)
    requires |starts| >= APP_MAJOR_VERSION - s.version.value
    ensures After(s, starts, retries).version == Some(APP_MAJOR_VERSION)
    ensures forall env | Smooth(env, retries) ::
              Start(After(s, starts, retries), env, retries) == (After(s, starts, retries), Serves)
    decreases |starts|
  {
    if starts != [] {
      var t := Start(s, starts[0], retries).0;
      assert Smooth(starts[0], retries);
      assert s.version.value < APP_MAJOR_VERSION ==> t.version == Some(s.version.value + 1);
      SmoothStartsReachCode(t, starts[1..], retries);
    }
  }

  /** Migration 13 is registered, but no history of this build ever begins it. */
  lemma V13NeverRuns(from: nat, starts: seq<Environment>, retries: nat)
    requires FIRST_MIGRATION <= from <= APP_MAJOR_VERSION
    ensures Registered(13)
    ensures forall a <- After(Store(Some(from), []), starts, retries).attempts :: a.version != 13
  {
    EveryHistoryKeepsInv(Store(Some(from), []), starts, retries, from);
  }

  class Runner {
    var version: Option<nat>
    ghost var attempts: seq<Attempt>
    const startupRetryAttempts: nat

    ghost function View(): Store
      reads this
    {
      Store(version, attempts)
    }

    constructor (version: Option<nat>, startupRetryAttempts: nat)
      ensures View() == Store(version, []) && this.startupRetryAttempts == startupRetryAttempts
    {
      this.version, attempts, this.startupRetryAttempts := version, [], startupRetryAttempts;
    }

    /** Attempts are numbered from 0; the last failing one rethrows. */
    method EnsureSystemDatabaseWithRetry(readyAt: nat) returns (ready: bool)
      ensures ready <==> readyAt < startupRetryAttempts
    {
      var attempt := 0;
      while attempt < startupRetryAttempts
        invariant attempt <= startupRetryAttempts && attempt <= readyAt
      {
        if attempt == readyAt {
          return true;
        }
        attempt := attempt + 1;
      }
      ready := false;
    }

    /** `budget` pieces of work succeed, the next one throws; `done` is the work carried out. */
    method ExecuteMigration(migration: nat, workspaces: seq<string>, budget: nat)
      returns (completed: bool, done: seq<Work>)
      ensures done == Prefix(WorkOf(migration, workspaces), budget)
      ensures completed <==> budget >= |WorkOf(migration, workspaces)|
    {
      done := [];
      if HasSystemMigration(migration) {
        if budget == 0 {
          return false, [];
        }
        done := [SystemWork(migration)];
      }
      ghost var system := done;
      if HasWorkspaceMigration(migration) {
        for i := 0 to |workspaces|
          invariant |done| == |system| + i <= budget
          invariant done == WorkOf(migration, workspaces)[..|system| + i]
        {
          if |done| == budget {
            return false, done;
          }
          done := done + [WorkspaceWork(migration, workspaces[i])];
        }
      }
      completed := true;
    }

    method Run(env: Environment) returns (outcome: Outcome)
      modifies this
      ensures (View(), outcome) == Start(old(View()), env, startupRetryAttempts)
    {
      var ready := EnsureSystemDatabaseWithRetry(env.readyAt);
      if !ready {
        return Throws;
      }
      if env.lockHeld {
        return Restarts;
      }
      if version.None? {
        if env.succeeds == 0 {
          return Throws;
        }
        version := Some(APP_MAJOR_VERSION);
        return Serves;
      }
      if version.value > APP_MAJOR_VERSION {
        return Throws;
      }
      if version.value == APP_MAJOR_VERSION {
        return Serves;
      }
      var nextVersion := version.value + 1;
      if !Registered(nextVersion) {
        return Throws;
      }
      var completed, done := ExecuteMigration(nextVersion, env.workspaces, env.succeeds);
      if completed && env.succeeds > |done| {
        version := Some(nextVersion);
        attempts := attempts + [Attempt(nextVersion, env.workspaces, done, true)];
        return Restarts;
      }
      attempts := attempts + [Attempt(nextVersion, env.workspaces, done, false)];
      outcome := Throws;
    }
  }
}
