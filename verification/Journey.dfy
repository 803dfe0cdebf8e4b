/** `collectJourney`: the bounded consumer of the export behind the prospect page. */
module Journey {
  import opened Events
  import opened Export

  const MAX_PAGES: nat := 50
  const EXPORT_MAX: nat := 1000

  datatype JourneyStep = JourneyStep(
    kind: string, at: int, path: string, sessionId: string, goalName: Option<string>, goalValue: Option<int>,
    channelGroup: string, duration: int, maxScroll: int, pageNumber: int, properties: map<string, string>)

  function ToJourneyStep(e: EventRow): JourneyStep {
    var isGoal := e.name == "goal";
    JourneyStep(e.name, e.createdAt, e.path, e.sessionId, if isGoal && e.goalName != "" then Some(e.goalName) else None,
                if isGoal then Some(e.goalValue) else None, e.channelGroup, e.duration, e.maxScroll, e.pageNumber,
                e.properties)
  }

  function ToJourney(rows: seq<EventRow>): seq<JourneyStep> {
    seq(|rows|, i requires 0 <= i < |rows| => ToJourneyStep(rows[i]))
  }

  /** The step shows the row: its columns one by one, and a goal's name and value only for a goal. */
  ghost predicate Shows(step: JourneyStep, row: EventRow) {
    && step.kind == row.name && step.at == row.createdAt && step.path == row.path
    && step.sessionId == row.sessionId && step.channelGroup == row.channelGroup
    && step.duration == row.duration && step.maxScroll == row.maxScroll && step.pageNumber == row.pageNumber
    && step.properties == row.properties
    && (step.goalValue.Some? <==> row.name == "goal")
    && (step.goalValue.Some? ==> step.goalValue.value == row.goalValue)
    && (step.goalName.Some? <==> row.name == "goal" && row.goalName != "")
    && (step.goalName.Some? ==> step.goalName.value == row.goalName)
  }

  ghost predicate AllShow(steps: seq<JourneyStep>, rows: seq<EventRow>) {
    |steps| <= |rows| && forall i | 0 <= i < |steps| :: Shows(steps[i], rows[i])
  }

  lemma JourneyShowsRows(rows: seq<EventRow>, steps: seq<JourneyStep>)
    requires steps <= ToJourney(rows)
    ensures AllShow(steps, rows)
  {
    assert forall i | 0 <= i < |steps| :: steps[i] == ToJourney(rows)[i] == ToJourneyStep(rows[i]);
  }

  function UserQuery(user: string, since: int, until: int): Query {
    Query(NoCursor, Some(since), until, Some(user), None)
  }

  /** The number of events that a journey of `total` events shows under `cap`. */
  function Shown(cap: int, total: nat): nat {
    var budget := if cap < 0 then 0 else if cap > MAX_PAGES * EXPORT_MAX then MAX_PAGES * EXPORT_MAX else cap;
    if total < budget then total else budget
  }

  /** At most 50 000 events are shown, fewer only if the cap or the journey is shorter. */
  lemma ShownExactly(cap: int, total: nat)
    ensures Shown(cap, total) <= 50000 && Shown(cap, total) <= total && (cap >= 0 ==> Shown(cap, total) <= cap)
    ensures Shown(cap, total) == total || Shown(cap, total) == 50000 || Shown(cap, total) == cap || cap < 0
    ensures cap < 0 ==> Shown(cap, total) == 0
  {
  }

  /** What the flag says when no read fails. */
  predicate Truncated(cap: int, total: nat) {
    cap <= 0 || (cap <= MAX_PAGES * EXPORT_MAX && total > cap)
  }

  /** `fails(p)`: the read of page `p` throws; what the pages before it held is kept. */
  method CollectJourney(table: seq<EventRow>, user: string, since: int, until: int, cap: int, fails: nat -> bool)
    returns (steps: seq<JourneyStep>, truncated: bool)
    requires Ordered(table)
    ensures steps <= ToJourney(Select(table, UserQuery(user, since, until)))
    ensures AllShow(steps, Select(table, UserQuery(user, since, until)))
    ensures (forall p: nat :: !fails(p)) ==>
              var total := |Select(table, UserQuery(user, since, until))|;
              |steps| == Shown(cap, total) && (truncated <==> Truncated(cap, total))
    ensures 1 <= cap <= 50000 && (forall p: nat :: !fails(p)) ==>
              var total := |Select(table, UserQuery(user, since, until))|;
              |steps| == (if total < cap then total else cap) && (truncated <==> |steps| < total)
    ensures var total := |Select(table, UserQuery(user, since, until))|;
            |steps| < Shown(cap, total) ==> !truncated && exists p: nat | fails(p) :: |steps| == p * 1000
  {
    ghost var all := Select(table, UserQuery(user, since, until));
    steps, truncated := [], false;
    var cursor: Option<Position> := None;
    var page := 0;
    while page < MAX_PAGES
      invariant page <= MAX_PAGES && !truncated
      invariant |steps| <= |all| && steps == ToJourney(all[..|steps|])
      invariant page > 0 ==> |steps| == EXPORT_MAX * page < cap && |steps| < |all|
      invariant page == 0 ==> steps == [] && cursor == None
      invariant page > 0 ==> cursor == Some(all[|steps| - 1].at)
    {
      var remaining := cap - |steps|;
      if remaining <= 0 {
        truncated := true;
        break;
      }
      var pageLimit := if remaining < EXPORT_MAX then remaining else EXPORT_MAX;
      if fails(page) {
        break;
      }
      var hasMore, nextCursor;
      steps, hasMore, nextCursor := ReadPage(table, user, since, until, cursor, pageLimit, steps, all);
      if !hasMore || nextCursor.None? {
        break;
      }
      cursor := nextCursor;
      if |steps| >= cap {
        truncated := true;
        break;
      }
      page := page + 1;
    }
    JourneyShowsRows(all, steps);
  }

  /** One page, read and projected. */
  method ReadPage(table: seq<EventRow>, user: string, since: int, until: int, cursor: Option<Position>, limit: nat,
                  steps: seq<JourneyStep>, ghost all: seq<EventRow>)
    returns (more: seq<JourneyStep>, hasMore: bool, nextCursor: Option<Position>)
    requires Ordered(table) && limit > 0 && all == Select(table, UserQuery(user, since, until))
    requires |steps| <= |all| && steps == ToJourney(all[..|steps|])
    requires if steps == [] then cursor == None else cursor == Some(all[|steps| - 1].at)
    ensures |more| == (if |all| - |steps| > limit then |steps| + limit else |all|)
    ensures more == ToJourney(all[..|more|]) && more <= ToJourney(all)
    ensures hasMore == (|more| < |all|) && nextCursor == if hasMore then Some(all[|more| - 1].at) else None
  {
    var resp := GetUserEvents(table, Request(user, since, until, cursor, limit));
    PageOfJourney(table, user, since, until, cursor, limit, |steps|, all);
    ToJourneyExtends(all, |steps|, |steps| + |resp.data|);
    more := AppendSteps(steps, resp.data);
    hasMore, nextCursor := resp.hasMore, resp.nextCursor;
  }

  method AppendSteps(steps: seq<JourneyStep>, data: seq<EventRow>) returns (more: seq<JourneyStep>)
    ensures more == steps + ToJourney(data)
  {
    more := steps;
    for i := 0 to |data|
      invariant more == steps + ToJourney(data[..i])
    {
      more := more + [ToJourneyStep(data[i])];
    }
    assert data[..|data|] == data;
  }

  /** The request for the page after the cursor, or for the first one. */
  function Request(user: string, since: int, until: int, cursor: Option<Position>, limit: nat): Query {
    Query(if cursor.Some? then From(cursor.value) else NoCursor,
          if cursor.Some? then None else Some(since), until, Some(user), Some(limit))
  }

  lemma RequestSelects(table: seq<EventRow>, user: string, since: int, until: int, cursor: Option<Position>,
                       limit: nat, n: nat)
    requires Ordered(table) && n <= |Select(table, UserQuery(user, since, until))|
    requires if n == 0 then cursor == None else cursor == Some(Select(table, UserQuery(user, since, until))[n - 1].at)
    ensures Select(table, Request(user, since, until, cursor, limit))
          == Select(table, UserQuery(user, since, until))[n..]
  {
    var q := UserQuery(user, since, until);
    if n > 0 {
      NextPageContinues(table, q, n);
      SelectIgnores(table, Request(user, since, until, cursor, limit), q.(cursor := From(cursor.value)));
    } else {
      SelectIgnores(table, Request(user, since, until, cursor, limit), q);
    }
  }

  /** The page requested after `n` collected events holds the next ones. */
  lemma PageOfJourney(table: seq<EventRow>, user: string, since: int, until: int, cursor: Option<Position>,
                      limit: nat, n: nat, all: seq<EventRow>)
    requires Ordered(table) && limit > 0 && all == Select(table, UserQuery(user, since, until)) && n <= |all|
    requires if n == 0 then cursor == None else cursor == Some(all[n - 1].at)
    ensures var resp := GetUserEvents(table, Request(user, since, until, cursor, limit));
            var m := if |all| - n > limit then n + limit else |all|;
            && resp.Page? && resp.data == all[n..m] && resp.hasMore == (m < |all|)
            && resp.nextCursor == if m < |all| then Some(all[m - 1].at) else None
  {
    RequestSelects(table, user, since, until, cursor, limit, n);
    PageSlices(GetUserEvents(table, Request(user, since, until, cursor, limit)), all, n, limit);
  }

  /** What the contract of a page says about the rows from the `n`-th on. */
  lemma PageSlices(r: Response, all: seq<EventRow>, n: nat, limit: nat)
    requires n <= |all| && limit > 0 && r.Page? && r.data <= all[n..] && |r.data| <= limit
    requires r.hasMore <==> |r.data| < |all| - n
    requires r.hasMore ==> |r.data| == limit
    requires r.nextCursor.Some? <==> r.hasMore && r.data != []
    requires r.nextCursor.Some? ==> r.nextCursor.value == r.data[|r.data| - 1].at
    ensures var m := if |all| - n > limit then n + limit else |all|;
            && r.data == all[n..m] && r.hasMore == (m < |all|)
            && r.nextCursor == if m < |all| then Some(all[m - 1].at) else None
  {
    assert r.data == all[n..][..|r.data|] == all[n..n + |r.data|];
  }

  lemma ToJourneyExtends(all: seq<EventRow>, n: nat, m: nat)
    requires n <= m <= |all|
    ensures ToJourney(all[..n]) + ToJourney(all[n..m]) == ToJourney(all[..m])
    ensures ToJourney(all[..m]) <= ToJourney(all)
  {
  }

  /** The page size, and `since` beside a cursor, do not change what is selected. */
  lemma {:induction false} SelectIgnores(table: seq<EventRow>, p: Query, q: Query)
    requires p.cursor == q.cursor && p.until == q.until && p.userId == q.userId
    requires p.since == q.since || p.cursor.From?
    ensures Select(table, p) == Select(table, q)
  {
    if table != [] {
      SelectIgnores(table[1..], p, q);
    }
  }
}
