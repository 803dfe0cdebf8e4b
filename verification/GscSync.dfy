/** `GscSyncService`: the paged pull with retries, and the sync that stores what it returns. */
module GscSync {
  import opened Events
  import opened GscRepository

  const PAGE_SIZE: nat := 5000
  const MAX_PAGES: nat := 10

  datatype RawRow = RawRow(keys: Option<seq<string>>, clicks: real, impressions: real, ctr: real, position: real)

  datatype Pulled = Rows(rows: seq<RawRow>) | Failed(status: int)

  // The HTTP status that answers attempt `a` for page `p`.
  type Script = (nat, nat) -> int

  predicate Ok(status: int) {
    200 <= status < 300
  }

  predicate Retryable(status: int) {
    status == 429 || status >= 500
  }

  // ----- The pull -----

  function Least(a: nat, b: nat): nat {
    if a < b then a else b
  }

  /** What the API returns for one page of a list that does not change. */
  function PageOf(remote: seq<RawRow>, page: nat, pageSize: nat): seq<RawRow> {
    remote[Least(page * pageSize, |remote|)..Least((page + 1) * pageSize, |remote|)]
  }

  /** Page `p` is asked for: all the pages before it were full. */
  predicate Needed(p: nat, total: nat, pageSize: nat, maxPages: nat) {
    p < maxPages && p * pageSize <= total
  }

  /** One of three attempts succeeds, and only retryable errors come before it. */
  predicate Served(status: Script, p: nat) {
    exists a: nat | a < 3 :: Ok(status(p, a)) && forall b: nat | b < a :: Retryable(status(p, b))
  }

  /** The page at which the pull gives up, and the status it reports: the first that is final. */
  predicate GivesUp(status: Script, p: nat, code: int) {
    exists a: nat | a < 3 ::
      && (forall b: nat | b < a :: Retryable(status(p, b)))
      && code == status(p, a) && !Ok(code) && (a == 2 || !Retryable(code))
  }

  ghost predicate AllServed(status: Script, total: nat, pageSize: nat, maxPages: nat) {
    forall p | Needed(p, total, pageSize, maxPages) :: Served(status, p)
  }

  method QuerySearchAnalytics(remote: seq<RawRow>, status: Script, pageSize: nat, maxPages: nat)
    returns (r: Pulled, requests: nat)
    ensures r.Rows? <==> AllServed(status, |remote|, pageSize, maxPages)
    ensures r.Rows? ==> r.rows == remote[..Least(|remote|, pageSize * maxPages)]
    ensures r.Failed? ==> exists p: nat | Needed(p, |remote|, pageSize, maxPages) ::
              GivesUp(status, p, r.status) && forall q: nat | q < p :: Served(status, q)
    ensures requests <= 3 * maxPages
  {
    var out: seq<RawRow> := [];
    requests := 0;
    var page := 0;
    while page < maxPages
      invariant page <= maxPages && requests <= 3 * page
      invariant page * pageSize <= |remote| && out == remote[..page * pageSize]
      invariant forall p: nat | p < page :: Served(status, p)
    {
      var attempt, succeeded, lastErr := 0, false, None;
      while attempt < 3
        invariant attempt <= 3 && !succeeded && requests <= 3 * page + attempt
        invariant forall b: nat | b < attempt :: Retryable(status(page, b))
        invariant lastErr == if attempt == 0 then None else Some(status(page, attempt - 1))
      {
        var code := status(page, attempt);
        requests := requests + 1;
        if Ok(code) {
          var rows := PageOf(remote, page, pageSize);
          PageExtends(remote, page, pageSize);
          out := out + rows;
          succeeded := true;
          if |rows| < pageSize {
            LastPage(status, |remote|, page, pageSize, maxPages);
            return Rows(out), requests;
          }
          break;
        }
        if Retryable(code) {
          lastErr := Some(code);
          attempt := attempt + 1;
          continue;
        }
        assert GivesUp(status, page, code);
        assert Needed(page, |remote|, pageSize, maxPages);
        return Failed(code), requests;
      }
      if !succeeded && lastErr.Some? {
        assert GivesUp(status, page, status(page, 2));
        assert Needed(page, |remote|, pageSize, maxPages);
        return Failed(lastErr.value), requests;
      }
      page := page + 1;
    }
    r := Rows(out);
    assert page * pageSize == pageSize * maxPages;
  }

  lemma PageExtends(remote: seq<RawRow>, page: nat, pageSize: nat)
    requires page * pageSize <= |remote|
    ensures (page + 1) * pageSize == page * pageSize + pageSize
    ensures remote[..page * pageSize] + PageOf(remote, page, pageSize)
          == remote[..Least((page + 1) * pageSize, |remote|)]
    ensures |PageOf(remote, page, pageSize)| < pageSize <==> |remote| < (page + 1) * pageSize
  {
  }

  /** After a page that is not full no page is needed, and nothing is left of the list. */
  lemma LastPage(status: Script, total: nat, page: nat, pageSize: nat, maxPages: nat)
    requires page < maxPages && total < (page + 1) * pageSize
    requires forall p: nat | p <= page :: Served(status, p)
    ensures AllServed(status, total, pageSize, maxPages) && total <= pageSize * maxPages
  {
    forall p: nat | Needed(p, total, pageSize, maxPages) ensures Served(status, p) {
      if p > page {
        TimesGrows(page + 1, p, pageSize);
      }
    }
    TimesGrows(page + 1, maxPages, pageSize);
  }

  lemma TimesGrows(m: nat, n: nat, k: nat)
    requires m <= n
    ensures m * k <= n * k
  {
  }

  /** A page is served unless it makes the pull give up. */
  lemma GivesUpExactly(status: Script, p: nat)
    ensures Served(status, p) <==> !exists code :: GivesUp(status, p, code)
  {
    if !Served(status, p) {
      var a := if !Retryable(status(p, 0)) then 0 else if !Retryable(status(p, 1)) then 1 else 2;
      assert forall b: nat | b < a :: Retryable(status(p, b));
      assert GivesUp(status, p, status(p, a));
    }
  }

  /** A script that answers every page with `first`, `second` and `third`. */
  function Answers(first: int, second: int, third: int): Script {
    (page: nat, attempt: nat) => if attempt == 0 then first else if attempt == 1 then second else third
  }

  /** Throttling and server errors are retried twice, other errors end the pull at once. */
  lemma WhatIsRetried(p: nat)
    ensures Served(Answers(429, 503, 200), p) && Served(Answers(500, 204, 404), p)
    ensures GivesUp(Answers(404, 200, 200), p, 404) && !Served(Answers(404, 200, 200), p)
    ensures GivesUp(Answers(429, 499, 200), p, 499) && !Served(Answers(429, 499, 200), p)
    ensures GivesUp(Answers(500, 429, 502), p, 502) && !Served(Answers(500, 429, 502), p)
  {
    var one, two, three := Answers(404, 200, 200), Answers(429, 499, 200), Answers(500, 429, 502);
    assert Ok(Answers(429, 503, 200)(p, 2)) && Ok(Answers(500, 204, 404)(p, 1));
    assert one(p, 0) == 404 && two(p, 1) == 499 && three(p, 2) == 502;
    assert !Retryable(one(p, 0)) && !Retryable(two(p, 1));
    GivesUpExactly(one, p);
    GivesUpExactly(two, p);
    GivesUpExactly(three, p);
  }

  // ----- Rows -----

  function Round(x: real): int {
    (x + 0.5).Floor
  }

  function KeyAt(raw: RawRow, i: nat): string {
    if raw.keys.Some? && i < |raw.keys.value| then raw.keys.value[i] else ""
  }

  /** Rows without a date, a query or a page are dropped. */
  function ParseRow(raw: RawRow, propertyId: string, workspaceId: string, searchType: string): (r: Option<DailyRow>)
    ensures r.Some? <==> raw.keys.Some? && |raw.keys.value| >= 3 && forall i | 0 <= i < 3 :: raw.keys.value[i] != ""
    ensures r.Some? ==>
              && raw.keys.value[..3] == [r.value.date, r.value.query, r.value.page]
              && r.value.country == KeyAt(raw, 3) && r.value.device == KeyAt(raw, 4)
              && r.value.propertyId == propertyId && r.value.workspaceId == workspaceId
              && r.value.searchType == searchType
              && r.value.position == raw.position && r.value.ctr == raw.ctr
              && -0.5 < r.value.clicks as real - raw.clicks <= 0.5
              && -0.5 < r.value.impressions as real - raw.impressions <= 0.5
  {
    var date, query, page := KeyAt(raw, 0), KeyAt(raw, 1), KeyAt(raw, 2);
    if date == "" || query == "" || page == "" then None
    else Some(DailyRow(propertyId, workspaceId, date, query, page, KeyAt(raw, 3), KeyAt(raw, 4), searchType,
                       Round(raw.impressions), Round(raw.clicks), raw.position, raw.ctr))
  }

  function ParseAll(raws: seq<RawRow>, propertyId: string, workspaceId: string, searchType: string): seq<DailyRow> {
    if raws == [] then []
    else
      var front, last := ParseAll(raws[..|raws| - 1], propertyId, workspaceId, searchType),
                         ParseRow(raws[|raws| - 1], propertyId, workspaceId, searchType);
      if last.Some? then front + [last.value] else front
  }

  /** `rows` are what the raw rows at the given places are stored as. */
  ghost predicate StoredAs(raws: seq<RawRow>, places: seq<nat>, rows: seq<DailyRow>, propertyId: string,
                           workspaceId: string, searchType: string) {
    && |rows| == |places|
    && forall i | 0 <= i < |rows| ::
         places[i] < |raws| && ParseRow(raws[places[i]], propertyId, workspaceId, searchType) == Some(rows[i])
  }

  lemma {:induction false} StoredInLonger(raws: seq<RawRow>, places: seq<nat>, rows: seq<DailyRow>, propertyId: string,
                                          workspaceId: string, searchType: string)
    requires raws != [] && StoredAs(raws[..|raws| - 1], places, rows, propertyId, workspaceId, searchType)
    ensures StoredAs(raws, places, rows, propertyId, workspaceId, searchType)
  {
    assert forall i | 0 <= i < |rows| :: raws[..|raws| - 1][places[i]] == raws[places[i]];
  }

  lemma {:induction false} OneMoreStored(raws: seq<RawRow>, places: seq<nat>, rows: seq<DailyRow>, place: nat,
                                         row: DailyRow, propertyId: string, workspaceId: string, searchType: string)
    requires StoredAs(raws, places, rows, propertyId, workspaceId, searchType)
    requires place < |raws| && ParseRow(raws[place], propertyId, workspaceId, searchType) == Some(row)
    ensures StoredAs(raws, places + [place], rows + [row], propertyId, workspaceId, searchType)
  {
  }

  /** The stored rows are those of the complete raw rows, each as often as it was sent, in order. */
  lemma {:induction false} ParsedInOrder(raws: seq<RawRow>, propertyId: string, workspaceId: string, searchType: string)
    ensures StoredAs(raws, Complete(raws), ParseAll(raws, propertyId, workspaceId, searchType),
                     propertyId, workspaceId, searchType)
  {
    if raws != [] {
      var front, n := raws[..|raws| - 1], |raws| - 1;
      var places, rows := Complete(front), ParseAll(front, propertyId, workspaceId, searchType);
      ParsedInOrder(front, propertyId, workspaceId, searchType);
      StoredInLonger(raws, places, rows, propertyId, workspaceId, searchType);
      var row := ParseRow(raws[n], propertyId, workspaceId, searchType);
      if row.Some? {
        OneMoreStored(raws, places, rows, n, row.value, propertyId, workspaceId, searchType);
      }
    }
  }

  /** The positions of the rows that have a date, a query and a page. */
  function Complete(raws: seq<RawRow>): (r: seq<nat>)
    ensures forall i | 0 <= i < |r| :: r[i] < |raws|
  {
    if raws == [] then []
    else
      var n := |raws| - 1;
      var front := Complete(raws[..n]);
      if KeyAt(raws[n], 0) != "" && KeyAt(raws[n], 1) != "" && KeyAt(raws[n], 2) != "" then front + [n] else front
  }

  lemma {:induction false} CompleteIsComplete(raws: seq<RawRow>)
    ensures forall i, j | 0 <= i < j < |Complete(raws)| :: Complete(raws)[i] < Complete(raws)[j]
    ensures forall i | 0 <= i < |raws| ::
              i in Complete(raws) <==> KeyAt(raws[i], 0) != "" && KeyAt(raws[i], 1) != "" && KeyAt(raws[i], 2) != ""
  {
    if raws != [] {
      var n := |raws| - 1;
      CompleteIsComplete(raws[..n]);
      assert n !in Complete(raws[..n]);
      assert forall i | 0 <= i < n :: raws[..n][i] == raws[i];
    }
  }

  // ----- The sync -----

  // How the remote side and the database behave while one search type is synced.
  datatype Pull = Pull(searchType: string, remote: seq<RawRow>, status: Script, deletes: bool, inserts: nat -> bool)

  datatype Property = Property(id: string, workspaceId: string, siteUrl: string, verified: bool)

  // How one search type ended: whether its window was replaced, and by which rows.
  datatype Outcome = Outcome(failed: bool, touched: bool, rows: seq<DailyRow>)

  ghost function Expected(p: Property, pull: Pull): seq<DailyRow> {
    ParseAll(pull.remote[..Least(|pull.remote|, PAGE_SIZE * MAX_PAGES)], p.id, p.workspaceId, pull.searchType)
  }

  function WindowFor(p: Property, pull: Pull, start: string, end: string): Window {
    Window(p.id, pull.searchType, start, end)
  }

  function WindowsFor(p: Property, pulls: seq<Pull>, start: string, end: string): seq<Window> {
    seq(|pulls|, i requires 0 <= i < |pulls| => WindowFor(p, pulls[i], start, end))
  }

  function ChangesOf(windows: seq<Window>, outcomes: seq<Outcome>): seq<Change>
    requires |windows| == |outcomes|
  {
    seq(|windows|, i requires 0 <= i < |windows| && |windows| == |outcomes| =>
      Change(windows[i], outcomes[i].rows, outcomes[i].touched))
  }

  /** The table after one sync. */
  function Synced(table: seq<DailyRow>, windows: seq<Window>, outcomes: seq<Outcome>): seq<DailyRow>
    requires |windows| == |outcomes|
  {
    Replay(table, ChangesOf(windows, outcomes))
  }

  ghost predicate Smooth(pull: Pull) {
    AllServed(pull.status, |pull.remote|, PAGE_SIZE, MAX_PAGES) && pull.deletes && forall k :: pull.inserts(k)
  }

  /** A success stores every row; a failure stores the first chunks, or leaves the window as it was. */
  ghost predicate OutcomeOf(p: Property, pull: Pull, o: Outcome) {
    && (Smooth(pull) ==> !o.failed)
    && o.rows <= Expected(p, pull)
    && (!o.failed ==> o.touched && o.rows == Expected(p, pull))
    && (o.failed && o.touched ==> |o.rows| % BATCH == 0 && o.rows != Expected(p, pull))
  }

  ghost predicate OutcomesOf(p: Property, pulls: seq<Pull>, outcomes: seq<Outcome>) {
    |outcomes| == |pulls| && forall i | 0 <= i < |pulls| :: OutcomeOf(p, pulls[i], outcomes[i])
  }

  function Upserted(outcomes: seq<Outcome>): nat {
    if outcomes == [] then 0
    else
      var last := outcomes[|outcomes| - 1];
      Upserted(outcomes[..|outcomes| - 1]) + if last.failed then 0 else |last.rows|
  }

  function Errors(pulls: seq<Pull>, outcomes: seq<Outcome>): seq<string>
    requires |pulls| == |outcomes|
  {
    if pulls == [] then []
    else
      var n := |pulls| - 1;
      Errors(pulls[..n], outcomes[..n]) + if outcomes[n].failed then [pulls[n].searchType] else []
  }

  lemma OneMoreType(p: Property, pulls: seq<Pull>, pull: Pull, start: string, end: string, outcomes: seq<Outcome>,
                    o: Outcome, table: seq<DailyRow>)
    requires OutcomesOf(p, pulls, outcomes) && OutcomeOf(p, pull, o)
    ensures OutcomesOf(p, pulls + [pull], outcomes + [o])
    ensures var before := Synced(table, WindowsFor(p, pulls, start, end), outcomes);
            Synced(table, WindowsFor(p, pulls + [pull], start, end), outcomes + [o])
            == if o.touched then Replaced(before, WindowFor(p, pull, start, end), o.rows) else before
    ensures Upserted(outcomes + [o]) == Upserted(outcomes) + if o.failed then 0 else |o.rows|
    ensures Errors(pulls + [pull], outcomes + [o])
         == Errors(pulls, outcomes) + if o.failed then [pull.searchType] else []
  {
    var n := |pulls|;
    assert (outcomes + [o])[..n] == outcomes && (pulls + [pull])[..n] == pulls;
    assert ChangesOf(WindowsFor(p, pulls + [pull], start, end), outcomes + [o])[..n]
        == ChangesOf(WindowsFor(p, pulls, start, end), outcomes);
  }

  /** The errors are the search types that failed. */
  lemma {:induction false} ErrorsAreTheFailures(pulls: seq<Pull>, outcomes: seq<Outcome>)
    requires |pulls| == |outcomes|
    ensures forall t :: t in Errors(pulls, outcomes) <==>
              exists i :: 0 <= i < |pulls| && outcomes[i].failed && pulls[i].searchType == t
    ensures |Errors(pulls, outcomes)| <= |pulls|
    ensures Errors(pulls, outcomes) == [] ==> forall o <- outcomes :: !o.failed
  {
    if pulls != [] {
      var n := |pulls| - 1;
      ErrorsAreTheFailures(pulls[..n], outcomes[..n]);
      assert outcomes == outcomes[..n] + [outcomes[n]];
      forall t | t in Errors(pulls[..n], outcomes[..n])
        ensures exists i :: 0 <= i < |pulls| && outcomes[i].failed && pulls[i].searchType == t
      {
        var i :| 0 <= i < n && outcomes[..n][i].failed && pulls[..n][i].searchType == t;
        assert outcomes[i].failed && pulls[i].searchType == t;
      }
      forall i | 0 <= i < n && outcomes[i].failed ensures pulls[i].searchType in Errors(pulls[..n], outcomes[..n]) {
        assert outcomes[..n][i].failed && pulls[..n][i].searchType == pulls[i].searchType;
      }
    }
  }

  /** Rows are counted for the search types that succeeded only. */
  lemma {:induction false} UpsertedCountsSuccesses(outcomes: seq<Outcome>)
    ensures (forall o <- outcomes :: o.failed) ==> Upserted(outcomes) == 0
    ensures forall o <- outcomes | !o.failed :: |o.rows| <= Upserted(outcomes)
    ensures Upserted(outcomes) > 0 ==> exists o <- outcomes :: !o.failed && o.rows != []
  {
    if outcomes != [] {
      var n := |outcomes| - 1;
      UpsertedCountsSuccesses(outcomes[..n]);
      assert outcomes == outcomes[..n] + [outcomes[n]];
    }
  }

  lemma OutcomeIsOwn(p: Property, pull: Pull, o: Outcome, w: Window)
    requires OutcomeOf(p, pull, o) && w.propertyId == p.id && w.searchType == pull.searchType
    ensures OwnRows(w, o.rows)
  {
    ParsedOwn(pull.remote[..Least(|pull.remote|, PAGE_SIZE * MAX_PAGES)], p.id, p.workspaceId, pull.searchType);
  }

  /** Every read of another site, or of a search type that is not pulled, is as before. */
  ghost predicate OthersKept(before: seq<DailyRow>, after: seq<DailyRow>, p: Property, pulls: seq<Pull>) {
    forall k: DailyKey | k.propertyId != p.id || (forall pull <- pulls :: pull.searchType != k.searchType) ::
      Final(after, k) == Final(before, k)
  }

  lemma OneMoreKept(before: seq<DailyRow>, after: seq<DailyRow>, next: seq<DailyRow>, p: Property,
                    pulls: seq<Pull>, pull: Pull)
    requires OthersKept(before, after, p, pulls)
    requires forall k: DailyKey | k.propertyId != p.id || k.searchType != pull.searchType ::
               Final(next, k) == Final(after, k)
    ensures OthersKept(before, next, p, pulls + [pull])
  {
    forall k: DailyKey | k.propertyId != p.id || (forall q <- pulls + [pull] :: q.searchType != k.searchType)
      ensures Final(next, k) == Final(before, k)
    {
      assert pull in pulls + [pull];
      assert forall q <- pulls :: q in pulls + [pull];
    }
  }

  /** One more search type, pulled and replaced however it ended, changes no read of another site or type. */
  lemma OtherReadsAreKept(p: Property, pull: Pull, o: Outcome, start: string, end: string, table: seq<DailyRow>)
    requires OutcomeOf(p, pull, o)
    ensures forall k: DailyKey | k.propertyId != p.id || k.searchType != pull.searchType ::
              Final(Replaced(table, WindowFor(p, pull, start, end), o.rows), k) == Final(table, k)
  {
    forall k: DailyKey | k.propertyId != p.id || k.searchType != pull.searchType
      ensures Final(Replaced(table, WindowFor(p, pull, start, end), o.rows), k) == Final(table, k)
    {
      OutcomeIsOwn(p, pull, o, WindowFor(p, pull, start, end));
      ReplacementByColumns(table, WindowFor(p, pull, start, end), o.rows, k);
    }
  }

  /** However it ended, a sync changes no read of another site, or of a search type that it does not pull. */
  lemma {:induction false} SyncKeepsOthers(table: seq<DailyRow>, p: Property, pulls: seq<Pull>, start: string,
                                           end: string, outcomes: seq<Outcome>)
    requires OutcomesOf(p, pulls, outcomes)
    ensures OthersKept(table, Synced(table, WindowsFor(p, pulls, start, end), outcomes), p, pulls)
  {
    if pulls != [] {
      var n := |pulls| - 1;
      var front, o := outcomes[..n], outcomes[n];
      var before := Synced(table, WindowsFor(p, pulls[..n], start, end), front);
      assert pulls == pulls[..n] + [pulls[n]] && outcomes == front + [o];
      SyncKeepsOthers(table, p, pulls[..n], start, end, front);
      OneMoreType(p, pulls[..n], pulls[n], start, end, front, o, table);
      OtherReadsAreKept(p, pulls[n], o, start, end, before);
      OneMoreKept(table, before, Synced(table, WindowsFor(p, pulls, start, end), outcomes), p, pulls[..n], pulls[n]);
    }
  }

  class GscSyncService {
    const repo: GscRepository

    constructor (repo: GscRepository)
      ensures this.repo == repo
    {
      this.repo := repo;
    }

    method SyncType(p: Property, pull: Pull, start: string, end: string)
      returns (upserted: nat, failed: bool, ghost outcome: Outcome)
      modifies repo
      ensures OutcomeOf(p, pull, outcome) && failed == outcome.failed
      ensures repo.daily
           == if outcome.touched then Replaced(old(repo.daily), WindowFor(p, pull, start, end), outcome.rows)
              else old(repo.daily)
      ensures upserted == if failed then 0 else |outcome.rows|
      ensures forall k: DailyKey | k.propertyId != p.id || k.searchType != pull.searchType ::
                Final(repo.daily, k) == Final(old(repo.daily), k)
    {
      var rawRows, _ := QuerySearchAnalytics(pull.remote, pull.status, PAGE_SIZE, MAX_PAGES);
      if rawRows.Failed? {
        return 0, true, Outcome(true, false, []);
      }
      var parsed := ParseAll(rawRows.rows, p.id, p.workspaceId, pull.searchType);
      var n, threw := repo.ReplaceDailyWindow(WindowFor(p, pull, start, end), parsed, pull.deletes, pull.inserts);
      upserted, failed := if threw then 0 else n, threw;
      outcome := Outcome(threw, pull.deletes, parsed[..n]);
      OtherReadsAreKept(p, pull, outcome, start, end, old(repo.daily));
    }

    method SyncProperty(p: Property, pulls: seq<Pull>, start: string, end: string)
      returns (upserted: nat, errors: seq<string>, ghost outcomes: seq<Outcome>)
      modifies repo
      ensures !(p.siteUrl != "" && p.verified) ==>
              repo.daily == old(repo.daily) && errors == ["property_not_verified"] && upserted == 0
      ensures p.siteUrl != "" && p.verified ==>
                && OutcomesOf(p, pulls, outcomes)
                && repo.daily == Synced(old(repo.daily), WindowsFor(p, pulls, start, end), outcomes)
                && upserted == Upserted(outcomes) && errors == Errors(pulls, outcomes)
      ensures OthersKept(old(repo.daily), repo.daily, p, pulls)
    {
      upserted, errors, outcomes := 0, [], [];
      if p.siteUrl == "" || !p.verified {
        errors := ["property_not_verified"];
        return;
      }
      for i := 0 to |pulls|
        invariant OutcomesOf(p, pulls[..i], outcomes)
        invariant repo.daily == Synced(old(repo.daily), WindowsFor(p, pulls[..i], start, end), outcomes)
        invariant upserted == Upserted(outcomes) && errors == Errors(pulls[..i], outcomes)
      {
        ghost var before := outcomes;
        var n, failed;
        ghost var outcome;
        n, failed, outcome := SyncType(p, pulls[i], start, end);
        upserted := upserted + n;
        if failed {
          errors := errors + [pulls[i].searchType];
        }
        outcomes := outcomes + [outcome];
        assert pulls[..i + 1] == pulls[..i] + [pulls[i]];
        OneMoreType(p, pulls[..i], pulls[i], start, end, before, outcome, old(repo.daily));
      }
      assert pulls[..|pulls|] == pulls;
      SyncKeepsOthers(old(repo.daily), p, pulls, start, end, outcomes);
    }
  }

  /** After a sync without failures the days asked for read as the API sent them, one search type at a time. */
  lemma SmoothSyncReads(table: seq<DailyRow>, p: Property, start: string, end: string, pulls: seq<Pull>,
                        outcomes: seq<Outcome>, i: nat, k: DailyKey)
    requires OutcomesOf(p, pulls, outcomes) && AllSmooth(pulls) && SeparateTypes(pulls) && i < |pulls|
    requires k.propertyId == p.id && k.searchType == pulls[i].searchType
    requires NotAfter(start, k.date) && NotAfter(k.date, end)
    ensures Final(Synced(table, WindowsFor(p, pulls, start, end), outcomes), k) == Final(Expected(p, pulls[i]), k)
    ensures |pulls[i].remote| <= 50000 ==>
              Expected(p, pulls[i]) == ParseAll(pulls[i].remote, p.id, p.workspaceId, pulls[i].searchType)
  {
    assert pulls[i].remote[..|pulls[i].remote|] == pulls[i].remote;
    OutcomesAreOneSync(p, pulls, outcomes, start, end);
    SmoothTouches(p, pulls, outcomes);
    SyncReads(table, ChangesOf(WindowsFor(p, pulls, start, end), outcomes), i, k);
  }

  // ----- What a sync stores -----

  ghost predicate Separate(windows: seq<Window>) {
    forall i, j | 0 <= i < j < |windows| :: windows[i].searchType != windows[j].searchType
  }

  /** No row was stored in a window it does not belong to: the remote side sent only days of the range. */
  ghost predicate InRange(windows: seq<Window>, outcomes: seq<Outcome>) {
    |windows| == |outcomes| && forall i | 0 <= i < |windows| :: AllInWindow(windows[i], outcomes[i].rows)
  }

  function Untouched(table: seq<DailyRow>, windows: seq<Window>): seq<DailyRow> {
    if windows == [] then table else Outside(Untouched(table, windows[..|windows| - 1]), windows[|windows| - 1])
  }

  lemma {:induction false} OutsideCommutes(table: seq<DailyRow>, v: Window, w: Window)
    ensures Outside(Outside(table, v), w) == Outside(Outside(table, w), v)
  {
    if table != [] {
      OutsideCommutes(table[1..], v, w);
    }
  }

  /** Emptying a window first changes nothing if it is emptied again anyway. */
  lemma {:induction false} UntouchedAbsorbs(table: seq<DailyRow>, windows: seq<Window>, k: nat, rows: seq<DailyRow>)
    requires k < |windows| && AllInWindow(windows[k], rows)
    ensures Untouched(Replaced(table, windows[k], rows), windows) == Untouched(table, windows)
  {
    var n, w := |windows| - 1, windows[k];
    if k == n {
      UntouchedOutside(table, windows[..n], w, rows);
    } else {
      UntouchedAbsorbs(table, windows[..n], k, rows);
    }
  }

  lemma {:induction false} UntouchedOutside(table: seq<DailyRow>, windows: seq<Window>, w: Window, rows: seq<DailyRow>)
    requires AllInWindow(w, rows)
    ensures Outside(Untouched(Replaced(table, w, rows), windows), w) == Outside(Untouched(table, windows), w)
  {
    if windows == [] {
      ReplacedWindow(table, w, rows);
    } else {
      var n := |windows| - 1;
      UntouchedOutside(table, windows[..n], w, rows);
      OutsideCommutes(Untouched(Replaced(table, w, rows), windows[..n]), windows[n], w);
      OutsideCommutes(Untouched(table, windows[..n]), windows[n], w);
    }
  }

  lemma {:induction false} SyncKeepsTheRest(table: seq<DailyRow>, windows: seq<Window>, outcomes: seq<Outcome>, k: nat)
    requires InRange(windows, outcomes) && k <= |windows|
    ensures Untouched(Replay(table, ChangesOf(windows, outcomes)[..k]), windows) == Untouched(table, windows)
  {
    var changes := ChangesOf(windows, outcomes);
    if k > 0 {
      SyncKeepsTheRest(table, windows, outcomes, k - 1);
      assert changes[..k][..k - 1] == changes[..k - 1];
      if outcomes[k - 1].touched {
        UntouchedAbsorbs(Replay(table, changes[..k - 1]), windows, k - 1, outcomes[k - 1].rows);
      }
    }
  }

  /** After a sync without failures each window holds its rows, and what lies in no window is unchanged. */
  lemma SyncedWindows(table: seq<DailyRow>, windows: seq<Window>, outcomes: seq<Outcome>, k: nat)
    requires InRange(windows, outcomes) && Separate(windows) && k < |windows|
    requires forall o <- outcomes :: o.touched
    ensures Inside(Synced(table, windows, outcomes), windows[k]) == outcomes[k].rows
    ensures Untouched(Synced(table, windows, outcomes), windows) == Untouched(table, windows)
  {
    SyncKeepsTheRest(table, windows, outcomes, |windows|);
    assert ChangesOf(windows, outcomes)[..|windows|] == ChangesOf(windows, outcomes);
    HoldsItsRows(table, windows, outcomes, k);
  }

  lemma {:induction false} HoldsItsRows(table: seq<DailyRow>, windows: seq<Window>, outcomes: seq<Outcome>, k: nat)
    requires InRange(windows, outcomes) && Separate(windows) && k < |windows|
    requires forall o <- outcomes :: o.touched
    ensures Inside(Synced(table, windows, outcomes), windows[k]) == outcomes[k].rows
  {
    var n := |windows| - 1;
    var before := Synced(table, windows[..n], outcomes[..n]);
    assert ChangesOf(windows, outcomes)[..n] == ChangesOf(windows[..n], outcomes[..n]);
    if k == n {
      ReplacedWindow(before, windows[n], outcomes[n].rows);
    } else {
      HoldsItsRows(table, windows[..n], outcomes[..n], k);
      InsideOfOther(before, windows[k], windows[n], outcomes[n].rows);
    }
  }

  lemma {:induction false} InsideOfOutside(table: seq<DailyRow>, v: Window, w: Window)
    requires v.searchType != w.searchType
    ensures Inside(Outside(table, w), v) == Inside(table, v)
  {
    if table != [] {
      InsideOfOutside(table[1..], v, w);
    }
  }

  lemma {:induction false} InsideOfOthers(rows: seq<DailyRow>, v: Window)
    requires forall row <- rows :: !InWindow(v, row)
    ensures Inside(rows, v) == []
  {
    if rows != [] {
      InsideOfOthers(rows[1..], v);
    }
  }

  lemma InsideOfOther(table: seq<DailyRow>, v: Window, w: Window, rows: seq<DailyRow>)
    requires v.searchType != w.searchType && AllInWindow(w, rows)
    ensures Inside(Replaced(table, w, rows), v) == Inside(table, v)
  {
    InsideConcat(Outside(table, w), rows, v);
    InsideOfOutside(table, v, w);
    InsideOfOthers(rows, v);
  }

  // ----- In terms of what the API sends -----

  /** Every complete row is of a day that was asked for. */
  ghost predicate DaysInRange(raws: seq<RawRow>, start: string, end: string) {
    forall raw <- raws | KeyAt(raw, 0) != "" && KeyAt(raw, 1) != "" && KeyAt(raw, 2) != "" ::
      NotAfter(start, KeyAt(raw, 0)) && NotAfter(KeyAt(raw, 0), end)
  }

  lemma {:induction false} ParsedInWindowExactly(raws: seq<RawRow>, w: Window, workspaceId: string)
    ensures AllInWindow(w, ParseAll(raws, w.propertyId, workspaceId, w.searchType))
          <==> DaysInRange(raws, w.start, w.end)
  {
    if raws != [] {
      var front, raw := raws[..|raws| - 1], raws[|raws| - 1];
      ParsedInWindowExactly(front, w, workspaceId);
      assert raws == front + [raw];
      var row := ParseRow(raw, w.propertyId, workspaceId, w.searchType);
      if row.Some? {
        assert row.value in ParseAll(raws, w.propertyId, workspaceId, w.searchType);
      }
    }
  }

  lemma OutcomesInRange(p: Property, pulls: seq<Pull>, outcomes: seq<Outcome>, start: string, end: string)
    requires OutcomesOf(p, pulls, outcomes)
    requires AllDaysInRange(pulls, start, end)
    ensures InRange(WindowsFor(p, pulls, start, end), outcomes)
  {
    forall i | 0 <= i < |pulls| ensures AllInWindow(WindowFor(p, pulls[i], start, end), outcomes[i].rows) {
      var pull, w := pulls[i], WindowFor(p, pulls[i], start, end);
      assert DaysInRange(pull.remote, start, end) && OutcomeOf(p, pull, outcomes[i]);
      var shown := pull.remote[..Least(|pull.remote|, PAGE_SIZE * MAX_PAGES)];
      assert forall raw <- shown :: raw in pull.remote;
      ParsedInWindowExactly(shown, w, p.workspaceId);
    }
  }

  ghost predicate AllDaysInRange(pulls: seq<Pull>, start: string, end: string) {
    forall pull <- pulls :: DaysInRange(pull.remote, start, end)
  }

  ghost predicate SeparateTypes(pulls: seq<Pull>) {
    forall i, j | 0 <= i < j < |pulls| :: pulls[i].searchType != pulls[j].searchType
  }

  ghost predicate AllSmooth(pulls: seq<Pull>) {
    forall pull <- pulls :: Smooth(pull)
  }

  /** A sync without failures stores, for each search type, every complete row that the API lists. */
  lemma SmoothSyncStores(table: seq<DailyRow>, p: Property, start: string, end: string, pulls: seq<Pull>,
                         outcomes: seq<Outcome>, i: nat)
    requires OutcomesOf(p, pulls, outcomes) && AllSmooth(pulls)
    requires SeparateTypes(pulls) && AllDaysInRange(pulls, start, end)
    requires i < |pulls|
    ensures var windows := WindowsFor(p, pulls, start, end);
            && Inside(Synced(table, windows, outcomes), windows[i]) == Expected(p, pulls[i])
            && Untouched(Synced(table, windows, outcomes), windows) == Untouched(table, windows)
  {
    OutcomesInRange(p, pulls, outcomes, start, end);
    SmoothTouches(p, pulls, outcomes);
    SyncedWindows(table, WindowsFor(p, pulls, start, end), outcomes, i);
  }

  lemma SmoothTouches(p: Property, pulls: seq<Pull>, outcomes: seq<Outcome>)
    requires OutcomesOf(p, pulls, outcomes) && AllSmooth(pulls)
    ensures forall i | 0 <= i < |pulls| :: outcomes[i].touched && outcomes[i].rows == Expected(p, pulls[i])
  {
    forall i | 0 <= i < |pulls| ensures outcomes[i].touched && outcomes[i].rows == Expected(p, pulls[i]) {
      assert Smooth(pulls[i]) && OutcomeOf(p, pulls[i], outcomes[i]);
    }
  }

  // ----- What the next sync repairs -----

  ghost predicate Own(c: Change) {
    forall row <- c.rows :: row.propertyId == c.window.propertyId && row.searchType == c.window.searchType
  }

  /** The changes of one sync: one search type each, every row of its own type. */
  ghost predicate OneSync(changes: seq<Change>) {
    && (forall i, j | 0 <= i < j < |changes| :: changes[i].window.searchType != changes[j].window.searchType)
    && (forall c <- changes :: Own(c))
  }

  ghost predicate SameTypes(a: seq<Change>, b: seq<Change>) {
    |a| == |b| && forall i | 0 <= i < |a| :: a[i].window.searchType == b[i].window.searchType
  }

  lemma ReachesOwnType(c: Change, k: DailyKey)
    requires Own(c) && Reaches(c, k)
    ensures k.searchType == c.window.searchType
  {
    FinalIsARow(c.rows, k);
  }

  /** A sync changes the reads of a search type as the one replacement of that type does. */
  lemma SyncReads(table: seq<DailyRow>, changes: seq<Change>, i: nat, k: DailyKey)
    requires OneSync(changes) && i < |changes| && k.searchType == changes[i].window.searchType
    ensures Final(Replay(table, changes), k)
         == if Reaches(changes[i], k) then Final(changes[i].rows, k) else Final(table, k)
  {
    forall j | 0 <= j < |changes| && j != i ensures !Reaches(changes[j], k) {
      if Reaches(changes[j], k) {
        ReachesOwnType(changes[j], k);
      }
    }
    if Reaches(changes[i], k) {
      LastChangeDecides(table, changes, i, k);
    } else {
      UnreachedIsKept(table, changes, k);
    }
  }

  lemma OtherTypesAreKept(table: seq<DailyRow>, changes: seq<Change>, k: DailyKey)
    requires OneSync(changes) && forall c <- changes :: c.window.searchType != k.searchType
    ensures Final(Replay(table, changes), k) == Final(table, k)
  {
    forall c <- changes ensures !Reaches(c, k) {
      if Reaches(c, k) {
        ReachesOwnType(c, k);
      }
    }
    UnreachedIsKept(table, changes, k);
  }

  /** What the later change does not reach, the earlier one left as the table had it. */
  ghost predicate LeavesNoTrace(table: seq<DailyRow>, earlier: Change, later: Change) {
    forall k | Reaches(earlier, k) && !Reaches(later, k) :: Final(earlier.rows, k) == Final(table, k)
  }

  lemma TypeHidesExactly(table: seq<DailyRow>, first: seq<Change>, second: seq<Change>, i: nat, k: DailyKey)
    requires OneSync(first) && OneSync(second) && SameTypes(first, second)
    requires i < |first| && k.searchType == first[i].window.searchType
    ensures Final(Replay(Replay(table, first), second), k) == Final(Replay(table, second), k)
       <==> (Reaches(first[i], k) && !Reaches(second[i], k) ==> Final(first[i].rows, k) == Final(table, k))
  {
    SyncReads(table, first, i, k);
    SyncReads(table, second, i, k);
    SyncReads(Replay(table, first), second, i, k);
  }

  /**
   For any two syncs, however they ended and whatever days they cover: the reads are as if the first
   had never run exactly when, for each search type, it left no trace beyond what the second reaches.
   */
  lemma SecondSyncHidesExactly(table: seq<DailyRow>, first: seq<Change>, second: seq<Change>)
    requires OneSync(first) && OneSync(second) && SameTypes(first, second)
    ensures SameReads(Replay(Replay(table, first), second), Replay(table, second))
       <==> forall i | 0 <= i < |first| :: LeavesNoTrace(table, first[i], second[i])
  {
    if forall i | 0 <= i < |first| :: LeavesNoTrace(table, first[i], second[i]) {
      forall k ensures Final(Replay(Replay(table, first), second), k) == Final(Replay(table, second), k) {
        HiddenAt(table, first, second, k);
      }
    } else {
      var i :| 0 <= i < |first| && !LeavesNoTrace(table, first[i], second[i]);
      var k :| Reaches(first[i], k) && !Reaches(second[i], k) && Final(first[i].rows, k) != Final(table, k);
      assert first[i] in first;
      ReachesOwnType(first[i], k);
      TypeHidesExactly(table, first, second, i, k);
    }
  }

  lemma HiddenAt(table: seq<DailyRow>, first: seq<Change>, second: seq<Change>, k: DailyKey)
    requires OneSync(first) && OneSync(second) && SameTypes(first, second)
    requires forall i | 0 <= i < |first| :: LeavesNoTrace(table, first[i], second[i])
    ensures Final(Replay(Replay(table, first), second), k) == Final(Replay(table, second), k)
  {
    if i :| 0 <= i < |first| && first[i].window.searchType == k.searchType {
      assert LeavesNoTrace(table, first[i], second[i]);
      TypeHidesExactly(table, first, second, i, k);
    } else {
      OtherTypesAreKept(table, first, k);
      OtherTypesAreKept(table, second, k);
      OtherTypesAreKept(Replay(table, first), second, k);
    }
  }

  /** A second sync that reaches every window, over days that cover the first, hides the first. */
  lemma NextSyncRepairs(table: seq<DailyRow>, first: seq<Change>, second: seq<Change>)
    requires OneSync(first) && OneSync(second) && SameTypes(first, second)
    requires forall i | 0 <= i < |first| ::
               && second[i].touched && Covers(second[i].window, first[i].window)
               && AllInWindow(first[i].window, first[i].rows)
    ensures SameReads(Replay(Replay(table, first), second), Replay(table, second))
  {
    forall i | 0 <= i < |first| ensures LeavesNoTrace(table, first[i], second[i]) {
      forall k | Reaches(first[i], k) ensures Reaches(second[i], k) {
        CoveredIsDecided(first[i].window, first[i].rows, second[i].window, second[i].rows, k);
      }
    }
    SecondSyncHidesExactly(table, first, second);
  }

  lemma {:induction false} ParsedOwn(raws: seq<RawRow>, propertyId: string, workspaceId: string, searchType: string)
    ensures forall row <- ParseAll(raws, propertyId, workspaceId, searchType) ::
              row.propertyId == propertyId && row.searchType == searchType
  {
    if raws != [] {
      ParsedOwn(raws[..|raws| - 1], propertyId, workspaceId, searchType);
    }
  }

  lemma OutcomesAreOneSync(p: Property, pulls: seq<Pull>, outcomes: seq<Outcome>, start: string, end: string)
    requires OutcomesOf(p, pulls, outcomes) && SeparateTypes(pulls)
    ensures OneSync(ChangesOf(WindowsFor(p, pulls, start, end), outcomes))
  {
    forall i | 0 <= i < |pulls| ensures Own(ChangesOf(WindowsFor(p, pulls, start, end), outcomes)[i]) {
      var remote := pulls[i].remote;
      assert OutcomeOf(p, pulls[i], outcomes[i]);
      ParsedOwn(remote[..Least(|remote|, PAGE_SIZE * MAX_PAGES)], p.id, p.workspaceId, pulls[i].searchType);
    }
  }

  ghost predicate SamePulledTypes(a: seq<Pull>, b: seq<Pull>) {
    |a| == |b| && forall i | 0 <= i < |a| :: a[i].searchType == b[i].searchType
  }

  /**
   A sync that failed in any way, then one without failures over the same or more days, leave the
   reads of the second alone.
   */
  lemma SyncHealsAnyFailure(table: seq<DailyRow>, p: Property,
                            start: string, end: string, failing: seq<Pull>, first: seq<Outcome>,
                            start': string, end': string, smooth: seq<Pull>, second: seq<Outcome>)
    requires OutcomesOf(p, failing, first) && OutcomesOf(p, smooth, second) && SamePulledTypes(failing, smooth)
    requires SeparateTypes(smooth) && AllSmooth(smooth)
    requires AllDaysInRange(failing, start, end) && NotAfter(start', start) && NotAfter(end, end')
    ensures var early, late := WindowsFor(p, failing, start, end), WindowsFor(p, smooth, start', end');
            SameReads(Synced(Synced(table, early, first), late, second), Synced(table, late, second))
  {
    assert SeparateTypes(failing);
    OutcomesAreOneSync(p, failing, first, start, end);
    OutcomesAreOneSync(p, smooth, second, start', end');
    OutcomesInRange(p, failing, first, start, end);
    SmoothTouches(p, smooth, second);
    NextSyncRepairs(table, ChangesOf(WindowsFor(p, failing, start, end), first),
                    ChangesOf(WindowsFor(p, smooth, start', end'), second));
  }

  // ----- The window moves by a day each day -----

  lemma {:induction false} CommonPrefix(prefix: string, a: string, b: string)
    ensures NotAfter(prefix + a, prefix + b) <==> NotAfter(a, b)
  {
    if prefix == "" {
      assert prefix + a == a && prefix + b == b;
    } else {
      CommonPrefix(prefix[1..], a, b);
      assert (prefix + a)[1..] == prefix[1..] + a && (prefix + b)[1..] == prefix[1..] + b;
    }
  }

  function Day(d: nat): string
    requires d < 10
  {
    "2025-01-0" + [('0' as int + d) as char]
  }

  lemma DaysCompare(a: nat, b: nat)
    requires a < 10 && b < 10
    ensures NotAfter(Day(a), Day(b)) <==> a <= b
  {
    CommonPrefix("2025-01-0", [('0' as int + a) as char], [('0' as int + b) as char]);
  }

  const SITE := Property("p", "w", "https://example.com/", true)

  function RawOn(d: nat): RawRow
    requires d < 10
  {
    RawRow(Some([Day(d), "query", "page"]), 1.0, 1.0, 0.5, 1.0)
  }

  function RowOn(d: nat): DailyRow
    requires d < 10
  {
    DailyRow("p", "w", Day(d), "query", "page", "", "", "web", 1, 1, 1.0, 0.5)
  }

  // The delete succeeds, the first insert does not.
  function FailingPull(): Pull {
    Pull("web", [RawOn(1)], (page: nat, attempt: nat) => 200, true, k => false)
  }

  function SmoothPull(): Pull {
    Pull("web", [], (page: nat, attempt: nat) => 200, true, k => true)
  }

  const NOTHING_STORED := Outcome(true, true, [])
  const ALL_STORED := Outcome(false, true, [])

  lemma ExampleOutcomes()
    ensures OutcomesOf(SITE, [FailingPull()], [NOTHING_STORED]) && OutcomesOf(SITE, [SmoothPull()], [ALL_STORED])
    ensures AllSmooth([SmoothPull()])
  {
    var raws := [RawOn(1)];
    assert raws[..0] == [] && raws[..Least(1, PAGE_SIZE * MAX_PAGES)] == raws;
    assert |ParseAll(raws, "p", "w", "web")| == 1;
    assert !Smooth(FailingPull()) by {
      assert !FailingPull().inserts(0);
    }
    assert OutcomeOf(SITE, FailingPull(), NOTHING_STORED);
    assert Expected(SITE, SmoothPull()) == [];
    assert OutcomeOf(SITE, SmoothPull(), ALL_STORED);
    forall p: nat ensures Served(SmoothPull().status, p) {
      assert Ok(SmoothPull().status(p, 0));
    }
  }

  /**
   Seven rolling days, one sync a day. A sync empties its window and fails to fill it; the next one, a
   day later and without failures, no longer covers the oldest day, whose row stays gone.
   */
  lemma RollingWindowLosesADay()
    ensures OutcomesOf(SITE, [FailingPull()], [NOTHING_STORED]) && OutcomesOf(SITE, [SmoothPull()], [ALL_STORED])
    ensures AllSmooth([SmoothPull()])
    ensures var early := WindowsFor(SITE, [FailingPull()], Day(1), Day(7));
            var late := WindowsFor(SITE, [SmoothPull()], Day(2), Day(8));
            var k := KeyOf(RowOn(1));
            && Final(Synced(Synced([RowOn(1)], early, [NOTHING_STORED]), late, [ALL_STORED]), k) == None
            && Final(Synced([RowOn(1)], late, [ALL_STORED]), k) == Some(RowOn(1))
  {
    ExampleOutcomes();
    var early := Emptied(Day(1), Day(7));
    var late := Emptied(Day(2), Day(8));
    assert ChangesOf(WindowsFor(SITE, [FailingPull()], Day(1), Day(7)), [NOTHING_STORED]) == [early];
    assert ChangesOf(WindowsFor(SITE, [SmoothPull()], Day(2), Day(8)), [ALL_STORED]) == [late];
    FirstDayReached();
    FinalOfOne(RowOn(1), KeyOf(RowOn(1)));
    LastChangeDecides([RowOn(1)], [early], 0, KeyOf(RowOn(1)));
    UnreachedIsKept(Replay([RowOn(1)], [early]), [late], KeyOf(RowOn(1)));
    UnreachedIsKept([RowOn(1)], [late], KeyOf(RowOn(1)));
  }

  function Emptied(start: string, end: string): Change {
    Change(Window("p", "web", start, end), [], true)
  }

  lemma FirstDayReached()
    ensures Reaches(Emptied(Day(1), Day(7)), KeyOf(RowOn(1))) && !Reaches(Emptied(Day(2), Day(8)), KeyOf(RowOn(1)))
  {
    DaysCompare(1, 1);
    DaysCompare(1, 7);
    DaysCompare(2, 1);
  }
}
