/** `SessionPayloadHandler`: from a session payload to the rows handed to the event buffer. */
module Ingestion {
  import opened Events
  import opened Tokens
  import opened EventsTable
  import opened EventBuffer
  import SdkSession

  const CLOCK_SKEW_THRESHOLD_MS: int := 5000

  datatype Status = Initializing | Active | Inactive | Error

  datatype Payload = Payload(
    workspaceId: WorkspaceId,
    sessionId: string,
    actions: seq<Action>,
    createdAt: int,
    updatedAt: int,
    sentAt: Option<int>)

  // What the server adds: its clock, read once as the version of the whole payload and once as the
  // reception time, and the columns derived from attributes, geo, channel and client address.
  datatype Arrival = Arrival(version: int, receivedAt: int, columns: map<string, string>)

  // Configured filters only write the derived columns.
  type Filters = TrackingEvent -> map<string, string>

  /** The correction added to SDK timestamps: zero inside the tolerance or without `sent_at`. */
  function Skew(sentAt: Option<int>, version: int): int {
    if sentAt.None? then 0
    else
      var skew := version - sentAt.value;
      if skew < -CLOCK_SKEW_THRESHOLD_MS || skew > CLOCK_SKEW_THRESHOLD_MS then skew else 0
  }

  /** The path of the last pageview among the first `n` actions. */
  function PreviousPath(actions: seq<Action>, n: nat): string
    requires n <= |actions|
  {
    if n == 0 then ""
    else if actions[n - 1].Pageview? then actions[n - 1].path
    else PreviousPath(actions, n - 1)
  }

  function EventFor(p: Payload, at: Arrival, i: nat): TrackingEvent
    requires i < |p.actions| && !p.actions[i].Unknown?
  {
    var skew := Skew(p.sentAt, at.version);
    var token := Token(p.sessionId, KeyOf(p.actions[i]));
    match p.actions[i]
    case Pageview(path, n, duration, scroll, enteredAt, exitedAt) =>
      TrackingEvent(p.workspaceId, p.sessionId, token, at.version, at.receivedAt,
                    p.createdAt + skew, p.updatedAt + skew,
                    "screen_view", path, n, duration, scroll, PreviousPath(p.actions, i), "", 0, map[],
                    enteredAt + skew, exitedAt + skew, None, at.columns)
    case Goal(name, path, n, timestamp, value, properties) =>
      TrackingEvent(p.workspaceId, p.sessionId, token, at.version, at.receivedAt,
                    p.createdAt + skew, p.updatedAt + skew,
                    "goal", path, n, 0, 0, "", name, if value.Some? then value.value else 0,
                    if properties.Some? then properties.value else map[],
                    timestamp + skew, timestamp + skew, Some(timestamp + skew), at.columns)
  }

  ghost predicate Known(p: Payload) {
    forall a <- p.actions :: !a.Unknown?
  }

  function Filtered(e: TrackingEvent, filters: Filters): TrackingEvent {
    e.(attributes := filters(e))
  }

  function RowsFor(p: Payload, at: Arrival, filters: Filters): seq<TrackingEvent>
    requires Known(p)
  {
    seq(|p.actions|, i requires 0 <= i < |p.actions| && Known(p) => Filtered(EventFor(p, at, i), filters))
  }

  // ----- Reading a row back -----

  /** The action that a row was made from, its times taken back to the client's clock. */
  function ActionOf(row: TrackingEvent, skew: int): Action {
    if row.name == "screen_view"
    then Pageview(row.path, row.pageNumber, row.duration, row.maxScroll, row.enteredAt - skew, row.exitedAt - skew)
    else if row.goalTimestamp.Some?
    then Goal(row.goalName, row.path, row.pageNumber, row.goalTimestamp.value - skew, Some(row.goalValue),
              Some(row.properties))
    else Unknown(row.name)
  }

  /** A goal without a value counts as zero, one without properties has none. */
  function AsStored(a: Action): Action {
    if a.Goal? then
      a.(value := Some(if a.value.Some? then a.value.value else 0),
         properties := Some(if a.properties.Some? then a.properties.value else map[]))
    else a
  }

  /** `path` is that of the last pageview before action `i`, empty if there is none. */
  ghost predicate LastPathBefore(actions: seq<Action>, i: nat, path: string)
    requires i <= |actions|
  {
    || (path == "" && forall j | 0 <= j < i :: !actions[j].Pageview?)
    || exists j | 0 <= j < i ::
         actions[j].Pageview? && actions[j].path == path && forall m | j < m < i :: !actions[m].Pageview?
  }

  lemma {:induction false} PreviousPathIs(actions: seq<Action>, i: nat)
    requires i <= |actions|
    ensures LastPathBefore(actions, i, PreviousPath(actions, i))
  {
    if i > 0 && !actions[i - 1].Pageview? {
      PreviousPathIs(actions, i - 1);
    }
  }

  lemma {:induction false} PageRowTells(p: Payload, at: Arrival, i: nat)
    requires i < |p.actions| && p.actions[i].Pageview?
    ensures var row := EventFor(p, at, i);
            && ActionOf(row, Skew(p.sentAt, at.version)) == p.actions[i]
            && LastPathBefore(p.actions, i, row.previousPath)
            && row.goalName == "" && row.goalValue == 0 && row.properties == map[] && row.goalTimestamp == None
  {
    PreviousPathIs(p.actions, i);
  }

  lemma {:induction false} GoalRowTells(p: Payload, at: Arrival, i: nat)
    requires i < |p.actions| && p.actions[i].Goal?
    ensures var row := EventFor(p, at, i);
            && ActionOf(row, Skew(p.sentAt, at.version)) == AsStored(p.actions[i])
            && row.name == "goal" && row.previousPath == "" && row.duration == row.maxScroll == 0
            && Some(row.enteredAt) == Some(row.exitedAt) == row.goalTimestamp
  {
  }

  /** Every row gives back its action; a goal's row holds nothing of a page, and a page's row nothing of a goal. */
  lemma {:induction false} RowTellsItsAction(p: Payload, at: Arrival, filters: Filters, i: nat)
    requires Known(p) && i < |p.actions|
    ensures var row, skew := RowsFor(p, at, filters)[i], Skew(p.sentAt, at.version);
            && ActionOf(row, skew) == AsStored(p.actions[i])
            && (p.actions[i].Pageview? ==>
                  && LastPathBefore(p.actions, i, row.previousPath)
                  && row.goalName == "" && row.goalValue == 0 && row.properties == map[] && row.goalTimestamp == None)
            && (p.actions[i].Goal? ==>
                  && row.name == "goal" && row.previousPath == "" && row.duration == row.maxScroll == 0
                  && Some(row.enteredAt) == Some(row.exitedAt) == row.goalTimestamp)
  {
    assert p.actions[i] in p.actions;
    if p.actions[i].Pageview? {
      PageRowTells(p, at, i);
    } else {
      GoalRowTells(p, at, i);
    }
  }

  /** Every row carries its payload's session, and the arrival. */
  lemma RowTellsItsPayload(p: Payload, at: Arrival, filters: Filters, i: nat)
    requires Known(p) && i < |p.actions|
    ensures var row, skew := RowsFor(p, at, filters)[i], Skew(p.sentAt, at.version);
            && row.workspaceId == p.workspaceId && row.sessionId == p.sessionId
            && row.version == at.version && row.receivedAt == at.receivedAt
            && row.createdAt == p.createdAt + skew && row.updatedAt == p.updatedAt + skew
            && row.attributes == filters(row.(attributes := at.columns))
  {
    assert p.actions[i] in p.actions;
    var event := EventFor(p, at, i);
    assert event.attributes == at.columns && Filtered(event, filters).(attributes := at.columns) == event;
  }

  /** Inside the tolerance, and for a client that does not say when it sent, times are stored as they came. */
  lemma SkewIsZeroExactly(sentAt: Option<int>, version: int)
    ensures Skew(sentAt, version) == 0
       <==> sentAt.None? || -5000 <= version - sentAt.value <= 5000
    ensures Skew(sentAt, version) != 0 ==> sentAt.value + Skew(sentAt, version) == version
  {
  }

  // ----- What one payload puts in the table -----

  function DeliveryFor(p: Payload, at: Arrival, filters: Filters): Delivery
    requires Known(p)
  {
    Delivery(at.version, RowsFor(p, at, filters))
  }

  lemma RowKeyAt(p: Payload, at: Arrival, filters: Filters, i: nat)
    requires Known(p) && i < |p.actions|
    ensures var row := RowsFor(p, at, filters)[i];
            row.version == at.version && KeyOfRow(row) == RowKey(p.sessionId, Token(p.sessionId, KeysOf(p.actions)[i]))
  {
    assert p.actions[i] in p.actions;
  }

  /** A payload's rows carry one version, and hold exactly the keys of its actions. */
  lemma DeliveryHoldsItsKeys(p: Payload, at: Arrival, filters: Filters, k: RowKey)
    requires Known(p)
    ensures DeliveryFor(p, at, filters).Stamped()
    ensures Has(DeliveryFor(p, at, filters), k)
       <==> exists i :: 0 <= i < |p.actions| && k == RowKey(p.sessionId, Token(p.sessionId, KeysOf(p.actions)[i]))
  {
    var rows := RowsFor(p, at, filters);
    forall i | 0 <= i < |rows|
      ensures rows[i].version == at.version && KeyOfRow(rows[i])
            == RowKey(p.sessionId, Token(p.sessionId, KeysOf(p.actions)[i]))
    {
      RowKeyAt(p, at, filters, i);
    }
    FinalIsARow(rows, k);
  }

  /** One table row per action exactly when no two actions share a key. */
  lemma OneRowPerActionExactly(p: Payload, at: Arrival, filters: Filters)
    requires Known(p)
    ensures |KeySet(RowsFor(p, at, filters))| == |p.actions| <==> SdkSession.KeysDistinct(p.actions)
  {
    var rows := RowsFor(p, at, filters);
    CountKeys(rows);
    forall i, j | 0 <= i < j < |rows|
      ensures KeyOfRow(rows[i]) == KeyOfRow(rows[j]) <==> KeyOf(p.actions[i]) == KeyOf(p.actions[j])
    {
      assert p.actions[i] in p.actions && p.actions[j] in p.actions;
      TokenInjective(p.sessionId, KeyOf(p.actions[i]), KeyOf(p.actions[j]));
    }
  }

  // ----- From an SDK run to the table -----

  /**
   The server receives the snapshot that the SDK run had after `step` calls. A payload that was queued
   shares its actions with the run, so their durations can be those of a later call.
   */
  datatype Receipt = Receipt(step: nat, payload: Payload, at: Arrival)

  ghost predicate FromRun(r: Receipt, start: SdkSession.Session, calls: seq<SdkSession.Call>, sessionId: string) {
    && SdkSession.Valid(start) && r.step <= |calls|
    && r.payload.sessionId == sessionId
    && KeysOf(r.payload.actions) == KeysOf(SdkSession.After(start, calls[..r.step]).actions)
  }

  function Deliveries(receipts: seq<Receipt>, filters: Filters): seq<Delivery>
    requires forall r <- receipts :: Known(r.payload)
  {
    seq(|receipts|, i requires 0 <= i < |receipts| && Known(receipts[i].payload) =>
      DeliveryFor(receipts[i].payload, receipts[i].at, filters))
  }

  /** The SDK sends no action of an unknown type. */
  lemma SnapshotIsKnown(start: SdkSession.Session, calls: seq<SdkSession.Call>, r: Receipt, sessionId: string)
    requires FromRun(r, start, calls, sessionId)
    ensures Known(r.payload)
  {
    SdkSession.RunExtendsKeys(start, calls[..r.step]);
    var actions := SdkSession.After(start, calls[..r.step]).actions;
    assert |r.payload.actions| == |KeysOf(r.payload.actions)| == |actions|;
    forall i | 0 <= i < |actions| ensures !r.payload.actions[i].Unknown? {
      assert actions[i] in actions;
      assert KeysOf(r.payload.actions)[i] == KeysOf(actions)[i];
    }
  }

  lemma LaterSnapshotCovers(start: SdkSession.Session, calls: seq<SdkSession.Call>, before: Receipt, after: Receipt,
                            filters: Filters, sessionId: string, k: RowKey)
    requires FromRun(before, start, calls, sessionId) && FromRun(after, start, calls, sessionId)
    requires before.step <= after.step
    ensures Known(before.payload) && Known(after.payload)
    ensures Has(DeliveryFor(before.payload, before.at, filters), k) ==>
            Has(DeliveryFor(after.payload, after.at, filters), k)
  {
    SnapshotIsKnown(start, calls, before, sessionId);
    SnapshotIsKnown(start, calls, after, sessionId);
    SdkSession.SnapshotsAreCumulative(start, calls, before.step, after.step);
    DeliveryHoldsItsKeys(before.payload, before.at, filters, k);
    DeliveryHoldsItsKeys(after.payload, after.at, filters, k);
    var early, late := KeysOf(before.payload.actions), KeysOf(after.payload.actions);
    assert forall i | 0 <= i < |early| :: early[i] == late[i];
  }

  /**
   Any of the snapshots of an SDK run, received in any order and any number of times: if the last
   snapshot arrives with the highest version, a read of the session is exactly that snapshot.
   */
  lemma LastSnapshotWins(start: SdkSession.Session, calls: seq<SdkSession.Call>, sessionId: string,
                         receipts: seq<Receipt>, n: nat, filters: Filters, k: RowKey)
    requires n < |receipts| && forall r <- receipts :: FromRun(r, start, calls, sessionId)
    requires forall r <- receipts :: r.step <= receipts[n].step
    requires forall r <- receipts :: r == receipts[n] || r.at.version < receipts[n].at.version
    ensures forall r <- receipts :: Known(r.payload)
    ensures Final(Rows(Deliveries(receipts, filters)), k)
         == Final(RowsFor(receipts[n].payload, receipts[n].at, filters), k)
  {
    forall r <- receipts ensures Known(r.payload) {
      SnapshotIsKnown(start, calls, r, sessionId);
    }
    var newest := DeliveryFor(receipts[n].payload, receipts[n].at, filters);
    var ds := Deliveries(receipts, filters);
    assert ds[n] == newest;
    forall d <- ds
      ensures d.Stamped() && (Has(d, k) ==> Has(newest, k)) && (d == newest || d.version < newest.version)
    {
      var i :| 0 <= i < |ds| && ds[i] == d;
      DeliveryHoldsItsKeys(receipts[i].payload, receipts[i].at, filters, k);
      LaterSnapshotCovers(start, calls, receipts[i], receipts[n], filters, sessionId, k);
    }
    NewestCoveringWins(ds, newest, k);
  }

  lemma {:induction false} FinalOfUnique(rows: seq<TrackingEvent>, j: nat)
    requires j < |rows| && forall i | 0 <= i < |rows| && i != j :: KeyOfRow(rows[i]) != KeyOfRow(rows[j])
    ensures Final(rows, KeyOfRow(rows[j])) == Some(rows[j])
  {
    FinalIsARow(rows, KeyOfRow(rows[j]));
    assert rows[j] in rows;
  }

  lemma PageKeyIsUnique(start: SdkSession.Session, calls: seq<SdkSession.Call>, r: Receipt, sessionId: string, j: nat)
    requires FromRun(r, start, calls, sessionId) && j < |r.payload.actions| && r.payload.actions[j].Pageview?
    ensures forall i | 0 <= i < |r.payload.actions| && i != j ::
              KeyOf(r.payload.actions[i]) != KeyOf(r.payload.actions[j])
  {
    SdkSession.RunExtendsKeys(start, calls[..r.step]);
    var actions := SdkSession.After(start, calls[..r.step]).actions;
    assert |r.payload.actions| == |KeysOf(r.payload.actions)| == |actions|;
    forall i | 0 <= i < |actions| ensures KeyOf(r.payload.actions[i]) == KeyOf(actions[i]) {
      assert KeysOf(r.payload.actions)[i] == KeysOf(actions)[i];
    }
  }

  lemma UniqueRow(p: Payload, at: Arrival, filters: Filters, j: nat)
    requires Known(p) && j < |p.actions|
    requires forall i | 0 <= i < |p.actions| && i != j :: KeyOf(p.actions[i]) != KeyOf(p.actions[j])
    ensures Final(RowsFor(p, at, filters), RowKey(p.sessionId, Token(p.sessionId, KeyOf(p.actions[j]))))
         == Some(RowsFor(p, at, filters)[j])
  {
    var rows := RowsFor(p, at, filters);
    RowKeyAt(p, at, filters, j);
    forall i | 0 <= i < |rows| && i != j ensures KeyOfRow(rows[i]) != KeyOfRow(rows[j]) {
      RowKeyAt(p, at, filters, i);
      assert p.actions[i] in p.actions && p.actions[j] in p.actions;
      TokenInjective(p.sessionId, KeyOf(p.actions[i]), KeyOf(p.actions[j]));
    }
    FinalOfUnique(rows, j);
  }

  /**
   When the latest snapshot arrived with the highest version, a read of each page of the session has
   what that snapshot says: path, duration, scroll, times corrected for its clock, and the path before.
   */
  lemma LastSnapshotShowsItsPages(start: SdkSession.Session, calls: seq<SdkSession.Call>, sessionId: string,
                                  receipts: seq<Receipt>, n: nat, filters: Filters, j: nat)
    requires n < |receipts| && forall r <- receipts :: FromRun(r, start, calls, sessionId)
    requires forall r <- receipts :: r.step <= receipts[n].step
    requires forall r <- receipts :: r == receipts[n] || r.at.version < receipts[n].at.version
    requires j < |receipts[n].payload.actions| && receipts[n].payload.actions[j].Pageview?
    ensures forall r <- receipts :: Known(r.payload)
    ensures var page, skew := receipts[n].payload.actions[j], Skew(receipts[n].payload.sentAt, receipts[n].at.version);
            var k := RowKey(sessionId, Token(sessionId, PageKey(page.pageNumber)));
            var read := Final(Rows(Deliveries(receipts, filters)), k);
            && read.Some? && read.value.name == "screen_view"
            && read.value.path == page.path && read.value.pageNumber == page.pageNumber
            && read.value.duration == page.duration && read.value.maxScroll == page.scroll
            && read.value.enteredAt == page.enteredAt + skew && read.value.exitedAt == page.exitedAt + skew
            && LastPathBefore(receipts[n].payload.actions, j, read.value.previousPath)
  {
    var p, at := receipts[n].payload, receipts[n].at;
    var page := p.actions[j];
    LastSnapshotWins(start, calls, sessionId, receipts, n, filters,
                     RowKey(sessionId, Token(sessionId, PageKey(page.pageNumber))));
    PageKeyIsUnique(start, calls, receipts[n], sessionId, j);
    UniqueRow(p, at, filters, j);
    RowTellsItsAction(p, at, filters, j);
  }

  /** Receipt `r` has a row for `k`. */
  ghost predicate Holds(r: Receipt, filters: Filters, k: RowKey)
    requires Known(r.payload)
  {
    Has(DeliveryFor(r.payload, r.at, filters), k)
  }

  /**
   An older snapshot that was queued and sent late can arrive with a higher version. An action is read
   as a given snapshot has it exactly when no receipt with a higher version holds the action too.
   */
  lemma SnapshotShowsExactly(receipts: seq<Receipt>, n: nat, filters: Filters, k: RowKey)
    requires n < |receipts| && forall r <- receipts :: Known(r.payload)
    requires forall r <- receipts :: r == receipts[n] || r.at.version != receipts[n].at.version
    requires Holds(receipts[n], filters, k)
    ensures Final(Rows(Deliveries(receipts, filters)), k)
          == Final(RowsFor(receipts[n].payload, receipts[n].at, filters), k)
       <==> forall r <- receipts | Holds(r, filters, k) :: r.at.version <= receipts[n].at.version
  {
    var ds := Deliveries(receipts, filters);
    DeliveriesHold(receipts, filters, k);
    assert ds[n].Stamped();
    ShownExactly(ds, ds[n], k);
    if r :| r in receipts && Holds(r, filters, k) && r.at.version > receipts[n].at.version {
      var i :| 0 <= i < |receipts| && receipts[i] == r;
      assert ds[i] in ds && Has(ds[i], k);
    }
  }

  lemma DeliveriesHold(receipts: seq<Receipt>, filters: Filters, k: RowKey)
    requires forall r <- receipts :: Known(r.payload)
    ensures var ds := Deliveries(receipts, filters);
            forall i | 0 <= i < |receipts| ::
              && ds[i].Stamped() && ds[i].version == receipts[i].at.version
              && ds[i] == DeliveryFor(receipts[i].payload, receipts[i].at, filters)
              && (Has(ds[i], k) <==> Holds(receipts[i], filters, k))
  {
    forall i | 0 <= i < |receipts| ensures Deliveries(receipts, filters)[i].Stamped() {
      DeliveryHoldsItsKeys(receipts[i].payload, receipts[i].at, filters, k);
    }
  }

  // ----- Clock skew -----

  /**
   A client clock is off by `offset`; the payload left it at true time `sent` and reached the server
   `latency` later. Every corrected SDK timestamp is then within the tolerance plus the latency of
   the true time it stands for.
   */
  lemma CorrectionBoundsTheError(offset: int, sent: int, latency: nat, trueTime: int)
    ensures var corrected := trueTime + offset + Skew(Some(sent + offset), sent + latency);
            -CLOCK_SKEW_THRESHOLD_MS + latency <= corrected - trueTime <= CLOCK_SKEW_THRESHOLD_MS + latency
  {
  }

  // ----- The handler -----

  datatype Outcome = Accepted | BadRequest

  method DeserializeAction(p: Payload, at: Arrival, i: nat, previousPath: string) returns (event: TrackingEvent)
    requires i < |p.actions| && !p.actions[i].Unknown? && previousPath == PreviousPath(p.actions, i)
    ensures event == EventFor(p, at, i)
    ensures ActionOf(event, Skew(p.sentAt, at.version)) == AsStored(p.actions[i])
  {
    if p.actions[i].Pageview? {
      PageRowTells(p, at, i);
    } else {
      GoalRowTells(p, at, i);
    }
    var action, skew := p.actions[i], Skew(p.sentAt, at.version);
    var token := Token(p.sessionId, KeyOf(action));
    if action.Pageview? {
      event := TrackingEvent(p.workspaceId, p.sessionId, token, at.version, at.receivedAt,
                             p.createdAt + skew, p.updatedAt + skew,
                             "screen_view", action.path, action.pageNumber, action.duration, action.scroll,
                             previousPath, "", 0, map[],
                             action.enteredAt + skew, action.exitedAt + skew, None, at.columns);
    } else {
      var timestamp := action.timestamp + skew;
      event := TrackingEvent(p.workspaceId, p.sessionId, token, at.version, at.receivedAt,
                             p.createdAt + skew, p.updatedAt + skew,
                             "goal", action.path, action.pageNumber, 0, 0, "", action.name,
                             if action.value.Some? then action.value.value else 0,
                             if action.properties.Some? then action.properties.value else map[],
                             timestamp, timestamp, Some(timestamp), at.columns);
    }
  }

  method ApplyFilters(events: seq<TrackingEvent>, filters: Filters) returns (filtered: seq<TrackingEvent>)
    ensures |filtered| == |events| && forall j | 0 <= j < |events| :: filtered[j] == Filtered(events[j], filters)
  {
    filtered := events;
    for i := 0 to |filtered|
      invariant |filtered| == |events|
      invariant forall j | 0 <= j < i :: filtered[j] == Filtered(events[j], filters)
      invariant forall j | i <= j < |events| :: filtered[j] == events[j]
    {
      filtered := filtered[i := filtered[i].(attributes := filters(filtered[i]))];
    }
  }

  method BuildRows(p: Payload, at: Arrival, filters: Filters) returns (outcome: Outcome, events: seq<TrackingEvent>)
    ensures outcome == Accepted <==> Known(p)
    ensures Known(p) ==> events == RowsFor(p, at, filters)
  {
    outcome, events := DeserializeActions(p, at);
    if outcome == BadRequest {
      return;
    }
    ghost var deserialized := events;
    events := ApplyFilters(events, filters);
    RowsAre(p, at, filters, deserialized, events);
  }

  /** The action loop: an unknown action rejects the whole payload. */
  method DeserializeActions(p: Payload, at: Arrival) returns (outcome: Outcome, events: seq<TrackingEvent>)
    ensures outcome == Accepted <==> Known(p)
    ensures Known(p) ==> |events| == |p.actions| && Deserialized(p, at, events)
  {
    events := [];
    var previousPath := "";
    for i := 0 to |p.actions|
      invariant |events| == i && Deserialized(p, at, events)
      invariant previousPath == PreviousPath(p.actions, i)
    {
      if p.actions[i].Unknown? {
        assert p.actions[i] in p.actions && !Known(p);
        return BadRequest, [];
      }
      var event := DeserializeAction(p, at, i, previousPath);
      OneMoreEvent(p, at, events, event);
      events := events + [event];
      if p.actions[i].Pageview? {
        previousPath := p.actions[i].path;
      }
    }
    AllDeserialized(p, at, events);
    outcome := Accepted;
  }

  lemma AllDeserialized(p: Payload, at: Arrival, events: seq<TrackingEvent>)
    requires Deserialized(p, at, events) && |events| == |p.actions|
    ensures Known(p)
  {
  }

  ghost predicate Deserialized(p: Payload, at: Arrival, events: seq<TrackingEvent>) {
    && |events| <= |p.actions|
    && forall i | 0 <= i < |events| :: !p.actions[i].Unknown? && events[i] == EventFor(p, at, i)
  }

  lemma OneMoreEvent(p: Payload, at: Arrival, events: seq<TrackingEvent>, event: TrackingEvent)
    requires Deserialized(p, at, events) && |events| < |p.actions| && !p.actions[|events|].Unknown?
    requires event == EventFor(p, at, |events|)
    ensures Deserialized(p, at, events + [event])
  {
  }

  lemma RowsAre(p: Payload, at: Arrival, filters: Filters, events: seq<TrackingEvent>, rows: seq<TrackingEvent>)
    requires Deserialized(p, at, events) && |events| == |rows| == |p.actions|
    requires forall i | 0 <= i < |rows| :: rows[i] == Filtered(events[i], filters)
    ensures Known(p) && rows == RowsFor(p, at, filters)
  {
  }

  lemma {:induction false} RegroupOneWorkspace(events: seq<TrackingEvent>, w: WorkspaceId)
    requires AllOf(events, w)
    ensures Regroup(events) == events
  {
    var order := FirstSeen(events);
    OneFirstSeen(events, w);
    if events != [] {
      OfWorkspaceAll(events, w, w);
      assert GroupsFor(order, events) == [events];
      assert [events][..0] == [];
      assert Flatten([events]) == [] + events;
    } else {
      assert GroupsFor(order, events) == [];
    }
  }

  lemma {:induction false} OneFirstSeen(events: seq<TrackingEvent>, w: WorkspaceId)
    requires AllOf(events, w)
    ensures FirstSeen(events) == if events == [] then [] else [w]
  {
    if events != [] {
      var front := events[..|events| - 1];
      assert forall e <- front :: e in events;
      OneFirstSeen(front, w);
    }
  }

  /** Whether the payload of such a workspace is ingested at all; if not, it is answered with a plain success. */
  predicate Ingests(status: Status, domainAllowed: bool, p: Payload) {
    status != Inactive && status != Error && domainAllowed && p.actions != []
  }

  /**
   `domainAllowed` is the outcome of the domain check, `settles` that of the inserts the batch starts.
   An ingested payload is accepted by the buffer whole and in order, unless a flush it starts throws.
   */
  method Handle(buffer: EventBufferService, p: Payload, at: Arrival, filters: Filters,
                status: Status, domainAllowed: bool, settles: nat -> bool)
    returns (outcome: Outcome, threw: bool, count: nat)
    requires buffer.Valid()
    modifies buffer
    ensures buffer.Valid() && buffer.pending == old(buffer.pending)
    ensures status == Inactive || status == Error || !domainAllowed || p.actions == [] ==>
              outcome == Accepted && !threw && buffer.View() == old(buffer.View())
    ensures outcome == BadRequest <==> Ingests(status, domainAllowed, p) && !Known(p)
    ensures if Ingests(status, domainAllowed, p) && Known(p)
            then Progress(buffer.View(), threw, count)
                 == AddUntilThrow(Adding(buffer.maxRetainedEvents), old(buffer.View()), RowsFor(p, at, filters),
                                  0, settles)
                 && count <= |p.actions| && buffer.accepted == old(buffer.accepted) + RowsFor(p, at, filters)[..count]
                 && (!threw ==> count == |p.actions|)
            else !threw && buffer.View() == old(buffer.View())
    ensures (forall k :: settles(k)) ==> !threw
  {
    outcome, threw, count := Accepted, false, 0;
    if status == Inactive || status == Error || !domainAllowed || |p.actions| == 0 {
      return;
    }
    var events;
    outcome, events := BuildRows(p, at, filters);
    if outcome == BadRequest {
      return;
    }
    RegroupOneWorkspace(events, p.workspaceId);
    threw, count := buffer.AddBatch(events, settles);
  }
}
