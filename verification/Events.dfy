/** The tracking event shared by the ingestion handler, the buffer and the events table. */
module Events {

  datatype Option<+T> = None | Some(value: T)

  type WorkspaceId = string

  // Times are milliseconds since the epoch. `attributes` stands for the columns copied
  // from the session attributes and the geo lookup, keyed by column name.
  datatype TrackingEvent = TrackingEvent(
    workspaceId: WorkspaceId,
    sessionId: string,
    dedupToken: string,
    version: int,
    receivedAt: int,
    createdAt: int,
    updatedAt: int,
    name: string,
    path: string,
    pageNumber: nat,
    duration: int,
    maxScroll: int,
    previousPath: string,
    goalName: string,
    goalValue: int,
    properties: map<string, string>,
    enteredAt: int,
    exitedAt: int,
    goalTimestamp: Option<int>,
    attributes: map<string, string>)

  /** The subsequence of events that belong to one workspace. */
  function OfWorkspace(events: seq<TrackingEvent>, w: WorkspaceId): seq<TrackingEvent> {
    if events == [] then []
    else
      var last := events[|events| - 1];
      OfWorkspace(events[..|events| - 1], w) + if last.workspaceId == w then [last] else []
  }

  lemma {:induction false} OfWorkspaceConcat(a: seq<TrackingEvent>, b: seq<TrackingEvent>, w: WorkspaceId)
    ensures OfWorkspace(a + b, w) == OfWorkspace(a, w) + OfWorkspace(b, w)
  {
    if b == [] {
      assert a + b == a;
    } else {
      OfWorkspaceConcat(a, b[..|b| - 1], w);
      assert (a + b)[..|a + b| - 1] == a + b[..|b| - 1];
    }
  }

  ghost predicate AllOf(events: seq<TrackingEvent>, w: WorkspaceId) {
    forall e <- events :: e.workspaceId == w
  }

  lemma {:induction false} OfWorkspaceAll(events: seq<TrackingEvent>, owner: WorkspaceId, w: WorkspaceId)
    requires AllOf(events, owner)
    ensures OfWorkspace(events, w) == if w == owner then events else []
  {
    if events != [] {
      var front, last := events[..|events| - 1], events[|events| - 1];
      assert last in events && AllOf(front, owner);
      OfWorkspaceAll(front, owner, w);
      OneMoreOf(front, last, w);
      assert events == front + [last];
    }
  }

  lemma OneMoreOf(events: seq<TrackingEvent>, e: TrackingEvent, w: WorkspaceId)
    ensures OfWorkspace(events + [e], w) == OfWorkspace(events, w) + if e.workspaceId == w then [e] else []
  {
    assert (events + [e])[..|events|] == events;
  }

  lemma {:induction false} OfWorkspaceMembers(events: seq<TrackingEvent>, w: WorkspaceId)
    ensures AllOf(OfWorkspace(events, w), w)
    ensures OfWorkspace(events, w) == [] <==> forall e <- events :: e.workspaceId != w
  {
    if events != [] {
      var front, last := events[..|events| - 1], events[|events| - 1];
      OfWorkspaceMembers(front, w);
      assert events == front + [last];
      assert OfWorkspace(events, w) == OfWorkspace(front, w) + if last.workspaceId == w then [last] else [];
    }
  }
}
