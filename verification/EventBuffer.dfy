/** `EventBufferService`: the class that the transition system of `BufferProtocol` specifies. */
module EventBuffer {
  import opened Events
  import P = BufferProtocol

  const DEFAULT_MAX_RETAINED_EVENTS: nat := 50_000

  /** The workspaces of a batch, in order of first appearance. */
  function FirstSeen(events: seq<TrackingEvent>): seq<WorkspaceId> {
    if events == [] then []
    else
      var before := FirstSeen(events[..|events| - 1]);
      var w := events[|events| - 1].workspaceId;
      if w in before then before else before + [w]
  }

  function GroupsFor(order: seq<WorkspaceId>, events: seq<TrackingEvent>): seq<seq<TrackingEvent>> {
    seq(|order|, i requires 0 <= i < |order| => OfWorkspace(events, order[i]))
  }

  function Flatten(groups: seq<seq<TrackingEvent>>): seq<TrackingEvent> {
    if groups == [] then [] else Flatten(groups[..|groups| - 1]) + groups[|groups| - 1]
  }

  /** A batch regrouped by workspace: the order in which `addBatch` hands it to `add`. */
  function Regroup(events: seq<TrackingEvent>): seq<TrackingEvent> {
    Flatten(GroupsFor(FirstSeen(events), events))
  }

  lemma {:induction false} FirstSeenListsEach(events: seq<TrackingEvent>)
    ensures var order := FirstSeen(events);
            && (forall i, j | 0 <= i < j < |order| :: order[i] != order[j])
            && (forall e <- events :: e.workspaceId in order)
  {
    if events != [] {
      FirstSeenListsEach(events[..|events| - 1]);
      assert events == events[..|events| - 1] + [events[|events| - 1]];
    }
  }

  lemma {:induction false} FlattenGroups(order: seq<WorkspaceId>, events: seq<TrackingEvent>)
    requires order != []
    ensures var n := |order| - 1;
            Flatten(GroupsFor(order, events)) == Flatten(GroupsFor(order[..n], events)) + OfWorkspace(events, order[n])
  {
    assert GroupsFor(order, events)[..|order| - 1] == GroupsFor(order[..|order| - 1], events);
  }

  lemma {:induction false} GroupsForEach(order: seq<WorkspaceId>, events: seq<TrackingEvent>, w: WorkspaceId)
    requires forall i, j | 0 <= i < j < |order| :: order[i] != order[j]
    ensures OfWorkspace(Flatten(GroupsFor(order, events)), w) == if w in order then OfWorkspace(events, w) else []
  {
    if order != [] {
      var front, last := order[..|order| - 1], order[|order| - 1];
      assert last !in front && (w in order <==> w in front || w == last);
      GroupsForEach(front, events, w);
      FlattenGroups(order, events);
      OfWorkspaceConcat(Flatten(GroupsFor(front, events)), OfWorkspace(events, last), w);
      GroupOfOther(events, last, w);
    }
  }

  lemma {:induction false} GroupOfOther(events: seq<TrackingEvent>, v: WorkspaceId, w: WorkspaceId)
    ensures OfWorkspace(OfWorkspace(events, v), w) == if w == v then OfWorkspace(events, v) else []
  {
    OfWorkspaceMembers(events, v);
    OfWorkspaceAll(OfWorkspace(events, v), v, w);
  }

  lemma {:induction false} FirstSeenOccurs(events: seq<TrackingEvent>, w: WorkspaceId)
    ensures w in FirstSeen(events) <==> exists k | 0 <= k < |events| :: events[k].workspaceId == w
  {
    if events != [] {
      var n := |events| - 1;
      FirstSeenOccurs(events[..n], w);
      if k :| 0 <= k < |events| && events[k].workspaceId == w && k < n {
        assert events[..n][k].workspaceId == w;
      }
    }
  }

  /** The workspaces are listed in the order in which they first appear. */
  lemma {:induction false} FirstSeenInOrder(events: seq<TrackingEvent>, i: nat, j: nat)
    requires i < j < |FirstSeen(events)|
    ensures exists k | 0 <= k < |events| ::
              events[k].workspaceId == FirstSeen(events)[i]
              && forall m | 0 <= m <= k :: events[m].workspaceId != FirstSeen(events)[j]
  {
    var n := |events| - 1;
    var before, order := FirstSeen(events[..n]), FirstSeen(events);
    if j < |before| {
      FirstSeenInOrder(events[..n], i, j);
      var k :| 0 <= k < n && events[..n][k].workspaceId == order[i]
               && forall m | 0 <= m <= k :: events[..n][m].workspaceId != order[j];
      assert events[k].workspaceId == order[i] && forall m | 0 <= m <= k :: events[m] == events[..n][m];
    } else {
      FirstSeenOccurs(events[..n], order[i]);
      FirstSeenOccurs(events[..n], order[j]);
      assert order[i] in before;
      var k :| 0 <= k < n && events[..n][k].workspaceId == order[i];
      assert events[k].workspaceId == order[i] && forall m | 0 <= m <= k :: events[m] == events[..n][m];
    }
  }

  /** Regrouping keeps every workspace's events, all of them, in their order. */
  lemma RegroupKeepsEachWorkspace(events: seq<TrackingEvent>, w: WorkspaceId)
    ensures OfWorkspace(Regroup(events), w) == OfWorkspace(events, w)
  {
    FirstSeenListsEach(events);
    GroupsForEach(FirstSeen(events), events, w);
    OfWorkspaceMembers(events, w);
  }

  // ----- Adding without interleaved callers -----

  /** Adding `e` starts an insert. */
  predicate Starts(s: P.Buffers, e: TrackingEvent) {
    |P.Add(s, e).pending| > |s.pending|
  }

  /** `add` awaited: the insert it starts, if any, settles before the next event is added. */
  function AddSettled(s: P.Buffers, e: TrackingEvent, inserted: bool, cap: P.Cap): P.Buffers {
    var t := P.Add(s, e);
    if !Starts(s, e) then t
    else if inserted then P.InsertSucceeds(t, |s.pending|)
    else P.InsertFails(t, |s.pending|, cap)
  }

  // The new state, and whether the call threw.
  type Adder = (P.Buffers, TrackingEvent, bool) -> (P.Buffers, bool)

  function Adding(cap: P.Cap): Adder {
    (s, e, inserted) => (AddSettled(s, e, inserted, cap), Starts(s, e) && !inserted)
  }

  datatype Progress = Progress(buffers: P.Buffers, threw: bool, count: nat)

  /** One event after the other, until a call throws; `settles(k)` is the fate of an insert started by event `k`. */
  function AddUntilThrow(add: Adder, s: P.Buffers, events: seq<TrackingEvent>, start: nat,
                         settles: nat -> bool): Progress {
    if events == [] then Progress(s, false, 0)
    else
      var n := |events| - 1;
      var before := AddUntilThrow(add, s, events[..n], start, settles);
      if before.threw then before
      else
        var (after, threw) := add(before.buffers, events[n], settles(start + n));
        Progress(after, threw, n + 1)
  }

  lemma {:induction false} CountWithoutThrow(add: Adder, s: P.Buffers, events: seq<TrackingEvent>, start: nat,
                                             settles: nat -> bool)
    ensures var r := AddUntilThrow(add, s, events, start, settles);
            && r.count <= |events| && (!r.threw ==> r.count == |events|) && (r.threw ==> r.count > 0)
  {
    if events != [] {
      CountWithoutThrow(add, s, events[..|events| - 1], start, settles);
    }
  }

  /** Adding a batch in two parts, the second one unless the first has thrown. */
  lemma {:induction false} AddInTwoParts(add: Adder, s: P.Buffers, a: seq<TrackingEvent>, b: seq<TrackingEvent>,
                                         start: nat, settles: nat -> bool)
    ensures var first := AddUntilThrow(add, s, a, start, settles);
            var second := AddUntilThrow(add, first.buffers, b, start + |a|, settles);
            AddUntilThrow(add, s, a + b, start, settles)
            == if first.threw then first else Progress(second.buffers, second.threw, |a| + second.count)
  {
    CountWithoutThrow(add, s, a, start, settles);
    if b == [] {
      assert a + b == a;
    } else {
      AddInTwoParts(add, s, a, b[..|b| - 1], start, settles);
      assert (a + b)[..|a + b| - 1] == a + b[..|b| - 1];
    }
  }

  lemma ThrowIsFinal(add: Adder, s: P.Buffers, part: seq<TrackingEvent>, events: seq<TrackingEvent>, start: nat,
                     settles: nat -> bool)
    requires part <= events && AddUntilThrow(add, s, part, start, settles).threw
    ensures AddUntilThrow(add, s, events, start, settles) == AddUntilThrow(add, s, part, start, settles)
  {
    assert events == part + events[|part|..];
    AddInTwoParts(add, s, part, events[|part|..], start, settles);
  }

  lemma OneMoreAdd(add: Adder, s: P.Buffers, events: seq<TrackingEvent>, n: nat, start: nat, settles: nat -> bool)
    requires n < |events| && !AddUntilThrow(add, s, events[..n], start, settles).threw
    ensures var (after, threw) := add(AddUntilThrow(add, s, events[..n], start, settles).buffers, events[n],
                                      settles(start + n));
            && AddUntilThrow(add, s, events[..n + 1], start, settles) == Progress(after, threw, n + 1)
            && (threw ==> AddUntilThrow(add, s, events, start, settles) == Progress(after, threw, n + 1))
  {
    assert events[..n + 1][..n] == events[..n];
    if AddUntilThrow(add, s, events[..n + 1], start, settles).threw {
      ThrowIsFinal(add, s, events[..n + 1], events, start, settles);
    }
  }

  class EventBufferService {
    var buffers: map<WorkspaceId, seq<TrackingEvent>>
    var flushTimers: set<WorkspaceId>
    var flushingWorkspaces: set<WorkspaceId>
    var droppedEvents: nat
    const maxRetainedEvents: P.Cap

    // History of the run, and the inserts whose outcome is not known yet.
    ghost var pending: seq<P.Insert>
    ghost var accepted: seq<TrackingEvent>
    ghost var fates: seq<P.Fate>

    ghost function View(): P.Buffers
      reads this
    {
      P.Buffers(buffers, flushTimers, flushingWorkspaces, droppedEvents, pending, accepted, fates)
    }

    ghost predicate Valid()
      reads this
    {
      P.Inv(View())
    }

    /** `configured` is the environment override, if it parses as an integer. */
    constructor (configured: Option<int>)
      ensures Valid() && View() == P.EMPTY
      ensures maxRetainedEvents
           == if configured.Some? && configured.value > 0 then configured.value else DEFAULT_MAX_RETAINED_EVENTS
    {
      buffers, flushTimers, flushingWorkspaces, droppedEvents := map[], {}, {}, 0;
      pending, accepted, fates := [], [], [];
      maxRetainedEvents :=
        if configured.Some? && configured.value > 0 then configured.value else DEFAULT_MAX_RETAINED_EVENTS;
      new;
      assert forall w :: P.Conserved(P.EMPTY, w);
    }

    method StartFlushTimer(workspaceId: WorkspaceId)
      modifies this`flushTimers
      ensures flushTimers == old(flushTimers) + {workspaceId}
    {
      if workspaceId in flushTimers {
        return;
      }
      flushTimers := flushTimers + {workspaceId};
    }

    method StopFlushTimer(workspaceId: WorkspaceId)
      modifies this`flushTimers
      ensures flushTimers == old(flushTimers) - {workspaceId}
    {
      if workspaceId in flushTimers {
        flushTimers := flushTimers - {workspaceId};
      }
    }

    /** Up to the insert: the returned batch is what is sent to ClickHouse, empty if nothing is. */
    method Flush(workspaceId: WorkspaceId) returns (eventsToFlush: seq<TrackingEvent>)
      requires Valid()
      modifies this
      ensures Valid() && View() == P.Flush(old(View()), workspaceId)
      ensures if eventsToFlush == [] then pending == old(pending)
              else pending == old(pending) + [P.Insert(workspaceId, eventsToFlush)]
    {
      P.FlushKeepsInv(View(), workspaceId);
      StopFlushTimer(workspaceId);
      if workspaceId !in buffers || buffers[workspaceId] == [] || workspaceId in flushingWorkspaces {
        return [];
      }
      flushingWorkspaces := flushingWorkspaces + {workspaceId};
      eventsToFlush := buffers[workspaceId];
      buffers := buffers[workspaceId := []];
      pending := pending + [P.Insert(workspaceId, eventsToFlush)];
    }

    /** Up to the inserts: `order` lists the workspaces that have a buffer, as the map iterates. */
    method OnModuleDestroy(order: seq<WorkspaceId>)
      requires Valid() && forall w :: w in order <==> w in buffers
      modifies this
      ensures Valid() && View() == P.ShutDown(old(View()), order)
    {
      P.StoppedKeepsInv(View());
      StopAllTimers();
      ghost var stopped := View();
      for i := 0 to |order|
        invariant Valid() && View() == P.FlushEach(stopped, order[..i])
      {
        assert order[..i + 1][..i] == order[..i];
        var _ := Flush(order[i]);
      }
      assert order[..|order|] == order;
    }

    method StopAllTimers()
      modifies this`flushTimers
      ensures flushTimers == {}
    {
      while flushTimers != {}
        decreases flushTimers
      {
        var workspaceId :| workspaceId in flushTimers;
        StopFlushTimer(workspaceId);
      }
    }

    /** A failed batch goes back in front of its queue; what exceeds the cap is dropped, the oldest first. */
    method Requeue(workspaceId: WorkspaceId, eventsToFlush: seq<TrackingEvent>)
      modifies this`buffers, this`flushTimers, this`droppedEvents, this`fates
      ensures var merged := eventsToFlush + old(View()).Queue(workspaceId);
              var lost := P.Overflow(merged, maxRetainedEvents);
              && buffers == old(buffers)[workspaceId := merged[lost..]]
              && flushTimers == (if merged[lost..] != [] then old(flushTimers) + {workspaceId} else old(flushTimers))
              && droppedEvents == old(droppedEvents) + lost
              && fates == old(fates) + P.FatesOf(merged[..lost], false)
    {
      var currentBuffer := if workspaceId in buffers then buffers[workspaceId] else [];
      var merged := eventsToFlush + currentBuffer;
      ghost var everything := merged;
      var dropped := 0;
      if |merged| > maxRetainedEvents {
        dropped := |merged| - maxRetainedEvents;
        merged := merged[dropped..];
        droppedEvents := droppedEvents + dropped;
      }
      buffers := buffers[workspaceId := merged];
      if |merged| > 0 {
        StartFlushTimer(workspaceId);
      }
      fates := fates + P.FatesOf(everything[..dropped], false);
    }

    /** After the insert: the continuation of the flush that sent `eventsToFlush`. */
    method FinishFlush(workspaceId: WorkspaceId, eventsToFlush: seq<TrackingEvent>, inserted: bool, ghost i: nat)
      requires Valid()
      requires i < |pending| && pending[i] == P.Insert(workspaceId, eventsToFlush)
      modifies this
      ensures Valid()
      ensures View() == if inserted then P.InsertSucceeds(old(View()), i)
                        else P.InsertFails(old(View()), i, maxRetainedEvents)
    {
      if inserted {
        FlushSucceeded(workspaceId, eventsToFlush, i);
      } else {
        FlushFailed(workspaceId, eventsToFlush, i);
      }
    }

    method FlushSucceeded(workspaceId: WorkspaceId, eventsToFlush: seq<TrackingEvent>, ghost i: nat)
      requires Valid()
      requires i < |pending| && pending[i] == P.Insert(workspaceId, eventsToFlush)
      modifies this`flushingWorkspaces, this`pending, this`fates
      ensures Valid() && View() == P.InsertSucceeds(old(View()), i)
    {
      P.SucceedKeepsInv(View(), i);
      ghost var after := P.InsertSucceeds(View(), i);
      flushingWorkspaces, pending, fates :=
        flushingWorkspaces - {workspaceId}, P.Without(pending, i), fates + P.FatesOf(eventsToFlush, true);
      assert View() == after;
    }

    method FlushFailed(workspaceId: WorkspaceId, eventsToFlush: seq<TrackingEvent>, ghost i: nat)
      requires Valid()
      requires i < |pending| && pending[i] == P.Insert(workspaceId, eventsToFlush)
      modifies this
      ensures Valid() && View() == P.InsertFails(old(View()), i, maxRetainedEvents)
    {
      P.FailKeepsInv(View(), i, maxRetainedEvents);
      ghost var after := P.InsertFails(View(), i, maxRetainedEvents);
      Requeue(workspaceId, eventsToFlush);
      flushingWorkspaces, pending := flushingWorkspaces - {workspaceId}, P.Without(pending, i);
      assert View() == after;
    }

    /** Up to the insert, if reaching the size threshold starts one. */
    method Add(event: TrackingEvent) returns (eventsToFlush: seq<TrackingEvent>)
      requires Valid()
      modifies this
      ensures Valid() && View() == P.Add(old(View()), event)
      ensures if eventsToFlush == [] then pending == old(pending)
              else pending == old(pending) + [P.Insert(event.workspaceId, eventsToFlush)]
    {
      ghost var before := View();
      P.AddKeepsInv(before, event);
      var workspaceId := event.workspaceId;
      if workspaceId !in buffers {
        buffers := buffers[workspaceId := []];
      }
      var buffer := buffers[workspaceId] + [event];
      buffers := buffers[workspaceId := buffer];
      accepted := accepted + [event];
      if |buffer| == 1 {
        StartFlushTimer(workspaceId);
      }
      eventsToFlush := [];
      assert View().queues == before.queues[workspaceId := before.Queue(workspaceId) + [event]];
      if |buffer| >= P.MAX_BUFFER_SIZE {
        P.PushKeepsInv(before, event);
        eventsToFlush := Flush(workspaceId);
      }
    }

    /** `await add(event)` with no other caller running: a started insert settles before it returns. */
    method AddAndWait(event: TrackingEvent, inserted: bool) returns (threw: bool)
      requires Valid()
      modifies this
      ensures Valid()
      ensures (View(), threw) == Adding(maxRetainedEvents)(old(View()), event, inserted)
      ensures pending == old(pending) && accepted == old(accepted) + [event]
      ensures if threw then !inserted && Rearmed(View(), event.workspaceId) else Clean(old(View()), View())
    {
      AddingAccepts(maxRetainedEvents);
      AddingIsClean(maxRetainedEvents);
      ghost var after := Adding(maxRetainedEvents)(old(View()), event, inserted);
      assert Accepted(old(View()), event, inserted, after) && CleanStep(old(View()), inserted, after);
      var batch := Add(event);
      threw := false;
      if batch != [] {
        FinishFlush(event.workspaceId, batch, inserted, |old(pending)|);
        threw := !inserted;
      }
    }

    /** The inner loop of `addBatch`: one workspace's events, until a flush throws. */
    method AddGroup(group: seq<TrackingEvent>, start: nat, settles: nat -> bool) returns (threw: bool, added: nat)
      requires Valid()
      modifies this
      ensures Valid()
      ensures Progress(View(), threw, added)
            == AddUntilThrow(Adding(maxRetainedEvents), old(View()), group, start, settles)
    {
      threw, added := false, 0;
      while added < |group|
        invariant Valid() && added <= |group| && !threw
        invariant Progress(View(), threw, added)
                == AddUntilThrow(Adding(maxRetainedEvents), old(View()), group[..added], start, settles)
      {
        OneMoreAdd(Adding(maxRetainedEvents), old(View()), group, added, start, settles);
        threw := AddAndWait(group[added], settles(start + added));
        added := added + 1;
        if threw {
          return;
        }
      }
      assert group[..added] == group;
    }

    /**
     `settles(k)` tells whether an insert started by the k-th event succeeds. The batch is accepted
     regrouped by workspace; a failing flush stops it right after the event that started it.
     */
    method AddBatch(events: seq<TrackingEvent>, settles: nat -> bool) returns (threw: bool, count: nat)
      requires Valid()
      modifies this
      ensures Valid()
      ensures Progress(View(), threw, count)
            == AddUntilThrow(Adding(maxRetainedEvents), old(View()), Regroup(events), 0, settles)
      ensures pending == old(pending)
      ensures count <= |Regroup(events)| && accepted == old(accepted) + Regroup(events)[..count]
      ensures !threw ==> count == |Regroup(events)|
      ensures threw ==> count > 0 && !settles(count - 1)
      ensures if threw then Rearmed(View(), Regroup(events)[count - 1].workspaceId) else Clean(old(View()), View())
      ensures IsRun(old(View()), View(), Regroup(events)[..count], 0, settles, maxRetainedEvents)
    {
      var groups := GroupByWorkspace(events);
      threw, count := AddGroups(groups, settles);
      BatchEnds(old(View()), Regroup(events), settles, maxRetainedEvents);
    }

    method AddGroups(groups: seq<seq<TrackingEvent>>, settles: nat -> bool) returns (threw: bool, count: nat)
      requires Valid()
      modifies this
      ensures Valid()
      ensures Progress(View(), threw, count)
            == AddUntilThrow(Adding(maxRetainedEvents), old(View()), Flatten(groups), 0, settles)
    {
      threw, count := false, 0;
      for k := 0 to |groups|
        invariant Valid() && !threw && count == |Flatten(groups[..k])|
        invariant Progress(View(), threw, count)
                == AddUntilThrow(Adding(maxRetainedEvents), old(View()), Flatten(groups[..k]), 0, settles)
      {
        var added;
        threw, added := AddGroup(groups[k], count, settles);
        NextGroup(Adding(maxRetainedEvents), old(View()), groups, k, settles);
        count := count + added;
        if threw {
          return;
        }
      }
      assert groups[..|groups|] == groups;
    }
  }

  /** Without a throw so far, the progress after group `k` is that of the group; a throw ends the batch. */
  lemma NextGroup(add: Adder, s: P.Buffers, groups: seq<seq<TrackingEvent>>, k: nat, settles: nat -> bool)
    requires k < |groups| && !AddUntilThrow(add, s, Flatten(groups[..k]), 0, settles).threw
    ensures var before := AddUntilThrow(add, s, Flatten(groups[..k]), 0, settles);
            var group := AddUntilThrow(add, before.buffers, groups[k], |Flatten(groups[..k])|, settles);
            var after := AddUntilThrow(add, s, Flatten(groups[..k + 1]), 0, settles);
            && after == Progress(group.buffers, group.threw, |Flatten(groups[..k])| + group.count)
            && (group.threw ==> AddUntilThrow(add, s, Flatten(groups), 0, settles) == after)
            && (!group.threw ==> after.count == |Flatten(groups[..k + 1])|)
  {
    var done, whole := Flatten(groups[..k]), Flatten(groups[..k + 1]);
    assert whole == done + groups[k] by {
      assert groups[..k + 1][..k] == groups[..k];
    }
    AddInTwoParts(add, s, done, groups[k], 0, settles);
    CountWithoutThrow(add, s, whole, 0, settles);
    FlattenPrefix(groups, k + 1);
    if AddUntilThrow(add, s, whole, 0, settles).threw {
      ThrowIsFinal(add, s, whole, Flatten(groups), 0, settles);
    }
  }

  lemma SettledLeavesNoInsert(s: P.Buffers, e: TrackingEvent, inserted: bool, cap: P.Cap)
    ensures var t := AddSettled(s, e, inserted, cap);
            && t.pending == s.pending && t.accepted == s.accepted + [e]
            && (Starts(s, e) && !inserted ==> e.workspaceId in t.timers && e.workspaceId !in t.flushing)
  {
    var t := P.Add(s, e);
    if Starts(s, e) {
      assert P.Without(t.pending, |s.pending|) == s.pending;
    }
  }

  /** Every call accepts its event and leaves no insert running; one that throws leaves a timer armed. */
  ghost predicate Accepts(add: Adder) {
    forall s, e, inserted :: Accepted(s, e, inserted, add(s, e, inserted))
  }

  ghost predicate Accepted(s: P.Buffers, e: TrackingEvent, inserted: bool, after: (P.Buffers, bool)) {
    && after.0.pending == s.pending && after.0.accepted == s.accepted + [e]
    && (after.1 ==> !inserted && Rearmed(after.0, e.workspaceId))
  }

  lemma AddingAccepts(cap: P.Cap)
    ensures Accepts(Adding(cap))
  {
    forall s, e, inserted ensures Accepted(s, e, inserted, Adding(cap)(s, e, inserted)) {
      SettledLeavesNoInsert(s, e, inserted, cap);
    }
  }

  /**
   A batch is accepted up to the event whose flush throws, that event included. A throw leaves the
   workspace of that event with its timer armed for the retry, and no insert running.
   */
  lemma {:induction false} BatchIsAccepted(add: Adder, s: P.Buffers, events: seq<TrackingEvent>, start: nat,
                                           settles: nat -> bool)
    requires Accepts(add)
    ensures var r := AddUntilThrow(add, s, events, start, settles);
            && r.count <= |events| && r.buffers.pending == s.pending
            && r.buffers.accepted == s.accepted + events[..r.count]
            && (!r.threw ==> r.count == |events|)
            && (r.threw ==> r.count > 0 && !settles(start + r.count - 1)
                            && Rearmed(r.buffers, events[r.count - 1].workspaceId))
  {
    if events != [] {
      var n := |events| - 1;
      BatchIsAccepted(add, s, events[..n], start, settles);
      var before := AddUntilThrow(add, s, events[..n], start, settles);
      assert events[..n][..before.count] == events[..before.count];
      if !before.threw {
        assert Accepted(before.buffers, events[n], settles(start + n),
                        add(before.buffers, events[n], settles(start + n)));
        assert events[..n] + [events[n]] == events == events[..n + 1];
      }
    }
  }

  // ----- A batch is a run of the protocol -----

  /** What joined the fates was inserted, nothing was dropped. */
  ghost predicate AddsInserted(before: P.Buffers, after: P.Buffers) {
    && after.droppedEvents == before.droppedEvents && before.fates <= after.fates
    && forall i | |before.fates| <= i < |after.fates| :: after.fates[i].inserted
  }

  /** No queue that a flush could have taken has reached the threshold. */
  ghost predicate StaysBelow(before: P.Buffers, after: P.Buffers) {
    && after.flushing == before.flushing
    && forall w | |before.Queue(w)| < 500 && w !in before.flushing :: |after.Queue(w)| < 500
  }

  ghost predicate Clean(before: P.Buffers, after: P.Buffers) {
    AddsInserted(before, after) && StaysBelow(before, after)
  }

  lemma CleanTwice(a: P.Buffers, b: P.Buffers, c: P.Buffers)
    requires Clean(a, b) && Clean(b, c)
    ensures Clean(a, c)
  {
  }

  ghost predicate CleanUnlessThrown(add: Adder) {
    forall s, e, inserted :: CleanStep(s, inserted, add(s, e, inserted))
  }

  ghost predicate CleanStep(s: P.Buffers, inserted: bool, after: (P.Buffers, bool)) {
    inserted || !after.1 ==> Clean(s, after.0)
  }

  lemma StartsExactly(s: P.Buffers, e: TrackingEvent)
    ensures Starts(s, e) <==> |s.Queue(e.workspaceId)| + 1 >= 500 && e.workspaceId !in s.flushing
  {
  }

  lemma AddingIsClean(cap: P.Cap)
    ensures CleanUnlessThrown(Adding(cap))
  {
    forall s, e, inserted ensures CleanStep(s, inserted, Adding(cap)(s, e, inserted)) {
      if inserted || !Adding(cap)(s, e, inserted).1 {
        SettledIsClean(s, e, inserted, cap);
      }
    }
  }

  lemma SettledIsClean(s: P.Buffers, e: TrackingEvent, inserted: bool, cap: P.Cap)
    requires Starts(s, e) ==> inserted
    ensures Clean(s, AddSettled(s, e, inserted, cap))
  {
    StartsExactly(s, e);
    if Starts(s, e) {
      InsertedLeaves(s, e);
      assert AddSettled(s, e, inserted, cap) == P.InsertSucceeds(P.Add(s, e), |s.pending|);
    } else {
      assert AddSettled(s, e, inserted, cap) == P.Add(s, e);
      UnstartedLeaves(s, e);
    }
  }

  /** After a successful insert the queue is empty, and its events are inserted. */
  lemma InsertedLeaves(s: P.Buffers, e: TrackingEvent)
    requires Starts(s, e)
    ensures var w, t := e.workspaceId, P.InsertSucceeds(P.Add(s, e), |s.pending|);
            && t.flushing == s.flushing && t.droppedEvents == s.droppedEvents
            && t.Queue(w) == [] && (forall v | v != w :: t.Queue(v) == s.Queue(v))
            && t.fates == s.fates + P.FatesOf(s.Queue(w) + [e], true)
  {
    StartsExactly(s, e);
    var w, t := e.workspaceId, P.Add(s, e);
    assert t.pending[|s.pending|] == P.Insert(w, s.Queue(w) + [e]);
    assert (s.flushing + {w}) - {w} == s.flushing;
  }

  lemma UnstartedLeaves(s: P.Buffers, e: TrackingEvent)
    requires !Starts(s, e)
    ensures var w, t := e.workspaceId, P.Add(s, e);
            && t.flushing == s.flushing && t.droppedEvents == s.droppedEvents && t.fates == s.fates
            && t.Queue(w) == s.Queue(w) + [e] && (forall v | v != w :: t.Queue(v) == s.Queue(v))
  {
    StartsExactly(s, e);
  }

  lemma {:induction false} BatchIsClean(add: Adder, s: P.Buffers, events: seq<TrackingEvent>, start: nat,
                                        settles: nat -> bool)
    requires CleanUnlessThrown(add)
    ensures var r := AddUntilThrow(add, s, events, start, settles); !r.threw ==> Clean(s, r.buffers)
  {
    if events != [] {
      var n := |events| - 1;
      BatchIsClean(add, s, events[..n], start, settles);
      var before := AddUntilThrow(add, s, events[..n], start, settles);
      if !AddUntilThrow(add, s, events, start, settles).threw {
        assert CleanStep(before.buffers, settles(start + n), add(before.buffers, events[n], settles(start + n)));
        CleanTwice(s, before.buffers, add(before.buffers, events[n], settles(start + n)).0);
      }
    }
  }

  /** The events are accepted one by one, and an insert that one of them starts ends as `settles` says. */
  ghost predicate Settling(actions: seq<P.Action>, events: seq<TrackingEvent>, start: nat, settles: nat -> bool)
    decreases |events|
  {
    if events == [] then actions == []
    else
      var n, m := |events| - 1, |actions| - 1;
      || (m >= 0 && actions[m] == P.Accept(events[n]) && Settling(actions[..m], events[..n], start, settles))
      || (m >= 1 && actions[m - 1] == P.Accept(events[n]) && Settling(actions[..m - 1], events[..n], start, settles)
          && if settles(start + n) then actions[m].Succeed? else actions[m].Fail?)
  }

  /** A run of the protocol leads from `s` to `t`: it accepts `events`, and its inserts end as `settles` says. */
  ghost predicate IsRun(s: P.Buffers, t: P.Buffers, events: seq<TrackingEvent>, start: nat, settles: nat -> bool,
                        cap: P.Cap) {
    exists actions: seq<P.Action> ::
      P.Run(s, actions, cap) && P.After(s, actions, cap) == t && Settling(actions, events, start, settles)
  }

  lemma BatchEnds(s: P.Buffers, events: seq<TrackingEvent>, settles: nat -> bool, cap: P.Cap)
    ensures var r := AddUntilThrow(Adding(cap), s, events, 0, settles);
            && r.count <= |events| && r.buffers.pending == s.pending
            && r.buffers.accepted == s.accepted + events[..r.count]
            && (!r.threw ==> r.count == |events| && Clean(s, r.buffers))
            && (r.threw ==> r.count > 0 && !settles(r.count - 1) && Rearmed(r.buffers, events[r.count - 1].workspaceId))
            && IsRun(s, r.buffers, events[..r.count], 0, settles, cap)
  {
    AddingAccepts(cap);
    BatchIsAccepted(Adding(cap), s, events, 0, settles);
    AddingIsClean(cap);
    BatchIsClean(Adding(cap), s, events, 0, settles);
    BatchIsRun(s, events, 0, settles, cap);
  }

  function Doing(s: P.Buffers, e: TrackingEvent, inserted: bool): seq<P.Action> {
    if !Starts(s, e) then [P.Accept(e)]
    else [P.Accept(e), if inserted then P.Succeed(|s.pending|) else P.Fail(|s.pending|)]
  }

  lemma AddIsRun(s: P.Buffers, e: TrackingEvent, inserted: bool, cap: P.Cap)
    ensures P.Run(s, Doing(s, e, inserted), cap)
    ensures P.After(s, Doing(s, e, inserted), cap) == AddSettled(s, e, inserted, cap)
  {
    var actions := Doing(s, e, inserted);
    if Starts(s, e) {
      var t := P.Add(s, e);
      assert actions[2..] == [] && actions[0..] == actions;
      assert |t.pending| == |s.pending| + 1;
      P.RunFrom(t, actions, 1, cap);
      P.RunFrom(s, actions, 0, cap);
    } else {
      assert actions[1..] == [];
    }
  }

  lemma RunOneMore(s: P.Buffers, actions: seq<P.Action>, e: TrackingEvent, inserted: bool, cap: P.Cap)
    requires P.Run(s, actions, cap)
    ensures var before := P.After(s, actions, cap);
            && P.Run(s, actions + Doing(before, e, inserted), cap)
            && P.After(s, actions + Doing(before, e, inserted), cap) == AddSettled(before, e, inserted, cap)
  {
    AddIsRun(P.After(s, actions, cap), e, inserted, cap);
    P.RunConcat(s, actions, Doing(P.After(s, actions, cap), e, inserted), cap);
  }

  lemma {:induction false} OneMoreRun(s: P.Buffers, t: P.Buffers, events: seq<TrackingEvent>, start: nat,
                                      settles: nat -> bool, cap: P.Cap)
    requires events != [] && IsRun(s, t, events[..|events| - 1], start, settles, cap)
    ensures var n := |events| - 1;
            IsRun(s, AddSettled(t, events[n], settles(start + n), cap), events, start, settles, cap)
  {
    var n := |events| - 1;
    var actions: seq<P.Action> :| P.Run(s, actions, cap) && P.After(s, actions, cap) == t
                                  && Settling(actions, events[..n], start, settles);
    RunOneMore(s, actions, events[n], settles(start + n), cap);
    var more := Doing(t, events[n], settles(start + n));
    OneMoreSettled(actions, more, events, start, settles, t);
    RunShows(s, AddSettled(t, events[n], settles(start + n), cap), actions + more, events, start, settles, cap);
  }

  lemma {:induction false} RunShows(s: P.Buffers, t: P.Buffers, actions: seq<P.Action>, events: seq<TrackingEvent>,
                                    start: nat, settles: nat -> bool, cap: P.Cap)
    requires P.Run(s, actions, cap) && P.After(s, actions, cap) == t && Settling(actions, events, start, settles)
    ensures IsRun(s, t, events, start, settles, cap)
  {
  }

  lemma NoRun(s: P.Buffers, start: nat, settles: nat -> bool, cap: P.Cap)
    ensures IsRun(s, s, [], start, settles, cap)
  {
    assert P.Run(s, [], cap) && P.After(s, [], cap) == s && Settling([], [], start, settles);
  }

  ghost predicate RunsTo(s: P.Buffers, r: Progress, events: seq<TrackingEvent>, start: nat, settles: nat -> bool,
                         cap: P.Cap) {
    r.count <= |events| && IsRun(s, r.buffers, events[..r.count], start, settles, cap)
  }

  lemma {:induction false} ThrownRuns(s: P.Buffers, r: Progress, events: seq<TrackingEvent>, start: nat,
                                      settles: nat -> bool, cap: P.Cap)
    requires events != [] && RunsTo(s, r, events[..|events| - 1], start, settles, cap)
    ensures RunsTo(s, r, events, start, settles, cap)
  {
    assert events[..|events| - 1][..r.count] == events[..r.count];
  }

  lemma {:induction false} RunsOn(s: P.Buffers, t: P.Buffers, events: seq<TrackingEvent>, start: nat,
                                  settles: nat -> bool, cap: P.Cap, threw: bool)
    requires events != [] && IsRun(s, t, events[..|events| - 1], start, settles, cap)
    ensures var n := |events| - 1;
            var after := AddSettled(t, events[n], settles(start + n), cap);
            RunsTo(s, Progress(after, threw, n + 1), events, start, settles, cap)
  {
    assert events[..|events|] == events;
    OneMoreRun(s, t, events, start, settles, cap);
  }

  /** `add`, one event at a time, is a run of the protocol. */
  lemma {:induction false} BatchIsRun(s: P.Buffers, events: seq<TrackingEvent>, start: nat, settles: nat -> bool,
                                      cap: P.Cap)
    ensures RunsTo(s, AddUntilThrow(Adding(cap), s, events, start, settles), events, start, settles, cap)
  {
    if events == [] {
      NoRun(s, start, settles, cap);
    } else {
      var n := |events| - 1;
      var before := AddUntilThrow(Adding(cap), s, events[..n], start, settles);
      BatchIsRun(s, events[..n], start, settles, cap);
      CountWithoutThrow(Adding(cap), s, events[..n], start, settles);
      if before.threw {
        ThrownRuns(s, before, events, start, settles, cap);
      } else {
        assert events[..n][..n] == events[..n];
        var (_, threw) := Adding(cap)(before.buffers, events[n], settles(start + n));
        RunsOn(s, before.buffers, events, start, settles, cap, threw);
      }
    }
  }

  lemma {:induction false} OneMoreAccepted(actions: seq<P.Action>, a: P.Action, events: seq<TrackingEvent>,
                                           start: nat, settles: nat -> bool)
    requires events != [] && Settling(actions, events[..|events| - 1], start, settles)
    requires a == P.Accept(events[|events| - 1])
    ensures Settling(actions + [a], events, start, settles)
  {
    var more := actions + [a];
    assert more[|more| - 1] == a && more[..|more| - 1] == actions;
  }

  lemma {:induction false} OneMoreInserted(actions: seq<P.Action>, a: P.Action, outcome: P.Action,
                                           events: seq<TrackingEvent>, start: nat, settles: nat -> bool)
    requires events != [] && Settling(actions, events[..|events| - 1], start, settles)
    requires a == P.Accept(events[|events| - 1])
    requires if settles(start + |events| - 1) then outcome.Succeed? else outcome.Fail?
    ensures Settling(actions + [a, outcome], events, start, settles)
  {
    var more := actions + [a, outcome];
    assert more[|more| - 1] == outcome && more[|more| - 2] == a && more[..|more| - 2] == actions;
  }

  lemma {:induction false} OneMoreSettled(actions: seq<P.Action>, more: seq<P.Action>, events: seq<TrackingEvent>,
                                          start: nat, settles: nat -> bool, s: P.Buffers)
    requires events != [] && Settling(actions, events[..|events| - 1], start, settles)
    requires more == Doing(s, events[|events| - 1], settles(start + |events| - 1))
    ensures Settling(actions + more, events, start, settles)
  {
    if |more| == 1 {
      OneMoreAccepted(actions, more[0], events, start, settles);
      assert more == [more[0]];
    } else {
      OneMoreInserted(actions, more[0], more[1], events, start, settles);
      assert more == [more[0], more[1]];
    }
  }

  /** What a failed flush leaves: a timer for the retry, and no insert running. */
  ghost predicate Rearmed(s: P.Buffers, w: WorkspaceId) {
    w in s.timers && w !in s.flushing
  }

  /** The first loop of `addBatch`. */
  method CollectGroups(events: seq<TrackingEvent>)
    returns (order: seq<WorkspaceId>, byWorkspace: map<WorkspaceId, seq<TrackingEvent>>)
    ensures Grouped(order, byWorkspace, events)
  {
    order, byWorkspace := [], map[];
    for i := 0 to |events|
      invariant Grouped(order, byWorkspace, events[..i])
    {
      var workspaceId := events[i].workspaceId;
      assert events[..i + 1] == events[..i] + [events[i]];
      OneMoreGrouped(order, byWorkspace, events[..i], events[i]);
      var before := if workspaceId in byWorkspace then byWorkspace[workspaceId] else [];
      if workspaceId !in byWorkspace {
        order := order + [workspaceId];
      }
      byWorkspace := byWorkspace[workspaceId := before + [events[i]]];
    }
    assert events[..|events|] == events;
  }

  /** One group per workspace, in order of first appearance. */
  method GroupByWorkspace(events: seq<TrackingEvent>) returns (groups: seq<seq<TrackingEvent>>)
    ensures groups == GroupsFor(FirstSeen(events), events)
  {
    var order, byWorkspace := CollectGroups(events);
    groups := seq(|order|, i requires 0 <= i < |order| && order[i] in byWorkspace => byWorkspace[order[i]]);
    GroupsAre(order, byWorkspace, events, groups);
  }

  lemma GroupsAre(order: seq<WorkspaceId>, byWorkspace: map<WorkspaceId, seq<TrackingEvent>>,
                  events: seq<TrackingEvent>, groups: seq<seq<TrackingEvent>>)
    requires Grouped(order, byWorkspace, events) && |groups| == |order|
    requires forall i | 0 <= i < |order| :: order[i] in byWorkspace && groups[i] == byWorkspace[order[i]]
    ensures groups == GroupsFor(FirstSeen(events), events)
  {
  }

  /** The groups hold the events seen so far, the workspaces in order of first appearance. */
  ghost predicate Grouped(order: seq<WorkspaceId>, byWorkspace: map<WorkspaceId, seq<TrackingEvent>>,
                          events: seq<TrackingEvent>) {
    && order == FirstSeen(events)
    && (forall w :: w in byWorkspace <==> w in order)
    && (forall w <- byWorkspace :: byWorkspace[w] == OfWorkspace(events, w))
  }

  lemma {:induction false} OneMoreGrouped(order: seq<WorkspaceId>, byWorkspace: map<WorkspaceId, seq<TrackingEvent>>,
                                          events: seq<TrackingEvent>, e: TrackingEvent)
    requires Grouped(order, byWorkspace, events)
    ensures var w := e.workspaceId;
            var before := if w in byWorkspace then byWorkspace[w] else [];
            Grouped(if w in byWorkspace then order else order + [w], byWorkspace[w := before + [e]], events + [e])
  {
    var w := e.workspaceId;
    assert (events + [e])[..|events|] == events;
    if w !in byWorkspace {
      FirstSeenListsEach(events);
      OfWorkspaceMembers(events, w);
    }
    forall v | v in byWorkspace || v == w
      ensures OfWorkspace(events + [e], v) == OfWorkspace(events, v) + if v == w then [e] else []
    {
    }
  }

  lemma {:induction false} FlattenPrefix(groups: seq<seq<TrackingEvent>>, k: nat)
    requires k <= |groups|
    ensures Flatten(groups[..k]) <= Flatten(groups)
  {
    if k < |groups| {
      FlattenPrefix(groups[..|groups| - 1], k);
      assert groups[..|groups| - 1][..k] == groups[..k];
    } else {
      assert groups[..k] == groups;
    }
  }
}
