/**
 The event buffer as a transition system. `flush` has one suspension point, the insert into
 ClickHouse, so a run is any interleaving of four atomic steps: an event is added, a flush is
 asked for (by a timer or by a caller), a pending insert succeeds, a pending insert fails.
 */
module BufferProtocol {
  import opened Events

  const MAX_BUFFER_SIZE: nat := 500

  // The retention cap is a positive integer: anything else in the environment selects the default.
  type Cap = n: nat | n > 0 witness 1

  datatype Insert = Insert(workspaceId: WorkspaceId, batch: seq<TrackingEvent>)
  datatype Fate = Fate(event: TrackingEvent, inserted: bool)

  // `accepted` and `fates` record the history of the run: every event handed to `add`, and
  // every event that left the buffer for good, inserted or dropped.
  datatype Buffers = Buffers(
    queues: map<WorkspaceId, seq<TrackingEvent>>,
    timers: set<WorkspaceId>,
    flushing: set<WorkspaceId>,
    droppedEvents: nat,
    pending: seq<Insert>,
    accepted: seq<TrackingEvent>,
    fates: seq<Fate>)
  {
    function Queue(w: WorkspaceId): seq<TrackingEvent> {
      if w in queues then queues[w] else []
    }
  }

  const EMPTY := Buffers(map[], {}, {}, 0, [], [], [])

  function Flush(s: Buffers, w: WorkspaceId): Buffers {
    var stopped := s.(timers := s.timers - {w});
    var queue := s.Queue(w);
    if queue == [] || w in s.flushing then stopped
    else stopped.(flushing := s.flushing + {w},
                  queues := s.queues[w := []],
                  pending := s.pending + [Insert(w, queue)])
  }

  /** The event joins its queue; the first one in a queue arms the timer. */
  function Push(s: Buffers, e: TrackingEvent): Buffers {
    var w := e.workspaceId;
    var queue := s.Queue(w) + [e];
    s.(queues := s.queues[w := queue],
       timers := if |queue| == 1 then s.timers + {w} else s.timers,
       accepted := s.accepted + [e])
  }

  function Add(s: Buffers, e: TrackingEvent): Buffers {
    var pushed := Push(s, e);
    if |pushed.Queue(e.workspaceId)| >= MAX_BUFFER_SIZE then Flush(pushed, e.workspaceId) else pushed
  }

  function Overflow(merged: seq<TrackingEvent>, cap: Cap): (lost: nat)
    ensures lost <= |merged|
  {
    if |merged| > cap then |merged| - cap else 0
  }

  function FatesOf(events: seq<TrackingEvent>, inserted: bool): seq<Fate> {
    seq(|events|, i requires 0 <= i < |events| => Fate(events[i], inserted))
  }

  function Without(pending: seq<Insert>, i: nat): seq<Insert>
    requires i < |pending|
  {
    pending[..i] + pending[i + 1..]
  }

  function InsertSucceeds(s: Buffers, i: nat): Buffers
    requires i < |s.pending|
  {
    s.(pending := Without(s.pending, i),
       flushing := s.flushing - {s.pending[i].workspaceId},
       fates := s.fates + FatesOf(s.pending[i].batch, true))
  }

  function InsertFails(s: Buffers, i: nat, cap: Cap): Buffers
    requires i < |s.pending|
  {
    var w := s.pending[i].workspaceId;
    var merged := s.pending[i].batch + s.Queue(w);
    var lost := Overflow(merged, cap);
    s.(pending := Without(s.pending, i),
       flushing := s.flushing - {w},
       queues := s.queues[w := merged[lost..]],
       timers := if merged[lost..] != [] then s.timers + {w} else s.timers,
       droppedEvents := s.droppedEvents + lost,
       fates := s.fates + FatesOf(merged[..lost], false))
  }

  datatype Action =
    | Accept(event: TrackingEvent)
    | TimerFires(workspaceId: WorkspaceId)
    | FlushCall(workspaceId: WorkspaceId)
    | Succeed(index: nat)
    | Fail(index: nat)

  predicate Enabled(s: Buffers, a: Action) {
    match a
    case TimerFires(w) => w in s.timers
    case Succeed(i) => i < |s.pending|
    case Fail(i) => i < |s.pending|
    case _ => true
  }

  function Step(s: Buffers, a: Action, cap: Cap): Buffers
    requires Enabled(s, a)
  {
    match a
    case Accept(e) => Add(s, e)
    case TimerFires(w) => Flush(s, w)
    case FlushCall(w) => Flush(s, w)
    case Succeed(i) => InsertSucceeds(s, i)
    case Fail(i) => InsertFails(s, i, cap)
  }

  predicate Run(s: Buffers, actions: seq<Action>, cap: Cap)
    decreases |actions|
  {
    actions == [] || (Enabled(s, actions[0]) && Run(Step(s, actions[0], cap), actions[1..], cap))
  }

  function After(s: Buffers, actions: seq<Action>, cap: Cap): Buffers
    requires Run(s, actions, cap)
    decreases |actions|
  {
    if actions == [] then s else After(Step(s, actions[0], cap), actions[1..], cap)
  }

  lemma {:induction false} RunConcat(s: Buffers, a: seq<Action>, b: seq<Action>, cap: Cap)
    requires Run(s, a, cap) && Run(After(s, a, cap), b, cap)
    ensures Run(s, a + b, cap) && After(s, a + b, cap) == After(After(s, a, cap), b, cap)
    decreases |a|
  {
    if a == [] {
      assert a + b == b;
    } else {
      RunConcat(Step(s, a[0], cap), a[1..], b, cap);
      assert (a + b)[1..] == a[1..] + b;
    }
  }

  // ----- The invariant of every run -----

  /** The batch of a workspace that is waiting on ClickHouse. */
  function InFlight(pending: seq<Insert>, w: WorkspaceId): seq<TrackingEvent> {
    if pending == [] then []
    else
      var last := pending[|pending| - 1];
      InFlight(pending[..|pending| - 1], w) + if last.workspaceId == w then last.batch else []
  }

  function EventsOf(fates: seq<Fate>): seq<TrackingEvent> {
    seq(|fates|, i requires 0 <= i < |fates| => fates[i].event)
  }

  function DroppedIn(fates: seq<Fate>): nat {
    if fates == [] then 0
    else DroppedIn(fates[..|fates| - 1]) + if fates[|fates| - 1].inserted then 0 else 1
  }

  /** At most one insert is pending per workspace, exactly for the workspaces marked as flushing. */
  ghost predicate OneInsertEach(s: Buffers) {
    && (forall i, j | 0 <= i < j < |s.pending| :: s.pending[i].workspaceId != s.pending[j].workspaceId)
    && (forall i | 0 <= i < |s.pending| :: s.pending[i].workspaceId in s.flushing)
    && (forall w <- s.flushing :: InFlight(s.pending, w) != [])
  }

  ghost predicate Sorted(s: Buffers) {
    && (forall w <- s.queues :: AllOf(s.queues[w], w))
    && (forall i | 0 <= i < |s.pending| ::
          AllOf(s.pending[i].batch, s.pending[i].workspaceId) && s.pending[i].batch != [])
    && (forall w <- s.timers :: s.Queue(w) != [])
  }

  /** Everything accepted for `w` is resolved, in flight or queued, once and in order. */
  ghost predicate Conserved(s: Buffers, w: WorkspaceId) {
    OfWorkspace(EventsOf(s.fates), w) + InFlight(s.pending, w) + s.Queue(w) == OfWorkspace(s.accepted, w)
  }

  ghost predicate Inv(s: Buffers) {
    && OneInsertEach(s)
    && Sorted(s)
    && s.droppedEvents == DroppedIn(s.fates)
    && forall w :: Conserved(s, w)
  }

  // ----- Facts about the history functions -----

  lemma {:induction false} DroppedInConcat(a: seq<Fate>, b: seq<Fate>)
    ensures DroppedIn(a + b) == DroppedIn(a) + DroppedIn(b)
  {
    if b == [] {
      assert a + b == a;
    } else {
      DroppedInConcat(a, b[..|b| - 1]);
      assert (a + b)[..|a + b| - 1] == a + b[..|b| - 1];
    }
  }

  lemma {:induction false} DroppedInFatesOf(events: seq<TrackingEvent>, inserted: bool)
    ensures DroppedIn(FatesOf(events, inserted)) == if inserted then 0 else |events|
  {
    if events != [] {
      DroppedInFatesOf(events[..|events| - 1], inserted);
      assert FatesOf(events, inserted)[..|events| - 1] == FatesOf(events[..|events| - 1], inserted);
    }
  }

  lemma FatesAppend(fates: seq<Fate>, events: seq<TrackingEvent>, inserted: bool, w: WorkspaceId)
    ensures OfWorkspace(EventsOf(fates + FatesOf(events, inserted)), w)
         == OfWorkspace(EventsOf(fates), w) + OfWorkspace(events, w)
    ensures DroppedIn(fates + FatesOf(events, inserted)) == DroppedIn(fates) + if inserted then 0 else |events|
  {
    assert EventsOf(fates + FatesOf(events, inserted)) == EventsOf(fates) + events;
    OfWorkspaceConcat(EventsOf(fates), events, w);
    DroppedInConcat(fates, FatesOf(events, inserted));
    DroppedInFatesOf(events, inserted);
  }

  lemma {:induction false} InFlightConcat(a: seq<Insert>, b: seq<Insert>, w: WorkspaceId)
    ensures InFlight(a + b, w) == InFlight(a, w) + InFlight(b, w)
  {
    if b == [] {
      assert a + b == a;
    } else {
      InFlightConcat(a, b[..|b| - 1], w);
      assert (a + b)[..|a + b| - 1] == a + b[..|b| - 1];
    }
  }

  lemma {:induction false} InFlightNone(pending: seq<Insert>, w: WorkspaceId)
    requires forall i | 0 <= i < |pending| :: pending[i].workspaceId != w
    ensures InFlight(pending, w) == []
  {
    if pending != [] {
      InFlightNone(pending[..|pending| - 1], w);
    }
  }

  lemma InFlightSplit(pending: seq<Insert>, i: nat, w: WorkspaceId)
    requires i < |pending|
    ensures InFlight(pending, w)
         == InFlight(pending[..i], w) + (if pending[i].workspaceId == w then pending[i].batch else [])
            + InFlight(pending[i + 1..], w)
    ensures InFlight(Without(pending, i), w) == InFlight(pending[..i], w) + InFlight(pending[i + 1..], w)
  {
    assert pending == pending[..i + 1] + pending[i + 1..];
    InFlightConcat(pending[..i + 1], pending[i + 1..], w);
    assert pending[..i + 1][..i] == pending[..i];
    InFlightConcat(pending[..i], pending[i + 1..], w);
  }

  lemma OnlyInFlight(s: Buffers, i: nat)
    requires OneInsertEach(s) && i < |s.pending|
    ensures InFlight(s.pending[..i], s.pending[i].workspaceId) == []
    ensures InFlight(s.pending[i + 1..], s.pending[i].workspaceId) == []
  {
    InFlightNone(s.pending[..i], s.pending[i].workspaceId);
    InFlightNone(s.pending[i + 1..], s.pending[i].workspaceId);
  }

  lemma InFlightApart(pending: seq<Insert>, i: nat, w: WorkspaceId)
    requires i < |pending|
    requires InFlight(pending[..i], pending[i].workspaceId) == [] == InFlight(pending[i + 1..], pending[i].workspaceId)
    ensures pending[i].workspaceId == w ==>
            InFlight(pending, w) == pending[i].batch && InFlight(Without(pending, i), w) == []
    ensures pending[i].workspaceId != w ==> InFlight(Without(pending, i), w) == InFlight(pending, w)
  {
    InFlightSplit(pending, i, w);
  }

  /** Settling insert `i` takes exactly that batch out of flight. */
  lemma InFlightWithout(s: Buffers, i: nat, w: WorkspaceId)
    requires OneInsertEach(s) && i < |s.pending|
    ensures s.pending[i].workspaceId == w ==>
            InFlight(s.pending, w) == s.pending[i].batch && InFlight(Without(s.pending, i), w) == []
    ensures s.pending[i].workspaceId != w ==> InFlight(Without(s.pending, i), w) == InFlight(s.pending, w)
  {
    OnlyInFlight(s, i);
    InFlightApart(s.pending, i, w);
  }

  lemma WithoutKeepsOneEach(s: Buffers, i: nat, next: Buffers)
    requires OneInsertEach(s) && i < |s.pending|
    requires next.pending == Without(s.pending, i)
    requires next.flushing == s.flushing - {s.pending[i].workspaceId}
    ensures OneInsertEach(next)
    ensures forall k | 0 <= k < |next.pending| :: next.pending[k] in s.pending
  {
    assert forall k | 0 <= k < |next.pending| :: next.pending[k] == s.pending[if k < i then k else k + 1];
    forall w | w in next.flushing ensures InFlight(next.pending, w) != [] {
      InFlightWithout(s, i, w);
    }
  }

  // ----- Each step keeps the invariant -----

  lemma MoveToFates<T>(done: seq<T>, flight: seq<T>, moved: seq<T>, flight': seq<T>, queue: seq<T>, queue': seq<T>)
    requires flight + queue == moved + (flight' + queue')
    ensures done + flight + queue == (done + moved) + flight' + queue'
  {
    assert done + flight + queue == done + (flight + queue);
    assert (done + moved) + flight' + queue' == done + (moved + (flight' + queue'));
  }

  /** A flush moves the queue behind the batch in flight, which is empty if it does. */
  lemma FlushMoves(s: Buffers, w: WorkspaceId, v: WorkspaceId)
    requires OneInsertEach(s)
    ensures InFlight(Flush(s, w).pending, v) + Flush(s, w).Queue(v) == InFlight(s.pending, v) + s.Queue(v)
  {
    if s.Queue(w) != [] && w !in s.flushing {
      InFlightOneMore(s.pending, Insert(w, s.Queue(w)), v);
      if v == w {
        InFlightNone(s.pending, w);
      }
    }
  }

  lemma SameTail<T>(done: seq<T>, flight: seq<T>, queue: seq<T>, flight': seq<T>, queue': seq<T>)
    requires flight + queue == flight' + queue'
    ensures done + flight + queue == done + flight' + queue'
  {
    assert done + flight + queue == done + (flight + queue);
    assert done + flight' + queue' == done + (flight' + queue');
  }

  lemma FlushConserves(s: Buffers, w: WorkspaceId, v: WorkspaceId)
    requires OneInsertEach(s) && Conserved(s, v)
    ensures Conserved(Flush(s, w), v)
  {
    var t := Flush(s, w);
    assert t.fates == s.fates && t.accepted == s.accepted;
    FlushMoves(s, w, v);
    SameTail(OfWorkspace(EventsOf(s.fates), v), InFlight(s.pending, v), s.Queue(v), InFlight(t.pending, v), t.Queue(v));
  }

  lemma InFlightOneMore(pending: seq<Insert>, insert: Insert, w: WorkspaceId)
    ensures InFlight(pending + [insert], w)
         == InFlight(pending, w) + if insert.workspaceId == w then insert.batch else []
  {
    assert (pending + [insert])[..|pending|] == pending;
  }

  lemma FlushKeepsOneEach(s: Buffers, w: WorkspaceId)
    requires OneInsertEach(s)
    ensures OneInsertEach(Flush(s, w))
  {
    var t := Flush(s, w);
    if s.Queue(w) != [] && w !in s.flushing {
      assert t.pending[..|s.pending|] == s.pending;
    }
  }

  lemma FlushKeepsInv(s: Buffers, w: WorkspaceId)
    requires Inv(s)
    ensures Inv(Flush(s, w))
  {
    FlushKeepsOneEach(s, w);
    forall v ensures Conserved(Flush(s, w), v) {
      assert Conserved(s, v);
      FlushConserves(s, w, v);
    }
  }

  lemma PushKeepsInv(s: Buffers, e: TrackingEvent)
    requires Inv(s)
    ensures Inv(Push(s, e))
  {
    var t := Push(s, e);
    forall v ensures Conserved(t, v) {
      assert Conserved(s, v);
      assert t.accepted[..|s.accepted|] == s.accepted;
    }
  }

  lemma AddKeepsInv(s: Buffers, e: TrackingEvent)
    requires Inv(s)
    ensures Inv(Add(s, e))
  {
    PushKeepsInv(s, e);
    FlushKeepsInv(Push(s, e), e.workspaceId);
  }

  /** What leaves flight and queue for good is what the fates gain. */
  lemma SettleConserves(s: Buffers, i: nat, t: Buffers, gone: seq<TrackingEvent>, inserted: bool, v: WorkspaceId)
    requires OneInsertEach(s) && i < |s.pending| && Conserved(s, v)
    requires t.pending == Without(s.pending, i) && t.accepted == s.accepted
    requires t.fates == s.fates + FatesOf(gone, inserted)
    requires AllOf(gone, s.pending[i].workspaceId)
    requires if s.pending[i].workspaceId == v then s.pending[i].batch + s.Queue(v) == gone + t.Queue(v)
             else t.Queue(v) == s.Queue(v)
    ensures Conserved(t, v)
  {
    FatesAppend(s.fates, gone, inserted, v);
    var flight, moved, flight' := InFlight(s.pending, v), OfWorkspace(gone, v), InFlight(t.pending, v);
    assert flight + s.Queue(v) == moved + (flight' + t.Queue(v)) by {
      SettleMoves(s, i, gone, v, s.Queue(v), t.Queue(v));
    }
    MoveToFates(OfWorkspace(EventsOf(s.fates), v), flight, moved, flight', s.Queue(v), t.Queue(v));
  }

  lemma SettleMoves(s: Buffers, i: nat, gone: seq<TrackingEvent>, v: WorkspaceId,
                    queue: seq<TrackingEvent>, queue': seq<TrackingEvent>)
    requires OneInsertEach(s) && i < |s.pending|
    requires AllOf(gone, s.pending[i].workspaceId)
    requires if s.pending[i].workspaceId == v then s.pending[i].batch + queue == gone + queue' else queue' == queue
    ensures InFlight(s.pending, v) + queue == OfWorkspace(gone, v) + (InFlight(Without(s.pending, i), v) + queue')
  {
    var w := s.pending[i].workspaceId;
    InFlightWithout(s, i, v);
    OfWorkspaceAll(gone, w, v);
    Moves(w == v, InFlight(s.pending, v), InFlight(Without(s.pending, i), v), s.pending[i].batch, gone,
          OfWorkspace(gone, v), queue, queue');
  }

  lemma Moves<T>(own: bool, flight: seq<T>, flight': seq<T>, batch: seq<T>, gone: seq<T>, moved: seq<T>,
                 queue: seq<T>, queue': seq<T>)
    requires own ==> flight == batch && flight' == [] && moved == gone && batch + queue == gone + queue'
    requires !own ==> flight' == flight && moved == [] && queue' == queue
    ensures flight + queue == moved + (flight' + queue')
  {
    assert flight' + queue' == if own then queue' else flight + queue;
  }

  lemma SucceedKeepsInv(s: Buffers, i: nat)
    requires Inv(s) && i < |s.pending|
    ensures Inv(InsertSucceeds(s, i))
  {
    WithoutKeepsOneEach(s, i, InsertSucceeds(s, i));
    SucceedKeepsSorted(s, i);
    FatesAppend(s.fates, s.pending[i].batch, true, s.pending[i].workspaceId);
    SucceedConserves(s, i);
  }

  lemma SucceedKeepsSorted(s: Buffers, i: nat)
    requires OneInsertEach(s) && Sorted(s) && i < |s.pending|
    ensures Sorted(InsertSucceeds(s, i))
  {
    WithoutKeepsOneEach(s, i, InsertSucceeds(s, i));
  }

  lemma SucceedConserves(s: Buffers, i: nat)
    requires OneInsertEach(s) && i < |s.pending| && AllOf(s.pending[i].batch, s.pending[i].workspaceId)
    requires forall v :: Conserved(s, v)
    ensures forall v :: Conserved(InsertSucceeds(s, i), v)
  {
    forall v ensures Conserved(InsertSucceeds(s, i), v) {
      assert Conserved(s, v);
      SettleConserves(s, i, InsertSucceeds(s, i), s.pending[i].batch, true, v);
    }
  }

  lemma FailKeepsSorted(s: Buffers, i: nat, cap: Cap)
    requires OneInsertEach(s) && Sorted(s) && i < |s.pending|
    ensures Sorted(InsertFails(s, i, cap))
  {
    WithoutKeepsOneEach(s, i, InsertFails(s, i, cap));
  }

  lemma FailKeepsInv(s: Buffers, i: nat, cap: Cap)
    requires Inv(s) && i < |s.pending|
    ensures Inv(InsertFails(s, i, cap))
  {
    var t := InsertFails(s, i, cap);
    var w := s.pending[i].workspaceId;
    var merged := s.pending[i].batch + s.Queue(w);
    WithoutKeepsOneEach(s, i, t);
    FailKeepsSorted(s, i, cap);
    FatesAppend(s.fates, merged[..Overflow(merged, cap)], false, w);
    FailConserves(s, i, cap);
  }

  lemma FailConserves(s: Buffers, i: nat, cap: Cap)
    requires OneInsertEach(s) && Sorted(s) && i < |s.pending|
    requires forall v :: Conserved(s, v)
    ensures forall v :: Conserved(InsertFails(s, i, cap), v)
  {
    var t, merged := InsertFails(s, i, cap), s.pending[i].batch + s.Queue(s.pending[i].workspaceId);
    var lost := Overflow(merged, cap);
    assert merged[..lost] + merged[lost..] == merged;
    forall v ensures Conserved(t, v) {
      assert Conserved(s, v);
      SettleConserves(s, i, t, merged[..lost], false, v);
    }
  }

  lemma StepKeepsInv(s: Buffers, a: Action, cap: Cap)
    requires Inv(s) && Enabled(s, a)
    ensures Inv(Step(s, a, cap))
  {
    match a
    case Accept(e) => AddKeepsInv(s, e);
    case TimerFires(w) => FlushKeepsInv(s, w);
    case FlushCall(w) => FlushKeepsInv(s, w);
    case Succeed(i) => SucceedKeepsInv(s, i);
    case Fail(i) => FailKeepsInv(s, i, cap);
  }

  /** Conservation, order, single flight and the drop counter, on every interleaving. */
  lemma {:induction false} EveryRunKeepsInv(s: Buffers, actions: seq<Action>, cap: Cap)
    requires Inv(s) && Run(s, actions, cap)
    ensures Inv(After(s, actions, cap))
    decreases |actions|
  {
    if actions != [] {
      StepKeepsInv(s, actions[0], cap);
      EveryRunKeepsInv(Step(s, actions[0], cap), actions[1..], cap);
    }
  }

  lemma EveryRunConserves(actions: seq<Action>, cap: Cap, w: WorkspaceId)
    requires Run(EMPTY, actions, cap)
    ensures var s := After(EMPTY, actions, cap);
            && OfWorkspace(EventsOf(s.fates), w) + InFlight(s.pending, w) + s.Queue(w) == OfWorkspace(s.accepted, w)
            && s.droppedEvents == DroppedIn(s.fates)
            && (w in s.flushing <==> InFlight(s.pending, w) != [])
            && forall i, j | 0 <= i < j < |s.pending| :: s.pending[i].workspaceId != s.pending[j].workspaceId
  {
    assert forall v :: Conserved(EMPTY, v);
    EveryRunKeepsInv(EMPTY, actions, cap);
    var s := After(EMPTY, actions, cap);
    assert Conserved(s, w);
    if w !in s.flushing {
      InFlightNone(s.pending, w);
    }
  }

  // ----- What a failed flush leaves behind -----

  /** The queue becomes the longest suffix of (failed batch, newer events) within the cap. */
  lemma FailedFlushKeepsNewest(s: Buffers, i: nat, cap: Cap)
    requires Inv(s) && i < |s.pending|
    ensures var w := s.pending[i].workspaceId;
            var merged := s.pending[i].batch + s.Queue(w);
            var t := InsertFails(s, i, cap);
            && |t.Queue(w)| == (if |merged| <= cap then |merged| else cap)
            && t.Queue(w) == merged[|merged| - |t.Queue(w)|..]
            && t.droppedEvents - s.droppedEvents == |merged| - |t.Queue(w)|
            && w in t.timers && w !in t.flushing
            && (forall v | v != w :: t.Queue(v) == s.Queue(v) && (v in t.timers <==> v in s.timers)
                                  && (v in t.flushing <==> v in s.flushing))
  {
  }

  // ----- When a buffer is left without a wake-up -----

  /** Events are waiting, but no timer is armed and no insert is running for them. */
  predicate Stranded(s: Buffers, w: WorkspaceId) {
    s.Queue(w) != [] && w !in s.timers && w !in s.flushing
  }

  /** An insert succeeds while newer events wait with no timer armed. */
  predicate Strands(s: Buffers, a: Action, w: WorkspaceId)
    requires Enabled(s, a)
  {
    a.Succeed? && s.pending[a.index].workspaceId == w && s.Queue(w) != [] && w !in s.timers
  }

  /** A stranded buffer only wakes on an explicit flush or on reaching the size threshold. */
  predicate Wakes(s: Buffers, a: Action, w: WorkspaceId) {
    || (a.FlushCall? && a.workspaceId == w)
    || (a.Accept? && a.event.workspaceId == w && |s.Queue(w)| + 1 >= MAX_BUFFER_SIZE)
  }

  lemma StrandedExactly(s: Buffers, a: Action, cap: Cap, w: WorkspaceId)
    requires Inv(s) && Enabled(s, a)
    ensures Stranded(Step(s, a, cap), w) <==> Strands(s, a, w) || (Stranded(s, w) && !Wakes(s, a, w))
  {
    if a.Succeed? && s.pending[a.index].workspaceId == w {
      assert w in s.flushing;
    }
    if a.Fail? && s.pending[a.index].workspaceId == w {
      FailedFlushKeepsNewest(s, a.index, cap);
    }
  }

  /** The flush that is asked for finds an insert of the same workspace running. */
  predicate Overlaps(s: Buffers, a: Action) {
    match a
    case TimerFires(w) => w in s.flushing
    case FlushCall(w) => w in s.flushing
    case Accept(e) => e.workspaceId in s.flushing && |s.Queue(e.workspaceId)| + 1 >= MAX_BUFFER_SIZE
    case _ => false
  }

  predicate OverlapFreeRun(s: Buffers, actions: seq<Action>, cap: Cap)
    decreases |actions|
  {
    actions == [] || (
      Enabled(s, actions[0]) && !Overlaps(s, actions[0]) && OverlapFreeRun(Step(s, actions[0], cap), actions[1..], cap))
  }

  ghost predicate Armed(s: Buffers) {
    forall w :: s.Queue(w) != [] ==> w in s.timers
  }

  lemma StepKeepsArmed(s: Buffers, a: Action, cap: Cap)
    requires Armed(s) && Enabled(s, a) && !Overlaps(s, a)
    ensures Armed(Step(s, a, cap))
  {
    forall w ensures Step(s, a, cap).Queue(w) != [] ==> w in Step(s, a, cap).timers {
      assert s.Queue(w) != [] ==> w in s.timers;
    }
  }

  /** Without such overlaps no event ever waits without a timer. */
  lemma {:induction false} OverlapFreeRunsStayArmed(s: Buffers, actions: seq<Action>, cap: Cap)
    requires Armed(s) && OverlapFreeRun(s, actions, cap)
    ensures Run(s, actions, cap) && Armed(After(s, actions, cap))
    decreases |actions|
  {
    if actions != [] {
      StepKeepsArmed(s, actions[0], cap);
      OverlapFreeRunsStayArmed(Step(s, actions[0], cap), actions[1..], cap);
    }
  }

  /** Two events are enough: a timer that fires during an insert is spent, and success does not re-arm it. */
  lemma SuccessCanStrand(first: TrackingEvent, second: TrackingEvent, cap: Cap)
    requires first.workspaceId == second.workspaceId
    ensures var w := first.workspaceId;
            var actions := [Accept(first), TimerFires(w), Accept(second), TimerFires(w), Succeed(0)];
            Run(EMPTY, actions, cap) && Stranded(After(EMPTY, actions, cap), w)
  {
    var w := first.workspaceId;
    var actions := [Accept(first), TimerFires(w), Accept(second), TimerFires(w), Succeed(0)];
    var s1 := Step(EMPTY, actions[0], cap);
    var s2 := Step(s1, actions[1], cap);
    var s3 := Step(s2, actions[2], cap);
    var s4 := Step(s3, actions[3], cap);
    var s5 := Step(s4, actions[4], cap);
    assert s5.Queue(w) == [second];
    assert actions[1..][1..] == actions[2..] && actions[2..][1..] == actions[3..];
    assert actions[3..][1..] == actions[4..] && actions[4..][1..] == [];
    assert Run(s5, [], cap) && Run(s4, actions[4..], cap) && Run(s3, actions[3..], cap);
    assert Run(s2, actions[2..], cap) && Run(s1, actions[1..], cap);
    assert After(s4, actions[4..], cap) == s5 == After(s3, actions[3..], cap);
    assert After(s2, actions[2..], cap) == s5 == After(s1, actions[1..], cap);
  }

  // ----- How long a queue can get -----

  /** What the retention cap and the size threshold together allow. */
  function Bound(cap: Cap): nat {
    if cap < MAX_BUFFER_SIZE then MAX_BUFFER_SIZE - 1 else cap
  }

  predicate Over(s: Buffers, w: WorkspaceId, cap: Cap) {
    |s.Queue(w)| > Bound(cap)
  }

  predicate AddsTo(a: Action, w: WorkspaceId) {
    a.Accept? && a.event.workspaceId == w
  }

  /** A flush that can start, an add that starts one, or a failed insert, which trims the queue. */
  predicate Relieves(s: Buffers, a: Action, w: WorkspaceId)
    requires Enabled(s, a)
  {
    || (w !in s.flushing && (AddsTo(a, w) || ((a.TimerFires? || a.FlushCall?) && a.workspaceId == w)))
    || (a.Fail? && s.pending[a.index].workspaceId == w)
  }

  /** A queue outgrows the bound by an add during a running insert only, and stays there until it is relieved. */
  lemma OverBoundExactly(s: Buffers, a: Action, cap: Cap, w: WorkspaceId)
    requires Enabled(s, a)
    ensures Over(Step(s, a, cap), w, cap)
       <==> (AddsTo(a, w) && w in s.flushing && |s.Queue(w)| + 1 > Bound(cap))
            || (Over(s, w, cap) && !Relieves(s, a, w))
  {
  }

  function Accepts(events: seq<TrackingEvent>): seq<Action> {
    seq(|events|, i requires 0 <= i < |events| => Accept(events[i]))
  }

  lemma AddHolds(s: Buffers, e: TrackingEvent)
    requires e.workspaceId in s.flushing
    ensures var next := Add(s, e);
            && next.flushing == s.flushing && next.pending == s.pending && next.droppedEvents == s.droppedEvents
            && next.Queue(e.workspaceId) == s.Queue(e.workspaceId) + [e]
  {
  }

  /** While an insert runs, events only pile up. */
  lemma {:induction false} InsertHoldsTheQueue(s: Buffers, events: seq<TrackingEvent>, cap: Cap, w: WorkspaceId)
    requires w in s.flushing && AllOf(events, w)
    ensures Run(s, Accepts(events), cap)
    ensures var t := After(s, Accepts(events), cap);
            t.Queue(w) == s.Queue(w) + events && t.pending == s.pending && t.droppedEvents == s.droppedEvents
    decreases |events|
  {
    if events != [] {
      var e, rest := events[0], events[1..];
      assert e in events && AllOf(rest, w);
      AddHolds(s, e);
      InsertHoldsTheQueue(Add(s, e), rest, cap, w);
      assert Accepts(events)[0..] == Accepts(events) && Accepts(events)[1..] == Accepts(rest);
      RunFrom(s, Accepts(events), 0, cap);
      assert s.Queue(w) + events == (s.Queue(w) + [e]) + rest;
    }
  }

  lemma FlushCallHolds(e: TrackingEvent, cap: Cap)
    ensures var s := Flush(Add(EMPTY, e), e.workspaceId);
            e.workspaceId in s.flushing && s.Queue(e.workspaceId) == []
  {
    assert Add(EMPTY, e).Queue(e.workspaceId) == [e];
  }

  /** For every n, and whatever the cap, n events can wait behind an insert and none is dropped. */
  lemma WaitingQueueIsUnbounded(e: TrackingEvent, n: nat, cap: Cap)
    ensures var actions := [Accept(e), FlushCall(e.workspaceId)] + Accepts(seq(n, _ => e));
            && Run(EMPTY, actions, cap)
            && |After(EMPTY, actions, cap).Queue(e.workspaceId)| == n && After(EMPTY, actions, cap).droppedEvents == 0
  {
    var w, rest := e.workspaceId, Accepts(seq(n, _ => e));
    var actions := [Accept(e), FlushCall(w)] + rest;
    var held := Flush(Add(EMPTY, e), w);
    FlushCallHolds(e, cap);
    InsertHoldsTheQueue(held, seq(n, _ => e), cap, w);
    assert actions[2..] == rest && actions[0..] == actions;
    RunFrom(Add(EMPTY, e), actions, 1, cap);
    RunFrom(EMPTY, actions, 0, cap);
  }

  lemma RunFrom(s: Buffers, actions: seq<Action>, k: nat, cap: Cap)
    requires k < |actions| && Enabled(s, actions[k]) && Run(Step(s, actions[k], cap), actions[k + 1..], cap)
    ensures Run(s, actions[k..], cap)
    ensures After(s, actions[k..], cap) == After(Step(s, actions[k], cap), actions[k + 1..], cap)
  {
    assert actions[k..][1..] == actions[k + 1..];
  }

  // ----- Shutdown -----

  function FlushEach(s: Buffers, order: seq<WorkspaceId>): Buffers {
    if order == [] then s else Flush(FlushEach(s, order[..|order| - 1]), order[|order| - 1])
  }

  /** All timers are stopped, then each workspace in `order` is flushed. */
  function ShutDown(s: Buffers, order: seq<WorkspaceId>): Buffers {
    FlushEach(s.(timers := {}), order)
  }

  lemma {:induction false} FlushEachEmpties(s: Buffers, order: seq<WorkspaceId>, w: WorkspaceId)
    requires s.timers == {}
    ensures var t := FlushEach(s, order);
            && t.timers == {}
            && t.Queue(w) == (if w in order && w !in s.flushing then [] else s.Queue(w))
            && (w in t.flushing <==> w in s.flushing || (w in order && s.Queue(w) != []))
  {
    if order != [] {
      var front, last := order[..|order| - 1], order[|order| - 1];
      assert order == front + [last];
      FlushEachEmpties(s, front, w);
      OneFlushMoves(FlushEach(s, front), last, w);
    }
  }

  lemma {:induction false} FlushEachSends(s: Buffers, order: seq<WorkspaceId>, w: WorkspaceId)
    requires s.timers == {}
    ensures InFlight(FlushEach(s, order).pending, w)
         == InFlight(s.pending, w) + if w in order && w !in s.flushing then s.Queue(w) else []
  {
    if order != [] {
      var front, last := order[..|order| - 1], order[|order| - 1];
      assert order == front + [last];
      FlushEachEmpties(s, front, w);
      FlushEachSends(s, front, w);
      OneFlushMoves(FlushEach(s, front), last, w);
    }
  }

  lemma OneFlushMoves(s: Buffers, v: WorkspaceId, w: WorkspaceId)
    ensures var t, starts := Flush(s, v), v == w && w !in s.flushing && s.Queue(w) != [];
            && t.timers == s.timers - {v} && t.droppedEvents == s.droppedEvents
            && t.Queue(w) == (if starts then [] else s.Queue(w))
            && (w in t.flushing <==> w in s.flushing || starts)
            && InFlight(t.pending, w) == InFlight(s.pending, w) + if starts then s.Queue(w) else []
  {
    if s.Queue(v) != [] && v !in s.flushing {
      InFlightOneMore(s.pending, Insert(v, s.Queue(v)), w);
    }
  }

  predicate OnlySuccesses(actions: seq<Action>) {
    forall a <- actions :: a.Succeed?
  }

  lemma {:induction false} SuccessesKeepQueues(s: Buffers, actions: seq<Action>, cap: Cap)
    requires Run(s, actions, cap) && OnlySuccesses(actions)
    ensures After(s, actions, cap).queues == s.queues && After(s, actions, cap).timers == s.timers
    decreases |actions|
  {
    if actions != [] {
      assert actions[0] in actions;
      SuccessesKeepQueues(Step(s, actions[0], cap), actions[1..], cap);
    }
  }

  /**
   Shutdown sends exactly the queues of the workspaces with no insert running. Even if every insert
   succeeds, what waits behind a running one is never sent: no timer is left for it.
   */
  lemma ShutdownLosesExactly(s: Buffers, order: seq<WorkspaceId>, settled: seq<Action>, cap: Cap, w: WorkspaceId)
    requires forall v <- s.queues :: v in order
    requires OnlySuccesses(settled) && Run(ShutDown(s, order), settled, cap)
    ensures var sent, t := ShutDown(s, order), After(ShutDown(s, order), settled, cap);
            && InFlight(sent.pending, w) == InFlight(s.pending, w) + (if w in s.flushing then [] else s.Queue(w))
            && t.timers == {} && t.Queue(w) == if w in s.flushing then s.Queue(w) else []
  {
    FlushEachEmpties(s.(timers := {}), order, w);
    FlushEachSends(s.(timers := {}), order, w);
    SuccessesKeepQueues(ShutDown(s, order), settled, cap);
  }

  lemma StoppedKeepsInv(s: Buffers)
    requires Inv(s)
    ensures Inv(s.(timers := {}))
  {
    forall w ensures Conserved(s.(timers := {}), w) {
      assert Conserved(s, w);
    }
  }
}
