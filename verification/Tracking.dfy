/**
 The SDK's handlers act on two things at once: the heartbeat, which measures page time, and the action
 list, which reports it. This joins `Heartbeat` and `SdkSession` and says which time reaches a page.
 */
module Tracking {
  import opened Events
  import opened Tokens
  import H = Heartbeat
  import S = SdkSession

  // `flushed` keeps one departure from being flushed twice.
  datatype Tracker = Tracker(heart: H.State, session: S.Session, flushed: bool)

  // A handler call; `scroll` is what the scroll tracker reports, when there is one.
  datatype Signal =
    | Heart(event: H.Event, path: string, scroll: Option<int>)
    | Leaves(scroll: Option<int>)     // pagehide, beforeunload
    | Sends                           // the debounced send
    | TracksGoal(name: string, value: Option<int>, properties: Option<map<string, string>>)

  /** What the heartbeat sees of a signal. */
  function Beat(g: Signal): H.Event {
    if g.Heart? then g.event else H.Quiet
  }

  predicate EntersPage(g: Signal) {
    g.Heart? && (g.event.Navigated? || g.event.PageTracked?)
  }

  predicate Departs(g: Signal) {
    g.Leaves? || (g.Heart? && (g.event.Hidden? || g.event.Blurred?))
  }

  function Scroll(s: S.Session, percent: Option<int>): (r: S.Session)
    requires S.CurrentIsPage(s)
    ensures S.CurrentIsPage(r) && r.currentPageIndex == s.currentPageIndex && |r.actions| == |s.actions|
  {
    if percent.None? then s else S.WithScroll(s, percent.value)
  }

  /** The current page gets its duration and is released; a second departure in a row does nothing. */
  function Flushed(s: S.Session, flushed: bool, scroll: Option<int>, now: int, focusMs: int): (r: S.Session)
    requires S.CurrentIsPage(s)
    ensures S.CurrentIsPage(r)
  {
    if flushed then s else S.Touch(Scroll(s, scroll), now, focusMs).(currentPageIndex := None)
  }

  /** The action list after a signal; `focusMs` is the page time that the focus getter reports. */
  function List(s: S.Session, flushed: bool, g: Signal, pings: bool, now: int, focusMs: int): (r: S.Session)
    requires S.CurrentIsPage(s)
    ensures S.CurrentIsPage(r)
  {
    if Departs(g) then Flushed(s, flushed, g.scroll, now, focusMs)
    else if g.TracksGoal? then S.Touch(S.WithGoal(s, g.name, g.value, g.properties, now), now, focusMs)
    else if g.Sends? then S.Touch(s, now, focusMs)
    else if g.event.ResetCalled? then S.Touch(S.WithPageview(S.NEW, g.path, now, focusMs), now, 0)
    else if EntersPage(g) then S.WithPageview(Scroll(s, g.scroll), g.path, now, focusMs)
    else if pings then S.Touch(Scroll(s, g.scroll), now, focusMs)
    else s
  }

  function FlushedAfter(flushed: bool, g: Signal): bool {
    if Departs(g) then true else if g.Heart? && (g.event.Shown? || g.event.Focused?) then false else flushed
  }

  function Handle(cfg: H.Config, t: Tracker, g: Signal, now: int): Tracker
    requires cfg.tiers != [] && S.CurrentIsPage(t.session)
  {
    Tracker(H.Handle(cfg, t.heart, Beat(g), now),
            List(t.session, t.flushed, g, H.Pings(t.heart, Beat(g)), now, H.PageActive(t.heart, now)),
            FlushedAfter(t.flushed, g))
  }

  // ----- What the pages report -----

  function DurationOf(a: Action): int {
    if a.Pageview? then a.duration else 0
  }

  function Durations(actions: seq<Action>): int {
    if actions == [] then 0 else Durations(actions[..|actions| - 1]) + DurationOf(actions[|actions| - 1])
  }

  /** The page durations of a payload built at `now`. */
  function Reported(t: Tracker, now: int): int
    requires S.CurrentIsPage(t.session)
  {
    Durations(S.Touch(t.session, now, H.PageActive(t.heart, now)).actions)
  }

  /** The durations of the pages other than the current one: nothing will write them again. */
  function Settled(s: S.Session): int
    requires S.CurrentIsPage(s)
  {
    Durations(s.actions) - if s.currentPageIndex.Some? then s.actions[s.currentPageIndex.value].duration else 0
  }

  lemma {:induction false} DurationsRewritten(actions: seq<Action>, i: nat, a: Action)
    requires i < |actions|
    ensures Durations(actions[i := a]) == Durations(actions) - DurationOf(actions[i]) + DurationOf(a)
  {
    var n := |actions| - 1;
    if i < n {
      DurationsRewritten(actions[..n], i, a);
      assert actions[i := a][..n] == actions[..n][i := a];
    } else {
      assert actions[i := a][..n] == actions[..n];
    }
  }

  lemma DurationsAppended(actions: seq<Action>, a: Action)
    ensures Durations(actions + [a]) == Durations(actions) + DurationOf(a)
  {
    assert (actions + [a])[..|actions|] == actions;
  }

  lemma TouchSettles(s: S.Session, now: int, focusMs: int)
    requires S.CurrentIsPage(s)
    ensures var t := S.Touch(s, now, focusMs);
            && S.CurrentIsPage(t) && t.currentPageIndex == s.currentPageIndex && |t.actions| == |s.actions|
            && Settled(t) == Settled(s)
            && Durations(t.actions) == Settled(s) + if s.currentPageIndex.Some? then focusMs else 0
  {
    if s.currentPageIndex.Some? {
      var i := s.currentPageIndex.value;
      DurationsRewritten(s.actions, i, s.actions[i].(duration := focusMs, exitedAt := now));
    }
  }

  lemma ScrollSettles(s: S.Session, percent: Option<int>)
    requires S.CurrentIsPage(s)
    ensures Settled(Scroll(s, percent)) == Settled(s)
  {
    if s.currentPageIndex.Some? && Scroll(s, percent) != s {
      var i := s.currentPageIndex.value;
      DurationsRewritten(s.actions, i, Scroll(s, percent).actions[i]);
    }
  }

  /** A page entry settles the current page and makes the new one current, unless the list is full. */
  lemma EntrySettles(s: S.Session, path: string, now: int, focusMs: int)
    requires S.CurrentIsPage(s)
    ensures var t := S.WithPageview(s, path, now, focusMs);
            if |s.actions| >= S.MAX_ACTIONS then t == s
            else t.currentPageIndex.Some? && Settled(t) == Settled(s) + if s.currentPageIndex.Some? then focusMs else 0
  {
    if |s.actions| < S.MAX_ACTIONS {
      TouchSettles(s, now, focusMs);
      var actions := S.Touch(s, now, focusMs).actions;
      DurationsAppended(actions, Pageview(path, S.MaxPageNumber(actions) + 1, 0, 0, now, now));
    }
  }

  lemma GoalSettles(s: S.Session, name: string, value: Option<int>, properties: Option<map<string, string>>, now: int)
    requires S.CurrentIsPage(s)
    ensures var t := S.WithGoal(s, name, value, properties, now);
            S.CurrentIsPage(t) && Settled(t) == Settled(s) && t.currentPageIndex == s.currentPageIndex
  {
    if |s.actions| < S.MAX_ACTIONS {
      DurationsAppended(s.actions, S.WithGoal(s, name, value, properties, now).actions[|s.actions|]);
    }
  }

  /** Whether a signal settles the current page, and whether a page is current afterwards. */
  predicate Settles(s: S.Session, flushed: bool, g: Signal) {
    (Departs(g) && !flushed) || (EntersPage(g) && |s.actions| < S.MAX_ACTIONS)
  }

  lemma ListSettles(s: S.Session, flushed: bool, g: Signal, pings: bool, now: int, focusMs: int)
    requires S.CurrentIsPage(s) && !(g.Heart? && g.event.ResetCalled?)
    ensures var t := List(s, flushed, g, pings, now, focusMs);
            && Settled(t) == Settled(s) + (if Settles(s, flushed, g) && s.currentPageIndex.Some? then focusMs else 0)
            && (t.currentPageIndex.Some? <==>
                  if Settles(s, flushed, g) then EntersPage(g) else s.currentPageIndex.Some?)
  {
    if Departs(g) {
      if !flushed {
        ScrollSettles(s, g.scroll);
        TouchSettles(Scroll(s, g.scroll), now, focusMs);
      }
    } else if g.TracksGoal? {
      GoalSettles(s, g.name, g.value, g.properties, now);
      TouchSettles(S.WithGoal(s, g.name, g.value, g.properties, now), now, focusMs);
    } else if g.Sends? {
      TouchSettles(s, now, focusMs);
    } else {
      ScrollSettles(s, g.scroll);
      if EntersPage(g) {
        EntrySettles(Scroll(s, g.scroll), g.path, now, focusMs);
      } else if pings {
        TouchSettles(Scroll(s, g.scroll), now, focusMs);
      }
    }
  }

  lemma {:induction false} FirstEntry(s: S.Session, path: string, now: int, focusMs: int)
    requires S.CurrentIsPage(s) && s.currentPageIndex.None? && |s.actions| < S.MAX_ACTIONS && Settled(s) == 0
    ensures var t := S.Touch(S.WithPageview(s, path, now, focusMs), now, 0);
            S.CurrentIsPage(t) && t.currentPageIndex.Some? && Settled(t) == 0
  {
    EntrySettles(s, path, now, focusMs);
    TouchSettles(S.WithPageview(s, path, now, focusMs), now, 0);
  }

  /** A new list starts with its first page current and nothing settled. */
  lemma {:induction false} ResetStartsOver(flushed: bool, g: Signal, s: S.Session, pings: bool, now: int, focusMs: int)
    requires S.CurrentIsPage(s) && g.Heart? && g.event.ResetCalled?
    ensures var t := List(s, flushed, g, pings, now, focusMs);
            t.currentPageIndex.Some? && Settled(t) == 0
  {
    var empty := S.NEW;
    assert Settled(empty) == 0;
    FirstEntry(empty, g.path, now, focusMs);
  }

  // ----- What the signals record -----

  /** A page entered or a goal tracked, at the time of the signal. */
  function RecordOf(g: Signal, now: int): seq<S.Record> {
    if EntersPage(g) then [S.Entered(g.path, now)]
    else if g.TracksGoal? then [S.Reached(g.name, g.value, g.properties, now)]
    else []
  }

  lemma ScrollKeepsRecords(s: S.Session, percent: Option<int>)
    requires S.Valid(s)
    ensures S.Valid(Scroll(s, percent)) && S.RecordsOf(Scroll(s, percent).actions) == S.RecordsOf(s.actions)
  {
    if percent.Some? {
      S.StepExtendsKeys(s, S.Scrolled(percent.value));
      S.StepRecords(s, S.Scrolled(percent.value));
      assert S.Wanted([S.Scrolled(percent.value)]) == [];
    }
  }

  lemma EntryRecords(s: S.Session, path: string, now: int, focusMs: int)
    requires S.Valid(s) && |s.actions| < S.MAX_ACTIONS
    ensures S.RecordsOf(S.WithPageview(s, path, now, focusMs).actions)
         == S.RecordsOf(s.actions) + [S.Entered(path, now)]
  {
    var c := S.PageEntered(path, now, focusMs);
    S.StepRecords(s, c);
    assert [c][..0] == [] && S.Wanted([c]) == [S.Entered(path, now)];
  }

  lemma GoalRecords(s: S.Session, name: string, value: Option<int>, properties: Option<map<string, string>>, now: int)
    requires S.Valid(s) && |s.actions| < S.MAX_ACTIONS
    ensures var t := S.WithGoal(s, name, value, properties, now);
            S.Valid(t) && S.RecordsOf(t.actions) == S.RecordsOf(s.actions) + [S.Reached(name, value, properties, now)]
  {
    var c := S.GoalReached(name, value, properties, now);
    S.StepExtendsKeys(s, c);
    S.StepRecords(s, c);
    assert [c][..0] == [] && S.Wanted([c]) == [S.Reached(name, value, properties, now)];
  }

  /** A signal adds to the list the page it enters or the goal it tracks, unless the list is full, and nothing else. */
  lemma SignalRecords(s: S.Session, flushed: bool, g: Signal, pings: bool, now: int, focusMs: int)
    requires S.Valid(s) && !(g.Heart? && g.event.ResetCalled?)
    ensures S.RecordsOf(List(s, flushed, g, pings, now, focusMs).actions)
         == S.RecordsOf(s.actions) + if |s.actions| < S.MAX_ACTIONS then RecordOf(g, now) else []
  {
    if Departs(g) {
      if !flushed {
        ScrollKeepsRecords(s, g.scroll);
        S.TouchKeepsRecords(Scroll(s, g.scroll), now, focusMs);
      }
    } else if g.TracksGoal? {
      if |s.actions| < S.MAX_ACTIONS {
        GoalRecords(s, g.name, g.value, g.properties, now);
      }
      S.TouchKeepsRecords(S.WithGoal(s, g.name, g.value, g.properties, now), now, focusMs);
    } else if g.Sends? {
      S.TouchKeepsRecords(s, now, focusMs);
    } else {
      ScrollKeepsRecords(s, g.scroll);
      if EntersPage(g) {
        if |s.actions| < S.MAX_ACTIONS {
          EntryRecords(Scroll(s, g.scroll), g.path, now, focusMs);
        }
      } else if pings {
        S.TouchKeepsRecords(Scroll(s, g.scroll), now, focusMs);
      }
    }
  }

  /** A reset starts a new list, which records its first page only. */
  lemma ResetRecords(s: S.Session, flushed: bool, g: Signal, pings: bool, now: int, focusMs: int)
    requires S.CurrentIsPage(s) && g.Heart? && g.event.ResetCalled?
    ensures S.RecordsOf(List(s, flushed, g, pings, now, focusMs).actions) == [S.Entered(g.path, now)]
  {
    NewListRecords(g.path, now, focusMs);
    S.TouchKeepsRecords(S.WithPageview(S.NEW, g.path, now, focusMs), now, 0);
  }

  lemma NewListRecords(path: string, now: int, focusMs: int)
    ensures var t := S.WithPageview(S.NEW, path, now, focusMs);
            S.Valid(t) && S.RecordsOf(t.actions) == [S.Entered(path, now)]
  {
    EntryRecords(S.NEW, path, now, focusMs);
    S.EntryExtendsKeys(S.NEW, path, now, focusMs);
    assert S.RecordsOf(S.NEW.actions) == [];
  }

  // ----- What the signals write to the current page -----

  // The depth after a reading, from 0 to 100: the larger of the two.
  predicate Deepens(before: int, percent: Option<int>, after: int) {
    && (percent.None? || percent.value <= before ==> after == before)
    && (percent.Some? && before < percent.value <= 100 ==> after == percent.value)
    && (percent.Some? && percent.value > 100 ==> after == 100)
  }

  /** Page `i` has been read: duration from the focus timer, exit time from the clock, scroll from the tracker. */
  ghost predicate Refreshed(before: Action, after: Action, scroll: Option<int>, now: int, focusMs: int) {
    && before.Pageview? && after.Pageview?
    && after.path == before.path && after.pageNumber == before.pageNumber && after.enteredAt == before.enteredAt
    && after.duration == focusMs && after.exitedAt == now
    && (0 <= before.scroll <= 100 ==> Deepens(before.scroll, scroll, after.scroll))
  }

  /** A departure reads the current page and releases it; the next one in a row changes nothing. */
  lemma DepartureReadsThePage(s: S.Session, g: Signal, pings: bool, now: int, focusMs: int)
    requires S.CurrentIsPage(s) && Departs(g)
    ensures List(s, true, g, pings, now, focusMs) == s
    ensures var t := List(s, false, g, pings, now, focusMs);
            && t.currentPageIndex.None? && |t.actions| == |s.actions|
            && (s.currentPageIndex.Some? ==>
                  var i := s.currentPageIndex.value;
                  Refreshed(s.actions[i], t.actions[i], g.scroll, now, focusMs))
  {
  }

  /** A ping reads the current page with its scroll depth, a goal and a debounced send without it; it stays current. */
  lemma PayloadReadsThePage(s: S.Session, flushed: bool, g: Signal, pings: bool, now: int, focusMs: int)
    requires S.CurrentIsPage(s) && s.currentPageIndex.Some?
    requires g.Sends? || g.TracksGoal? || (g.Heart? && g.event.TimerFired? && pings)
    ensures var t, i := List(s, flushed, g, pings, now, focusMs), s.currentPageIndex.value;
            && t.currentPageIndex == Some(i) && |s.actions| <= |t.actions|
            && Refreshed(s.actions[i], t.actions[i], if g.Heart? then g.scroll else None, now, focusMs)
  {
  }

  /** Entering a page reads the one before it, scroll depth included. */
  lemma EntryReadsThePage(s: S.Session, flushed: bool, g: Signal, pings: bool, now: int, focusMs: int)
    requires S.CurrentIsPage(s) && s.currentPageIndex.Some? && EntersPage(g) && |s.actions| < 1000
    ensures var t, i := List(s, flushed, g, pings, now, focusMs), s.currentPageIndex.value;
            |s.actions| < |t.actions| && Refreshed(s.actions[i], t.actions[i], g.scroll, now, focusMs)
  {
  }

  predicate Returns(g: Signal) {
    g.Heart? && (g.event.Shown? || g.event.Focused?)
  }

  /** Of two departures in a row only the first reads the page; after a return the next one does again. */
  lemma OneReadPerDeparture(cfg: H.Config, t: Tracker, first: Signal, now: int, between: Signal, next: int)
    requires cfg.tiers != [] && S.CurrentIsPage(t.session) && Departs(first)
    ensures var gone := Handle(cfg, t, first, now);
            && gone.flushed
            && (Departs(between) ==>
                  Handle(cfg, gone, between, next).session == gone.session && Handle(cfg, gone, between, next).flushed)
            && (Returns(between) ==>
                  !Handle(cfg, gone, between, next).flushed
                  && Handle(cfg, gone, between, next).session == gone.session)
            && (!Departs(between) && !Returns(between) ==> Handle(cfg, gone, between, next).flushed)
  {
  }

  // ----- Runs -----

  // `active` is the active time since the session began or the list was restored, `base` what its pages
  // had reported before, and `lost` what no page will report: active time, or time reported before.
  datatype Run = Run(h: H.Run, session: S.Session, flushed: bool, base: int, active: int, lost: int)
  {
    function Now(): Tracker {
      Tracker(h.s, session, flushed)
    }
  }

  predicate Enabled(r: Run, g: Signal, now: int) {
    H.Enabled(r.h, Beat(g), now)
  }

  predicate Refused(r: Run, g: Signal) {
    EntersPage(g) && |r.session.actions| >= S.MAX_ACTIONS
  }

  function Elapsed(r: Run, now: int): int {
    if r.h.s.isActive then now - r.h.clock else 0
  }

  /**
   Time goes to no page while none is current. A current page loses what a resume while active skips,
   and all it has when its timer is cleared without settling it.
   */
  function Loss(r: Run, g: Signal, now: int): int {
    var s, e := r.h.s, Beat(g);
    if r.session.currentPageIndex.None? then Elapsed(r, now)
    else if H.Resumes(s, e) then (if s.isActive then now - s.pageStartTime else 0)
    else if Refused(r, g) || e.ResumeCalled? then H.PageActive(s, now)
    else 0
  }

  function Step(cfg: H.Config, r: Run, g: Signal, now: int): Run
    requires cfg.tiers != [] && Enabled(r, g, now) && S.CurrentIsPage(r.session)
  {
    var t := Handle(cfg, r.Now(), g, now);
    var h := H.Step(cfg, r.h, Beat(g), now);
    if Beat(g).ResetCalled? then Run(h, t.session, t.flushed, 0, 0, 0)
    else Run(h, t.session, t.flushed, r.base, r.active + Elapsed(r, now), r.lost + Loss(r, g, now))
  }

  /** The first page is entered, in a new action list or a restored one, before the heartbeat starts. */
  function Init(cfg: H.Config, restored: S.Session, path: string, now: int, visible: bool): Run
    requires cfg.tiers != [] && S.CurrentIsPage(restored)
  {
    var session := S.WithPageview(restored, path, now, 0);
    Run(H.Init(cfg, now, visible), session, false, Durations(restored.actions), 0, ReloadLoss(restored))
  }

  /**
   A restored list whose page is still current had its tab closed without a departure: the first page
   entry, or at the limit of actions the next payload, overwrites the duration that the page had.
   */
  function ReloadLoss(restored: S.Session): int
    requires S.CurrentIsPage(restored)
  {
    if restored.currentPageIndex.None? then 0 else restored.actions[restored.currentPageIndex.value].duration
  }

  datatype Timed = Timed(signal: Signal, now: int)

  predicate Possible(cfg: H.Config, r: Run, signals: seq<Timed>)
    requires cfg.tiers != [] && S.CurrentIsPage(r.session)
    decreases |signals|
  {
    signals == [] || (
      Enabled(r, signals[0].signal, signals[0].now)
      && Possible(cfg, Step(cfg, r, signals[0].signal, signals[0].now), signals[1..]))
  }

  function After(cfg: H.Config, r: Run, signals: seq<Timed>): Run
    requires cfg.tiers != [] && S.CurrentIsPage(r.session) && Possible(cfg, r, signals)
    decreases |signals|
  {
    if signals == [] then r else After(cfg, Step(cfg, r, signals[0].signal, signals[0].now), signals[1..])
  }

  // ----- Where page time goes, on every run -----

  ghost predicate Accounted(r: Run) {
    && S.CurrentIsPage(r.session)
    && H.Accounted(r.h)
    && Reported(r.Now(), r.h.clock) - r.base + r.lost == r.active
  }

  /** How a signal changes the page timer. */
  lemma PageTimer(cfg: H.Config, s: H.State, e: H.Event, now: int)
    requires cfg.tiers != []
    ensures H.PageActive(H.Handle(cfg, s, e, now), now)
         == if e.Navigated? || e.PageTracked? || e.ResumeCalled? || e.ResetCalled? then 0
            else if H.Resumes(s, e) && s.isActive then s.pageActiveMs
            else H.PageActive(s, now)
  {
    if H.Resumes(s, e) {
      var shown := if e.Shown? then s.(visible := true) else s;
      H.ScheduleKeepsTime(cfg, H.Woken(shown, now), now);
    } else if H.Resets(cfg, e) {
      var cleared := H.Stop(H.Reset(H.BeforeReset(s, e, now), now), now, false);
      H.ScheduleKeepsTime(cfg, H.Begun(cleared, now), now);
    } else if H.Pings(s, e) {
      var fired := H.Fired(cfg, s, e.id, now);
      H.ScheduleKeepsTime(cfg, fired, now);
    }
  }

  lemma ReportedIs(t: Tracker, now: int)
    requires S.CurrentIsPage(t.session)
    ensures Reported(t, now) == Settled(t.session)
            + if t.session.currentPageIndex.Some? then H.PageActive(t.heart, now) else 0
  {
    TouchSettles(t.session, now, H.PageActive(t.heart, now));
  }

  /** A signal adds the active time that has passed to what is reported, except what is lost. */
  lemma {:induction false} ReportedAfter(cfg: H.Config, r: Run, g: Signal, now: int)
    requires cfg.tiers != [] && Enabled(r, g, now) && S.CurrentIsPage(r.session) && !Beat(g).ResetCalled?
    ensures Reported(Handle(cfg, r.Now(), g, now), now)
         == Reported(r.Now(), r.h.clock) + Elapsed(r, now) - Loss(r, g, now)
  {
    var t := Handle(cfg, r.Now(), g, now);
    PageTimer(cfg, r.h.s, Beat(g), now);
    ReportedIs(r.Now(), r.h.clock);
    ReportedIs(t, now);
    ListSettles(r.session, r.flushed, g, H.Pings(r.h.s, Beat(g)), now, H.PageActive(r.h.s, now));
  }

  lemma {:induction false} ReportedAfterReset(cfg: H.Config, r: Run, g: Signal, now: int)
    requires cfg.tiers != [] && Enabled(r, g, now) && S.CurrentIsPage(r.session) && Beat(g).ResetCalled?
    ensures Reported(Handle(cfg, r.Now(), g, now), now) == 0
  {
    PageTimer(cfg, r.h.s, Beat(g), now);
    ReportedIs(Handle(cfg, r.Now(), g, now), now);
    ResetStartsOver(r.flushed, g, r.session, false, now, H.PageActive(r.h.s, now));
  }

  lemma {:induction false} StepAccounts(cfg: H.Config, r: Run, g: Signal, now: int)
    requires cfg.tiers != [] && Enabled(r, g, now) && Accounted(r)
    ensures Accounted(Step(cfg, r, g, now))
  {
    H.StepAccounts(cfg, r.h, Beat(g), now);
    assert Step(cfg, r, g, now).Now() == Handle(cfg, r.Now(), g, now);
    if Beat(g).ResetCalled? {
      ReportedAfterReset(cfg, r, g, now);
    } else {
      ReportedAfter(cfg, r, g, now);
    }
  }

  lemma {:induction false} EveryRunAccounts(cfg: H.Config, r: Run, signals: seq<Timed>)
    requires cfg.tiers != [] && Accounted(r) && Possible(cfg, r, signals)
    ensures Accounted(After(cfg, r, signals))
    decreases |signals|
  {
    if signals != [] {
      StepAccounts(cfg, r, signals[0].signal, signals[0].now);
      EveryRunAccounts(cfg, Step(cfg, r, signals[0].signal, signals[0].now), signals[1..]);
    }
  }

  lemma InitAccounts(cfg: H.Config, restored: S.Session, path: string, now: int, visible: bool)
    requires cfg.tiers != [] && S.CurrentIsPage(restored)
    ensures Accounted(Init(cfg, restored, path, now, visible))
  {
    H.InitAccounts(cfg, now, visible);
    EntrySettles(restored, path, now, 0);
    ReportedIs(Init(cfg, restored, path, now, visible).Now(), now);
  }

  /** What a reload leaves of the page that was still current: nothing of its duration. */
  lemma ReloadForgetsTheCurrentPage(cfg: H.Config, restored: S.Session, path: string, now: int, visible: bool)
    requires cfg.tiers != [] && S.CurrentIsPage(restored)
    ensures var r := Init(cfg, restored, path, now, visible);
            && S.CurrentIsPage(r.session)
            && Reported(r.Now(), now) == Durations(restored.actions) - ReloadLoss(restored)
            && (restored.currentPageIndex.Some? ==>
                  S.Touch(r.session, now, 0).actions[restored.currentPageIndex.value].duration == 0)
  {
    InitAccounts(cfg, restored, path, now, visible);
    if restored.currentPageIndex.Some? && |restored.actions| < S.MAX_ACTIONS {
      var i, entered := restored.currentPageIndex.value, Init(cfg, restored, path, now, visible).session;
      assert entered.actions[i] == S.Touch(restored, now, 0).actions[i];
    }
  }

  lemma LossIsPaid(r: Run, g: Signal, now: int)
    requires Accounted(r) && Enabled(r, g, now)
    ensures Loss(r, g, now) >= 0
    ensures Loss(r, g, now) == 0 <==> StepKeeps(r, g, now)
  {
  }

  predicate Restarts(signals: seq<Timed>) {
    exists t <- signals :: Beat(t.signal).ResetCalled?
  }

  /** This step throws no page time away. */
  predicate StepKeeps(r: Run, g: Signal, now: int) {
    if r.session.currentPageIndex.None? then r.h.s.isActive ==> now == r.h.clock
    else
      && (H.Resumes(r.h.s, Beat(g)) && r.h.s.isActive ==> now == r.h.s.pageStartTime)
      && (Refused(r, g) || Beat(g).ResumeCalled? ==> H.PageActive(r.h.s, now) == 0)
  }

  predicate Keeps(cfg: H.Config, r: Run, signals: seq<Timed>)
    requires cfg.tiers != [] && S.CurrentIsPage(r.session) && Possible(cfg, r, signals)
    decreases |signals|
  {
    signals == [] || (
      StepKeeps(r, signals[0].signal, signals[0].now)
      && Keeps(cfg, Step(cfg, r, signals[0].signal, signals[0].now), signals[1..]))
  }

  lemma {:induction false} LossesAddUp(cfg: H.Config, r: Run, signals: seq<Timed>)
    requires cfg.tiers != [] && Accounted(r) && Possible(cfg, r, signals) && !Restarts(signals)
    ensures var t := After(cfg, r, signals);
            t.base == r.base && t.lost >= r.lost && (t.lost == r.lost <==> Keeps(cfg, r, signals))
    decreases |signals|
  {
    if signals != [] {
      var g, now := signals[0].signal, signals[0].now;
      assert signals[0] in signals;
      LossIsPaid(r, g, now);
      StepAccounts(cfg, r, g, now);
      assert !Restarts(signals[1..]);
      LossesAddUp(cfg, Step(cfg, r, g, now), signals[1..]);
    }
  }

  /**
   On any run of one session, from a new list or a restored one: what the pages report beyond what they
   reported before is the active time minus the losses. It is exact exactly when no step throws page
   time away and the reload did not.
   */
  lemma DurationsAreActiveTimeMinusLosses(cfg: H.Config, restored: S.Session, path: string, start: int, visible: bool,
                                          signals: seq<Timed>)
    requires cfg.tiers != [] && S.CurrentIsPage(restored)
    requires Possible(cfg, Init(cfg, restored, path, start, visible), signals) && !Restarts(signals)
    ensures var init := Init(cfg, restored, path, start, visible);
            var r := After(cfg, init, signals);
            && S.CurrentIsPage(r.session)
            && Gained(r, restored) == r.active - r.lost && r.lost >= ReloadLoss(restored)
            && (Gained(r, restored) == r.active - ReloadLoss(restored) <==> Keeps(cfg, init, signals))
            && (ReloadLoss(restored) >= 0 ==>
                  (Gained(r, restored) == r.active <==> Keeps(cfg, init, signals) && ReloadLoss(restored) == 0))
  {
    var init := Init(cfg, restored, path, start, visible);
    InitAccounts(cfg, restored, path, start, visible);
    EveryRunAccounts(cfg, init, signals);
    LossesAddUp(cfg, init, signals);
  }

  /** What the pages report beyond what the restored list reported. */
  function Gained(r: Run, restored: S.Session): int
    requires S.CurrentIsPage(r.session)
  {
    Reported(r.Now(), r.h.clock) - Durations(restored.actions)
  }

  // ----- Disciplined runs -----

  function Beats(signals: seq<Timed>): seq<H.Timed> {
    seq(|signals|, i requires 0 <= i < |signals| => H.Timed(Beat(signals[i].signal), signals[i].now))
  }

  /** Seen from the heartbeat, a run is a heartbeat run. */
  lemma {:induction false} HeartRuns(cfg: H.Config, r: Run, signals: seq<Timed>)
    requires cfg.tiers != [] && S.CurrentIsPage(r.session) && Possible(cfg, r, signals)
    ensures H.Possible(cfg, r.h, Beats(signals))
    ensures After(cfg, r, signals).h == H.After(cfg, r.h, Beats(signals))
    decreases |signals|
  {
    if signals != [] {
      HeartRuns(cfg, Step(cfg, r, signals[0].signal, signals[0].now), signals[1..]);
      assert Beats(signals)[1..] == Beats(signals[1..]);
    }
  }

  predicate Disciplined(cfg: H.Config, r: Run, signals: seq<Timed>)
    requires cfg.tiers != [] && S.CurrentIsPage(r.session) && Possible(cfg, r, signals)
    decreases |signals|
  {
    signals == [] || (
      H.Disciplined(cfg, r.h, Beat(signals[0].signal))
      && Disciplined(cfg, Step(cfg, r, signals[0].signal, signals[0].now), signals[1..]))
  }

  lemma {:induction false} DisciplinedHeart(cfg: H.Config, r: Run, signals: seq<Timed>)
    requires cfg.tiers != [] && S.CurrentIsPage(r.session) && Possible(cfg, r, signals) && Disciplined(cfg, r, signals)
    requires r.active == r.h.active
    ensures H.Possible(cfg, r.h, Beats(signals)) && H.DisciplinedRun(cfg, r.h, Beats(signals))
    ensures !Restarts(signals) && After(cfg, r, signals).active == After(cfg, r, signals).h.active
    decreases |signals|
  {
    HeartRuns(cfg, r, signals);
    if signals != [] {
      DisciplinedHeart(cfg, Step(cfg, r, signals[0].signal, signals[0].now), signals[1..]);
      assert Beats(signals)[1..] == Beats(signals[1..]);
      assert signals == [signals[0]] + signals[1..];
    }
  }

  /** No active time passes while no page is current, and no entry is refused to a page with time on it. */
  predicate PagesKeep(cfg: H.Config, r: Run, signals: seq<Timed>)
    requires cfg.tiers != [] && S.CurrentIsPage(r.session) && Possible(cfg, r, signals)
    decreases |signals|
  {
    signals == [] || (
      var g, now := signals[0].signal, signals[0].now;
      && (r.session.currentPageIndex.None? && r.h.s.isActive ==> now == r.h.clock)
      && (r.session.currentPageIndex.Some? && Refused(r, g) ==> H.PageActive(r.h.s, now) == 0)
      && PagesKeep(cfg, Step(cfg, r, g, now), signals[1..]))
  }

  lemma {:induction false} DisciplinedKeeps(cfg: H.Config, r: Run, signals: seq<Timed>)
    requires cfg.tiers != [] && S.CurrentIsPage(r.session) && Possible(cfg, r, signals) && Disciplined(cfg, r, signals)
    ensures Keeps(cfg, r, signals) <==> PagesKeep(cfg, r, signals)
    decreases |signals|
  {
    if signals != [] {
      DisciplinedKeeps(cfg, Step(cfg, r, signals[0].signal, signals[0].now), signals[1..]);
    }
  }

  /**
   While the heartbeat is resumed only from inactive and nothing is reset, its session time is the
   active time. The page durations grow by it, less what a reload took, exactly when no active time
   passes while no page is current, as after a blur and a focus, and no entry is refused at the limit.
   */
  lemma DisciplinedDurationsExactly(cfg: H.Config, restored: S.Session, path: string, start: int, visible: bool,
                                    signals: seq<Timed>)
    requires H.ValidConfig(cfg) && S.CurrentIsPage(restored)
    requires Possible(cfg, Init(cfg, restored, path, start, visible), signals)
    requires Disciplined(cfg, Init(cfg, restored, path, start, visible), signals)
    ensures var init := Init(cfg, restored, path, start, visible);
            var r := After(cfg, init, signals);
            && S.CurrentIsPage(r.session)
            && H.TotalActive(r.h.s, r.h.clock) == r.active
            && Gained(r, restored) <= H.TotalActive(r.h.s, r.h.clock) - ReloadLoss(restored)
            && (Gained(r, restored) == H.TotalActive(r.h.s, r.h.clock) - ReloadLoss(restored)
                <==> PagesKeep(cfg, init, signals))
  {
    var init := Init(cfg, restored, path, start, visible);
    DisciplinedHeart(cfg, init, signals);
    HeartRuns(cfg, init, signals);
    DurationsAreActiveTimeMinusLosses(cfg, restored, path, start, visible, signals);
    DisciplinedKeeps(cfg, init, signals);
    H.DisciplinedTimeIsExact(cfg, start, visible, Beats(signals));
  }

  // ----- The run that loses time -----

  function BlurFocusNavigate(blur: int, focus: int, leave: int): seq<Timed> {
    [Timed(Heart(H.Blurred, "", None), blur), Timed(Heart(H.Focused, "", None), focus),
     Timed(Heart(H.Navigated, "/next", None), leave)]
  }

  ghost predicate Browsing(r: Run, clock: int, accumulated: int) {
    && r.h.clock == clock && r.h.s.isActive && !r.h.s.isPaused && !r.h.s.maxDurationReached
    && r.h.s.accumulatedActiveMs == accumulated && r.h.s.activeStartTime == r.h.s.pageStartTime == clock
    && r.h.s.pageActiveMs == accumulated && r.active == accumulated && r.lost == 0
  }

  lemma {:induction false} FirstPageOpens()
    ensures var r := Init(H.SDK_DEFAULTS, S.NEW, "/", 0, true);
            && Browsing(r, 0, 0) && !r.flushed
            && r.session == S.Session([Pageview("/", 1, 0, 0, 0, 0)], Some(0))
  {
    var s := H.State(0, 0, false, false, 0, 0, 0, 0, map[], None, 0, false, true);
    H.FirstTierApplies(H.Begun(H.Stop(s, 0, false), 0), 0);
  }

  lemma BlurReleases(r: Run, blur: int)
    requires Browsing(r, 0, 0) && !r.flushed && blur >= 0
    requires r.session == S.Session([Pageview("/", 1, 0, 0, 0, 0)], Some(0))
    ensures var g := Heart(H.Blurred, "", None);
            && Enabled(r, g, blur) && H.Disciplined(H.SDK_DEFAULTS, r.h, Beat(g))
            && var t := Step(H.SDK_DEFAULTS, r, g, blur);
               && t.h.clock == blur && !t.h.s.isActive && !t.h.s.isPaused && !t.h.s.maxDurationReached
               && t.h.s.accumulatedActiveMs == t.h.s.pageActiveMs == t.active == blur && t.lost == 0
               && t.session == S.Session([Pageview("/", 1, blur, 0, 0, blur)], None)
  {
  }

  lemma FocusResumes(r: Run, focus: int)
    requires r.h.clock <= focus && !r.h.s.isActive && !r.h.s.isPaused && !r.h.s.maxDurationReached
    requires r.h.s.accumulatedActiveMs == r.h.s.pageActiveMs == r.active && 0 <= r.active <= 10000 && r.lost == 0
    requires r.session.currentPageIndex.None?
    ensures var g := Heart(H.Focused, "", None);
            && Enabled(r, g, focus) && H.Disciplined(H.SDK_DEFAULTS, r.h, Beat(g))
            && var t := Step(H.SDK_DEFAULTS, r, g, focus); Browsing(t, focus, r.active) && t.session == r.session
  {
    var s := r.h.s;
    H.FirstTierApplies(H.Woken(s, focus), focus);
  }

  lemma NavigationFindsNoPage(r: Run, focus: int, leave: int, blur: int)
    requires Browsing(r, focus, blur) && focus <= leave
    requires r.session == S.Session([Pageview("/", 1, blur, 0, 0, blur)], None)
    ensures var g := Heart(H.Navigated, "/next", None);
            && Enabled(r, g, leave) && H.Disciplined(H.SDK_DEFAULTS, r.h, Beat(g))
            && var t := Step(H.SDK_DEFAULTS, r, g, leave);
               && t.active == blur + (leave - focus) && t.lost == leave - focus
               && |t.session.actions| == 2 && t.session.actions[0] == r.session.actions[0]
  {
  }

  /** A disciplined run after which the first page, opened at 0, reports `blur` and `gap` is lost. */
  ghost predicate Loses(r: Run, signals: seq<Timed>, blur: int, gap: int) {
    && H.SDK_DEFAULTS.tiers != [] && S.CurrentIsPage(r.session)
    && Possible(H.SDK_DEFAULTS, r, signals) && Disciplined(H.SDK_DEFAULTS, r, signals)
    && var after := After(H.SDK_DEFAULTS, r, signals);
       && after.active == blur + gap && after.lost == gap
       && |after.session.actions| == 2 && after.session.actions[0] == Pageview("/", 1, blur, 0, 0, blur)
  }

  lemma {:induction false} LosesFrom(r: Run, signals: seq<Timed>, k: nat, blur: int, gap: int)
    requires k < |signals| && H.SDK_DEFAULTS.tiers != [] && S.CurrentIsPage(r.session)
    requires Enabled(r, signals[k].signal, signals[k].now)
    requires H.Disciplined(H.SDK_DEFAULTS, r.h, Beat(signals[k].signal))
    requires Loses(Step(H.SDK_DEFAULTS, r, signals[k].signal, signals[k].now), signals[k + 1..], blur, gap)
    ensures Loses(r, signals[k..], blur, gap)
  {
    assert signals[k..][1..] == signals[k + 1..];
  }

  lemma {:induction false} LeavingLoses(r: Run, blur: int, focus: int, leave: int)
    requires Browsing(r, focus, blur) && focus <= leave
    requires r.session == S.Session([Pageview("/", 1, blur, 0, 0, blur)], None)
    ensures Loses(r, BlurFocusNavigate(blur, focus, leave)[2..], blur, leave - focus)
  {
    var signals := BlurFocusNavigate(blur, focus, leave);
    NavigationFindsNoPage(r, focus, leave, blur);
    assert signals[3..] == [];
    LosesFrom(r, signals, 2, blur, leave - focus);
  }

  lemma {:induction false} FocusingLoses(r: Run, blur: int, focus: int, leave: int)
    requires r.h.clock <= focus <= leave && !r.h.s.isActive && !r.h.s.isPaused && !r.h.s.maxDurationReached
    requires r.h.s.accumulatedActiveMs == r.h.s.pageActiveMs == r.active == blur && 0 <= blur <= 10000 && r.lost == 0
    requires r.session == S.Session([Pageview("/", 1, blur, 0, 0, blur)], None)
    ensures Loses(r, BlurFocusNavigate(blur, focus, leave)[1..], blur, leave - focus)
  {
    FocusResumes(r, focus);
    LeavingLoses(Step(H.SDK_DEFAULTS, r, Heart(H.Focused, "", None), focus), blur, focus, leave);
    LosesFrom(r, BlurFocusNavigate(blur, focus, leave), 1, blur, leave - focus);
  }

  lemma {:induction false} BlurringLoses(r: Run, blur: int, focus: int, leave: int)
    requires Browsing(r, 0, 0) && !r.flushed && r.session == S.Session([Pageview("/", 1, 0, 0, 0, 0)], Some(0))
    requires 0 <= blur <= 10000 && blur <= focus <= leave
    ensures Loses(r, BlurFocusNavigate(blur, focus, leave), blur, leave - focus)
  {
    var signals := BlurFocusNavigate(blur, focus, leave);
    BlurReleases(r, blur);
    FocusingLoses(Step(H.SDK_DEFAULTS, r, Heart(H.Blurred, "", None), blur), blur, focus, leave);
    LosesFrom(r, signals, 0, blur, leave - focus);
    assert signals[0..] == signals;
  }

  /**
   A page is opened at 0, the window loses focus, gets it back, and the visitor navigates. The run is
   disciplined, but the page reports only the time before the blur: it was released there.
   */
  lemma {:induction false} BlurLosesTheRest(blur: int, focus: int, leave: int)
    requires 0 <= blur <= 10000 && blur <= focus <= leave
    ensures Loses(Init(H.SDK_DEFAULTS, S.NEW, "/", 0, true), BlurFocusNavigate(blur, focus, leave), blur, leave - focus)
  {
    FirstPageOpens();
    BlurringLoses(Init(H.SDK_DEFAULTS, S.NEW, "/", 0, true), blur, focus, leave);
  }
}
