/**
 The SDK heartbeat as a timed transition system. Every handler runs at one instant `now`; the host
 holds the armed timeouts, and a timeout that `heartbeatTimeout` no longer names can still fire.
 */
module Heartbeat {
  import opened Events
  import opened Tiers

  // `maxDuration` 0 means unlimited.
  datatype Config = Config(maxDuration: nat, tiers: seq<Tier>, mobile: bool, resetOnNavigation: bool)

  ghost predicate ValidConfig(cfg: Config) {
    Usable(cfg.tiers)
  }

  datatype State = State(
    activeStartTime: int,
    accumulatedActiveMs: int,
    isActive: bool,
    maxDurationReached: bool,
    lastPingTime: int,
    currentTierIndex: nat,
    pageActiveMs: int,
    pageStartTime: int,
    timers: map<nat, int>,          // armed timeouts and when each is due
    timeout: Option<nat>,           // the handle kept in `heartbeatTimeout`
    nextTimer: nat,
    isPaused: bool,
    visible: bool)

  function TotalActive(s: State, now: int): int {
    s.accumulatedActiveMs + if s.isActive then now - s.activeStartTime else 0
  }

  function PageActive(s: State, now: int): int {
    s.pageActiveMs + if s.isActive then now - s.pageStartTime else 0
  }

  function Interval(cfg: Config, total: int): Option<int>
    requires cfg.tiers != []
  {
    var tier := cfg.tiers[TierIndex(cfg.tiers, total)];
    if cfg.mobile then tier.mobileInterval else tier.desktopInterval
  }

  function Stop(s: State, now: int, accumulate: bool): State {
    var counted := if accumulate && s.isActive
                   then s.(accumulatedActiveMs := s.accumulatedActiveMs + (now - s.activeStartTime),
                           pageActiveMs := s.pageActiveMs + (now - s.pageStartTime))
                   else s;
    counted.(isActive := false,
             timers := if s.timeout.Some? then s.timers - {s.timeout.value} else s.timers,
             timeout := None)
  }

  function Schedule(cfg: Config, s: State, now: int): State
    requires cfg.tiers != []
  {
    if !s.isActive then s
    else if cfg.maxDuration != 0 && TotalActive(s, now) >= cfg.maxDuration then
      Stop(s.(maxDurationReached := true), now, true)
    else
      var interval := Interval(cfg, TotalActive(s, now));
      if interval.None? then Stop(s.(maxDurationReached := true), now, true)
      else
        var target := s.lastPingTime + interval.value;
        s.(timers := s.timers[s.nextTimer := if target > now then target else now],
           timeout := Some(s.nextTimer),
           nextTimer := s.nextTimer + 1)
  }

  /** Active from `now` on, the page timer running on. */
  function Begun(s: State, now: int): State {
    s.(activeStartTime := now, isActive := true, lastPingTime := now)
  }

  /** Active from `now` on, both times measured from there. */
  function Woken(s: State, now: int): State {
    s.(activeStartTime := now, pageStartTime := now, isActive := true, lastPingTime := now)
  }

  function Start(cfg: Config, s: State, now: int): State
    requires cfg.tiers != []
  {
    if s.maxDurationReached then s
    else Schedule(cfg, Begun(Stop(s, now, false), now), now)
  }

  function Resume(cfg: Config, s: State, now: int): State
    requires cfg.tiers != []
  {
    if s.maxDurationReached then s
    else Schedule(cfg, Woken(s, now), now)
  }

  function Reset(s: State, now: int): State {
    Stop(s, now, false).(activeStartTime := 0, accumulatedActiveMs := 0, isActive := false, maxDurationReached := false,
                         lastPingTime := 0, currentTierIndex := 0, pageActiveMs := 0, pageStartTime := now)
  }

  function ResetPage(s: State, now: int): State {
    s.(pageActiveMs := 0, pageStartTime := now)
  }

  predicate ShouldPing(s: State) {
    !s.isPaused && s.isActive && s.visible
  }

  /** The timeout is spent, and the ping recorded. */
  function Fired(cfg: Config, s: State, id: nat, now: int): State
    requires cfg.tiers != []
  {
    s.(timers := s.timers - {id}, currentTierIndex := TierIndex(cfg.tiers, TotalActive(s, now)), lastPingTime := now)
  }

  function Fire(cfg: Config, s: State, id: nat, now: int): State
    requires cfg.tiers != []
  {
    if !ShouldPing(s) then s.(timers := s.timers - {id}) else Schedule(cfg, Fired(cfg, s, id, now), now)
  }

  datatype Event =
    | Hidden                 // the tab is hidden
    | Shown                  // the tab is visible again
    | Focused                // window focus, lifecycle resume, or return from the back-forward cache
    | Blurred                // window blur or lifecycle freeze
    | Navigated              // SPA navigation
    | PageTracked            // explicit trackPageView
    | PauseCalled
    | ResumeCalled
    | ResetCalled
    | TimerFired(id: nat)
    | Quiet                  // unload, goals and sends: nothing the heartbeat reacts to

  predicate Resumes(s: State, e: Event) {
    (e.Shown? || e.Focused?) && !s.isPaused && !s.maxDurationReached
  }

  predicate Resets(cfg: Config, e: Event) {
    e.ResumeCalled? || e.ResetCalled? || (e.Navigated? && cfg.resetOnNavigation)
  }

  /** The state that a resetting event resets. */
  function BeforeReset(s: State, e: Event, now: int): State {
    if e.Navigated? then ResetPage(s, now) else if e.ResumeCalled? then s.(isPaused := false) else s
  }

  predicate Pings(s: State, e: Event) {
    e.TimerFired? && ShouldPing(s)
  }

  function Handle(cfg: Config, s: State, e: Event, now: int): State
    requires cfg.tiers != []
  {
    match e
    case Hidden => Stop(s, now, true).(visible := false)
    case Shown => (if Resumes(s, e) then Resume(cfg, s.(visible := true), now) else s.(visible := true))
    case Focused => if Resumes(s, e) then Resume(cfg, s, now) else s
    case Blurred => Stop(s, now, true)
    case Navigated =>
      var paged := ResetPage(s, now);
      if cfg.resetOnNavigation then Start(cfg, Reset(paged, now), now) else paged
    case PageTracked => ResetPage(s, now)
    case PauseCalled => Stop(s.(isPaused := true), now, true)
    case ResumeCalled => Start(cfg, Reset(s.(isPaused := false), now), now)
    case ResetCalled => Start(cfg, Reset(s, now), now)
    case TimerFired(id) => Fire(cfg, s, id, now)
    case Quiet => s
  }

  // ----- Runs, with an account of where the active time went -----

  // `active` is the time during which the SDK held itself active; `pages` sums the page times that the
  // focus getter reports at each navigation, just before the page timer is reset. `lostSession` and
  // `lostPage` are the amounts that a step throws away.
  datatype Run = Run(s: State, clock: int, pings: nat, active: int, pages: int, lostSession: int, lostPage: int)

  function SessionLoss(cfg: Config, s: State, e: Event, now: int): int {
    if Resumes(s, e) then (if s.isActive then now - s.activeStartTime else 0)
    else if Resets(cfg, e) then TotalActive(s, now)
    else 0
  }

  function PageLoss(s: State, e: Event, now: int): int {
    if Resumes(s, e) then (if s.isActive then now - s.pageStartTime else 0)
    else if e.ResumeCalled? || e.ResetCalled? then PageActive(s, now)
    else 0
  }

  /** The clock does not go back, and the host never fires a timeout early. */
  predicate Enabled(r: Run, e: Event, now: int) {
    now >= r.clock && (e.TimerFired? ==> e.id in r.s.timers && now >= r.s.timers[e.id])
  }

  function Step(cfg: Config, r: Run, e: Event, now: int): Run
    requires cfg.tiers != [] && Enabled(r, e, now)
  {
    Run(Handle(cfg, r.s, e, now),
        now,
        r.pings + if Pings(r.s, e) then 1 else 0,
        r.active + if r.s.isActive then now - r.clock else 0,
        r.pages + if e.Navigated? || e.PageTracked? then PageActive(r.s, now) else 0,
        r.lostSession + SessionLoss(cfg, r.s, e, now),
        r.lostPage + PageLoss(r.s, e, now))
  }

  function Init(cfg: Config, now: int, visible: bool): Run
    requires cfg.tiers != []
  {
    var s := State(now, 0, false, false, 0, 0, 0, now, map[], None, 0, false, visible);
    Run(Start(cfg, s, now), now, 0, 0, 0, 0, 0)
  }

  datatype Timed = Timed(event: Event, now: int)

  predicate Possible(cfg: Config, r: Run, events: seq<Timed>)
    requires cfg.tiers != []
    decreases |events|
  {
    events == [] || (Enabled(r, events[0].event, events[0].now)
                     && Possible(cfg, Step(cfg, r, events[0].event, events[0].now), events[1..]))
  }

  function After(cfg: Config, r: Run, events: seq<Timed>): Run
    requires cfg.tiers != [] && Possible(cfg, r, events)
    decreases |events|
  {
    if events == [] then r else After(cfg, Step(cfg, r, events[0].event, events[0].now), events[1..])
  }

  // ----- Where the active time goes, on every run -----

  ghost predicate Accounted(r: Run) {
    && TotalActive(r.s, r.clock) + r.lostSession == r.active
    && r.pages + PageActive(r.s, r.clock) + r.lostPage == r.active
    && r.lostSession >= 0 && r.lostPage >= 0 && r.pages >= 0
    && r.s.accumulatedActiveMs >= 0 && r.s.pageActiveMs >= 0
    && (r.s.isActive ==> r.s.activeStartTime <= r.clock && r.s.pageStartTime <= r.clock)
  }

  /** Stopping or rescheduling moves time from the running period to the accumulated one, and loses none. */
  lemma ScheduleKeepsTime(cfg: Config, s: State, now: int)
    requires cfg.tiers != []
    ensures var t := Schedule(cfg, s, now);
            && TotalActive(t, now) == TotalActive(s, now) && PageActive(t, now) == PageActive(s, now)
            && (t.isActive ==> t == s.(timers := t.timers, timeout := t.timeout, nextTimer := t.nextTimer))
            && (!t.isActive && s.isActive ==>
                t.accumulatedActiveMs == TotalActive(s, now) && t.pageActiveMs == PageActive(s, now))
            && (!s.isActive ==> t == s)
  {
  }

  /** Both times of `s` at `now`, and that `s` can be measured from then on. */
  ghost predicate Measures(s: State, now: int, total: int, page: int) {
    && TotalActive(s, now) == total && PageActive(s, now) == page
    && s.accumulatedActiveMs >= 0 && s.pageActiveMs >= 0
    && (s.isActive ==> s.activeStartTime <= now && s.pageStartTime <= now)
  }

  predicate StopsOrPages(cfg: Config, s: State, e: Event) {
    !Resumes(s, e) && !Resets(cfg, e) && !Pings(s, e)
  }

  lemma StoppedOrPaged(cfg: Config, s: State, e: Event, now: int)
    requires cfg.tiers != [] && Measures(s, now, TotalActive(s, now), PageActive(s, now)) && StopsOrPages(cfg, s, e)
    ensures Measures(Handle(cfg, s, e, now), now, TotalActive(s, now),
                     if e.Navigated? || e.PageTracked? then 0 else PageActive(s, now))
  {
  }

  /** Every event keeps both times, apart from what it settles or throws away. */
  lemma HandleMeasures(cfg: Config, s: State, e: Event, now: int)
    requires cfg.tiers != [] && Measures(s, now, TotalActive(s, now), PageActive(s, now))
    ensures Measures(Handle(cfg, s, e, now), now, TotalActive(s, now) - SessionLoss(cfg, s, e, now),
                     if e.Navigated? || e.PageTracked? then 0 else PageActive(s, now) - PageLoss(s, e, now))
  {
    if Resumes(s, e) {
      ResumeAccounts(cfg, if e.Shown? then s.(visible := true) else s, now);
    } else if Resets(cfg, e) {
      ResetAccounts(cfg, BeforeReset(s, e, now), now);
    } else if Pings(s, e) {
      PingAccounts(cfg, s, e.id, now);
    } else {
      StoppedOrPaged(cfg, s, e, now);
    }
  }

  lemma StepAccounts(cfg: Config, r: Run, e: Event, now: int)
    requires cfg.tiers != [] && Enabled(r, e, now) && Accounted(r)
    ensures Accounted(Step(cfg, r, e, now))
  {
    HandleMeasures(cfg, r.s, e, now);
  }

  lemma ResumeAccounts(cfg: Config, s: State, now: int)
    requires cfg.tiers != [] && !s.maxDurationReached && s.accumulatedActiveMs >= 0 && s.pageActiveMs >= 0
    ensures Measures(Resume(cfg, s, now), now, s.accumulatedActiveMs, s.pageActiveMs)
  {
    ScheduleKeepsTime(cfg, Woken(s, now), now);
  }

  lemma ResetAccounts(cfg: Config, s: State, now: int)
    requires cfg.tiers != []
    ensures Measures(Start(cfg, Reset(s, now), now), now, 0, 0)
  {
    var cleared := Stop(Reset(s, now), now, false);
    ScheduleKeepsTime(cfg, Begun(cleared, now), now);
  }

  lemma PingAccounts(cfg: Config, s: State, id: nat, now: int)
    requires cfg.tiers != [] && ShouldPing(s) && s.accumulatedActiveMs >= 0 && s.pageActiveMs >= 0
    requires s.activeStartTime <= now && s.pageStartTime <= now
    ensures Measures(Fire(cfg, s, id, now), now, TotalActive(s, now), PageActive(s, now))
  {
    var fired := Fired(cfg, s, id, now);
    ScheduleKeepsTime(cfg, fired, now);
  }

  lemma {:induction false} EveryRunAccounts(cfg: Config, r: Run, events: seq<Timed>)
    requires cfg.tiers != [] && Possible(cfg, r, events) && Accounted(r)
    ensures Accounted(After(cfg, r, events))
    decreases |events|
  {
    if events != [] {
      StepAccounts(cfg, r, events[0].event, events[0].now);
      EveryRunAccounts(cfg, Step(cfg, r, events[0].event, events[0].now), events[1..]);
    }
  }

  lemma InitAccounts(cfg: Config, now: int, visible: bool)
    requires cfg.tiers != []
    ensures Accounted(Init(cfg, now, visible))
  {
  }

  /**
   On any run at all, the session time and the page time never exceed the time spent active; what is
   missing is exactly what resumes while active and resets threw away.
   */
  lemma MeasuredTimeIsActiveTimeMinusLosses(cfg: Config, start: int, visible: bool, events: seq<Timed>)
    requires cfg.tiers != [] && Possible(cfg, Init(cfg, start, visible), events)
    ensures var r := After(cfg, Init(cfg, start, visible), events);
            && TotalActive(r.s, r.clock) == r.active - r.lostSession <= r.active
            && r.pages + PageActive(r.s, r.clock) == r.active - r.lostPage
            && 0 <= PageActive(r.s, r.clock) <= r.active
            && (TotalActive(r.s, r.clock) == r.active <==> r.lostSession == 0)
  {
    InitAccounts(cfg, start, visible);
    EveryRunAccounts(cfg, Init(cfg, start, visible), events);
  }

  // ----- Disciplined runs: resume only from inactive, and no reset -----

  predicate Disciplined(cfg: Config, r: Run, e: Event) {
    (Resumes(r.s, e) ==> !r.s.isActive) && !Resets(cfg, e)
  }

  predicate DisciplinedRun(cfg: Config, r: Run, events: seq<Timed>)
    requires cfg.tiers != [] && Possible(cfg, r, events)
    decreases |events|
  {
    events == [] || (Disciplined(cfg, r, events[0].event)
                     && DisciplinedRun(cfg, Step(cfg, r, events[0].event, events[0].now), events[1..]))
  }

  ghost predicate OneTimer(cfg: Config, s: State) {
    && s.timers.Keys <= (if s.timeout.Some? then {s.timeout.value} else {})
    && (forall id <- s.timers ::
          s.isActive && id < s.nextTimer && s.timers[id] >= s.lastPingTime + MIN_HEARTBEAT_INTERVAL)
    && (s.timers != map[] ==>
          cfg.maxDuration == 0 || s.accumulatedActiveMs + s.lastPingTime - s.activeStartTime < cfg.maxDuration)
  }

  /** Each ping has used up its own five seconds of active time. */
  ghost predicate Paced(cfg: Config, r: Run) {
    && cfg.tiers != []
    && Accounted(r) && r.lostSession == 0 && r.lostPage == 0
    && OneTimer(cfg, r.s)
    && MIN_HEARTBEAT_INTERVAL * r.pings
       <= r.s.accumulatedActiveMs + (if r.s.isActive then r.s.lastPingTime - r.s.activeStartTime else 0)
    && (r.s.isActive ==> r.s.lastPingTime <= r.clock)
    && (cfg.maxDuration != 0 ==> MIN_HEARTBEAT_INTERVAL * (r.pings - 1) < cfg.maxDuration)
  }

  lemma StopKeepsOneTimer(cfg: Config, s: State, now: int)
    requires OneTimer(cfg, s)
    ensures Stop(s, now, true).timers == map[] && OneTimer(cfg, Stop(s, now, true))
  {
    assert Stop(s, now, true).timers.Keys == {};
  }

  lemma ScheduleKeepsOneTimer(cfg: Config, s: State, now: int)
    requires ValidConfig(cfg) && s.isActive && s.lastPingTime == now
    requires s.timers == map[]
    ensures OneTimer(cfg, Schedule(cfg, s, now))
  {
    var t := Schedule(cfg, s, now);
    var tier := cfg.tiers[TierIndex(cfg.tiers, TotalActive(s, now))];
    assert tier in cfg.tiers;
    if !t.isActive {
      assert t.timers == map[];
    } else {
      assert t.timers.Keys == {s.nextTimer};
    }
  }

  lemma FireEmptiesTimers(cfg: Config, s: State, id: nat)
    requires OneTimer(cfg, s) && id in s.timers
    ensures s.timers - {id} == map[]
  {
    assert (s.timers - {id}).Keys == {};
  }

  lemma StepKeepsPace(cfg: Config, r: Run, e: Event, now: int)
    requires ValidConfig(cfg) && Enabled(r, e, now) && Paced(cfg, r) && Disciplined(cfg, r, e)
    ensures Paced(cfg, Step(cfg, r, e, now))
  {
    StepAccounts(cfg, r, e, now);
    if Resumes(r.s, e) {
      ResumeKeepsPace(cfg, r, e, now);
    } else if Pings(r.s, e) {
      PingKeepsPace(cfg, r, e, now);
    } else if e.TimerFired? {
      FireEmptiesTimers(cfg, r.s, e.id);
    } else if e.Hidden? || e.Blurred? {
      StopKeepsOneTimer(cfg, r.s, now);
    } else if e.PauseCalled? {
      StopKeepsOneTimer(cfg, r.s.(isPaused := true), now);
    }
  }

  lemma ResumeKeepsPace(cfg: Config, r: Run, e: Event, now: int)
    requires ValidConfig(cfg) && Enabled(r, e, now) && Paced(cfg, r) && Disciplined(cfg, r, e)
    requires Resumes(r.s, e) && Accounted(Step(cfg, r, e, now))
    ensures Paced(cfg, Step(cfg, r, e, now))
  {
    assert r.s.timers == map[];
    var shown := if e.Shown? then r.s.(visible := true) else r.s;
    var resumed := Woken(shown, now);
    ScheduleKeepsTime(cfg, resumed, now);
    ScheduleKeepsOneTimer(cfg, resumed, now);
  }

  lemma PingKeepsPace(cfg: Config, r: Run, e: Event, now: int)
    requires ValidConfig(cfg) && Enabled(r, e, now) && Paced(cfg, r) && Disciplined(cfg, r, e)
    requires Pings(r.s, e) && Accounted(Step(cfg, r, e, now))
    ensures Paced(cfg, Step(cfg, r, e, now))
  {
    FireEmptiesTimers(cfg, r.s, e.id);
    var fired := Fired(cfg, r.s, e.id, now);
    ScheduleKeepsTime(cfg, fired, now);
    ScheduleKeepsOneTimer(cfg, fired, now);
  }

  lemma {:induction false} EveryDisciplinedRunIsPaced(cfg: Config, r: Run, events: seq<Timed>)
    requires ValidConfig(cfg) && Possible(cfg, r, events) && DisciplinedRun(cfg, r, events) && Paced(cfg, r)
    ensures Paced(cfg, After(cfg, r, events))
    decreases |events|
  {
    if events != [] {
      StepKeepsPace(cfg, r, events[0].event, events[0].now);
      EveryDisciplinedRunIsPaced(cfg, Step(cfg, r, events[0].event, events[0].now), events[1..]);
    }
  }

  ghost predicate TierReached(cfg: Config, r: Run) {
    cfg.tiers != [] && r.s.currentTierIndex <= TierIndex(cfg.tiers, TotalActive(r.s, r.clock))
  }

  lemma DisciplinedKeepsTotal(cfg: Config, r: Run, e: Event, now: int)
    requires cfg.tiers != [] && Enabled(r, e, now) && Disciplined(cfg, r, e)
    ensures TotalActive(Step(cfg, r, e, now).s, now) == TotalActive(r.s, now)
    ensures Step(cfg, r, e, now).s.currentTierIndex
         == if Pings(r.s, e) then TierIndex(cfg.tiers, TotalActive(r.s, now)) else r.s.currentTierIndex
  {
  }

  /** On tiers in order, the tier index never falls and never runs ahead of the active time. */
  lemma {:induction false} TierNeverFalls(cfg: Config, r: Run, events: seq<Timed>)
    requires ValidConfig(cfg) && Sorted(cfg.tiers) && Possible(cfg, r, events) && DisciplinedRun(cfg, r, events)
    requires Paced(cfg, r) && TierReached(cfg, r)
    ensures TierReached(cfg, After(cfg, r, events))
    ensures r.s.currentTierIndex <= After(cfg, r, events).s.currentTierIndex
    decreases |events|
  {
    if events != [] {
      var e, now := events[0].event, events[0].now;
      StepKeepsPace(cfg, r, e, now);
      TierIndexGrows(cfg.tiers, TotalActive(r.s, r.clock), TotalActive(r.s, now));
      DisciplinedKeepsTotal(cfg, r, e, now);
      TierNeverFalls(cfg, Step(cfg, r, e, now), events[1..]);
    }
  }

  lemma InitIsPaced(cfg: Config, now: int, visible: bool)
    requires ValidConfig(cfg)
    ensures Paced(cfg, Init(cfg, now, visible))
  {
    var s := State(now, 0, false, false, 0, 0, 0, now, map[], None, 0, false, visible);
    ScheduleKeepsOneTimer(cfg, s.(isActive := true, lastPingTime := now), now);
  }

  /** At most ceil(maxDuration / 5000) pings, each with five seconds of its own, and then no timer is left. */
  lemma PingsAreBounded(cfg: Config, start: int, visible: bool, events: seq<Timed>)
    requires ValidConfig(cfg) && cfg.maxDuration > 0
    requires Possible(cfg, Init(cfg, start, visible), events) && DisciplinedRun(cfg, Init(cfg, start, visible), events)
    ensures var r := After(cfg, Init(cfg, start, visible), events);
            && r.pings <= (cfg.maxDuration + MIN_HEARTBEAT_INTERVAL - 1) / MIN_HEARTBEAT_INTERVAL
            && MIN_HEARTBEAT_INTERVAL * r.pings <= TotalActive(r.s, r.clock)
            && (MIN_HEARTBEAT_INTERVAL * r.pings >= cfg.maxDuration ==> r.s.timers == map[])
  {
    InitIsPaced(cfg, start, visible);
    EveryDisciplinedRunIsPaced(cfg, Init(cfg, start, visible), events);
  }

  /** Page times add up to the session time, which is the time spent active. */
  lemma DisciplinedTimeIsExact(cfg: Config, start: int, visible: bool, events: seq<Timed>)
    requires ValidConfig(cfg)
    requires Possible(cfg, Init(cfg, start, visible), events) && DisciplinedRun(cfg, Init(cfg, start, visible), events)
    ensures var r := After(cfg, Init(cfg, start, visible), events);
            r.pages + PageActive(r.s, r.clock) == TotalActive(r.s, r.clock) == r.active
  {
    InitIsPaced(cfg, start, visible);
    EveryDisciplinedRunIsPaced(cfg, Init(cfg, start, visible), events);
  }

  // ----- Without the discipline there is no bound -----

  lemma {:induction false} AfterOneMore(cfg: Config, r: Run, events: seq<Timed>, last: Timed)
    requires cfg.tiers != [] && Possible(cfg, r, events) && Enabled(After(cfg, r, events), last.event, last.now)
    ensures Possible(cfg, r, events + [last])
    ensures After(cfg, r, events + [last]) == Step(cfg, After(cfg, r, events), last.event, last.now)
    decreases |events|
  {
    if events == [] {
      assert ([last])[1..] == [];
      assert Possible(cfg, Step(cfg, r, last.event, last.now), []);
    } else {
      AfterOneMore(cfg, Step(cfg, r, events[0].event, events[0].now), events[1..], last);
      assert (events + [last])[1..] == events[1..] + [last];
    }
  }

  const SDK_DEFAULTS := Config(600000, DEFAULT_HEARTBEAT_TIERS, false, false)

  lemma DefaultsAreValid()
    ensures ValidConfig(SDK_DEFAULTS) && Sorted(SDK_DEFAULTS.tiers)
  {
    assert SDK_DEFAULTS.tiers == DEFAULT_HEARTBEAT_TIERS;
  }

  /** `n` focus events at time zero have left `n` more timers, all due at ten seconds. */
  ghost predicate Crowded(r: Run, n: nat) {
    && r.clock == 0 && r.pings == 0
    && r.s.isActive && r.s.visible && !r.s.isPaused && !r.s.maxDurationReached
    && r.s.accumulatedActiveMs == 0 && r.s.activeStartTime == 0 && r.s.lastPingTime == 0
    && r.s.nextTimer == n + 1
    && forall id | 0 <= id <= n :: id in r.s.timers && r.s.timers[id] == 10000
  }

  lemma FirstTierApplies(s: State, now: int)
    requires s.isActive && 0 <= TotalActive(s, now) <= 10000
    ensures SDK_DEFAULTS.tiers != []
    ensures Schedule(SDK_DEFAULTS, s, now)
         == s.(timers := s.timers[s.nextTimer := if s.lastPingTime + 10000 > now then s.lastPingTime + 10000 else now],
               timeout := Some(s.nextTimer), nextTimer := s.nextTimer + 1)
  {
    assert TierIndex(SDK_DEFAULTS.tiers, TotalActive(s, now)) == 0;
  }

  lemma InitIsCrowded()
    ensures Crowded(Init(SDK_DEFAULTS, 0, true), 0)
  {
    var s := State(0, 0, false, false, 0, 0, 0, 0, map[], None, 0, false, true);
    var active := s.(isActive := true);
    assert Begun(Stop(s, 0, false), 0) == active;
    FirstTierApplies(active, 0);
  }

  lemma FocusAddsOne(r: Run, n: nat)
    requires Crowded(r, n)
    ensures Enabled(r, Focused, 0) && Crowded(Step(SDK_DEFAULTS, r, Focused, 0), n + 1)
  {
    FirstTierApplies(r.s, 0);
  }

  lemma {:induction false} FocusCrowds(n: nat) returns (events: seq<Timed>)
    ensures Possible(SDK_DEFAULTS, Init(SDK_DEFAULTS, 0, true), events)
    ensures Crowded(After(SDK_DEFAULTS, Init(SDK_DEFAULTS, 0, true), events), n)
  {
    if n == 0 {
      events := [];
      InitIsCrowded();
    } else {
      var before := FocusCrowds(n - 1);
      FocusAddsOne(After(SDK_DEFAULTS, Init(SDK_DEFAULTS, 0, true), before), n - 1);
      var last := Timed(Focused, 0);
      AfterOneMore(SDK_DEFAULTS, Init(SDK_DEFAULTS, 0, true), before, last);
      events := before + [last];
    }
  }

  ghost predicate Draining(r: Run, n: nat, pings: nat) {
    && r.clock <= 10000 && r.pings == pings
    && r.s.isActive && r.s.visible && !r.s.isPaused
    && r.s.accumulatedActiveMs == 0 && r.s.activeStartTime == 0 && r.s.nextTimer > n
    && forall id | pings <= id <= n :: id in r.s.timers && r.s.timers[id] == 10000
  }

  lemma FireDrainsOne(r: Run, n: nat, pings: nat)
    requires Draining(r, n, pings) && pings <= n
    ensures Enabled(r, TimerFired(pings), 10000)
    ensures Draining(Step(SDK_DEFAULTS, r, TimerFired(pings), 10000), n, pings + 1)
  {
    FirstTierApplies(Fired(SDK_DEFAULTS, r.s, pings, 10000), 10000);
  }

  lemma {:induction false} CrowdPings(n: nat, pings: nat) returns (events: seq<Timed>)
    requires pings <= n + 1
    ensures Possible(SDK_DEFAULTS, Init(SDK_DEFAULTS, 0, true), events)
    ensures Draining(After(SDK_DEFAULTS, Init(SDK_DEFAULTS, 0, true), events), n, pings)
    decreases pings
  {
    if pings == 0 {
      events := FocusCrowds(n);
    } else {
      var before := CrowdPings(n, pings - 1);
      FireDrainsOne(After(SDK_DEFAULTS, Init(SDK_DEFAULTS, 0, true), before), n, pings - 1);
      var last := Timed(TimerFired(pings - 1), 10000);
      AfterOneMore(SDK_DEFAULTS, Init(SDK_DEFAULTS, 0, true), before, last);
      events := before + [last];
    }
  }

  /** Focus events that resume an active heartbeat multiply its timers: any number of pings in ten seconds. */
  lemma ResumingWhileActiveUnboundsPings(n: nat)
    ensures exists events: seq<Timed> ::
              && Possible(SDK_DEFAULTS, Init(SDK_DEFAULTS, 0, true), events)
              && After(SDK_DEFAULTS, Init(SDK_DEFAULTS, 0, true), events).pings == n
              && After(SDK_DEFAULTS, Init(SDK_DEFAULTS, 0, true), events).clock <= 10000
  {
    var events := CrowdPings(n, n);
  }

  // ----- On any run, timers and pings are bounded by the resumes that found the heartbeat active -----

  /** Armed timeouts that `heartbeatTimeout` no longer names. */
  function Strays(s: State): set<nat> {
    s.timers.Keys - (if s.timeout.Some? then {s.timeout.value} else {})
  }

  predicate ResumesActive(s: State, e: Event) {
    Resumes(s, e) && s.isActive
  }

  function ActiveResumes(cfg: Config, r: Run, events: seq<Timed>): nat
    requires cfg.tiers != [] && Possible(cfg, r, events)
    decreases |events|
  {
    if events == [] then 0
    else
      (if ResumesActive(r.s, events[0].event) then 1 else 0)
      + ActiveResumes(cfg, Step(cfg, r, events[0].event, events[0].now), events[1..])
  }

  ghost predicate NamedOnlyWhileActive(s: State) {
    s.timeout.Some? ==> s.isActive
  }

  lemma ScheduleLeaves(cfg: Config, s: State, now: int)
    requires cfg.tiers != [] && s.isActive
    ensures NamedOnlyWhileActive(Schedule(cfg, s, now))
    ensures Strays(Schedule(cfg, s, now)) <= s.timers.Keys
    ensures s.timeout.None? ==> Strays(Schedule(cfg, s, now)) <= Strays(s)
  {
  }

  lemma Fewer(a: set<nat>, b: set<nat>)
    requires a <= b
    ensures |a| <= |b|
  {
    assert b == a + (b - a);
  }

  /** Only a resume while active leaves a timer behind. */
  lemma HandleLeaves(cfg: Config, s: State, e: Event, now: int)
    requires cfg.tiers != [] && NamedOnlyWhileActive(s) && (e.TimerFired? ==> e.id in s.timers)
    ensures NamedOnlyWhileActive(Handle(cfg, s, e, now))
    ensures |Strays(Handle(cfg, s, e, now))| <= |Strays(s)| + if ResumesActive(s, e) then 1 else 0
  {
    if Pings(s, e) {
      PingLeaves(cfg, s, e.id, now);
    } else if ResumesActive(s, e) {
      ActiveResumeLeaves(cfg, s, e, now);
    } else {
      QuietlyLeaves(cfg, s, e, now);
      Fewer(Strays(Handle(cfg, s, e, now)), Strays(s));
    }
  }

  lemma ActiveResumeLeaves(cfg: Config, s: State, e: Event, now: int)
    requires cfg.tiers != [] && ResumesActive(s, e)
    ensures NamedOnlyWhileActive(Handle(cfg, s, e, now)) && |Strays(Handle(cfg, s, e, now))| <= |Strays(s)| + 1
  {
    ResumeLeaves(cfg, if e.Shown? then s.(visible := true) else s, now);
  }

  lemma PingLeaves(cfg: Config, s: State, id: nat, now: int)
    requires cfg.tiers != [] && id in s.timers && ShouldPing(s)
    ensures NamedOnlyWhileActive(Fire(cfg, s, id, now))
    ensures |Strays(Fire(cfg, s, id, now))| <= |Strays(s)|
  {
    var fired := Fired(cfg, s, id, now);
    ScheduleLeaves(cfg, fired, now);
    var left := Strays(Fire(cfg, s, id, now));
    if id in Strays(s) {
      var named := if s.timeout.Some? then {s.timeout.value} else {};
      Fewer(left, (Strays(s) - {id}) + named);
    } else {
      Fewer(left, Strays(s));
    }
  }

  lemma ResumeLeaves(cfg: Config, s: State, now: int)
    requires cfg.tiers != [] && !s.maxDurationReached
    ensures NamedOnlyWhileActive(Resume(cfg, s, now))
    ensures |Strays(Resume(cfg, s, now))| <= |Strays(s)| + 1
  {
    ScheduleLeaves(cfg, Woken(s, now), now);
    Fewer(Strays(Resume(cfg, s, now)), Strays(s) + if s.timeout.Some? then {s.timeout.value} else {});
  }

  lemma QuietlyLeaves(cfg: Config, s: State, e: Event, now: int)
    requires cfg.tiers != [] && NamedOnlyWhileActive(s) && !Pings(s, e) && !ResumesActive(s, e)
    ensures var t := Handle(cfg, s, e, now);
            NamedOnlyWhileActive(t) && Strays(t) <= Strays(s)
  {
    if Resumes(s, e) {
      var shown := if e.Shown? then s.(visible := true) else s;
      ScheduleLeaves(cfg, Woken(shown, now), now);
    } else if Resets(cfg, e) {
      ResetLeaves(cfg, BeforeReset(s, e, now), now);
    }
  }

  lemma ResetLeaves(cfg: Config, s: State, now: int)
    requires cfg.tiers != []
    ensures NamedOnlyWhileActive(Start(cfg, Reset(s, now), now))
    ensures Strays(Start(cfg, Reset(s, now), now)) <= Strays(s)
  {
    var cleared := Stop(Reset(s, now), now, false);
    ScheduleLeaves(cfg, Begun(cleared, now), now);
  }

  lemma {:induction false} EveryRunLeaves(cfg: Config, r: Run, events: seq<Timed>)
    requires cfg.tiers != [] && Possible(cfg, r, events) && NamedOnlyWhileActive(r.s)
    ensures |Strays(After(cfg, r, events).s)| <= |Strays(r.s)| + ActiveResumes(cfg, r, events)
    decreases |events|
  {
    if events != [] {
      HandleLeaves(cfg, r.s, events[0].event, events[0].now);
      EveryRunLeaves(cfg, Step(cfg, r, events[0].event, events[0].now), events[1..]);
    }
  }

  /** Armed timeouts that are due before `limit`. */
  function DueBefore(s: State, limit: int): set<nat> {
    set id | id in s.timers && s.timers[id] < limit
  }

  lemma ScheduleIsLate(cfg: Config, s: State, now: int, limit: int)
    requires ValidConfig(cfg) && (s.isActive ==> s.lastPingTime == now) && limit <= now + MIN_HEARTBEAT_INTERVAL
    ensures DueBefore(Schedule(cfg, s, now), limit) <= DueBefore(s, limit)
  {
    assert cfg.tiers[TierIndex(cfg.tiers, TotalActive(s, now))] in cfg.tiers;
  }

  lemma StepIsLate(cfg: Config, r: Run, e: Event, now: int, limit: int)
    requires ValidConfig(cfg) && Enabled(r, e, now) && now < limit <= now + MIN_HEARTBEAT_INTERVAL
    ensures |DueBefore(Step(cfg, r, e, now).s, limit)| + Step(cfg, r, e, now).pings <= |DueBefore(r.s, limit)| + r.pings
  {
    var s := r.s;
    var after := DueBefore(Step(cfg, r, e, now).s, limit);
    if Pings(s, e) {
      var fired := Fired(cfg, s, e.id, now);
      ScheduleIsLate(cfg, fired, now, limit);
      Fewer(after, DueBefore(s, limit) - {e.id});
    } else {
      SilentStepIsLate(cfg, s, e, now, limit);
      Fewer(after, DueBefore(s, limit));
    }
  }

  lemma SilentStepIsLate(cfg: Config, s: State, e: Event, now: int, limit: int)
    requires ValidConfig(cfg) && !Pings(s, e) && now < limit <= now + MIN_HEARTBEAT_INTERVAL
    ensures DueBefore(Handle(cfg, s, e, now), limit) <= DueBefore(s, limit)
  {
    if Resumes(s, e) {
      ResumeIsLate(cfg, if e.Shown? then s.(visible := true) else s, now, limit);
    } else if Resets(cfg, e) {
      ResetIsLate(cfg, BeforeReset(s, e, now), now, limit);
    }
  }

  lemma ResumeIsLate(cfg: Config, s: State, now: int, limit: int)
    requires ValidConfig(cfg) && limit <= now + MIN_HEARTBEAT_INTERVAL
    ensures DueBefore(Resume(cfg, s, now), limit) <= DueBefore(s, limit)
  {
    ScheduleIsLate(cfg, Woken(s, now), now, limit);
  }

  lemma ResetIsLate(cfg: Config, s: State, now: int, limit: int)
    requires ValidConfig(cfg) && limit <= now + MIN_HEARTBEAT_INTERVAL
    ensures DueBefore(Start(cfg, Reset(s, now), now), limit) <= DueBefore(s, limit)
  {
    ScheduleIsLate(cfg, Begun(Stop(Reset(s, now), now, false), now), now, limit);
  }

  predicate Within(events: seq<Timed>, limit: int) {
    forall e <- events :: e.now < limit
  }

  lemma {:induction false} PingsUntil(cfg: Config, r: Run, events: seq<Timed>, limit: int)
    requires ValidConfig(cfg) && Possible(cfg, r, events)
    requires Within(events, limit) && limit <= r.clock + MIN_HEARTBEAT_INTERVAL
    ensures After(cfg, r, events).pings <= r.pings + |DueBefore(r.s, limit)|
    decreases |events|
  {
    if events != [] {
      var next := Step(cfg, r, events[0].event, events[0].now);
      assert events[0] in events;
      StepIsLate(cfg, r, events[0].event, events[0].now, limit);
      assert Within(events[1..], limit);
      PingsUntil(cfg, next, events[1..], limit);
    }
  }

  /**
   On any run, with resumes while active and resets: at no time are more timers armed than one plus
   the resumes so far that found the heartbeat active, and no five seconds hold more pings than that.
   */
  lemma PingsInFiveSeconds(cfg: Config, start: int, visible: bool, before: seq<Timed>, during: seq<Timed>)
    requires ValidConfig(cfg) && Possible(cfg, Init(cfg, start, visible), before)
    requires Possible(cfg, After(cfg, Init(cfg, start, visible), before), during)
    requires Within(during, After(cfg, Init(cfg, start, visible), before).clock + MIN_HEARTBEAT_INTERVAL)
    ensures var r, bound := After(cfg, Init(cfg, start, visible), before),
            1 + ActiveResumes(cfg, Init(cfg, start, visible), before);
            |r.s.timers| <= bound && After(cfg, r, during).pings <= r.pings + bound
  {
    var init := Init(cfg, start, visible);
    var r := After(cfg, init, before);
    InitLeavesNone(cfg, start, visible);
    EveryRunLeaves(cfg, init, before);
    var named := if r.s.timeout.Some? then {r.s.timeout.value} else {};
    Fewer(r.s.timers.Keys, Strays(r.s) + named);
    var limit := r.clock + MIN_HEARTBEAT_INTERVAL;
    Fewer(DueBefore(r.s, limit), r.s.timers.Keys);
    PingsUntil(cfg, r, during, limit);
  }

  lemma InitLeavesNone(cfg: Config, start: int, visible: bool)
    requires cfg.tiers != []
    ensures NamedOnlyWhileActive(Init(cfg, start, visible).s) && Strays(Init(cfg, start, visible).s) == {}
  {
    var s := State(start, 0, false, false, 0, 0, 0, start, map[], None, 0, false, visible);
    ScheduleLeaves(cfg, Begun(Stop(s, start, false), start), start);
  }

  // ----- On any run, an active heartbeat on a visible page goes on pinging -----

  /** The timeout that `heartbeatTimeout` names is armed, due one interval after the last ping. */
  ghost predicate NextPingArmed(cfg: Config, s: State)
    requires cfg.tiers != []
  {
    var interval := Interval(cfg, s.accumulatedActiveMs + s.lastPingTime - s.activeStartTime);
    && s.timeout.Some? && s.timeout.value in s.timers
    && interval.Some? && s.timers[s.timeout.value] == s.lastPingTime + interval.value
  }

  ghost predicate Lively(cfg: Config, s: State) {
    && cfg.tiers != []
    && (s.maxDurationReached ==> !s.isActive)
    && (ShouldPing(s) ==> NextPingArmed(cfg, s))
  }

  lemma ScheduleArms(cfg: Config, s: State, now: int)
    requires ValidConfig(cfg) && s.isActive && s.lastPingTime == now && !s.maxDurationReached
    ensures Lively(cfg, Schedule(cfg, s, now))
  {
    assert cfg.tiers[TierIndex(cfg.tiers, TotalActive(s, now))] in cfg.tiers;
  }

  lemma ResetIsLively(cfg: Config, s: State, now: int)
    requires ValidConfig(cfg)
    ensures Lively(cfg, Start(cfg, Reset(s, now), now))
  {
    ScheduleArms(cfg, Begun(Stop(Reset(s, now), now, false), now), now);
  }

  lemma HandleStaysLively(cfg: Config, s: State, e: Event, now: int)
    requires ValidConfig(cfg) && Lively(cfg, s)
    ensures Lively(cfg, Handle(cfg, s, e, now))
  {
    if Resumes(s, e) {
      ScheduleArms(cfg, Woken(if e.Shown? then s.(visible := true) else s, now), now);
    } else if Resets(cfg, e) {
      ResetIsLively(cfg, BeforeReset(s, e, now), now);
    } else if Pings(s, e) {
      ScheduleArms(cfg, Fired(cfg, s, e.id, now), now);
    }
  }

  lemma {:induction false} EveryRunStaysLively(cfg: Config, r: Run, events: seq<Timed>)
    requires ValidConfig(cfg) && Possible(cfg, r, events) && Lively(cfg, r.s)
    ensures Lively(cfg, After(cfg, r, events).s)
    decreases |events|
  {
    if events != [] {
      HandleStaysLively(cfg, r.s, events[0].event, events[0].now);
      EveryRunStaysLively(cfg, Step(cfg, r, events[0].event, events[0].now), events[1..]);
    }
  }

  /**
   After any run, disciplined or not: while the heartbeat is active on a visible page and not paused,
   the next ping is due one interval of the current tier after the last one, and is sent when it fires.
   */
  lemma NextPingIsDue(cfg: Config, start: int, visible: bool, events: seq<Timed>, now: int)
    requires ValidConfig(cfg) && Possible(cfg, Init(cfg, start, visible), events)
    ensures var r := After(cfg, Init(cfg, start, visible), events);
            && (r.s.maxDurationReached ==> !r.s.isActive)
            && (ShouldPing(r.s) ==>
                  && NextPingArmed(cfg, r.s)
                  && var ping := TimerFired(r.s.timeout.value);
                     now >= r.clock && now >= r.s.timers[r.s.timeout.value] ==>
                       Enabled(r, ping, now) && Step(cfg, r, ping, now).pings == r.pings + 1)
  {
    var s := State(start, 0, false, false, 0, 0, 0, start, map[], None, 0, false, visible);
    ScheduleArms(cfg, Begun(Stop(s, start, false), start), start);
    EveryRunStaysLively(cfg, Init(cfg, start, visible), events);
  }

  // ----- When the next ping is due, and when the heartbeat ends, in terms of the configuration -----

  /** The interval of the device in tier `j`. */
  function DeviceInterval(cfg: Config, j: nat): Option<int>
    requires j < |cfg.tiers|
  {
    if cfg.mobile then cfg.tiers[j].mobileInterval else cfg.tiers[j].desktopInterval
  }

  /** Tier `j` is the last one whose threshold `total` has reached. */
  predicate AppliesAt(cfg: Config, j: nat, total: int)
    requires j < |cfg.tiers|
  {
    cfg.tiers[j].after <= total && forall i | j < i < |cfg.tiers| :: cfg.tiers[i].after > total
  }

  lemma IntervalOfTier(cfg: Config, total: int)
    requires ValidConfig(cfg) && Sorted(cfg.tiers) && total >= 0
    ensures exists j: nat | j < |cfg.tiers| ::
              && AppliesAt(cfg, j, total)
              && Interval(cfg, total) == DeviceInterval(cfg, j)
  {
    TierIsGreatestReached(cfg.tiers, total);
    assert AppliesAt(cfg, TierIndex(cfg.tiers, total), total);
  }

  ghost predicate PingsInOrder(r: Run) {
    Accounted(r) && (r.s.isActive ==> r.s.activeStartTime <= r.s.lastPingTime)
  }

  lemma ScheduleKeepsOrder(cfg: Config, s: State, now: int)
    requires cfg.tiers != [] && (s.isActive ==> s.activeStartTime <= s.lastPingTime)
    ensures var t := Schedule(cfg, s, now); t.isActive ==> t.activeStartTime <= t.lastPingTime
  {
  }

  lemma StepKeepsOrder(cfg: Config, r: Run, e: Event, now: int)
    requires cfg.tiers != [] && Enabled(r, e, now) && PingsInOrder(r)
    ensures PingsInOrder(Step(cfg, r, e, now))
  {
    StepAccounts(cfg, r, e, now);
    if Resumes(r.s, e) {
      ScheduleKeepsOrder(cfg, Woken(if e.Shown? then r.s.(visible := true) else r.s, now), now);
    } else if Resets(cfg, e) {
      ScheduleKeepsOrder(cfg, Begun(Stop(Reset(BeforeReset(r.s, e, now), now), now, false), now), now);
    } else if Pings(r.s, e) {
      ScheduleKeepsOrder(cfg, Fired(cfg, r.s, e.id, now), now);
    }
  }

  lemma {:induction false} EveryRunKeepsOrder(cfg: Config, r: Run, events: seq<Timed>)
    requires cfg.tiers != [] && Possible(cfg, r, events) && PingsInOrder(r)
    ensures PingsInOrder(After(cfg, r, events))
    decreases |events|
  {
    if events != [] {
      StepKeepsOrder(cfg, r, events[0].event, events[0].now);
      EveryRunKeepsOrder(cfg, Step(cfg, r, events[0].event, events[0].now), events[1..]);
    }
  }

  /** The named timer is due at the last ping plus the interval of tier `j`, which applied at that ping. */
  predicate DueByTier(cfg: Config, s: State, j: nat)
    requires j < |cfg.tiers| && s.timeout.Some? && s.timeout.value in s.timers
  {
    && AppliesAt(cfg, j, s.accumulatedActiveMs + s.lastPingTime - s.activeStartTime)
    && DeviceInterval(cfg, j).Some?
    && s.timers[s.timeout.value] == s.lastPingTime + DeviceInterval(cfg, j).value
  }

  lemma ArmedByTier(cfg: Config, s: State)
    requires ValidConfig(cfg) && Sorted(cfg.tiers) && NextPingArmed(cfg, s)
    requires s.accumulatedActiveMs >= 0 && s.activeStartTime <= s.lastPingTime
    ensures exists j: nat | j < |cfg.tiers| :: DueByTier(cfg, s, j)
  {
    var total := s.accumulatedActiveMs + s.lastPingTime - s.activeStartTime;
    IntervalOfTier(cfg, total);
    var j: nat :| j < |cfg.tiers| && AppliesAt(cfg, j, total) && Interval(cfg, total) == DeviceInterval(cfg, j);
    DueBy(cfg, s, j);
  }

  lemma DueBy(cfg: Config, s: State, j: nat)
    requires cfg.tiers != [] && j < |cfg.tiers| && NextPingArmed(cfg, s)
    requires var total := s.accumulatedActiveMs + s.lastPingTime - s.activeStartTime;
             AppliesAt(cfg, j, total) && Interval(cfg, total) == DeviceInterval(cfg, j)
    ensures DueByTier(cfg, s, j)
  {
  }

  /**
   After any run, with tiers in order: the next ping of an active heartbeat on a visible page is due at
   the last one plus what the tier reached by then says for this kind of device.
   */
  lemma NextPingFollowsTheTier(cfg: Config, start: int, visible: bool, events: seq<Timed>)
    requires ValidConfig(cfg) && Sorted(cfg.tiers) && Possible(cfg, Init(cfg, start, visible), events)
    ensures var s := After(cfg, Init(cfg, start, visible), events).s;
            s.isActive && s.visible && !s.isPaused ==>
              s.timeout.Some? && s.timeout.value in s.timers && exists j: nat | j < |cfg.tiers| :: DueByTier(cfg, s, j)
  {
    var s := After(cfg, Init(cfg, start, visible), events).s;
    InitAccounts(cfg, start, visible);
    EveryRunKeepsOrder(cfg, Init(cfg, start, visible), events);
    if ShouldPing(s) {
      NextPingIsDue(cfg, start, visible, events, start);
      ArmedByTier(cfg, s);
    }
  }

  /** A ping records its time, and the tier that applies at the active time of the ping. */
  lemma PingRecordsTheTier(cfg: Config, s: State, id: nat, now: int)
    requires ValidConfig(cfg) && Sorted(cfg.tiers) && ShouldPing(s) && TotalActive(s, now) >= 0
    ensures var t := Fire(cfg, s, id, now);
            t.currentTierIndex < |cfg.tiers| && AppliesAt(cfg, t.currentTierIndex, TotalActive(s, now))
            && t.lastPingTime == now
  {
    TierIsGreatestReached(cfg.tiers, TotalActive(s, now));
    ScheduleKeepsTime(cfg, Fired(cfg, s, id, now), now);
  }

  const MOBILE_DEFAULTS := SDK_DEFAULTS.(mobile := true)

  /** With the default settings the first ping comes after 10 seconds on a desktop, after 7 on a mobile device. */
  lemma FirstPingOfEachDevice()
    ensures SDK_DEFAULTS.tiers != []
    ensures Init(SDK_DEFAULTS, 0, true).s.timers == map[0 := 10000]
    ensures Init(MOBILE_DEFAULTS, 0, true).s.timers == map[0 := 7000]
    ensures Enabled(Init(MOBILE_DEFAULTS, 0, true), TimerFired(0), 7000)
    ensures Step(MOBILE_DEFAULTS, Init(MOBILE_DEFAULTS, 0, true), TimerFired(0), 7000).pings == 1
  {
    assert TierIndex(DEFAULT_HEARTBEAT_TIERS, 0) == 0;
  }

  /** What ends a heartbeat for good: the maximum duration, or a tier without an interval for the device. */
  predicate AtTheEnd(cfg: Config, total: int) {
    (cfg.maxDuration > 0 && total >= cfg.maxDuration)
    || exists j: nat | j < |cfg.tiers| :: AppliesAt(cfg, j, total) && DeviceInterval(cfg, j).None?
  }

  ghost predicate EndedRightly(cfg: Config, s: State) {
    && s.accumulatedActiveMs >= 0
    && (s.maxDurationReached ==> !s.isActive && AtTheEnd(cfg, s.accumulatedActiveMs))
  }

  lemma ScheduleEndsRightly(cfg: Config, s: State, now: int)
    requires ValidConfig(cfg) && Sorted(cfg.tiers) && s.isActive && !s.maxDurationReached
    requires s.accumulatedActiveMs >= 0 && s.activeStartTime <= now
    ensures EndedRightly(cfg, Schedule(cfg, s, now))
    ensures Schedule(cfg, s, now).isActive <==> !AtTheEnd(cfg, TotalActive(s, now))
  {
    TierIsGreatestReached(cfg.tiers, TotalActive(s, now));
    var index := TierIndex(cfg.tiers, TotalActive(s, now));
    assert AppliesAt(cfg, index, TotalActive(s, now));
    assert Interval(cfg, TotalActive(s, now)) == DeviceInterval(cfg, index);
    forall j: nat | j < |cfg.tiers| && AppliesAt(cfg, j, TotalActive(s, now)) ensures j == index {
    }
  }

  lemma ResumeEndsRightly(cfg: Config, s: State, now: int)
    requires ValidConfig(cfg) && Sorted(cfg.tiers) && EndedRightly(cfg, s)
    ensures EndedRightly(cfg, Resume(cfg, s, now))
  {
    if !s.maxDurationReached {
      ScheduleEndsRightly(cfg, Woken(s, now), now);
    }
  }

  lemma RestartEndsRightly(cfg: Config, s: State, now: int)
    requires ValidConfig(cfg) && Sorted(cfg.tiers)
    ensures EndedRightly(cfg, Start(cfg, Reset(s, now), now))
  {
    ScheduleEndsRightly(cfg, Begun(Stop(Reset(s, now), now, false), now), now);
  }

  lemma FireEndsRightly(cfg: Config, s: State, id: nat, now: int)
    requires ValidConfig(cfg) && Sorted(cfg.tiers) && EndedRightly(cfg, s)
    requires s.isActive ==> s.activeStartTime <= now
    ensures EndedRightly(cfg, Fire(cfg, s, id, now))
  {
    if ShouldPing(s) {
      ScheduleEndsRightly(cfg, Fired(cfg, s, id, now), now);
    }
  }

  lemma StopEndsRightly(cfg: Config, s: State, now: int)
    requires EndedRightly(cfg, s) && (s.isActive ==> s.activeStartTime <= now)
    ensures EndedRightly(cfg, Stop(s, now, true))
  {
  }

  lemma StepEndsRightly(cfg: Config, r: Run, e: Event, now: int)
    requires ValidConfig(cfg) && Sorted(cfg.tiers) && Enabled(r, e, now) && Accounted(r) && EndedRightly(cfg, r.s)
    ensures EndedRightly(cfg, Step(cfg, r, e, now).s)
  {
    match e
    case Shown => ResumeEndsRightly(cfg, r.s.(visible := true), now);
    case Focused => ResumeEndsRightly(cfg, r.s, now);
    case Navigated => RestartEndsRightly(cfg, ResetPage(r.s, now), now);
    case ResumeCalled => RestartEndsRightly(cfg, r.s.(isPaused := false), now);
    case ResetCalled => RestartEndsRightly(cfg, r.s, now);
    case TimerFired(id) => FireEndsRightly(cfg, r.s, id, now);
    case PauseCalled => StopEndsRightly(cfg, r.s.(isPaused := true), now);
    case _ => StopEndsRightly(cfg, r.s, now);
  }

  lemma {:induction false} EveryRunEndsRightly(cfg: Config, r: Run, events: seq<Timed>)
    requires ValidConfig(cfg) && Sorted(cfg.tiers) && Possible(cfg, r, events) && Accounted(r) && EndedRightly(cfg, r.s)
    ensures EndedRightly(cfg, After(cfg, r, events).s)
    decreases |events|
  {
    if events != [] {
      StepEndsRightly(cfg, r, events[0].event, events[0].now);
      StepAccounts(cfg, r, events[0].event, events[0].now);
      EveryRunEndsRightly(cfg, Step(cfg, r, events[0].event, events[0].now), events[1..]);
    }
  }

  /** After any run: a heartbeat that has ended is at its maximum duration, or in a tier without an interval. */
  lemma EndsOnlyAtTheLimit(cfg: Config, start: int, visible: bool, events: seq<Timed>)
    requires ValidConfig(cfg) && Sorted(cfg.tiers) && Possible(cfg, Init(cfg, start, visible), events)
    ensures var r := After(cfg, Init(cfg, start, visible), events);
            r.s.maxDurationReached ==> !r.s.isActive && AtTheEnd(cfg, TotalActive(r.s, r.clock))
  {
    var s := State(start, 0, false, false, 0, 0, 0, start, map[], None, 0, false, visible);
    InitAccounts(cfg, start, visible);
    ScheduleEndsRightly(cfg, Begun(Stop(s, start, false), start), start);
    EveryRunEndsRightly(cfg, Init(cfg, start, visible), events);
  }

  lemma ScheduleKeepsFlags(cfg: Config, s: State, now: int)
    requires cfg.tiers != []
    ensures Schedule(cfg, s, now).visible == s.visible && Schedule(cfg, s, now).isPaused == s.isPaused
  {
  }

  lemma ResumeKeepsFlags(cfg: Config, s: State, now: int)
    requires cfg.tiers != []
    ensures Resume(cfg, s, now).visible == s.visible && Resume(cfg, s, now).isPaused == s.isPaused
  {
    ScheduleKeepsFlags(cfg, Woken(s, now), now);
  }

  lemma RestartKeepsFlags(cfg: Config, s: State, now: int)
    requires cfg.tiers != []
    ensures Start(cfg, Reset(s, now), now).visible == s.visible && Start(cfg, Reset(s, now), now).isPaused == s.isPaused
  {
    ScheduleKeepsFlags(cfg, Begun(Stop(Reset(s, now), now, false), now), now);
  }

  lemma FireKeepsFlags(cfg: Config, s: State, id: nat, now: int)
    requires cfg.tiers != []
    ensures Fire(cfg, s, id, now).visible == s.visible && Fire(cfg, s, id, now).isPaused == s.isPaused
  {
    ScheduleKeepsFlags(cfg, Fired(cfg, s, id, now), now);
  }

  /** Only the tab changes visibility, only a pause and its end change the pause. */
  lemma FlagsFollowEvents(cfg: Config, s: State, e: Event, now: int)
    requires cfg.tiers != []
    ensures var t := Handle(cfg, s, e, now);
            && (t.visible <==> e.Shown? || (s.visible && !e.Hidden?))
            && (t.isPaused <==> e.PauseCalled? || (s.isPaused && !e.ResumeCalled?))
  {
    match e
    case Shown => ResumeKeepsFlags(cfg, s.(visible := true), now);
    case Focused => ResumeKeepsFlags(cfg, s, now);
    case Navigated => RestartKeepsFlags(cfg, ResetPage(s, now), now);
    case ResumeCalled => RestartKeepsFlags(cfg, s.(isPaused := false), now);
    case ResetCalled => RestartKeepsFlags(cfg, s, now);
    case TimerFired(id) => FireKeepsFlags(cfg, s, id, now);
    case _ =>
  }

  /** Hiding, blurring and pausing stop the heartbeat. */
  lemma DeparturesStop(cfg: Config, s: State, e: Event, now: int)
    requires cfg.tiers != [] && (e.Hidden? || e.Blurred? || e.PauseCalled?)
    ensures !Handle(cfg, s, e, now).isActive
  {
  }

  lemma ResumeStarts(cfg: Config, s: State, now: int)
    requires ValidConfig(cfg) && Sorted(cfg.tiers) && !s.maxDurationReached && s.accumulatedActiveMs >= 0
    ensures Resume(cfg, s, now).isActive <==> !AtTheEnd(cfg, s.accumulatedActiveMs)
  {
    assert TotalActive(Woken(s, now), now) == s.accumulatedActiveMs;
    ScheduleEndsRightly(cfg, Woken(s, now), now);
  }

  /** A return starts the heartbeat afresh unless it is paused or at the end; then nothing but visibility changes. */
  lemma ReturnsStart(cfg: Config, r: Run, e: Event, now: int)
    requires ValidConfig(cfg) && Sorted(cfg.tiers) && Enabled(r, e, now) && r.s.accumulatedActiveMs >= 0
    requires e.Shown? || e.Focused?
    ensures var t := Handle(cfg, r.s, e, now);
            if r.s.isPaused || r.s.maxDurationReached then t == r.s.(visible := t.visible)
            else t.isActive <==> !AtTheEnd(cfg, r.s.accumulatedActiveMs)
  {
    if Resumes(r.s, e) {
      ResumeStarts(cfg, if e.Shown? then r.s.(visible := true) else r.s, now);
    }
  }

  // ----- Pausing -----

  /** `reset()` and a navigation that resets the heartbeat start it without looking at the pause. */
  predicate StartsAnyway(cfg: Config, e: Event) {
    e.ResetCalled? || (e.Navigated? && cfg.resetOnNavigation)
  }

  predicate EndsActivityOrPause(e: Event) {
    e.Hidden? || e.Blurred? || e.PauseCalled? || e.ResumeCalled?
  }

  /** Time is counted during a pause exactly after those two events, until a stop or the end of the pause. */
  lemma CountsWhilePausedExactly(cfg: Config, s: State, e: Event, now: int)
    requires cfg.tiers != [] && (s.maxDurationReached ==> !s.isActive)
    ensures Handle(cfg, s, e, now).isPaused && Handle(cfg, s, e, now).isActive
       <==> s.isPaused && if StartsAnyway(cfg, e) then StartsFromZero(cfg) else s.isActive && !EndsActivityOrPause(e)
  {
    if StartsAnyway(cfg, e) || e.ResumeCalled? {
      StartedFromZero(cfg, BeforeReset(s, e, now), now);
    }
  }

  /** The first tier lets the heartbeat begin. */
  predicate StartsFromZero(cfg: Config)
    requires cfg.tiers != []
  {
    Interval(cfg, 0).Some?
  }

  lemma StartedFromZero(cfg: Config, s: State, now: int)
    requires cfg.tiers != []
    ensures var t := Start(cfg, Reset(s, now), now);
            t.isPaused == s.isPaused && (t.isActive <==> StartsFromZero(cfg))
  {
    assert TotalActive(Begun(Stop(Reset(s, now), now, false), now), now) == 0;
  }

  function PauseAndReset(pause: int, reset: int, later: int): seq<Timed> {
    [Timed(PauseCalled, pause), Timed(ResetCalled, reset), Timed(Quiet, later)]
  }

  /** A run that ends paused, with `total` counted. */
  ghost predicate Counts(r: Run, events: seq<Timed>, total: int) {
    && SDK_DEFAULTS.tiers != [] && Possible(SDK_DEFAULTS, r, events)
    && After(SDK_DEFAULTS, r, events).s.isPaused
    && TotalActive(After(SDK_DEFAULTS, r, events).s, After(SDK_DEFAULTS, r, events).clock) == total
  }

  lemma CountsFrom(r: Run, events: seq<Timed>, k: nat, total: int)
    requires SDK_DEFAULTS.tiers != [] && k < |events| && Enabled(r, events[k].event, events[k].now)
    requires Counts(Step(SDK_DEFAULTS, r, events[k].event, events[k].now), events[k + 1..], total)
    ensures Counts(r, events[k..], total)
  {
    assert events[k..][1..] == events[k + 1..];
  }

  lemma WaitingCounts(r: Run, pause: int, reset: int, later: int)
    requires r.s.isPaused && r.s.isActive && r.s.accumulatedActiveMs == 0
    requires r.clock == r.s.activeStartTime == reset <= later
    ensures Counts(r, PauseAndReset(pause, reset, later)[2..], later - reset)
  {
    assert PauseAndReset(pause, reset, later)[3..] == [];
    assert Counts(Step(SDK_DEFAULTS, r, Quiet, later), [], later - reset);
    CountsFrom(r, PauseAndReset(pause, reset, later), 2, later - reset);
  }

  lemma ResettingCounts(r: Run, pause: int, reset: int, later: int)
    requires r.s.isPaused && r.clock <= reset <= later
    ensures Counts(r, PauseAndReset(pause, reset, later)[1..], later - reset)
  {
    FirstTierApplies(Begun(Stop(Reset(r.s, reset), reset, false), reset), reset);
    WaitingCounts(Step(SDK_DEFAULTS, r, ResetCalled, reset), pause, reset, later);
    CountsFrom(r, PauseAndReset(pause, reset, later), 1, later - reset);
  }

  /** From any state, with the default settings: pause, then reset the session, and time counts. */
  lemma ResetCountsWhilePaused(r: Run, pause: int, reset: int, later: int)
    requires r.clock <= pause <= reset <= later
    ensures Counts(r, PauseAndReset(pause, reset, later), later - reset)
  {
    ResettingCounts(Step(SDK_DEFAULTS, r, PauseCalled, pause), pause, reset, later);
    CountsFrom(r, PauseAndReset(pause, reset, later), 0, later - reset);
    assert PauseAndReset(pause, reset, later)[0..] == PauseAndReset(pause, reset, later);
  }
}
