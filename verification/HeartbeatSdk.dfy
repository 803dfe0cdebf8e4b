/** The handlers of `StaminadsSDK`: the class that `Heartbeat.Handle` and `Tracking.Handle` specify. */
module HeartbeatSdk {
  import opened Events
  import opened Tiers
  import H = Heartbeat
  import S = SdkSession
  import T = Tracking

  datatype HeartbeatState = HeartbeatState(
    activeStartTime: int, accumulatedActiveMs: int, isActive: bool, maxDurationReached: bool, lastPingTime: int,
    currentTierIndex: nat, pageActiveMs: int, pageStartTime: int)

  class StaminadsSDK {
    const config: H.Config

    var heartbeatState: HeartbeatState
    var heartbeatTimeout: Option<nat>
    var isPaused: bool

    var sessionState: S.SessionState
    var flushed: bool

    // The host: armed timeouts, the next handle, the document's visibility.
    var timers: map<nat, int>
    var nextTimer: nat
    var visible: bool

    ghost function View(): H.State
      reads this
    {
      var h := heartbeatState;
      H.State(h.activeStartTime, h.accumulatedActiveMs, h.isActive, h.maxDurationReached, h.lastPingTime,
              h.currentTierIndex,
              h.pageActiveMs, h.pageStartTime, timers, heartbeatTimeout, nextTimer, isPaused, visible)
    }

    ghost function Tracker(): T.Tracker
      reads this, sessionState
    {
      T.Tracker(View(), sessionState.View(), flushed)
    }

    ghost predicate Valid()
      reads this, sessionState
    {
      config.tiers != [] && S.Valid(sessionState.View())
    }

    /** `stored` is the action list of the session, if session storage holds one; `path` the page that is opened. */
    constructor (heartbeatTiers: seq<Tier>, heartbeatMaxDuration: nat, mobile: bool, resetOnNavigation: bool,
                 stored: Option<S.Session>, path: string, now: int, isVisible: bool)
      requires stored.Some? ==> S.Valid(stored.value)
      ensures Valid() && fresh(sessionState) && View() == H.Init(config, now, isVisible).s && !flushed
      ensures sessionState.View() == S.WithPageview(if stored.Some? then stored.value else S.NEW, path, now, 0)
      ensures config.tiers == ValidateTiers(heartbeatTiers) && config.mobile == mobile
              && config.resetOnNavigation == resetOnNavigation
      ensures config.maxDuration == if 0 < heartbeatMaxDuration < 60000 then 60000 else heartbeatMaxDuration
    {
      ValidatedIsUsable(heartbeatTiers);
      var maxDuration := heartbeatMaxDuration;
      if maxDuration != 0 && maxDuration < 60000 {
        maxDuration := 60000;
      }
      config := H.Config(maxDuration, ValidateTiers(heartbeatTiers), mobile, resetOnNavigation);
      heartbeatState := HeartbeatState(now, 0, false, false, 0, 0, 0, now);
      heartbeatTimeout, isPaused, timers, nextTimer, visible := None, false, map[], 0, isVisible;
      flushed := false;
      var list := new S.SessionState();
      sessionState := list;
      new;
      list.Restore(stored);
      list.AddPageview(path, now, 0);
      StartHeartbeat(now);
    }

    /** The heartbeat functions leave the action list alone. */
    ghost predicate SameList(list: S.SessionState, done: bool)
      reads this
    {
      sessionState == list && flushed == done
    }

    method StopHeartbeat(now: int, accumulateTime: bool)
      modifies this
      ensures SameList(old(sessionState), old(flushed))
      ensures View() == H.Stop(old(View()), now, accumulateTime)
    {
      var h := heartbeatState;
      if accumulateTime && h.isActive {
        h := h.(accumulatedActiveMs := h.accumulatedActiveMs + (now - h.activeStartTime),
                pageActiveMs := h.pageActiveMs + (now - h.pageStartTime));
      }
      heartbeatState := h.(isActive := false);
      if heartbeatTimeout.Some? {
        timers := timers - {heartbeatTimeout.value};
        heartbeatTimeout := None;
      }
    }

    method GetTotalActiveMs(now: int) returns (total: int)
      ensures total == H.TotalActive(View(), now)
    {
      total := heartbeatState.accumulatedActiveMs;
      if heartbeatState.isActive {
        total := total + (now - heartbeatState.activeStartTime);
      }
    }

    /** The focus getter that `SessionState` reads for page durations. */
    method GetPageActiveMs(now: int) returns (total: int)
      ensures total == H.PageActive(View(), now)
    {
      total := heartbeatState.pageActiveMs;
      if heartbeatState.isActive {
        total := total + (now - heartbeatState.pageStartTime);
      }
    }

    method CheckAndUpdateMaxDuration(now: int) returns (reached: bool)
      modifies this`heartbeatState
      ensures reached <==> config.maxDuration != 0 && H.TotalActive(old(View()), now) >= config.maxDuration
      ensures View() == if reached then old(View()).(maxDurationReached := true) else old(View())
    {
      if config.maxDuration == 0 {
        return false;
      }
      var totalActiveMs := GetTotalActiveMs(now);
      reached := totalActiveMs >= config.maxDuration;
      if reached {
        heartbeatState := heartbeatState.(maxDurationReached := true);
      }
    }

    method GetCurrentInterval(now: int) returns (interval: Option<int>)
      requires config.tiers != []
      ensures interval == H.Interval(config, H.TotalActive(View(), now))
      ensures H.ValidConfig(config) && Sorted(config.tiers) && H.TotalActive(View(), now) >= 0 ==>
                exists j: nat | j < |config.tiers| ::
                  && H.AppliesAt(config, j, H.TotalActive(View(), now))
                  && (config.mobile ==> interval == config.tiers[j].mobileInterval)
                  && (!config.mobile ==> interval == config.tiers[j].desktopInterval)
    {
      if H.ValidConfig(config) && Sorted(config.tiers) && H.TotalActive(View(), now) >= 0 {
        H.IntervalOfTier(config, H.TotalActive(View(), now));
      }
      var totalActiveMs := GetTotalActiveMs(now);
      var index := GetCurrentTier(config.tiers, totalActiveMs);
      interval := if config.mobile then config.tiers[index].mobileInterval else config.tiers[index].desktopInterval;
    }

    method ScheduleNextHeartbeat(now: int)
      requires config.tiers != []
      modifies this
      ensures SameList(old(sessionState), old(flushed))
      ensures View() == H.Schedule(config, old(View()), now)
    {
      if !heartbeatState.isActive {
        return;
      }
      var reached := CheckAndUpdateMaxDuration(now);
      if reached {
        StopHeartbeat(now, true);
        return;
      }
      var interval := GetCurrentInterval(now);
      if interval.None? {
        heartbeatState := heartbeatState.(maxDurationReached := true);
        StopHeartbeat(now, true);
        return;
      }
      var targetTime := heartbeatState.lastPingTime + interval.value;
      var delay := if targetTime - now > 0 then targetTime - now else 0;
      timers := timers[nextTimer := now + delay];
      heartbeatTimeout := Some(nextTimer);
      nextTimer := nextTimer + 1;
    }

    method StartHeartbeat(now: int)
      requires config.tiers != []
      modifies this
      ensures SameList(old(sessionState), old(flushed))
      ensures View() == H.Start(config, old(View()), now)
    {
      if heartbeatState.maxDurationReached {
        return;
      }
      StopHeartbeat(now, false);
      heartbeatState := heartbeatState.(activeStartTime := now, isActive := true, lastPingTime := now);
      ScheduleNextHeartbeat(now);
    }

    method ResumeHeartbeat(now: int)
      requires config.tiers != []
      modifies this
      ensures SameList(old(sessionState), old(flushed))
      ensures View() == H.Resume(config, old(View()), now)
    {
      if heartbeatState.maxDurationReached {
        return;
      }
      heartbeatState :=
        heartbeatState.(activeStartTime := now, pageStartTime := now, isActive := true, lastPingTime := now);
      ScheduleNextHeartbeat(now);
    }

    method ResetHeartbeatState(now: int)
      modifies this
      ensures SameList(old(sessionState), old(flushed))
      ensures View() == H.Reset(old(View()), now)
    {
      StopHeartbeat(now, false);
      heartbeatState := HeartbeatState(0, 0, false, false, 0, 0, 0, now);
    }

    method ResetPageActiveTime(now: int)
      modifies this`heartbeatState
      ensures View() == H.ResetPage(old(View()), now)
    {
      heartbeatState := heartbeatState.(pageActiveMs := 0, pageStartTime := now);
    }

    /** A payload for the server; the current page is refreshed with the focus getter's value first. */
    method SendPayload(now: int)
      requires Valid()
      modifies sessionState
      ensures Valid() && sessionState.View() == S.Touch(old(sessionState.View()), now, H.PageActive(View(), now))
    {
      var focusMs := GetPageActiveMs(now);
      var _ := sessionState.BuildPayload(now, focusMs);
    }

    method UpdateScroll(scroll: Option<int>)
      requires Valid()
      modifies sessionState
      ensures Valid() && sessionState.View() == T.Scroll(old(sessionState.View()), scroll)
    {
      if scroll.Some? {
        sessionState.UpdateScroll(scroll.value);
      }
    }

    /** The current page gets its last duration and is released: a later page entry finds no current page. */
    method FlushOnce(scroll: Option<int>, now: int)
      requires Valid()
      modifies this`flushed, sessionState
      ensures Valid() && flushed
      ensures sessionState.View()
           == T.Flushed(old(sessionState.View()), old(flushed), scroll, now, H.PageActive(View(), now))
    {
      if flushed {
        return;
      }
      flushed := true;
      UpdateScroll(scroll);
      var focusMs := GetPageActiveMs(now);
      sessionState.FinalizeForUnload(now, focusMs);
      SendPayload(now);
    }

    method SendPingEvent(scroll: Option<int>, now: int)
      requires Valid()
      modifies sessionState
      ensures Valid()
      ensures sessionState.View() == S.Touch(T.Scroll(old(sessionState.View()), scroll), now, H.PageActive(View(), now))
    {
      UpdateScroll(scroll);
      SendPayload(now);
    }

    /** The timeout callback. */
    method OnTimeout(id: nat, scroll: Option<int>, now: int) returns (pinged: bool)
      requires Valid()
      modifies this, sessionState
      ensures Valid() && sessionState == old(sessionState)
      ensures Tracker() == T.Handle(config, old(Tracker()), T.Heart(H.TimerFired(id), "", scroll), now)
      ensures pinged == H.Pings(old(View()), H.TimerFired(id))
    {
      timers := timers - {id};
      pinged := !isPaused && heartbeatState.isActive && visible;
      if pinged {
        var totalActiveMs := GetTotalActiveMs(now);
        var tier := GetCurrentTier(config.tiers, totalActiveMs);
        heartbeatState := heartbeatState.(currentTierIndex := tier);
        SendPingEvent(scroll, now);
        heartbeatState := heartbeatState.(lastPingTime := now);
        assert View() == H.Fired(config, old(View()), id, now);
        ScheduleNextHeartbeat(now);
      }
    }

    method OnVisibilityChange(isVisible: bool, scroll: Option<int>, now: int)
      requires Valid()
      modifies this, sessionState
      ensures Valid() && sessionState == old(sessionState)
      ensures Tracker() == T.Handle(config, old(Tracker()),
                                    T.Heart(if isVisible then H.Shown else H.Hidden, "", scroll), now)
    {
      visible := isVisible;
      if !isVisible {
        StopHeartbeat(now, true);
        FlushOnce(scroll, now);
      } else {
        flushed := false;
        if !isPaused && !heartbeatState.maxDurationReached {
          ResumeHeartbeat(now);
        }
      }
    }

    method OnFocus(now: int)
      requires Valid()
      modifies this, sessionState
      ensures Valid() && sessionState == old(sessionState)
      ensures Tracker() == T.Handle(config, old(Tracker()), T.Heart(H.Focused, "", None), now)
    {
      flushed := false;
      if !isPaused && !heartbeatState.maxDurationReached {
        ResumeHeartbeat(now);
      }
    }

    method OnBlur(scroll: Option<int>, now: int)
      requires Valid()
      modifies this, sessionState
      ensures Valid() && sessionState == old(sessionState)
      ensures Tracker() == T.Handle(config, old(Tracker()), T.Heart(H.Blurred, "", scroll), now)
    {
      StopHeartbeat(now, true);
      FlushOnce(scroll, now);
    }

    method OnUnload(scroll: Option<int>, now: int)
      requires Valid()
      modifies this, sessionState
      ensures Valid() && sessionState == old(sessionState)
      ensures Tracker() == T.Handle(config, old(Tracker()), T.Leaves(scroll), now)
    {
      FlushOnce(scroll, now);
    }

    /** The page entry that navigation and explicit tracking share. */
    method EnterPage(path: string, scroll: Option<int>, now: int)
      requires Valid()
      modifies this`heartbeatState, sessionState
      ensures Valid() && View() == H.ResetPage(old(View()), now)
      ensures sessionState.View()
           == S.WithPageview(T.Scroll(old(sessionState.View()), scroll), path, now, H.PageActive(old(View()), now))
    {
      UpdateScroll(scroll);
      var focusMs := GetPageActiveMs(now);
      sessionState.AddPageview(path, now, focusMs);
      ResetPageActiveTime(now);
    }

    method OnNavigation(path: string, scroll: Option<int>, now: int)
      requires Valid()
      modifies this, sessionState
      ensures Valid() && sessionState == old(sessionState)
      ensures Tracker() == T.Handle(config, old(Tracker()), T.Heart(H.Navigated, path, scroll), now)
    {
      EnterPage(path, scroll, now);
      if config.resetOnNavigation {
        ResetHeartbeatState(now);
        StartHeartbeat(now);
      }
    }

    method TrackPageView(path: string, scroll: Option<int>, now: int)
      requires Valid()
      modifies this, sessionState
      ensures Valid() && sessionState == old(sessionState)
      ensures Tracker() == T.Handle(config, old(Tracker()), T.Heart(H.PageTracked, path, scroll), now)
    {
      EnterPage(path, scroll, now);
    }

    /** The goal is added, if there is room, and a payload sent at once. */
    method TrackGoal(name: string, value: Option<int>, properties: Option<map<string, string>>, now: int)
      requires Valid()
      modifies this, sessionState
      ensures Valid() && sessionState == old(sessionState)
      ensures Tracker() == T.Handle(config, old(Tracker()), T.TracksGoal(name, value, properties), now)
    {
      var _ := sessionState.AddGoal(name, value, properties, now);
      SendPayload(now);
    }

    method DebouncedSend(now: int)
      requires Valid()
      modifies this, sessionState
      ensures Valid() && sessionState == old(sessionState)
      ensures Tracker() == T.Handle(config, old(Tracker()), T.Sends, now)
    {
      SendPayload(now);
    }

    method Pause(now: int)
      requires Valid()
      modifies this
      ensures Valid() && Tracker() == T.Handle(config, old(Tracker()), T.Heart(H.PauseCalled, "", None), now)
    {
      isPaused := true;
      StopHeartbeat(now, true);
    }

    method ResumeTracking(now: int)
      requires Valid()
      modifies this
      ensures Valid() && Tracker() == T.Handle(config, old(Tracker()), T.Heart(H.ResumeCalled, "", None), now)
    {
      isPaused := false;
      ResetHeartbeatState(now);
      StartHeartbeat(now);
    }

    /** A new session: a new action list with its first page, a fresh heartbeat, and a payload. */
    method ResetSession(path: string, now: int)
      requires Valid()
      modifies this
      ensures Valid() && fresh(sessionState)
      ensures Tracker() == T.Handle(config, old(Tracker()), T.Heart(H.ResetCalled, path, None), now)
    {
      var focusMs := GetPageActiveMs(now);
      sessionState := new S.SessionState();
      sessionState.AddPageview(path, now, focusMs);
      T.PageTimer(config, View(), H.ResetCalled, now);
      ResetHeartbeatState(now);
      StartHeartbeat(now);
      SendPayload(now);
    }
  }
}
