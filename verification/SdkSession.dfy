/** The SDK's `SessionState`: the cumulative list of actions behind every payload of a session. */
module SdkSession {
  import opened Events
  import opened Tokens

  const MAX_ACTIONS: nat := 1000

  datatype Session = Session(actions: seq<Action>, currentPageIndex: Option<nat>)

  ghost predicate CurrentIsPage(s: Session) {
    s.currentPageIndex.Some? ==> s.currentPageIndex.value < |s.actions| && s.actions[s.currentPageIndex.value].Pageview?
  }

  ghost predicate PagesIncrease(actions: seq<Action>) {
    forall i, j | 0 <= i < j < |actions| && actions[i].Pageview? && actions[j].Pageview? ::
      actions[i].pageNumber < actions[j].pageNumber
  }

  ghost predicate Valid(s: Session) {
    && CurrentIsPage(s)
    && PagesIncrease(s.actions)
    && forall a <- s.actions :: !a.Unknown?
  }

  function MaxPageNumber(actions: seq<Action>): (m: nat)
    ensures forall a <- actions | !a.Unknown? :: a.pageNumber <= m
  {
    if actions == [] then 0
    else
      var last, m := actions[|actions| - 1], MaxPageNumber(actions[..|actions| - 1]);
      assert actions == actions[..|actions| - 1] + [last];
      if !last.Unknown? && last.pageNumber > m then last.pageNumber else m
  }

  /** The current page's duration is read from the focus timer, its exit time from the clock. */
  function Touch(s: Session, now: int, focusMs: int): Session
    requires CurrentIsPage(s)
  {
    if s.currentPageIndex.None? then s
    else
      var i := s.currentPageIndex.value;
      s.(actions := s.actions[i := s.actions[i].(duration := focusMs, exitedAt := now)])
  }

  function WithPageview(s: Session, path: string, now: int, focusMs: int): Session
    requires CurrentIsPage(s)
  {
    if |s.actions| >= MAX_ACTIONS then s
    else
      var actions := Touch(s, now, focusMs).actions;
      Session(actions + [Pageview(path, MaxPageNumber(actions) + 1, 0, 0, now, now)], Some(|actions|))
  }

  function WithGoal(s: Session, name: string, value: Option<int>, properties: Option<map<string, string>>,
                    now: int): Session
    requires CurrentIsPage(s)
  {
    if |s.actions| >= MAX_ACTIONS then s
    else
      var goal := if s.currentPageIndex.None? then Goal(name, "/", 1, now, value, properties)
                  else
                    var page := s.actions[s.currentPageIndex.value];
                    Goal(name, if page.path == "" then "/" else page.path,
                         if page.pageNumber == 0 then 1 else page.pageNumber, now, value, properties);
      s.(actions := s.actions + [goal])
  }

  function WithScroll(s: Session, percent: int): Session
    requires CurrentIsPage(s)
  {
    if s.currentPageIndex.None? then s
    else
      var i := s.currentPageIndex.value;
      var clamped := if percent < 0 then 0 else if percent > 100 then 100 else percent;
      if clamped > s.actions[i].scroll then s.(actions := s.actions[i := s.actions[i].(scroll := clamped)]) else s
  }

  datatype Call =
    | PageEntered(path: string, now: int, focusMs: int)
    | GoalReached(name: string, value: Option<int>, properties: Option<map<string, string>>, now: int)
    | Scrolled(percent: int)
    | PayloadBuilt(now: int, focusMs: int)
    | Unloaded(now: int, focusMs: int)

  function Step(s: Session, c: Call): Session
    requires CurrentIsPage(s)
  {
    match c
    case PageEntered(path, now, focusMs) => WithPageview(s, path, now, focusMs)
    case GoalReached(name, value, properties, now) => WithGoal(s, name, value, properties, now)
    case Scrolled(percent) => WithScroll(s, percent)
    case PayloadBuilt(now, focusMs) => Touch(s, now, focusMs)
    case Unloaded(now, focusMs) => Touch(s, now, focusMs).(currentPageIndex := None)
  }

  lemma RewriteKeepsKeys(s: Session, i: nat, page: Action)
    requires Valid(s) && i < |s.actions| && s.actions[i].Pageview?
    requires page.Pageview? && page.pageNumber == s.actions[i].pageNumber
    ensures var t := s.(actions := s.actions[i := page]);
            Valid(t) && KeysOf(t.actions) == KeysOf(s.actions)
  {
    var actions := s.actions[i := page];
    assert forall j | 0 <= j < |actions| :: j != i ==> actions[j] == s.actions[j];
    assert KeysOf(actions) == KeysOf(s.actions);
  }

  lemma AppendExtendsKeys(actions: seq<Action>, a: Action)
    requires PagesIncrease(actions) && !a.Unknown?
    requires a.Pageview? ==> a.pageNumber > MaxPageNumber(actions)
    ensures PagesIncrease(actions + [a]) && KeysOf(actions) <= KeysOf(actions + [a])
  {
    assert forall i | 0 <= i < |actions| :: actions[i] in actions;
  }

  lemma TouchKeepsKeys(s: Session, now: int, focusMs: int)
    requires Valid(s)
    ensures Valid(Touch(s, now, focusMs)) && KeysOf(Touch(s, now, focusMs).actions) == KeysOf(s.actions)
  {
    if s.currentPageIndex.Some? {
      var i := s.currentPageIndex.value;
      RewriteKeepsKeys(s, i, s.actions[i].(duration := focusMs, exitedAt := now));
    }
  }

  lemma EntryExtendsKeys(s: Session, path: string, now: int, focusMs: int)
    requires Valid(s)
    ensures var t := WithPageview(s, path, now, focusMs); Valid(t) && KeysOf(s.actions) <= KeysOf(t.actions)
  {
    if |s.actions| < MAX_ACTIONS {
      TouchKeepsKeys(s, now, focusMs);
      var actions := Touch(s, now, focusMs).actions;
      AppendExtendsKeys(actions, Pageview(path, MaxPageNumber(actions) + 1, 0, 0, now, now));
    }
  }

  lemma ScrollKeepsKeys(s: Session, percent: int)
    requires Valid(s)
    ensures Valid(WithScroll(s, percent)) && KeysOf(WithScroll(s, percent).actions) == KeysOf(s.actions)
  {
    if s.currentPageIndex.Some? && WithScroll(s, percent) != s {
      var i := s.currentPageIndex.value;
      RewriteKeepsKeys(s, i, WithScroll(s, percent).actions[i]);
    }
  }

  /** A step only appends to the keys: what a payload announced, every later payload announces. */
  lemma StepExtendsKeys(s: Session, c: Call)
    requires Valid(s)
    ensures Valid(Step(s, c)) && KeysOf(s.actions) <= KeysOf(Step(s, c).actions)
  {
    match c
    case PageEntered(path, now, focusMs) => EntryExtendsKeys(s, path, now, focusMs);
    case GoalReached(_, _, _, _) =>
      if |s.actions| < MAX_ACTIONS {
        AppendExtendsKeys(s.actions, Step(s, c).actions[|s.actions|]);
      }
    case Scrolled(percent) => ScrollKeepsKeys(s, percent);
    case PayloadBuilt(now, focusMs) => TouchKeepsKeys(s, now, focusMs);
    case Unloaded(now, focusMs) => TouchKeepsKeys(s, now, focusMs);
  }

  function After(s: Session, calls: seq<Call>): Session
    requires Valid(s)
    decreases |calls|
  {
    if calls == [] then s
    else
      StepExtendsKeys(s, calls[0]);
      After(Step(s, calls[0]), calls[1..])
  }

  const NEW := Session([], None)

  lemma {:induction false} RunExtendsKeys(s: Session, calls: seq<Call>)
    requires Valid(s)
    ensures Valid(After(s, calls)) && KeysOf(s.actions) <= KeysOf(After(s, calls).actions)
    decreases |calls|
  {
    if calls != [] {
      StepExtendsKeys(s, calls[0]);
      RunExtendsKeys(Step(s, calls[0]), calls[1..]);
    }
  }

  lemma {:induction false} AfterConcat(s: Session, early: seq<Call>, late: seq<Call>)
    requires Valid(s)
    ensures Valid(After(s, early)) && After(s, early + late) == After(After(s, early), late)
    decreases |early|
  {
    RunExtendsKeys(s, early);
    if early == [] {
      assert early + late == late;
    } else {
      var c, rest := early[0], early[1..];
      StepExtendsKeys(s, c);
      AfterConcat(Step(s, c), rest, late);
      assert (early + late)[0] == c && (early + late)[1..] == rest + late;
    }
  }

  /** Payloads are cumulative, from a new session or a restored one: earlier keys are a prefix of later ones. */
  lemma SnapshotsAreCumulative(s: Session, calls: seq<Call>, i: nat, j: nat)
    requires Valid(s) && i <= j <= |calls|
    ensures Valid(After(s, calls[..i])) && Valid(After(s, calls[..j]))
    ensures KeysOf(After(s, calls[..i]).actions) <= KeysOf(After(s, calls[..j]).actions)
  {
    assert calls[..j] == calls[..i] + calls[i..j];
    AfterConcat(s, calls[..i], calls[i..j]);
    RunExtendsKeys(After(s, calls[..i]), calls[i..j]);
  }

  // ----- What the list says -----

  /** What an action records of the call that made it. */
  datatype Record =
    | Entered(path: string, at: int)
    | Reached(name: string, value: Option<int>, properties: Option<map<string, string>>, at: int)

  function RecordsOf(actions: seq<Action>): seq<Record> {
    if actions == [] then []
    else
      var front, last := RecordsOf(actions[..|actions| - 1]), actions[|actions| - 1];
      match last
      case Pageview(path, _, _, _, enteredAt, _) => front + [Entered(path, enteredAt)]
      case Goal(name, _, _, timestamp, value, properties) => front + [Reached(name, value, properties, timestamp)]
      case Unknown(_) => front
  }

  function Wanted(calls: seq<Call>): seq<Record> {
    if calls == [] then []
    else
      var front, last := Wanted(calls[..|calls| - 1]), calls[|calls| - 1];
      match last
      case PageEntered(path, now, _) => front + [Entered(path, now)]
      case GoalReached(name, value, properties, now) => front + [Reached(name, value, properties, now)]
      case _ => front
  }

  lemma {:induction false} RecordsOfAppend(actions: seq<Action>, a: Action)
    ensures RecordsOf(actions + [a]) == RecordsOf(actions) + RecordsOf([a])
  {
    assert (actions + [a])[..|actions|] == actions;
    assert [a][..0] == [];
  }

  lemma {:induction false} RecordsOfRewritten(actions: seq<Action>, i: nat, page: Action)
    requires i < |actions| && actions[i].Pageview? && page.Pageview?
    requires page.path == actions[i].path && page.enteredAt == actions[i].enteredAt
    ensures RecordsOf(actions[i := page]) == RecordsOf(actions)
  {
    var n := |actions| - 1;
    if i < n {
      RecordsOfRewritten(actions[..n], i, page);
      assert actions[i := page][..n] == actions[..n][i := page];
    } else {
      assert actions[i := page][..n] == actions[..n];
    }
  }

  lemma {:induction false} RecordsCount(actions: seq<Action>)
    requires forall a <- actions :: !a.Unknown?
    ensures |RecordsOf(actions)| == |actions|
  {
    if actions != [] {
      RecordsCount(actions[..|actions| - 1]);
    }
  }

  lemma TouchKeepsRecords(s: Session, now: int, focusMs: int)
    requires Valid(s)
    ensures RecordsOf(Touch(s, now, focusMs).actions) == RecordsOf(s.actions)
  {
    if s.currentPageIndex.Some? {
      var i := s.currentPageIndex.value;
      RecordsOfRewritten(s.actions, i, s.actions[i].(duration := focusMs, exitedAt := now));
    }
  }

  lemma StepRecords(s: Session, c: Call)
    requires Valid(s)
    ensures RecordsOf(Step(s, c).actions)
         == if |s.actions| < MAX_ACTIONS then RecordsOf(s.actions) + Wanted([c]) else RecordsOf(s.actions)
  {
    assert [c][..0] == [] && Wanted([c][..0]) == [];
    match c
    case PageEntered(path, now, focusMs) =>
      if |s.actions| < MAX_ACTIONS {
        TouchKeepsRecords(s, now, focusMs);
        var actions := Touch(s, now, focusMs).actions;
        RecordsOfAppend(actions, Step(s, c).actions[|actions|]);
        SingleRecord(Step(s, c).actions[|actions|]);
      }
    case GoalReached(_, _, _, _) =>
      if |s.actions| < MAX_ACTIONS {
        RecordsOfAppend(s.actions, Step(s, c).actions[|s.actions|]);
        SingleRecord(Step(s, c).actions[|s.actions|]);
      }
    case Scrolled(percent) =>
      if s.currentPageIndex.Some? && WithScroll(s, percent) != s {
        var i := s.currentPageIndex.value;
        RecordsOfRewritten(s.actions, i, WithScroll(s, percent).actions[i]);
      }
    case PayloadBuilt(now, focusMs) => TouchKeepsRecords(s, now, focusMs);
    case Unloaded(now, focusMs) => TouchKeepsRecords(s, now, focusMs);
  }

  lemma SingleRecord(a: Action)
    ensures a.Pageview? ==> RecordsOf([a]) == [Entered(a.path, a.enteredAt)]
    ensures a.Goal? ==> RecordsOf([a]) == [Reached(a.name, a.value, a.properties, a.timestamp)]
  {
    assert [a][..0] == [] && RecordsOf([a][..0]) == [];
  }

  lemma {:induction false} WantedConcat(early: seq<Call>, late: seq<Call>)
    ensures Wanted(early + late) == Wanted(early) + Wanted(late)
  {
    if late == [] {
      assert early + late == early;
    } else {
      WantedConcat(early, late[..|late| - 1]);
      assert (early + late)[..|early + late| - 1] == early + late[..|late| - 1];
    }
  }

  function First(records: seq<Record>, n: int): seq<Record> {
    if n <= 0 then [] else if n < |records| then records[..n] else records
  }

  lemma FirstOfBoth(before: seq<Record>, a: seq<Record>, b: seq<Record>, n: int)
    requires |a| <= 1 && n > 0
    ensures before + a + First(b, n - |a|) == before + First(a + b, n)
  {
    if |a| + |b| <= n {
      assert First(b, n - |a|) == b;
    } else {
      assert (a + b)[..n] == a + First(b, n - |a|);
    }
    assert First(a + b, n) == a + First(b, n - |a|);
  }

  lemma WantedOfOne(c: Call)
    ensures |Wanted([c])| <= 1
  {
    assert [c][..0] == [] && Wanted([c][..0]) == [];
  }

  lemma OneMoreRecorded(calls: seq<Call>, before: seq<Record>, next: seq<Record>, after: seq<Record>)
    requires calls != []
    requires next == if |before| < MAX_ACTIONS then before + Wanted([calls[0]]) else before
    requires after == next + First(Wanted(calls[1..]), MAX_ACTIONS - |next|)
    ensures after == before + First(Wanted(calls), MAX_ACTIONS - |before|)
  {
    if |before| < MAX_ACTIONS {
      assert calls == [calls[0]] + calls[1..];
      WantedConcat([calls[0]], calls[1..]);
      WantedOfOne(calls[0]);
      FirstOfBoth(before, Wanted([calls[0]]), Wanted(calls[1..]), MAX_ACTIONS - |before|);
    }
  }

  /** The list records the calls in order, each with its own path, name, value and time, up to the limit. */
  lemma {:induction false} RunRecords(s: Session, calls: seq<Call>)
    requires Valid(s)
    ensures RecordsOf(After(s, calls).actions)
         == RecordsOf(s.actions) + First(Wanted(calls), 1000 - |s.actions|)
    decreases |calls|
  {
    if calls != [] {
      var t := Step(s, calls[0]);
      StepExtendsKeys(s, calls[0]);
      StepRecords(s, calls[0]);
      RunRecords(t, calls[1..]);
      RecordsCount(s.actions);
      RecordsCount(t.actions);
      OneMoreRecorded(calls, RecordsOf(s.actions), RecordsOf(t.actions), RecordsOf(After(t, calls[1..]).actions));
    }
  }

  /** A goal carries the page entered last before it, or the first page's number without a path. */
  ghost predicate GoalsNameTheirPage(actions: seq<Action>) {
    forall j | 0 <= j < |actions| && actions[j].Goal? ::
      (actions[j].path == "/" && actions[j].pageNumber == 1) || NamesLastPage(actions[..j], actions[j])
  }

  ghost predicate NamesLastPage(before: seq<Action>, goal: Action)
    requires goal.Goal?
  {
    exists i | 0 <= i < |before| && LastPage(before, i) ::
      && goal.pageNumber == before[i].pageNumber
      && goal.path == if before[i].path == "" then "/" else before[i].path
  }

  ghost predicate LastPage(actions: seq<Action>, i: int) {
    && 0 <= i < |actions| && actions[i].Pageview?
    && forall j | i < j < |actions| :: !actions[j].Pageview?
  }

  /** Page numbers start at 1, and the current page is the one entered last. */
  ghost predicate Paged(s: Session) {
    && Valid(s) && (forall a <- s.actions | a.Pageview? :: a.pageNumber > 0)
    && (s.currentPageIndex.Some? ==> LastPage(s.actions, s.currentPageIndex.value))
    && GoalsNameTheirPage(s.actions)
  }

  lemma LastPageAfterRewrite(actions: seq<Action>, i: nat, page: Action, j: int)
    requires i < |actions| && actions[i].Pageview? && page.Pageview?
    ensures LastPage(actions, j) <==> LastPage(actions[i := page], j)
  {
    assert forall k | 0 <= k < |actions| :: actions[k].Pageview? <==> actions[i := page][k].Pageview?;
  }

  lemma RewriteKeepsGoal(before: seq<Action>, i: nat, page: Action, goal: Action)
    requires i < |before| && before[i].Pageview? && page.Pageview?
    requires page.pageNumber == before[i].pageNumber && page.path == before[i].path
    requires goal.Goal? && NamesLastPage(before, goal)
    ensures NamesLastPage(before[i := page], goal)
  {
    var j :| 0 <= j < |before| && LastPage(before, j) && goal.pageNumber == before[j].pageNumber
             && goal.path == if before[j].path == "" then "/" else before[j].path;
    LastPageAfterRewrite(before, i, page, j);
    assert before[i := page][j].path == before[j].path;
  }

  lemma RewriteKeepsGoals(actions: seq<Action>, i: nat, page: Action)
    requires GoalsNameTheirPage(actions) && i < |actions| && actions[i].Pageview? && page.Pageview?
    requires page.pageNumber == actions[i].pageNumber && page.path == actions[i].path
    ensures GoalsNameTheirPage(actions[i := page])
  {
    forall j | 0 <= j < |actions| && actions[i := page][j].Goal? && NamesLastPage(actions[..j], actions[j])
      ensures NamesLastPage(actions[i := page][..j], actions[j])
    {
      if i < j {
        RewriteKeepsGoal(actions[..j], i, page, actions[j]);
        assert actions[i := page][..j] == actions[..j][i := page];
      } else {
        assert actions[i := page][..j] == actions[..j];
      }
    }
  }

  lemma RewriteKeepsPaged(s: Session, page: Action)
    requires Paged(s) && s.currentPageIndex.Some? && page.Pageview?
    requires page.pageNumber == s.actions[s.currentPageIndex.value].pageNumber
    requires page.path == s.actions[s.currentPageIndex.value].path
    ensures Paged(s.(actions := s.actions[s.currentPageIndex.value := page]))
  {
    var i := s.currentPageIndex.value;
    RewriteKeepsKeys(s, i, page);
    RewriteKeepsGoals(s.actions, i, page);
    LastPageAfterRewrite(s.actions, i, page, i);
  }

  lemma AppendKeepsGoals(actions: seq<Action>, a: Action)
    requires GoalsNameTheirPage(actions)
    requires a.Goal? ==> (a.path == "/" && a.pageNumber == 1) || NamesLastPage(actions, a)
    ensures GoalsNameTheirPage(actions + [a])
  {
    assert (actions + [a])[..|actions|] == actions;
    assert forall j | 0 <= j < |actions| :: (actions + [a])[..j] == actions[..j];
  }

  lemma TouchKeepsPaged(s: Session, now: int, focusMs: int)
    requires Paged(s)
    ensures Paged(Touch(s, now, focusMs))
  {
    if s.currentPageIndex.Some? {
      RewriteKeepsPaged(s, s.actions[s.currentPageIndex.value].(duration := focusMs, exitedAt := now));
    }
  }

  lemma EntryKeepsPaged(s: Session, path: string, now: int, focusMs: int)
    requires Paged(s) && |s.actions| < MAX_ACTIONS
    ensures Paged(WithPageview(s, path, now, focusMs))
  {
    TouchKeepsPaged(s, now, focusMs);
    EntryExtendsKeys(s, path, now, focusMs);
    var t := Touch(s, now, focusMs);
    AppendKeepsGoals(t.actions, WithPageview(s, path, now, focusMs).actions[|t.actions|]);
  }

  lemma GoalKeepsPaged(s: Session, c: Call)
    requires Paged(s) && c.GoalReached? && |s.actions| < MAX_ACTIONS
    ensures Paged(Step(s, c))
  {
    StepExtendsKeys(s, c);
    var goal := Step(s, c).actions[|s.actions|];
    if s.currentPageIndex.Some? {
      assert s.actions[s.currentPageIndex.value].pageNumber > 0;
      assert NamesLastPage(s.actions, goal);
    }
    AppendKeepsGoals(s.actions, goal);
  }

  lemma StepKeepsPaged(s: Session, c: Call)
    requires Paged(s)
    ensures Paged(Step(s, c))
  {
    if Step(s, c) != s {
      match c
      case PageEntered(path, now, focusMs) => EntryKeepsPaged(s, path, now, focusMs);
      case GoalReached(_, _, _, _) => GoalKeepsPaged(s, c);
      case Scrolled(percent) => RewriteKeepsPaged(s, Step(s, c).actions[s.currentPageIndex.value]);
      case PayloadBuilt(now, focusMs) => TouchKeepsPaged(s, now, focusMs);
      case Unloaded(now, focusMs) => TouchKeepsPaged(s, now, focusMs);
    }
  }

  /** In every run each goal names the page on which it was reached. */
  lemma {:induction false} EveryGoalNamesItsPage(s: Session, calls: seq<Call>)
    requires Paged(s)
    ensures Paged(After(s, calls))
    decreases |calls|
  {
    if calls != [] {
      StepKeepsPaged(s, calls[0]);
      EveryGoalNamesItsPage(Step(s, calls[0]), calls[1..]);
    }
  }

  /** The page entered has the next number, starts at zero and becomes the current one. */
  lemma EntryOpensAPage(s: Session, path: string, now: int, focusMs: int)
    requires Valid(s) && |s.actions| < MAX_ACTIONS
    ensures var n, t := |s.actions|, Step(s, PageEntered(path, now, focusMs));
            && |t.actions| == n + 1 && t.currentPageIndex == Some(n)
            && t.actions[n] == Pageview(path, t.actions[n].pageNumber, 0, 0, now, now)
            && IsNextNumber(s.actions, t.actions[n].pageNumber)
  {
    MaxAfterTouch(s, now, focusMs);
    MaxIsNext(s.actions);
  }

  /** One more than the number of some page or goal, or 1, and more than all of them. */
  ghost predicate IsNextNumber(actions: seq<Action>, n: nat) {
    && (forall a <- actions | !a.Unknown? :: a.pageNumber < n)
    && (n == 1 || exists a <- actions :: !a.Unknown? && a.pageNumber == n - 1)
  }

  lemma {:induction false} MaxAfterRewrite(actions: seq<Action>, i: nat, page: Action)
    requires i < |actions| && !actions[i].Unknown? && !page.Unknown? && page.pageNumber == actions[i].pageNumber
    ensures MaxPageNumber(actions[i := page]) == MaxPageNumber(actions)
  {
    var n := |actions| - 1;
    if i < n {
      MaxAfterRewrite(actions[..n], i, page);
      assert actions[i := page][..n] == actions[..n][i := page];
    } else {
      assert actions[i := page][..n] == actions[..n];
    }
  }

  lemma MaxAfterTouch(s: Session, now: int, focusMs: int)
    requires Valid(s)
    ensures MaxPageNumber(Touch(s, now, focusMs).actions) == MaxPageNumber(s.actions)
  {
    if s.currentPageIndex.Some? {
      var i := s.currentPageIndex.value;
      MaxAfterRewrite(s.actions, i, s.actions[i].(duration := focusMs, exitedAt := now));
    }
  }

  lemma {:induction false} MaxIsNext(actions: seq<Action>)
    ensures IsNextNumber(actions, MaxPageNumber(actions) + 1)
  {
    if actions != [] {
      MaxIsNext(actions[..|actions| - 1]);
      assert actions == actions[..|actions| - 1] + [actions[|actions| - 1]];
    }
  }

  /** Entering a page closes the current one at that instant and leaves the earlier ones alone. */
  lemma EntryClosesTheCurrentPage(s: Session, path: string, now: int, focusMs: int)
    requires Valid(s) && |s.actions| < MAX_ACTIONS
    ensures Closed(s, Step(s, PageEntered(path, now, focusMs)).actions[..|s.actions|], now, focusMs)
  {
    var t := Touch(s, now, focusMs);
    assert Step(s, PageEntered(path, now, focusMs)).actions[..|s.actions|] == t.actions;
  }

  ghost predicate Closed(s: Session, actions: seq<Action>, now: int, focusMs: int)
    requires Valid(s)
  {
    && OnlyCurrentRewritten(s, actions)
    && (s.currentPageIndex.Some? ==>
          var was, page := s.actions[s.currentPageIndex.value], actions[s.currentPageIndex.value];
          page.duration == focusMs && page.exitedAt == now && page.scroll == was.scroll)
  }

  /** Nothing but the current page is rewritten, and of that page neither path, number nor entry time. */
  ghost predicate OnlyCurrentRewritten(s: Session, actions: seq<Action>)
    requires CurrentIsPage(s)
  {
    && |actions| == |s.actions|
    && (forall i | 0 <= i < |actions| && s.currentPageIndex != Some(i) :: actions[i] == s.actions[i])
    && (s.currentPageIndex.Some? ==>
          var was, page := s.actions[s.currentPageIndex.value], actions[s.currentPageIndex.value];
          page.Pageview? && page.path == was.path && page.pageNumber == was.pageNumber
          && page.enteredAt == was.enteredAt)
  }

  /** A payload or a departure reads duration and exit time into the current page; a departure releases it. */
  lemma RefreshByColumns(s: Session, now: int, focusMs: int, leaves: bool)
    requires Valid(s)
    ensures var t := Step(s, if leaves then Unloaded(now, focusMs) else PayloadBuilt(now, focusMs));
            && Closed(s, t.actions, now, focusMs)
            && t.currentPageIndex == if leaves then None else s.currentPageIndex
  {
  }

  /** The scroll depth of the current page after some readings: the largest of them, kept within 0 and 100. */
  lemma {:induction false} ScrollIsTheLargest(s: Session, percents: seq<int>)
    requires Valid(s) && s.currentPageIndex.Some? && 0 <= s.actions[s.currentPageIndex.value].scroll <= 100
    ensures var i := s.currentPageIndex.value;
            var t := After(s, seq(|percents|, j requires 0 <= j < |percents| => Scrolled(percents[j])));
            && t.currentPageIndex == Some(i) && |t.actions| == |s.actions| && t.actions[i].Pageview?
            && s.actions[i].scroll <= t.actions[i].scroll <= 100
            && (forall p <- percents :: p <= t.actions[i].scroll || t.actions[i].scroll == 100)
            && (t.actions[i].scroll == s.actions[i].scroll
                || exists p <- percents :: IsReading(t.actions[i].scroll, p))
            && t.actions[i].(scroll := s.actions[i].scroll) == s.actions[i]
            && (forall j | 0 <= j < |s.actions| && j != i :: t.actions[j] == s.actions[j])
    decreases |percents|
  {
    var calls := seq(|percents|, j requires 0 <= j < |percents| => Scrolled(percents[j]));
    if percents != [] {
      StepExtendsKeys(s, calls[0]);
      assert calls[1..] == seq(|percents[1..]|, j requires 0 <= j < |percents[1..]| => Scrolled(percents[1..][j]));
      ScrollIsTheLargest(Step(s, calls[0]), percents[1..]);
      assert percents == [percents[0]] + percents[1..];
      assert IsReading(Step(s, calls[0]).actions[s.currentPageIndex.value].scroll, percents[0])
          || Step(s, calls[0]) == s;
    }
  }

  predicate IsReading(scroll: int, percent: int) {
    scroll == percent || (scroll == 100 && percent > 100)
  }

  ghost predicate GoalsDistinct(actions: seq<Action>) {
    forall i, j | 0 <= i < j < |actions| && actions[i].Goal? && actions[j].Goal? ::
      actions[i].name != actions[j].name || actions[i].timestamp != actions[j].timestamp
  }

  ghost predicate KeysDistinct(actions: seq<Action>) {
    forall i, j | 0 <= i < j < |actions| :: KeyOf(actions[i]) != KeyOf(actions[j])
  }

  /** Keys repeat exactly when one goal is reached twice in the same millisecond. */
  lemma KeysRepeatExactly(s: Session, calls: seq<Call>)
    requires Valid(s)
    ensures Valid(After(s, calls))
    ensures KeysDistinct(After(s, calls).actions) <==> GoalsDistinct(After(s, calls).actions)
  {
    RunExtendsKeys(s, calls);
    var actions := After(s, calls).actions;
    forall i, j | 0 <= i < j < |actions| && actions[i].Goal? && actions[j].Goal?
      ensures KeyOf(actions[i]) != KeyOf(actions[j])
         <==> actions[i].name != actions[j].name || actions[i].timestamp != actions[j].timestamp
    {
    }
    assert forall a <- actions :: a.Pageview? || a.Goal?;
  }

  // ----- Two tabs of one session -----

  function Pages(actions: seq<Action>): nat {
    if actions == [] then 0 else Pages(actions[..|actions| - 1]) + if actions[|actions| - 1].Pageview? then 1 else 0
  }

  /** Pages are numbered from 1 without gaps, and no goal names a later page. */
  ghost predicate Numbered(actions: seq<Action>) {
    actions == [] ||
    var front, last := actions[..|actions| - 1], actions[|actions| - 1];
    && Numbered(front) && !last.Unknown?
    && (last.Pageview? ==> last.pageNumber == Pages(front) + 1)
    && (last.Goal? ==> last.pageNumber <= Pages(front))
  }

  lemma {:induction false} NumberedMax(actions: seq<Action>)
    requires Numbered(actions)
    ensures MaxPageNumber(actions) == Pages(actions)
  {
    if actions != [] {
      NumberedMax(actions[..|actions| - 1]);
    }
  }

  lemma {:induction false} NumberedPages(actions: seq<Action>, n: nat)
    requires Numbered(actions)
    ensures PageKey(n) in KeysOf(actions) <==> 1 <= n <= Pages(actions)
  {
    if actions != [] {
      var front, last := actions[..|actions| - 1], actions[|actions| - 1];
      NumberedPages(front, n);
      assert KeysOf(actions) == KeysOf(front) + [KeyOf(last)];
    }
  }

  lemma {:induction false} NumberedAt(actions: seq<Action>, i: nat)
    requires Numbered(actions) && i < |actions| && actions[i].Pageview?
    ensures 1 <= actions[i].pageNumber <= Pages(actions)
  {
    if i < |actions| - 1 {
      NumberedAt(actions[..|actions| - 1], i);
    }
  }

  lemma {:induction false} RewriteKeepsNumbers(actions: seq<Action>, i: nat, page: Action)
    requires Numbered(actions) && i < |actions| && actions[i].Pageview?
    requires page.Pageview? && page.pageNumber == actions[i].pageNumber
    ensures Numbered(actions[i := page]) && Pages(actions[i := page]) == Pages(actions)
  {
    var n := |actions| - 1;
    if i < n {
      RewriteKeepsNumbers(actions[..n], i, page);
      assert actions[i := page][..n] == actions[..n][i := page];
    } else {
      assert actions[i := page][..n] == actions[..n];
    }
  }

  lemma AppendKeepsNumbers(actions: seq<Action>, a: Action)
    requires Numbered(actions) && !a.Unknown?
    requires a.Pageview? ==> a.pageNumber == Pages(actions) + 1
    requires a.Goal? ==> a.pageNumber <= Pages(actions)
    ensures Numbered(actions + [a])
    ensures Pages(actions + [a]) == Pages(actions) + if a.Pageview? then 1 else 0
  {
    assert (actions + [a])[..|actions|] == actions;
  }

  lemma TouchKeepsNumbers(s: Session, now: int, focusMs: int)
    requires Valid(s) && Numbered(s.actions)
    ensures var t := Touch(s, now, focusMs); Numbered(t.actions) && Pages(t.actions) == Pages(s.actions)
  {
    if s.currentPageIndex.Some? {
      var i := s.currentPageIndex.value;
      RewriteKeepsNumbers(s.actions, i, s.actions[i].(duration := focusMs, exitedAt := now));
    }
  }

  lemma StepKeepsNumbers(s: Session, c: Call)
    requires Valid(s) && Numbered(s.actions)
    requires c.GoalReached? ==> Pages(s.actions) > 0
    ensures Numbered(Step(s, c).actions) && Pages(Step(s, c).actions) >= Pages(s.actions)
  {
    match c
    case PageEntered(path, now, focusMs) =>
      if |s.actions| < MAX_ACTIONS {
        TouchKeepsNumbers(s, now, focusMs);
        var actions := Touch(s, now, focusMs).actions;
        NumberedMax(actions);
        AppendKeepsNumbers(actions, Pageview(path, MaxPageNumber(actions) + 1, 0, 0, now, now));
      }
    case GoalReached(_, _, _, _) =>
      if |s.actions| < MAX_ACTIONS {
        if s.currentPageIndex.Some? {
          NumberedAt(s.actions, s.currentPageIndex.value);
        }
        AppendKeepsNumbers(s.actions, Step(s, c).actions[|s.actions|]);
      }
    case Scrolled(percent) =>
      if s.currentPageIndex.Some? && WithScroll(s, percent) != s {
        var i := s.currentPageIndex.value;
        RewriteKeepsNumbers(s.actions, i, WithScroll(s, percent).actions[i]);
      }
    case PayloadBuilt(now, focusMs) => TouchKeepsNumbers(s, now, focusMs);
    case Unloaded(now, focusMs) => TouchKeepsNumbers(s, now, focusMs);
  }

  lemma {:induction false} RunKeepsNumbers(s: Session, calls: seq<Call>)
    requires Valid(s) && Numbered(s.actions) && Pages(s.actions) > 0
    ensures Numbered(After(s, calls).actions) && Pages(After(s, calls).actions) > 0
    decreases |calls|
  {
    if calls != [] {
      StepExtendsKeys(s, calls[0]);
      StepKeepsNumbers(s, calls[0]);
      RunKeepsNumbers(Step(s, calls[0]), calls[1..]);
    }
  }

  /** The SDK enters a page before anything else. */
  predicate Opens(calls: seq<Call>) {
    calls != [] && calls[0].PageEntered?
  }

  lemma RunIsNumbered(calls: seq<Call>)
    requires Opens(calls)
    ensures Numbered(After(NEW, calls).actions) && Pages(After(NEW, calls).actions) > 0
  {
    var entered := Step(NEW, calls[0]);
    StepKeepsNumbers(NEW, calls[0]);
    StepExtendsKeys(NEW, calls[0]);
    assert entered.actions[..0] == [];
    RunKeepsNumbers(entered, calls[1..]);
  }

  /**
   Two tabs share the session but not the actions. Their rows collide on the pages that both have
   reached, always at least on the first one, and on goals reached in both in the same millisecond.
   */
  lemma TabsCollideExactly(tab: seq<Call>, other: seq<Call>, key: ActionKey)
    requires Opens(tab) && Opens(other) && key != NoKey
    ensures var a, b := After(NEW, tab).actions, After(NEW, other).actions;
            && Pages(a) > 0 && Pages(b) > 0
            && (key in KeysOf(a) && key in KeysOf(b)
                <==> match key
                     case PageKey(n) => 1 <= n <= (if Pages(a) < Pages(b) then Pages(a) else Pages(b))
                     case GoalKey(name, timestamp) => ReachedAt(a, name, timestamp) && ReachedAt(b, name, timestamp)
                     case NoKey => false)
  {
    RunIsNumbered(tab);
    RunIsNumbered(other);
    var a, b := After(NEW, tab).actions, After(NEW, other).actions;
    if key.PageKey? {
      NumberedPages(a, key.pageNumber);
      NumberedPages(b, key.pageNumber);
    } else {
      GoalKeyIn(a, key.name, key.timestamp);
      GoalKeyIn(b, key.name, key.timestamp);
    }
  }

  ghost predicate ReachedAt(actions: seq<Action>, name: string, timestamp: int) {
    exists a <- actions :: a.Goal? && a.name == name && a.timestamp == timestamp
  }

  lemma GoalKeyIn(actions: seq<Action>, name: string, timestamp: int)
    ensures GoalKey(name, timestamp) in KeysOf(actions) <==> ReachedAt(actions, name, timestamp)
  {
    if ReachedAt(actions, name, timestamp) {
      var i :| 0 <= i < |actions| && actions[i].Goal? && actions[i].name == name && actions[i].timestamp == timestamp;
      assert KeysOf(actions)[i] == GoalKey(name, timestamp);
    }
  }

  class SessionState {
    var actions: seq<Action>
    var currentPageIndex: Option<nat>

    ghost function View(): Session
      reads this
    {
      Session(actions, currentPageIndex)
    }

    constructor ()
      ensures View() == NEW
    {
      actions, currentPageIndex := [], None;
    }

    /** `stored` is what session storage holds for this session, written by an earlier `persist`. */
    method Restore(stored: Option<Session>)
      requires stored.Some? ==> Valid(stored.value)
      modifies this
      ensures View() == if stored.Some? then stored.value else old(View())
    {
      if stored.Some? {
        actions, currentPageIndex := stored.value.actions, stored.value.currentPageIndex;
      }
    }

    method GetNextPageNumber() returns (n: nat)
      ensures n == MaxPageNumber(actions) + 1
    {
      var maxPageNumber := 0;
      for i := 0 to |actions|
        invariant maxPageNumber == MaxPageNumber(actions[..i])
      {
        assert actions[..i + 1][..i] == actions[..i];
        if !actions[i].Unknown? && actions[i].pageNumber > maxPageNumber {
          maxPageNumber := actions[i].pageNumber;
        }
      }
      assert actions[..|actions|] == actions;
      n := maxPageNumber + 1;
    }

    method FinalizeCurrentPageDuration(exitTime: int, focusMs: int)
      requires CurrentIsPage(View())
      modifies this`actions
      ensures View() == Touch(old(View()), exitTime, focusMs)
    {
      if currentPageIndex.Some? {
        var i := currentPageIndex.value;
        actions := actions[i := actions[i].(duration := focusMs, exitedAt := exitTime)];
      }
    }

    method AddPageview(path: string, now: int, focusMs: int)
      requires Valid(View())
      modifies this
      ensures Valid(View()) && View() == Step(old(View()), PageEntered(path, now, focusMs))
    {
      ghost var next := WithPageview(View(), path, now, focusMs);
      assert Valid(next) by {
        StepExtendsKeys(View(), PageEntered(path, now, focusMs));
      }
      if |actions| >= MAX_ACTIONS {
        return;
      }
      FinalizeCurrentPageDuration(now, focusMs);
      var pageNumber := GetNextPageNumber();
      actions := actions + [Action.Pageview(path, pageNumber, 0, 0, now, now)];
      currentPageIndex := Some(|actions| - 1);
      assert View() == next;
    }

    method AddGoal(name: string, value: Option<int>, properties: Option<map<string, string>>, now: int)
      returns (added: bool)
      requires Valid(View())
      modifies this`actions
      ensures Valid(View()) && View() == Step(old(View()), GoalReached(name, value, properties, now))
      ensures added == (old(|actions|) < MAX_ACTIONS)
    {
      StepExtendsKeys(View(), GoalReached(name, value, properties, now));
      if |actions| >= MAX_ACTIONS {
        return false;
      }
      var path, pageNumber := "/", 1;
      if currentPageIndex.Some? {
        var page := actions[currentPageIndex.value];
        path := if page.path == "" then "/" else page.path;
        pageNumber := if page.pageNumber == 0 then 1 else page.pageNumber;
      }
      actions := actions + [Goal(name, path, pageNumber, now, value, properties)];
      added := true;
    }

    method UpdateScroll(percent: int)
      requires Valid(View())
      modifies this`actions
      ensures Valid(View()) && View() == Step(old(View()), Scrolled(percent))
    {
      StepExtendsKeys(View(), Scrolled(percent));
      if currentPageIndex.None? {
        return;
      }
      var i := currentPageIndex.value;
      var clamped := if percent < 0 then 0 else if percent > 100 then 100 else percent;
      if clamped > actions[i].scroll {
        actions := actions[i := actions[i].(scroll := clamped)];
      }
    }

    method BuildPayload(now: int, focusMs: int) returns (payload: seq<Action>)
      requires Valid(View())
      modifies this`actions
      ensures Valid(View()) && View() == Step(old(View()), PayloadBuilt(now, focusMs))
      ensures payload == actions
    {
      StepExtendsKeys(View(), PayloadBuilt(now, focusMs));
      FinalizeCurrentPageDuration(now, focusMs);
      payload := actions;
    }

    method FinalizeForUnload(now: int, focusMs: int)
      requires Valid(View())
      modifies this
      ensures Valid(View()) && View() == Step(old(View()), Unloaded(now, focusMs))
    {
      StepExtendsKeys(View(), Unloaded(now, focusMs));
      FinalizeCurrentPageDuration(now, focusMs);
      currentPageIndex := None;
    }
  }
}
