/** `IdentityStitchService`: first-touch acquisition of an identified user, as a rewrite of the tables. */
module Stitch {
  import opened Events

  const FINGERPRINT_LOOKBACK_MS: int := 3600 * 1000

  datatype Source = Source(
    channel: string, channelGroup: string, referrer: string, referrerDomain: string, landingPage: string,
    landingDomain: string, utmSource: string, utmMedium: string, utmCampaign: string, utmContent: string)

  datatype FirstTouchColumns = FirstTouchColumns(channel: string, channelGroup: string)

  datatype Session = Session(
    id: string, userId: Option<string>, visitorId: string, fingerprint: string, createdAt: int,
    source: Source, firstTouch: FirstTouchColumns)

  datatype GoalRow = GoalRow(id: string, userId: Option<string>, name: string, timestamp: int,
                             firstTouch: FirstTouchColumns)

  datatype StitchMethod = SessionId | VisitorId | Fingerprint

  datatype Attribution = Attribution(
    userId: string, first: Source, firstAt: int, firstSessionId: string, how: StitchMethod,
    last: Source, lastAt: int, lastSessionId: string, referralCode: string, visitorId: string, fingerprint: string,
    updatedAt: int)

  // Deduplicated reads; rows stay where they are, so that ties on created_at are broken the same way each time.
  datatype Database = Database(sessions: seq<Session>, goals: seq<GoalRow>, attribution: map<string, Attribution>)

  // ----- Reading -----

  /** The user's most recent session. */
  function Identified(sessions: seq<Session>, user: string): Option<Session> {
    if sessions == [] then None
    else
      var rest, s := Identified(sessions[..|sessions| - 1], user), sessions[|sessions| - 1];
      if s.userId == Some(user) && (rest.None? || s.createdAt > rest.value.createdAt) then Some(s) else rest
  }

  predicate Mapped(s: Session) {
    s.source.channelGroup != "" && s.source.channelGroup != "direct" && s.source.channelGroup != "not-mapped"
  }

  /** `s` is in the chain of the identified session under one join key. */
  predicate Joins(how: StitchMethod, identified: Session, s: Session) {
    && s.createdAt <= identified.createdAt
    && match how
       case SessionId => identified.id != "" && s.id == identified.id
       case VisitorId => identified.visitorId != "" && s.visitorId == identified.visitorId
       case Fingerprint => identified.fingerprint != "" && s.fingerprint == identified.fingerprint
                           && s.createdAt >= identified.createdAt - FINGERPRINT_LOOKBACK_MS
  }

  predicate Candidate(how: StitchMethod, identified: Session, s: Session) {
    Joins(how, identified, s) && Mapped(s)
  }

  /** The earliest candidate. */
  function FirstChainSession(sessions: seq<Session>, how: StitchMethod, identified: Session): Option<Session> {
    if sessions == [] then None
    else
      var rest, s := FirstChainSession(sessions[..|sessions| - 1], how, identified), sessions[|sessions| - 1];
      if Candidate(how, identified, s) && (rest.None? || s.createdAt < rest.value.createdAt) then Some(s) else rest
  }

  datatype FirstTouch = FirstTouch(session: Session, how: StitchMethod)

  function FindFirstTouch(sessions: seq<Session>, identified: Session): Option<FirstTouch> {
    var bySession := FirstChainSession(sessions, SessionId, identified);
    if bySession.Some? then Some(FirstTouch(bySession.value, SessionId))
    else
      var byVisitor := FirstChainSession(sessions, VisitorId, identified);
      if byVisitor.Some? then Some(FirstTouch(byVisitor.value, VisitorId))
      else
        var byFingerprint := FirstChainSession(sessions, Fingerprint, identified);
        if byFingerprint.Some? then Some(FirstTouch(byFingerprint.value, Fingerprint)) else None
  }

  function Resolve(sessions: seq<Session>, user: string): Option<(Session, FirstTouch)> {
    var identified := Identified(sessions, user);
    if identified.None? then None
    else
      var touch := FindFirstTouch(sessions, identified.value);
      if touch.None? then None else Some((identified.value, touch.value))
  }

  // ----- Writing -----

  function Either(a: string, b: string): string {
    if a != "" then a else b
  }

  function AttributionFor(user: string, identified: Session, touch: FirstTouch, now: int): Attribution {
    var first := touch.session;
    Attribution(user, first.source, first.createdAt, first.id, touch.how,
                identified.source, identified.createdAt, identified.id, first.source.utmContent,
                Either(identified.visitorId, first.visitorId), Either(identified.fingerprint, first.fingerprint), now)
  }

  function MarkSessions(sessions: seq<Session>, user: string, columns: FirstTouchColumns): seq<Session> {
    seq(|sessions|, i requires 0 <= i < |sessions| =>
      if sessions[i].userId == Some(user) then sessions[i].(firstTouch := columns) else sessions[i])
  }

  function MarkGoals(goals: seq<GoalRow>, user: string, columns: FirstTouchColumns): seq<GoalRow> {
    seq(|goals|, i requires 0 <= i < |goals| =>
      if goals[i].userId == Some(user) then goals[i].(firstTouch := columns) else goals[i])
  }

  function Written(db: Database, user: string, identified: Session, touch: FirstTouch, now: int): Database {
    var columns := FirstTouchColumns(touch.session.source.channel, touch.session.source.channelGroup);
    Database(MarkSessions(db.sessions, user, columns),
             MarkGoals(db.goals, user, columns),
             db.attribution[user := AttributionFor(user, identified, touch, now)])
  }

  function Stitched(db: Database, user: string, now: int): Database {
    var found := Resolve(db.sessions, user);
    if found.None? then db else Written(db, user, found.value.0, found.value.1, now)
  }

  // ----- What is chosen -----

  lemma {:induction false} IdentifiedIsLatest(sessions: seq<Session>, user: string)
    ensures var r := Identified(sessions, user);
            && (r.None? <==> forall s <- sessions :: s.userId != Some(user))
            && (r.Some? ==> r.value in sessions && r.value.userId == Some(user)
                            && forall s <- sessions | s.userId == Some(user) :: s.createdAt <= r.value.createdAt)
  {
    if sessions != [] {
      IdentifiedIsLatest(sessions[..|sessions| - 1], user);
      assert sessions == sessions[..|sessions| - 1] + [sessions[|sessions| - 1]];
    }
  }

  lemma {:induction false} FirstChainIsEarliest(sessions: seq<Session>, how: StitchMethod, identified: Session)
    ensures var r := FirstChainSession(sessions, how, identified);
            && (r.None? <==> forall s <- sessions :: !Candidate(how, identified, s))
            && (r.Some? ==> r.value in sessions && Candidate(how, identified, r.value)
                            && forall s <- sessions | Candidate(how, identified, s) :: r.value.createdAt <= s.createdAt)
  {
    if sessions != [] {
      FirstChainIsEarliest(sessions[..|sessions| - 1], how, identified);
      assert sessions == sessions[..|sessions| - 1] + [sessions[|sessions| - 1]];
    }
  }

  function Reliability(how: StitchMethod): nat {
    match how case SessionId => 2 case VisitorId => 1 case Fingerprint => 0
  }

  /** The earliest mapped session under the most reliable key that has one; none only if no key has one. */
  lemma FirstTouchIsBest(sessions: seq<Session>, identified: Session)
    ensures var r := FindFirstTouch(sessions, identified);
            && (r.None? <==> forall s <- sessions, how: StitchMethod :: !Candidate(how, identified, s))
            && (r.Some? ==>
                  && r.value.session in sessions && Candidate(r.value.how, identified, r.value.session)
                  && (forall s <- sessions | Candidate(r.value.how, identified, s) ::
                        r.value.session.createdAt <= s.createdAt)
                  && (forall s <- sessions, how: StitchMethod | Candidate(how, identified, s) ::
                        Reliability(how) <= Reliability(r.value.how)))
  {
    FirstChainIsEarliest(sessions, SessionId, identified);
    FirstChainIsEarliest(sessions, VisitorId, identified);
    FirstChainIsEarliest(sessions, Fingerprint, identified);
  }

  // ----- Only two columns change -----

  /** Rows, their order and every other column are kept; only the user's rows are written. */
  lemma StitchKeepsRows(db: Database, user: string, now: int)
    ensures var t := Stitched(db, user, now);
            && |t.sessions| == |db.sessions| && |t.goals| == |db.goals|
            && (forall i | 0 <= i < |db.sessions| ::
                  && t.sessions[i].(firstTouch := db.sessions[i].firstTouch) == db.sessions[i]
                  && (db.sessions[i].userId != Some(user) ==> t.sessions[i] == db.sessions[i]))
            && (forall i | 0 <= i < |db.goals| ::
                  && t.goals[i].(firstTouch := db.goals[i].firstTouch) == db.goals[i]
                  && (db.goals[i].userId != Some(user) ==> t.goals[i] == db.goals[i]))
            && (forall u | u != user :: u in t.attribution <==> u in db.attribution)
            && (forall u <- db.attribution | u != user :: t.attribution[u] == db.attribution[u])
  {
  }

  ghost predicate SameButFirstTouch(a: seq<Session>, b: seq<Session>) {
    |a| == |b| && forall i | 0 <= i < |a| :: a[i].(firstTouch := b[i].firstTouch) == b[i]
  }

  ghost predicate SameSession(a: Option<Session>, b: Option<Session>) {
    (a.None? && b.None?) || (a.Some? && b.Some? && a.value.(firstTouch := b.value.firstTouch) == b.value)
  }

  lemma {:induction false} IdentifiedIgnoresFirstTouch(a: seq<Session>, b: seq<Session>, user: string)
    requires SameButFirstTouch(a, b)
    ensures SameSession(Identified(a, user), Identified(b, user))
  {
    if a != [] {
      IdentifiedIgnoresFirstTouch(a[..|a| - 1], b[..|b| - 1], user);
    }
  }

  lemma {:induction false} FirstChainIgnoresFirstTouch(a: seq<Session>, b: seq<Session>, how: StitchMethod,
                                                       i: Session, j: Session)
    requires SameButFirstTouch(a, b) && i.(firstTouch := j.firstTouch) == j
    ensures SameSession(FirstChainSession(a, how, i), FirstChainSession(b, how, j))
  {
    if a != [] {
      FirstChainIgnoresFirstTouch(a[..|a| - 1], b[..|b| - 1], how, i, j);
      assert Candidate(how, i, a[|a| - 1]) <==> Candidate(how, j, b[|b| - 1]);
    }
  }

  /** What a stitch would write does not depend on the columns that stitches write. */
  lemma ResolveIgnoresFirstTouch(a: seq<Session>, b: seq<Session>, user: string, now: int)
    requires SameButFirstTouch(a, b)
    ensures Resolve(a, user).Some? <==> Resolve(b, user).Some?
    ensures Resolve(a, user).Some? ==>
              && AttributionFor(user, Resolve(a, user).value.0, Resolve(a, user).value.1, now)
                 == AttributionFor(user, Resolve(b, user).value.0, Resolve(b, user).value.1, now)
              && Resolve(a, user).value.1.session.source == Resolve(b, user).value.1.session.source
  {
    IdentifiedIgnoresFirstTouch(a, b, user);
    if Identified(a, user).Some? {
      var i, j := Identified(a, user).value, Identified(b, user).value;
      FirstChainIgnoresFirstTouch(a, b, SessionId, i, j);
      FirstChainIgnoresFirstTouch(a, b, VisitorId, i, j);
      FirstChainIgnoresFirstTouch(a, b, Fingerprint, i, j);
    }
  }

  /** Stitching again changes nothing but the time of the attribution row. */
  lemma StitchIsIdempotent(db: Database, user: string, now: int, later: int)
    ensures var once := Stitched(db, user, now);
            Stitched(once, user, later)
            == if Resolve(db.sessions, user).None? then once
               else once.(attribution := once.attribution[user := once.attribution[user].(updatedAt := later)])
  {
    var once := Stitched(db, user, now);
    StitchKeepsRows(db, user, now);
    ResolveIgnoresFirstTouch(once.sessions, db.sessions, user, later);
    if Resolve(db.sessions, user).Some? {
      var twice := Stitched(once, user, later);
      assert twice.sessions == once.sessions && twice.goals == once.goals;
    }
  }

  lemma MarksCommute(sessions: seq<Session>, goals: seq<GoalRow>, u: string, v: string, a: FirstTouchColumns,
                     b: FirstTouchColumns)
    requires u != v
    ensures MarkSessions(MarkSessions(sessions, u, a), v, b) == MarkSessions(MarkSessions(sessions, v, b), u, a)
    ensures MarkGoals(MarkGoals(goals, u, a), v, b) == MarkGoals(MarkGoals(goals, v, b), u, a)
  {
  }

  /** A stitch of `user` writes to `other` what it would write to `db`. */
  lemma WritesTheSame(other: Database, db: Database, user: string, now: int)
    requires SameButFirstTouch(other.sessions, db.sessions)
    ensures Stitched(other, user, now)
            == var found := Resolve(db.sessions, user);
               if found.None? then other else Written(other, user, found.value.0, found.value.1, now)
  {
    ResolveIgnoresFirstTouch(other.sessions, db.sessions, user, now);
  }

  /** Stitching two users gives the same tables in either order. */
  lemma StitchesCommute(db: Database, u: string, v: string, now: int, later: int)
    requires u != v
    ensures Stitched(Stitched(db, u, now), v, later) == Stitched(Stitched(db, v, later), u, now)
  {
    StitchKeepsRows(db, u, now);
    StitchKeepsRows(db, v, later);
    WritesTheSame(Stitched(db, u, now), db, v, later);
    WritesTheSame(Stitched(db, v, later), db, u, now);
    var a, b := Resolve(db.sessions, u), Resolve(db.sessions, v);
    if a.Some? && b.Some? {
      WritesCommute(db, u, a.value, v, b.value, now, later);
    }
  }

  lemma WritesCommute(db: Database, u: string, a: (Session, FirstTouch), v: string, b: (Session, FirstTouch),
                      now: int, later: int)
    requires u != v
    ensures Written(Written(db, u, a.0, a.1, now), v, b.0, b.1, later)
            == Written(Written(db, v, b.0, b.1, later), u, a.0, a.1, now)
  {
    var p, q := a.1.session.source, b.1.session.source;
    MarksCommute(db.sessions, db.goals, u, v, FirstTouchColumns(p.channel, p.channelGroup),
                 FirstTouchColumns(q.channel, q.channelGroup));
    var x, y := AttributionFor(u, a.0, a.1, now), AttributionFor(v, b.0, b.1, later);
    assert db.attribution[u := x][v := y] == db.attribution[v := y][u := x];
  }

  // ----- What the user's row says -----

  ghost predicate IsLatestOf(sessions: seq<Session>, user: string, login: Session) {
    && login in sessions && login.userId == Some(user)
    && forall s <- sessions | s.userId == Some(user) :: s.createdAt <= login.createdAt
  }

  // The same visitor as at the login, not later, and from a real channel.
  ghost predicate Precedes(how: StitchMethod, login: Session, s: Session) {
    && s.source.channelGroup !in {"", "direct", "not-mapped"} && s.createdAt <= login.createdAt
    && (how == SessionId ==> s.id == login.id != "")
    && (how == VisitorId ==> s.visitorId == login.visitorId != "")
    && (how == Fingerprint ==> s.fingerprint == login.fingerprint != "" && login.createdAt - s.createdAt <= 3600000)
  }

  ghost predicate IsEarliestBefore(sessions: seq<Session>, how: StitchMethod, login: Session, first: Session) {
    first in sessions && Precedes(how, login, first)
    && forall s <- sessions | Precedes(how, login, s) :: first.createdAt <= s.createdAt
  }

  /** The row's first-touch columns are those of `first`, its last-touch columns those of `login`. */
  ghost predicate Tells(row: Attribution, user: string, how: StitchMethod, login: Session, first: Session, now: int) {
    && row.userId == user && row.how == how && row.updatedAt == now
    && row.firstSessionId == first.id && row.firstAt == first.createdAt && row.first == first.source
    && row.lastSessionId == login.id && row.lastAt == login.createdAt && row.last == login.source
    && row.firstAt <= row.lastAt && row.referralCode == first.source.utmContent
    && (login.visitorId != "" ==> row.visitorId == login.visitorId)
    && (login.visitorId == "" ==> row.visitorId == first.visitorId)
    && (login.fingerprint != "" ==> row.fingerprint == login.fingerprint)
    && (login.fingerprint == "" ==> row.fingerprint == first.fingerprint)
  }

  /** The row tells the user's latest session and an earliest session of the same visitor from a real channel. */
  ghost predicate RowIsRight(sessions: seq<Session>, user: string, how: StitchMethod, row: Attribution, now: int) {
    exists login, first ::
      IsLatestOf(sessions, user, login) && IsEarliestBefore(sessions, how, login, first)
      && Tells(row, user, how, login, first, now)
  }

  ghost predicate RowsShow(db: Database, user: string, channel: string, channelGroup: string) {
    && (forall s <- db.sessions | s.userId == Some(user) ::
          s.firstTouch.channel == channel && s.firstTouch.channelGroup == channelGroup)
    && (forall g <- db.goals | g.userId == Some(user) ::
          g.firstTouch.channel == channel && g.firstTouch.channelGroup == channelGroup)
  }

  // No key at all leads from a latest session of the user to a session from a real channel.
  ghost predicate NothingToTell(sessions: seq<Session>, user: string) {
    (forall s <- sessions :: s.userId != Some(user))
    || exists login :: IsLatestOf(sessions, user, login)
                       && forall s <- sessions, how: StitchMethod :: !Precedes(how, login, s)
  }

  lemma CandidatePrecedes(how: StitchMethod, login: Session, s: Session)
    ensures Candidate(how, login, s) <==> Precedes(how, login, s)
  {
  }

  lemma StitchedRow(db: Database, user: string, now: int)
    requires Resolve(db.sessions, user).Some?
    ensures var how, t := Resolve(db.sessions, user).value.1.how, Stitched(db, user, now);
            && user in t.attribution && RowIsRight(db.sessions, user, how, t.attribution[user], now)
            && RowsShow(t, user, t.attribution[user].first.channel, t.attribution[user].first.channelGroup)
  {
    var login, touch := Resolve(db.sessions, user).value.0, Resolve(db.sessions, user).value.1;
    IdentifiedIsLatest(db.sessions, user);
    FirstTouchIsBest(db.sessions, login);
    forall s ensures Candidate(touch.how, login, s) <==> Precedes(touch.how, login, s) {
      CandidatePrecedes(touch.how, login, s);
    }
    assert IsLatestOf(db.sessions, user, login) && IsEarliestBefore(db.sessions, touch.how, login, touch.session);
    assert Tells(Stitched(db, user, now).attribution[user], user, touch.how, login, touch.session, now);
  }

  lemma NothingIsFound(sessions: seq<Session>, user: string)
    requires Resolve(sessions, user).None?
    ensures NothingToTell(sessions, user)
  {
    IdentifiedIsLatest(sessions, user);
    if Identified(sessions, user).Some? {
      var login := Identified(sessions, user).value;
      FirstTouchIsBest(sessions, login);
      forall s <- sessions, how: StitchMethod ensures !Precedes(how, login, s) {
        CandidatePrecedes(how, login, s);
      }
      assert IsLatestOf(sessions, user, login);
    }
  }

  // ----- The service -----

  const STITCH_CACHE_TTL_MS: int := 5 * 60 * 1000

  class IdentityStitchService {
    var sessions: seq<Session>
    var goals: seq<GoalRow>
    var attribution: map<string, Attribution>
    var recentlyStitched: map<string, int>

    ghost function View(): Database
      reads this
    {
      Database(sessions, goals, attribution)
    }

    constructor (db: Database)
      ensures View() == db && recentlyStitched == map[]
    {
      sessions, goals, attribution, recentlyStitched := db.sessions, db.goals, db.attribution, map[];
    }

    method Denormalize(userId: string, columns: FirstTouchColumns)
      modifies this`sessions, this`goals
      ensures sessions == MarkSessions(old(sessions), userId, columns)
      ensures goals == MarkGoals(old(goals), userId, columns)
    {
      for i := 0 to |sessions|
        invariant |sessions| == |old(sessions)| && goals == old(goals)
        invariant forall j | 0 <= j < i :: sessions[j] == MarkSessions(old(sessions), userId, columns)[j]
        invariant forall j | i <= j < |sessions| :: sessions[j] == old(sessions)[j]
      {
        if sessions[i].userId == Some(userId) {
          sessions := sessions[i := sessions[i].(firstTouch := columns)];
        }
      }
      for i := 0 to |goals|
        invariant |goals| == |old(goals)| && sessions == MarkSessions(old(sessions), userId, columns)
        invariant forall j | 0 <= j < i :: goals[j] == MarkGoals(old(goals), userId, columns)[j]
        invariant forall j | i <= j < |goals| :: goals[j] == old(goals)[j]
      {
        if goals[i].userId == Some(userId) {
          goals := goals[i := goals[i].(firstTouch := columns)];
        }
      }
    }

    method StitchUser(userId: string, now: int) returns (how: Option<StitchMethod>)
      modifies this`sessions, this`goals, this`attribution
      ensures View() == Stitched(old(View()), userId, now)
      ensures how == var found := Resolve(old(sessions), userId); if found.None? then None else Some(found.value.1.how)
      ensures how.Some? ==>
                && userId in attribution && RowIsRight(old(sessions), userId, how.value, attribution[userId], now)
                && RowsShow(View(), userId, attribution[userId].first.channel, attribution[userId].first.channelGroup)
      ensures how.None? ==> View() == old(View()) && NothingToTell(old(sessions), userId)
    {
      if Resolve(sessions, userId).Some? {
        StitchedRow(View(), userId, now);
      } else {
        NothingIsFound(sessions, userId);
      }
      var identified := Identified(sessions, userId);
      if identified.None? {
        return None;
      }
      var touch := FindFirstTouch(sessions, identified.value);
      if touch.None? {
        return None;
      }
      attribution := attribution[userId := AttributionFor(userId, identified.value, touch.value, now)];
      var source := touch.value.session.source;
      Denormalize(userId, FirstTouchColumns(source.channel, source.channelGroup));
      how := Some(touch.value.how);
    }

    method EvictExpired(now: int)
      modifies this`recentlyStitched
      ensures forall k :: k in recentlyStitched <==>
                k in old(recentlyStitched) && (|old(recentlyStitched)| < 1000 || old(recentlyStitched)[k] > now)
      ensures forall k <- recentlyStitched :: recentlyStitched[k] == old(recentlyStitched)[k]
    {
      if |recentlyStitched| < 1000 {
        return;
      }
      recentlyStitched := map k | k in recentlyStitched && recentlyStitched[k] > now :: recentlyStitched[k];
    }

    /** Starts a stitch unless one was started within the TTL and did not fail; a failure is forgotten at once. */
    method ScheduleStitch(userId: string, now: int, succeeds: bool) returns (started: bool)
      modifies this
      ensures started <==> !(userId in old(recentlyStitched) && old(recentlyStitched)[userId] > now)
      ensures View() == if started && succeeds then Stitched(old(View()), userId, now) else old(View())
      ensures started && succeeds ==>
                userId in recentlyStitched && recentlyStitched[userId] == now + 300000
      ensures started && !succeeds ==> userId !in recentlyStitched
      ensures forall k <- old(recentlyStitched) | k != userId && old(recentlyStitched)[k] > now ::
                k in recentlyStitched && recentlyStitched[k] == old(recentlyStitched)[k]
    {
      if userId in recentlyStitched && recentlyStitched[userId] > now {
        return false;
      }
      started := true;
      recentlyStitched := recentlyStitched[userId := now + STITCH_CACHE_TTL_MS];
      EvictExpired(now);
      if succeeds {
        var _ := StitchUser(userId, now);
      } else {
        recentlyStitched := recentlyStitched - {userId};
      }
    }
  }
}
