/**
 The `goals` table. Its materialized view copies every goal row inserted into `events`, and its key is
 (goal_timestamp, session_id, goal_name): the corrected timestamp, not the deduplication token.
 */
module GoalsTable {
  import opened Events
  import opened Tokens
  import opened EventsTable
  import opened Ingestion

  datatype GoalRowKey = GoalRowKey(goalTimestamp: Option<int>, sessionId: string, goalName: string)

  function GoalKeyOfRow(r: TrackingEvent): GoalRowKey {
    GoalRowKey(r.goalTimestamp, r.sessionId, r.goalName)
  }

  /** What the view inserts into `goals` for rows inserted into `events`. */
  function GoalRows(rows: seq<TrackingEvent>): seq<TrackingEvent> {
    if rows == [] then []
    else
      var last := rows[|rows| - 1];
      GoalRows(rows[..|rows| - 1]) + if last.name == "goal" then [last] else []
  }

  /** The rows that a deduplicated read of `goals` returns for one action: one for each key it was inserted under. */
  ghost function ShownFor(rows: seq<TrackingEvent>, token: string): set<GoalRowKey> {
    set r | r in GoalRows(rows) && r.dedupToken == token :: GoalKeyOfRow(r)
  }

  lemma {:induction false} GoalRowsAre(rows: seq<TrackingEvent>)
    ensures forall r :: r in GoalRows(rows) <==> r in rows && r.name == "goal"
  {
    if rows != [] {
      GoalRowsAre(rows[..|rows| - 1]);
      assert rows == rows[..|rows| - 1] + [rows[|rows| - 1]];
    }
  }

  // ----- Rows of one action, whatever the tokens -----

  /** The rows with `token` are those of the actions with key `goal`, and all go to `goals` under `key`. */
  ghost predicate Matches(rows: seq<TrackingEvent>, actions: seq<Action>, token: string, goal: ActionKey,
                          key: GoalRowKey) {
    |rows| == |actions| && forall i | 0 <= i < |rows| :: MatchesAt(rows[i], actions[i], token, goal, key)
  }

  ghost predicate MatchesAt(row: TrackingEvent, action: Action, token: string, goal: ActionKey, key: GoalRowKey) {
    && (row.dedupToken == token <==> KeyOf(action) == goal)
    && (KeyOf(action) == goal ==> row.name == "goal" && GoalKeyOfRow(row) == key)
  }

  lemma {:induction false} RowsComeFrom(ds: seq<Delivery>)
    ensures forall row :: row in Rows(ds) <==> exists d <- ds :: row in d.rows
  {
    if ds != [] {
      RowsComeFrom(ds[..|ds| - 1]);
      assert ds == ds[..|ds| - 1] + [ds[|ds| - 1]];
    }
  }

  lemma {:induction false} ShownIn(rows: seq<TrackingEvent>, token: string, k: GoalRowKey)
    ensures k in ShownFor(rows, token)
       <==> exists row <- rows :: row.name == "goal" && row.dedupToken == token && GoalKeyOfRow(row) == k
  {
    GoalRowsAre(rows);
  }

  lemma {:induction false} HeldByAction(rows: seq<TrackingEvent>, actions: seq<Action>, token: string,
                                        goal: ActionKey, key: GoalRowKey, k: GoalRowKey)
    requires Matches(rows, actions, token, goal, key)
    ensures (exists row <- rows :: row.name == "goal" && row.dedupToken == token && GoalKeyOfRow(row) == k)
       <==> goal in KeysOf(actions) && k == key
  {
    if goal in KeysOf(actions) {
      var i :| 0 <= i < |actions| && KeysOf(actions)[i] == goal;
      assert MatchesAt(rows[i], actions[i], token, goal, key);
    }
    forall row | row in rows && row.dedupToken == token ensures goal in KeysOf(actions) && GoalKeyOfRow(row) == key {
      var i :| 0 <= i < |rows| && rows[i] == row;
      assert MatchesAt(rows[i], actions[i], token, goal, key);
      assert KeysOf(actions)[i] == goal;
    }
  }

  /** The action shows under the keys of the deliveries that carry it. */
  lemma {:induction false} ShownKeysExactly(ds: seq<Delivery>, actions: seq<seq<Action>>, keys: seq<GoalRowKey>,
                                            token: string, goal: ActionKey, k: GoalRowKey)
    requires |ds| == |actions| == |keys|
    requires forall j | 0 <= j < |ds| :: Matches(ds[j].rows, actions[j], token, goal, keys[j])
    ensures k in ShownFor(Rows(ds), token) <==> exists j | 0 <= j < |ds| :: goal in KeysOf(actions[j]) && keys[j] == k
  {
    ShownIn(Rows(ds), token, k);
    RowsComeFrom(ds);
    if row :| row in Rows(ds) && row.name == "goal" && row.dedupToken == token && GoalKeyOfRow(row) == k {
      var d :| d in ds && row in d.rows;
      var j :| 0 <= j < |ds| && ds[j] == d;
      HeldByAction(ds[j].rows, actions[j], token, goal, keys[j], k);
      assert goal in KeysOf(actions[j]) && keys[j] == k;
    }
    if j :| 0 <= j < |ds| && goal in KeysOf(actions[j]) && keys[j] == k {
      HeldByAction(ds[j].rows, actions[j], token, goal, keys[j], k);
      var row :| row in ds[j].rows && row.name == "goal" && row.dedupToken == token && GoalKeyOfRow(row) == k;
      assert ds[j] in ds && row in Rows(ds);
    }
  }

  // ----- One goal of one session -----

  ghost predicate OneSession(receipts: seq<Receipt>, sessionId: string) {
    forall r <- receipts :: Known(r.payload) && r.payload.sessionId == sessionId
  }

  ghost predicate Carries(r: Receipt, name: string, timestamp: int) {
    GoalKey(name, timestamp) in KeysOf(r.payload.actions)
  }

  function Correction(r: Receipt): int {
    Skew(r.payload.sentAt, r.at.version)
  }

  /** The corrections that the receipts carrying the goal were given. */
  ghost function Corrections(receipts: seq<Receipt>, name: string, timestamp: int): set<int> {
    set r | r in receipts && Carries(r, name, timestamp) :: Correction(r)
  }

  function KeyWith(sessionId: string, name: string, corrected: int): GoalRowKey {
    GoalRowKey(Some(corrected), sessionId, name)
  }

  ghost function KeysWith(skews: set<int>, sessionId: string, name: string, timestamp: int): set<GoalRowKey> {
    set skew | skew in skews :: KeyWith(sessionId, name, timestamp + skew)
  }

  /** A receipt's rows with the goal's token have the timestamp corrected by the skew of that receipt. */
  lemma {:induction false} RowsMatch(r: Receipt, filters: Filters, sessionId: string, name: string, timestamp: int)
    requires Known(r.payload) && r.payload.sessionId == sessionId
    ensures Matches(RowsFor(r.payload, r.at, filters), r.payload.actions, Token(sessionId, GoalKey(name, timestamp)),
                    GoalKey(name, timestamp), KeyWith(sessionId, name, timestamp + Correction(r)))
  {
    var rows, token := RowsFor(r.payload, r.at, filters), Token(sessionId, GoalKey(name, timestamp));
    forall i | 0 <= i < |rows|
      ensures MatchesAt(rows[i], r.payload.actions[i], token, GoalKey(name, timestamp),
                        KeyWith(sessionId, name, timestamp + Correction(r)))
    {
      assert r.payload.actions[i] in r.payload.actions;
      TokenInjective(sessionId, KeyOf(r.payload.actions[i]), GoalKey(name, timestamp));
    }
  }

  lemma {:induction false} ShownKeysAre(receipts: seq<Receipt>, ds: seq<Delivery>, actions: seq<seq<Action>>,
                                        keys: seq<GoalRowKey>, token: string,
                                        sessionId: string, name: string, timestamp: int)
    requires |ds| == |actions| == |keys| == |receipts|
    requires forall j | 0 <= j < |receipts| ::
               && actions[j] == receipts[j].payload.actions
               && keys[j] == KeyWith(sessionId, name, timestamp + Correction(receipts[j]))
    requires forall j | 0 <= j < |ds| :: Matches(ds[j].rows, actions[j], token, GoalKey(name, timestamp), keys[j])
    ensures ShownFor(Rows(ds), token) == KeysWith(Corrections(receipts, name, timestamp), sessionId, name, timestamp)
  {
    forall k
      ensures k in ShownFor(Rows(ds), token)
         <==> k in KeysWith(Corrections(receipts, name, timestamp), sessionId, name, timestamp)
    {
      ShownKeysExactly(ds, actions, keys, token, GoalKey(name, timestamp), k);
      CarriedWith(receipts, actions, keys, sessionId, name, timestamp, k);
    }
  }

  lemma {:induction false} CarriedWith(receipts: seq<Receipt>, actions: seq<seq<Action>>, keys: seq<GoalRowKey>,
                    sessionId: string, name: string, timestamp: int, k: GoalRowKey)
    requires |actions| == |keys| == |receipts|
    requires forall j | 0 <= j < |receipts| ::
               && actions[j] == receipts[j].payload.actions
               && keys[j] == KeyWith(sessionId, name, timestamp + Correction(receipts[j]))
    ensures (exists j | 0 <= j < |receipts| :: GoalKey(name, timestamp) in KeysOf(actions[j]) && keys[j] == k)
       <==> k in KeysWith(Corrections(receipts, name, timestamp), sessionId, name, timestamp)
  {
    if j :| 0 <= j < |receipts| && GoalKey(name, timestamp) in KeysOf(actions[j]) && keys[j] == k {
      assert receipts[j] in receipts && Carries(receipts[j], name, timestamp);
      assert Correction(receipts[j]) in Corrections(receipts, name, timestamp);
    }
    if skew :| skew in Corrections(receipts, name, timestamp) && k == KeyWith(sessionId, name, timestamp + skew) {
      var r :| r in receipts && Carries(r, name, timestamp) && Correction(r) == skew;
      var j :| 0 <= j < |receipts| && receipts[j] == r;
      assert GoalKey(name, timestamp) in KeysOf(actions[j]) && keys[j] == k;
    }
  }

  lemma Member(skews: set<int>) returns (skew: int)
    requires skews != {}
    ensures skew in skews
  {
    if forall skew :: skew !in skews {
      assert false;
    }
    skew :| skew in skews;
  }

  /** Different corrections give different keys. */
  lemma {:induction false} ImageSize<K>(skews: set<int>, keyOf: int -> K)
    requires forall a, b :: keyOf(a) == keyOf(b) ==> a == b
    ensures |set skew | skew in skews :: keyOf(skew)| == |skews|
    decreases |skews|
  {
    var keys := set skew | skew in skews :: keyOf(skew);
    if skews == {} {
      assert keys == {};
    } else {
      var skew := Member(skews);
      var rest := skews - {skew};
      var others := set s | s in rest :: keyOf(s);
      ImageSize(rest, keyOf);
      forall k ensures k in keys <==> k in others + {keyOf(skew)} {
        if k in keys {
          var s :| s in skews && k == keyOf(s);
          assert s == skew || s in rest;
        }
      }
      assert keys == others + {keyOf(skew)};
    }
  }

  lemma KeyWithTells(sessionId: string, name: string, a: int, b: int)
    ensures KeyWith(sessionId, name, a) == KeyWith(sessionId, name, b) ==> a == b
  {
    var k, l := KeyWith(sessionId, name, a), KeyWith(sessionId, name, b);
    assert k.goalTimestamp == Some(a) && l.goalTimestamp == Some(b);
  }

  lemma {:induction false} SameSize(skews: set<int>, sessionId: string, name: string, timestamp: int)
    ensures |KeysWith(skews, sessionId, name, timestamp)| == |skews|
  {
    var keyOf := (skew: int) => KeyWith(sessionId, name, timestamp + skew);
    forall a, b | keyOf(a) == keyOf(b) ensures a == b {
      KeyWithTells(sessionId, name, timestamp + a, timestamp + b);
    }
    ImageSize(skews, keyOf);
    assert KeysWith(skews, sessionId, name, timestamp) == set skew | skew in skews :: keyOf(skew);
  }

  /**
   After any receipts of a session, in any order and repetition, one SDK goal shows as exactly as many
   rows of `goals` as its receipts were given different corrections. In `events` it is one row.
   */
  lemma {:induction false} GoalShowsOncePerCorrection(receipts: seq<Receipt>, filters: Filters, sessionId: string,
                                                      name: string, timestamp: int)
    requires OneSession(receipts, sessionId)
    ensures |ShownFor(Rows(Deliveries(receipts, filters)), Token(sessionId, GoalKey(name, timestamp)))|
         == |Corrections(receipts, name, timestamp)|
  {
    var n, ds := |receipts|, Deliveries(receipts, filters);
    var actions := seq(n, j requires 0 <= j < n => receipts[j].payload.actions);
    var keys := seq(n, j requires 0 <= j < n => KeyWith(sessionId, name, timestamp + Correction(receipts[j])));
    forall j | 0 <= j < n
      ensures Matches(ds[j].rows, actions[j], Token(sessionId, GoalKey(name, timestamp)), GoalKey(name, timestamp),
                      keys[j])
    {
      RowsMatch(receipts[j], filters, sessionId, name, timestamp);
    }
    ShownKeysAre(receipts, ds, actions, keys, Token(sessionId, GoalKey(name, timestamp)), sessionId, name, timestamp);
    SameSize(Corrections(receipts, name, timestamp), sessionId, name, timestamp);
  }

  lemma {:induction false} OneElementExactly(skews: set<int>, skew: int)
    requires skew in skews
    ensures |skews| == 1 <==> forall s <- skews :: s == skew
  {
    assert skews == {skew} + (skews - {skew});
    if forall s <- skews :: s == skew {
      assert skews == {skew};
    } else {
      var s :| s in skews && s != skew;
      assert s in skews - {skew};
    }
  }

  /** A goal that was received shows once exactly when all its receipts were given the same correction. */
  lemma {:induction false} GoalShowsOnceExactly(receipts: seq<Receipt>, filters: Filters, sessionId: string,
                                                name: string, timestamp: int, first: Receipt)
    requires OneSession(receipts, sessionId) && first in receipts && Carries(first, name, timestamp)
    ensures |ShownFor(Rows(Deliveries(receipts, filters)), Token(sessionId, GoalKey(name, timestamp)))| == 1
       <==> forall r <- receipts | Carries(r, name, timestamp) :: Correction(r) == Correction(first)
  {
    GoalShowsOncePerCorrection(receipts, filters, sessionId, name, timestamp);
    assert Correction(first) in Corrections(receipts, name, timestamp);
    OneElementExactly(Corrections(receipts, name, timestamp), Correction(first));
    assert forall r <- receipts | Carries(r, name, timestamp) ::
        Correction(r) in Corrections(receipts, name, timestamp);
  }

  /** Two sends of one goal are given the same key exactly when they are given the same correction. */
  lemma GoalTimestampStableExactly(p: Payload, at: Arrival, i: nat, q: Payload, bt: Arrival, j: nat)
    requires i < |p.actions| && j < |q.actions| && p.actions[i].Goal? && p.actions[i] == q.actions[j]
    requires p.sessionId == q.sessionId
    ensures EventFor(p, at, i).dedupToken == EventFor(q, bt, j).dedupToken
    ensures EventFor(p, at, i).goalTimestamp == EventFor(q, bt, j).goalTimestamp
       <==> Skew(p.sentAt, at.version) == Skew(q.sentAt, bt.version)
  {
  }
}
