/** `ExportService.getUserEvents`: keyset pagination over the events of identified users. */
module Export {
  import opened Events

  // (updated_at, id): the order of the export and the contents of a cursor. Ids are unique.
  datatype Position = Position(updatedAt: int, id: int)

  predicate Before(p: Position, q: Position) {
    p.updatedAt < q.updatedAt || (p.updatedAt == q.updatedAt && p.id < q.id)
  }

  datatype EventRow = EventRow(
    at: Position, userId: Option<string>, createdAt: int, sessionId: string, name: string, path: string,
    goalName: string, goalValue: int, channelGroup: string, duration: int, maxScroll: int, pageNumber: int,
    properties: map<string, string>)

  // The deduplicated table in export order.
  ghost predicate Ordered(rows: seq<EventRow>) {
    forall i, j | 0 <= i < j < |rows| :: Before(rows[i].at, rows[j].at)
  }

  // A cursor that does not decode to a position is malformed.
  datatype Cursor = NoCursor | Malformed | From(position: Position)

  datatype Query = Query(cursor: Cursor, since: Option<int>, until: int, userId: Option<string>, limit: Option<nat>)

  datatype Response = BadRequest | Page(data: seq<EventRow>, nextCursor: Option<Position>, hasMore: bool)

  const DEFAULT_LIMIT: nat := 100

  predicate LowerBound(q: Query, row: EventRow) {
    match q.cursor
    case From(p) => Before(p, row.at)
    case _ => q.since.Some? ==> row.at.updatedAt >= q.since.value
  }

  predicate Matches(q: Query, row: EventRow) {
    && row.userId.Some?
    && LowerBound(q, row)
    && row.at.updatedAt <= q.until
    && (q.userId.Some? ==> row.userId == q.userId)
  }

  function Select(table: seq<EventRow>, q: Query): seq<EventRow> {
    if table == [] then []
    else if Matches(q, table[0]) then [table[0]] + Select(table[1..], q)
    else Select(table[1..], q)
  }

  function Take(rows: seq<EventRow>, n: nat): seq<EventRow> {
    if |rows| <= n then rows else rows[..n]
  }

  function Limit(q: Query): nat {
    if q.limit.Some? then q.limit.value else DEFAULT_LIMIT
  }

  /** A prefix of the answer; `hasMore` tells whether something is missing, and the cursor names its last row. */
  function GetUserEvents(table: seq<EventRow>, q: Query): (r: Response)
    ensures r.Page? <==> q.cursor.From? || (q.cursor.NoCursor? && q.since.Some?)
    ensures r.Page? ==>
              && r.data <= Select(table, q) && |r.data| <= Limit(q)
              && (r.hasMore <==> |r.data| < |Select(table, q)|)
              && (r.hasMore ==> |r.data| == if q.limit.Some? then q.limit.value else 100)
              && (r.nextCursor.Some? <==> r.hasMore && r.data != [])
              && (r.nextCursor.Some? ==> r.nextCursor.value == r.data[|r.data| - 1].at)
  {
    if q.cursor.Malformed? || (q.cursor.NoCursor? && q.since.None?) then BadRequest
    else
      var limit := Limit(q);
      var rows := Take(Select(table, q), limit + 1);
      var hasMore := |rows| > limit;
      var data := if hasMore then rows[..limit] else rows;
      Page(data, if hasMore && |data| > 0 then Some(data[|data| - 1].at) else None, hasMore)
  }

  // ----- One page follows the other -----

  function Beyond(rows: seq<EventRow>, p: Position): seq<EventRow> {
    if rows == [] then []
    else if Before(p, rows[0].at) then [rows[0]] + Beyond(rows[1..], p)
    else Beyond(rows[1..], p)
  }

  lemma {:induction false} SelectKeepsOrder(table: seq<EventRow>, q: Query)
    requires Ordered(table)
    ensures Ordered(Select(table, q))
    ensures forall row <- Select(table, q) :: row in table && Matches(q, row)
  {
    if table != [] {
      SelectKeepsOrder(table[1..], q);
      assert forall row <- table[1..] :: Before(table[0].at, row.at);
    }
  }

  /** Moving the cursor to a row that the query matches keeps, of its answer, what lies beyond. */
  lemma {:induction false} MovedCursorSelects(table: seq<EventRow>, q: Query, row: EventRow)
    requires Matches(q, row)
    ensures Select(table, q.(cursor := From(row.at))) == Beyond(Select(table, q), row.at)
  {
    if table != [] {
      MovedCursorSelects(table[1..], q, row);
      var moved := q.(cursor := From(row.at));
      assert Matches(moved, table[0]) <==> Matches(q, table[0]) && Before(row.at, table[0].at);
      if Matches(q, table[0]) {
        assert ([table[0]] + Select(table[1..], q))[1..] == Select(table[1..], q);
      }
    }
  }

  lemma {:induction false} BeyondIsSuffix(rows: seq<EventRow>, p: Position, n: nat)
    requires Ordered(rows) && n <= |rows|
    requires forall i | 0 <= i < n :: !Before(p, rows[i].at)
    requires forall i | n <= i < |rows| :: Before(p, rows[i].at)
    ensures Beyond(rows, p) == rows[n..]
  {
    if rows != [] {
      if n > 0 {
        BeyondIsSuffix(rows[1..], p, n - 1);
      } else {
        BeyondIsSuffix(rows[1..], p, 0);
      }
    }
  }

  /** The next page starts right after the last row of this one: none skipped, none repeated. */
  lemma NextPageContinues(table: seq<EventRow>, q: Query, n: nat)
    requires Ordered(table) && 0 < n <= |Select(table, q)|
    ensures Select(table, q.(cursor := From(Select(table, q)[n - 1].at))) == Select(table, q)[n..]
  {
    var rows := Select(table, q);
    SelectKeepsOrder(table, q);
    assert rows[n - 1] in rows;
    MovedCursorSelects(table, q, rows[n - 1]);
    BeyondIsSuffix(rows, rows[n - 1].at, n);
  }

  /** Following `next_cursor` with page size `limit` until `has_more` is false. */
  function Drain(table: seq<EventRow>, q: Query): seq<EventRow>
    requires Ordered(table) && Limit(q) > 0
    requires q.cursor.From? || (q.cursor.NoCursor? && q.since.Some?)
    decreases |Select(table, q)|
  {
    var page := GetUserEvents(table, q);
    if !page.hasMore then page.data
    else
      NextPageContinues(table, q, Limit(q));
      page.data + Drain(table, q.(cursor := From(page.nextCursor.value)))
  }

  lemma {:induction false} DrainSelects(table: seq<EventRow>, q: Query)
    requires Ordered(table) && Limit(q) > 0
    requires q.cursor.From? || (q.cursor.NoCursor? && q.since.Some?)
    ensures Drain(table, q) == Select(table, q)
    decreases |Select(table, q)|
  {
    var page, rows, n := GetUserEvents(table, q), Select(table, q), Limit(q);
    if page.hasMore {
      NextPageContinues(table, q, n);
      var next := q.(cursor := From(page.nextCursor.value));
      assert page.data == rows[..n] && Select(table, next) == rows[n..];
      DrainSelects(table, next);
      assert rows == rows[..n] + rows[n..];
    }
  }

  /** The pages together are every matching event, once, in (updated_at, id) order. */
  lemma DrainReturnsAll(table: seq<EventRow>, q: Query)
    requires Ordered(table) && Limit(q) > 0
    requires q.cursor.From? || (q.cursor.NoCursor? && q.since.Some?)
    ensures Ordered(Drain(table, q))
    ensures forall row :: row in Drain(table, q) <==> row in table && Matches(q, row)
  {
    DrainSelects(table, q);
    SelectKeepsOrder(table, q);
    SelectHasAll(table, q);
  }

  /** Which events these are, by their columns: identified, of the user asked for, and within the bounds. */
  lemma DrainByColumns(table: seq<EventRow>, q: Query, row: EventRow)
    requires Ordered(table) && Limit(q) > 0
    requires q.cursor.From? || (q.cursor.NoCursor? && q.since.Some?)
    ensures q.cursor.NoCursor? ==>
              (row in Drain(table, q)
               <==> && row in table && row.userId.Some? && (q.userId == None || row.userId == q.userId)
                    && q.since.value <= row.at.updatedAt <= q.until)
    ensures q.cursor.From? ==>
              (row in Drain(table, q)
               <==> && row in table && row.userId.Some? && (q.userId == None || row.userId == q.userId)
                    && row.at.updatedAt <= q.until
                    && (row.at.updatedAt > q.cursor.position.updatedAt
                        || (row.at.updatedAt == q.cursor.position.updatedAt && row.at.id > q.cursor.position.id)))
  {
    DrainReturnsAll(table, q);
  }

  lemma {:induction false} SelectHasAll(table: seq<EventRow>, q: Query)
    ensures forall row <- table | Matches(q, row) :: row in Select(table, q)
  {
    if table != [] {
      SelectHasAll(table[1..], q);
    }
  }
}
