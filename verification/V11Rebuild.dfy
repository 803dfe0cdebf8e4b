/**
 The V11 rebuild of the system table `workspaces` as five commands, any of which can be the last one
 before a crash. The runner starts it again from the first command.
 */
module V11Rebuild {
  import opened Events

  datatype Row = Row(id: string, updatedAt: int, content: string)
  datatype Engine = MergeTree | ReplacingMergeTree
  datatype Table = Table(engine: Engine, rows: seq<Row>)

  // `replacement` is the table named `workspaces_v11`, when it exists.
  datatype Database = Database(workspaces: Table, replacement: Option<Table>)

  datatype Stop =
    | BeforeCreate
    | AfterCreate
    | AfterTruncate
    | MidInsert(copied: nat)
    | AfterInsert
    | AfterExchange
    | Completed

  function Created(db: Database): Database {
    if db.replacement.Some? then db else db.(replacement := Some(Table(ReplacingMergeTree, [])))
  }

  function Filled(db: Database, rows: seq<Row>): Database
    requires db.replacement.Some?
  {
    db.(replacement := Some(db.replacement.value.(rows := rows)))
  }

  function Exchanged(db: Database): Database
    requires db.replacement.Some?
  {
    Database(db.replacement.value, Some(db.workspaces))
  }

  /** One attempt; `copy` is what the INSERT … SELECT reads, in the order ClickHouse returns it. */
  function Attempt(db: Database, copy: seq<Row>, stop: Stop): Database {
    var created := Created(db);
    match stop
    case BeforeCreate => db
    case AfterCreate => created
    case AfterTruncate => Filled(created, [])
    case MidInsert(n) => Filled(created, copy[..if n < |copy| then n else |copy|])
    case AfterInsert => Filled(created, copy)
    case AfterExchange => Exchanged(Filled(created, copy))
    case Completed => Exchanged(Filled(created, copy)).(replacement := None)
  }

  /** `r` is a freshest version of its workspace: a row that `ORDER BY updated_at DESC LIMIT 1` may return. */
  ghost predicate Freshest(rows: seq<Row>, r: Row) {
    r in rows && forall q <- rows | q.id == r.id :: q.updatedAt <= r.updatedAt
  }

  ghost predicate HasId(rows: seq<Row>, id: string) {
    exists r <- rows :: r.id == id
  }

  ghost predicate OneRowPerId(rows: seq<Row>) {
    forall i, j | 0 <= i < j < |rows| :: rows[i].id != rows[j].id
  }

  /** What `SELECT … ORDER BY updated_at DESC LIMIT 1 BY id` may return, ties broken either way. */
  ghost predicate FreshestCopy(rows: seq<Row>, copy: seq<Row>) {
    && OneRowPerId(copy)
    && (forall r <- copy :: Freshest(rows, r))
    && (forall q <- rows :: HasId(copy, q.id))
  }

  // ----- The data -----

  /** No id appears or disappears, and a row that is freshest now was freshest before. */
  ghost predicate Preserves(before: seq<Row>, after: seq<Row>) {
    && (forall id :: HasId(before, id) <==> HasId(after, id))
    && (forall r :: Freshest(after, r) ==> Freshest(before, r))
  }

  lemma CopyPreserves(rows: seq<Row>, copy: seq<Row>)
    requires FreshestCopy(rows, copy)
    ensures Preserves(rows, copy)
  {
    forall id ensures HasId(rows, id) <==> HasId(copy, id) {
      if r :| r in rows && r.id == id {
        assert HasId(copy, r.id);
      }
    }
  }

  lemma AttemptPreserves(db: Database, copy: seq<Row>, stop: Stop)
    requires FreshestCopy(db.workspaces.rows, copy)
    ensures Preserves(db.workspaces.rows, Attempt(db, copy, stop).workspaces.rows)
  {
    CopyPreserves(db.workspaces.rows, copy);
  }

  datatype Try = Try(copy: seq<Row>, stop: Stop)

  ghost predicate Possible(db: Database, tries: seq<Try>)
    decreases |tries|
  {
    tries == [] || (FreshestCopy(db.workspaces.rows, tries[0].copy)
                    && Possible(Attempt(db, tries[0].copy, tries[0].stop), tries[1..]))
  }

  function After(db: Database, tries: seq<Try>): Database
    decreases |tries|
  {
    if tries == [] then db else After(Attempt(db, tries[0].copy, tries[0].stop), tries[1..])
  }

  /** Whatever the crashes, at any command and any number of times, the data stays. */
  lemma {:induction false} EveryHistoryPreserves(db: Database, tries: seq<Try>)
    requires Possible(db, tries)
    ensures Preserves(db.workspaces.rows, After(db, tries).workspaces.rows)
    decreases |tries|
  {
    if tries != [] {
      AttemptPreserves(db, tries[0].copy, tries[0].stop);
      EveryHistoryPreserves(Attempt(db, tries[0].copy, tries[0].stop), tries[1..]);
    }
  }

  lemma {:induction false} FreshestExists(rows: seq<Row>, id: string) returns (r: Row)
    requires HasId(rows, id)
    ensures Freshest(rows, r) && r.id == id
  {
    var front, last := rows[..|rows| - 1], rows[|rows| - 1];
    assert rows == front + [last];
    if HasId(front, id) {
      r := FreshestExists(front, id);
      if last.id == id && last.updatedAt > r.updatedAt {
        r := last;
      }
    } else {
      r := last;
      assert forall q <- front :: q.id != id;
    }
  }

  ghost predicate NoTies(rows: seq<Row>) {
    forall r, q | Freshest(rows, r) && Freshest(rows, q) && r.id == q.id :: r == q
  }

  /** Without two versions at the same instant, the row read for each workspace is the very same. */
  lemma EveryHistoryShowsTheSameRows(db: Database, tries: seq<Try>, r: Row)
    requires Possible(db, tries) && NoTies(db.workspaces.rows)
    ensures Freshest(db.workspaces.rows, r) <==> Freshest(After(db, tries).workspaces.rows, r)
  {
    EveryHistoryPreserves(db, tries);
    if Freshest(db.workspaces.rows, r) {
      assert HasId(db.workspaces.rows, r.id);
      var q := FreshestExists(After(db, tries).workspaces.rows, r.id);
    }
  }

  // ----- The engine -----

  /** `workspaces` changes at the EXCHANGE only, and before that the copy grows from nothing, row by row. */
  lemma StopsLeave(db: Database, copy: seq<Row>, stop: Stop)
    ensures var t := Attempt(db, copy, stop);
            && (stop.AfterExchange? || stop.Completed? ==> t.workspaces.rows == copy)
            && (!stop.AfterExchange? && !stop.Completed? ==> t.workspaces == db.workspaces)
            && (stop.BeforeCreate? ==> t == db)
            && (stop.AfterTruncate? ==> t.replacement.Some? && t.replacement.value.rows == [])
            && (stop.MidInsert? ==>
                  && t.replacement.Some? && t.replacement.value.rows <= copy
                  && (|t.replacement.value.rows| == stop.copied || t.replacement.value.rows == copy))
            && (stop.AfterInsert? ==> t.replacement.Some? && t.replacement.value.rows == copy)
            && (stop.AfterExchange? ==> t.replacement == Some(db.workspaces))
            && (db.replacement.Some? && t.replacement.Some? && !stop.AfterExchange? ==>
                  t.replacement.value.engine == db.replacement.value.engine)
  {
  }

  /** A completed attempt leaves one row per workspace, and the engine of the table it filled. */
  lemma CompletedAttempt(db: Database, copy: seq<Row>)
    requires FreshestCopy(db.workspaces.rows, copy)
    ensures var t := Attempt(db, copy, Completed);
            && OneRowPerId(t.workspaces.rows) && t.replacement.None?
            && (t.workspaces.engine == ReplacingMergeTree
                <==> db.replacement.None? || db.replacement.value.engine == ReplacingMergeTree)
  {
  }

  /** The attempts that crashed between EXCHANGE and DROP. */
  function Swaps(tries: seq<Try>): nat {
    if tries == [] then 0
    else Swaps(tries[..|tries| - 1]) + if tries[|tries| - 1].stop.AfterExchange? then 1 else 0
  }

  lemma {:induction false} AfterOneMore(db: Database, tries: seq<Try>, last: Try)
    ensures After(db, tries + [last]) == Attempt(After(db, tries), last.copy, last.stop)
    decreases |tries|
  {
    if tries == [] {
      assert [last][1..] == [];
    } else {
      AfterOneMore(Attempt(db, tries[0].copy, tries[0].stop), tries[1..], last);
      assert (tries + [last])[1..] == tries[1..] + [last];
    }
  }

  /** Both engines are present from the first CREATE on, and each such crash swaps them. */
  lemma {:induction false} EnginesAlternate(db: Database, tries: seq<Try>)
    requires db.workspaces.engine == MergeTree && db.replacement.None?
    requires forall t <- tries :: !t.stop.Completed?
    ensures var s := After(db, tries);
            && (s.workspaces.engine == if Swaps(tries) % 2 == 0 then MergeTree else ReplacingMergeTree)
            && (s.replacement.None? ==> Swaps(tries) == 0)
            && (s.replacement.Some? ==> s.replacement.value.engine != s.workspaces.engine)
  {
    if tries != [] {
      var front, last := tries[..|tries| - 1], tries[|tries| - 1];
      assert tries == front + [last];
      EnginesAlternate(db, front);
      AfterOneMore(db, front, last);
    }
  }

  /**
   From a plain MergeTree, the attempt that finally completes leaves the replacing engine exactly when
   an even number of earlier attempts crashed between EXCHANGE and DROP.
   */
  lemma ReplacingExactlyAfterEvenSwaps(db: Database, crashes: seq<Try>, copy: seq<Row>)
    requires db.workspaces.engine == MergeTree && db.replacement.None?
    requires forall t <- crashes :: !t.stop.Completed?
    ensures After(db, crashes + [Try(copy, Completed)]).workspaces.engine == ReplacingMergeTree
       <==> Swaps(crashes) % 2 == 0
  {
    EnginesAlternate(db, crashes);
    AfterOneMore(db, crashes, Try(copy, Completed));
  }

  /** Once the replacing engine is in place with no plain leftover, no later crash takes it away. */
  lemma {:induction false} ReplacingStays(db: Database, tries: seq<Try>)
    requires db.workspaces.engine == ReplacingMergeTree
    requires db.replacement.Some? ==> db.replacement.value.engine == ReplacingMergeTree
    ensures After(db, tries).workspaces.engine == ReplacingMergeTree
    decreases |tries|
  {
    if tries != [] {
      ReplacingStays(Attempt(db, tries[0].copy, tries[0].stop), tries[1..]);
    }
  }

  class SystemDatabase {
    var workspaces: Table
    var workspacesV11: Option<Table>

    ghost function View(): Database
      reads this
    {
      Database(workspaces, workspacesV11)
    }

    constructor (workspaces: Table)
      ensures View() == Database(workspaces, None)
    {
      this.workspaces, workspacesV11 := workspaces, None;
    }

    method CreateIfNotExists()
      modifies this`workspacesV11
      ensures View() == Created(old(View()))
    {
      if workspacesV11.None? {
        workspacesV11 := Some(Table(ReplacingMergeTree, []));
      }
    }

    method InsertIntoV11(rows: seq<Row>)
      requires workspacesV11.Some?
      modifies this`workspacesV11
      ensures workspacesV11 == Some(old(workspacesV11).value.(rows := old(workspacesV11).value.rows + rows))
    {
      workspacesV11 := Some(workspacesV11.value.(rows := workspacesV11.value.rows + rows));
    }

    method Truncate()
      modifies this`workspacesV11
      ensures workspacesV11 == if old(workspacesV11).Some? then Some(old(workspacesV11).value.(rows := [])) else None
    {
      if workspacesV11.Some? {
        workspacesV11 := Some(workspacesV11.value.(rows := []));
      }
    }

    /** `copy` is one answer of the SELECT, `stop` where the process dies. */
    method MigrateSystem(copy: seq<Row>, stop: Stop) returns (completed: bool)
      modifies this
      ensures View() == Attempt(old(View()), copy, stop)
      ensures completed == stop.Completed?
    {
      completed := false;
      if stop.BeforeCreate? { return; }
      CreateIfNotExists();
      if stop.AfterCreate? { return; }
      Truncate();
      if stop.AfterTruncate? { return; }
      if stop.MidInsert? {
        var part := copy[..if stop.copied < |copy| then stop.copied else |copy|];
        assert [] + part == part;
        InsertIntoV11(part);
        return;
      }
      assert [] + copy == copy;
      InsertIntoV11(copy);
      if stop.AfterInsert? { return; }
      var swapped := workspaces;
      workspaces := workspacesV11.value;
      workspacesV11 := Some(swapped);
      if stop.AfterExchange? { return; }
      workspacesV11 := None;
      completed := true;
    }
  }
}
