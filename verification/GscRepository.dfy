/**
 `GscRepository`: replacing a window of the Search Console table. The table is a ReplacingMergeTree
 stamped at insertion and read with `FINAL`: a read of a key returns the row inserted last.
 */
module GscRepository {
  import opened Events

  const BATCH: nat := 1000

  datatype DailyRow = DailyRow(
    propertyId: string, workspaceId: string, date: string, query: string, page: string, country: string, device: string,
    searchType: string, impressions: int, clicks: int, position: real, ctr: real)

  // Dates are ISO days, which compare as text.
  datatype Window = Window(propertyId: string, searchType: string, start: string, end: string)

  predicate NotAfter(a: string, b: string) {
    a == "" || (b != "" && (a[0] < b[0] || (a[0] == b[0] && NotAfter(a[1..], b[1..]))))
  }

  // The sorting key of the table.
  datatype DailyKey = DailyKey(
    propertyId: string, searchType: string, date: string, query: string, page: string, country: string, device: string)

  function KeyOf(row: DailyRow): DailyKey {
    DailyKey(row.propertyId, row.searchType, row.date, row.query, row.page, row.country, row.device)
  }

  predicate KeyInWindow(w: Window, k: DailyKey) {
    && k.propertyId == w.propertyId
    && k.searchType == w.searchType
    && NotAfter(w.start, k.date) && NotAfter(k.date, w.end)
  }

  predicate InWindow(w: Window, row: DailyRow) {
    KeyInWindow(w, KeyOf(row))
  }

  ghost predicate AllInWindow(w: Window, rows: seq<DailyRow>) {
    forall row <- rows :: InWindow(w, row)
  }

  function Outside(table: seq<DailyRow>, w: Window): seq<DailyRow> {
    if table == [] then []
    else if InWindow(w, table[0]) then Outside(table[1..], w)
    else [table[0]] + Outside(table[1..], w)
  }

  function Inside(table: seq<DailyRow>, w: Window): seq<DailyRow> {
    if table == [] then []
    else if InWindow(w, table[0]) then [table[0]] + Inside(table[1..], w)
    else Inside(table[1..], w)
  }

  /** The window emptied, then `rows` inserted. */
  function Replaced(table: seq<DailyRow>, w: Window, rows: seq<DailyRow>): seq<DailyRow> {
    Outside(table, w) + rows
  }

  lemma {:induction false} OutsideConcat(a: seq<DailyRow>, b: seq<DailyRow>, w: Window)
    ensures Outside(a + b, w) == Outside(a, w) + Outside(b, w)
  {
    if a == [] {
      assert a + b == b;
    } else {
      OutsideConcat(a[1..], b, w);
      assert (a + b)[1..] == a[1..] + b;
    }
  }

  lemma {:induction false} InsideConcat(a: seq<DailyRow>, b: seq<DailyRow>, w: Window)
    ensures Inside(a + b, w) == Inside(a, w) + Inside(b, w)
  {
    if a == [] {
      assert a + b == b;
    } else {
      InsideConcat(a[1..], b, w);
      assert (a + b)[1..] == a[1..] + b;
    }
  }

  lemma {:induction false} OutsideOfOutside(table: seq<DailyRow>, w: Window)
    ensures Outside(Outside(table, w), w) == Outside(table, w)
    ensures Inside(Outside(table, w), w) == []
  {
    if table != [] {
      OutsideOfOutside(table[1..], w);
    }
  }

  lemma {:induction false} OutsideIsEmptyExactly(rows: seq<DailyRow>, w: Window)
    ensures Outside(rows, w) == [] <==> AllInWindow(w, rows)
    ensures AllInWindow(w, rows) ==> Inside(rows, w) == rows
  {
    if rows != [] {
      OutsideIsEmptyExactly(rows[1..], w);
      assert rows == [rows[0]] + rows[1..];
    }
  }

  /** The window holds exactly the given rows, and the rest of the table is left alone. */
  lemma ReplacedWindow(table: seq<DailyRow>, w: Window, rows: seq<DailyRow>)
    requires AllInWindow(w, rows)
    ensures Inside(Replaced(table, w, rows), w) == rows
    ensures Outside(Replaced(table, w, rows), w) == Outside(table, w)
  {
    OutsideConcat(Outside(table, w), rows, w);
    InsideConcat(Outside(table, w), rows, w);
    OutsideOfOutside(table, w);
    OutsideIsEmptyExactly(rows, w);
  }

  lemma {:induction false} OutsideKeeps(table: seq<DailyRow>, w: Window, row: DailyRow)
    ensures multiset(Outside(table, w))[row] == if InWindow(w, row) then 0 else multiset(table)[row]
  {
    if table != [] {
      OutsideKeeps(table[1..], w, row);
      assert table == [table[0]] + table[1..];
    }
  }

  /** Row by row: another property, another search type or a day out of range stays, the days of the range go. */
  lemma ReplacedRows(table: seq<DailyRow>, w: Window, rows: seq<DailyRow>, row: DailyRow)
    requires AllInWindow(w, rows)
    ensures row.propertyId != w.propertyId || row.searchType != w.searchType
            || !NotAfter(w.start, row.date) || !NotAfter(row.date, w.end) ==>
              multiset(Replaced(table, w, rows))[row] == multiset(table)[row]
    ensures row.propertyId == w.propertyId && row.searchType == w.searchType
            && NotAfter(w.start, row.date) && NotAfter(row.date, w.end) ==>
              multiset(Replaced(table, w, rows))[row] == multiset(rows)[row]
  {
    OutsideKeeps(table, w, row);
    if row in rows {
      assert InWindow(w, row);
    }
  }

  // ----- Reads -----

  function Final(table: seq<DailyRow>, k: DailyKey): Option<DailyRow> {
    if table == [] then None
    else
      var last := table[|table| - 1];
      if KeyOf(last) == k then Some(last) else Final(table[..|table| - 1], k)
  }

  ghost predicate SameReads(a: seq<DailyRow>, b: seq<DailyRow>) {
    forall k :: Final(a, k) == Final(b, k)
  }

  lemma {:induction false} FinalConcat(a: seq<DailyRow>, b: seq<DailyRow>, k: DailyKey)
    ensures Final(a + b, k) == if Final(b, k).Some? then Final(b, k) else Final(a, k)
  {
    if b == [] {
      assert a + b == a;
    } else {
      FinalConcat(a, b[..|b| - 1], k);
      assert (a + b)[..|a + b| - 1] == a + b[..|b| - 1];
    }
  }

  lemma {:induction false} FinalIsARow(rows: seq<DailyRow>, k: DailyKey)
    ensures Final(rows, k).Some? <==> exists row <- rows :: KeyOf(row) == k
    ensures Final(rows, k).Some? ==> Final(rows, k).value in rows && KeyOf(Final(rows, k).value) == k
  {
    if rows != [] {
      FinalIsARow(rows[..|rows| - 1], k);
      assert rows == rows[..|rows| - 1] + [rows[|rows| - 1]];
    }
  }

  lemma FinalOfOne(row: DailyRow, k: DailyKey)
    ensures Final([row], k) == if KeyOf(row) == k then Some(row) else None
  {
    assert [row][..0] == [];
  }

  lemma {:induction false} FinalOutside(table: seq<DailyRow>, w: Window, k: DailyKey)
    ensures Final(Outside(table, w), k) == if KeyInWindow(w, k) then None else Final(table, k)
  {
    if table != [] {
      var row, rest := table[0], table[1..];
      FinalOutside(rest, w, k);
      FinalConcat([row], rest, k);
      FinalConcat([row], Outside(rest, w), k);
      FinalOfOne(row, k);
      assert table == [row] + rest;
    }
  }

  /** The replacement settles what a read of `k` returns: it stores the key, or empties its day. */
  predicate Decides(w: Window, rows: seq<DailyRow>, k: DailyKey) {
    Final(rows, k).Some? || KeyInWindow(w, k)
  }

  /** After a replacement a read returns the stored row, nothing for an emptied day, or what it returned before. */
  lemma ReplacedReads(table: seq<DailyRow>, w: Window, rows: seq<DailyRow>, k: DailyKey)
    ensures Final(Replaced(table, w, rows), k) == if Decides(w, rows, k) then Final(rows, k) else Final(table, k)
  {
    FinalConcat(Outside(table, w), rows, k);
    FinalOutside(table, w, k);
  }

  /** A read returns the last row that agrees with the key in its seven columns. */
  lemma {:induction false} ReadByColumns(table: seq<DailyRow>, k: DailyKey)
    ensures Final(table, k).None? ==> forall row <- table :: !HasKey(row, k)
    ensures Final(table, k).Some? ==> exists i ::
              && 0 <= i < |table| && table[i] == Final(table, k).value && HasKey(table[i], k)
              && forall j | i < j < |table| :: !HasKey(table[j], k)
  {
    if table != [] {
      var n := |table| - 1;
      ReadByColumns(table[..n], k);
      assert table == table[..n] + [table[n]];
      if KeyOf(table[n]) == k {
        assert HasKey(table[n], k);
      }
    }
  }

  predicate HasKey(row: DailyRow, k: DailyKey) {
    && row.propertyId == k.propertyId && row.searchType == k.searchType && row.date == k.date && row.query == k.query
    && row.page == k.page && row.country == k.country && row.device == k.device
  }

  /** The sync hands over rows of the property and search type whose window it replaces. */
  ghost predicate OwnRows(w: Window, rows: seq<DailyRow>) {
    forall row <- rows :: row.propertyId == w.propertyId && row.searchType == w.searchType
  }

  /**
   What a replacement does to the read of one key: another property, another search type and a day
   that is neither in the range nor sent are left alone; a day in the range reads as what was sent.
   */
  lemma ReplacementByColumns(table: seq<DailyRow>, w: Window, rows: seq<DailyRow>, k: DailyKey)
    requires OwnRows(w, rows)
    ensures k.propertyId != w.propertyId ==> Final(Replaced(table, w, rows), k) == Final(table, k)
    ensures k.searchType != w.searchType ==> Final(Replaced(table, w, rows), k) == Final(table, k)
    ensures !NotAfter(w.start, k.date) && (forall row <- rows :: row.date != k.date) ==>
              Final(Replaced(table, w, rows), k) == Final(table, k)
    ensures !NotAfter(k.date, w.end) && (forall row <- rows :: row.date != k.date) ==>
              Final(Replaced(table, w, rows), k) == Final(table, k)
    ensures k.propertyId == w.propertyId && k.searchType == w.searchType
            && NotAfter(w.start, k.date) && NotAfter(k.date, w.end) ==>
              Final(Replaced(table, w, rows), k) == Final(rows, k)
  {
    ReplacedReads(table, w, rows, k);
    FinalIsARow(rows, k);
  }

  /** Dates are compared as a total order: one of two days is the earlier one, or they are the same. */
  lemma {:induction false} DatesAreOrdered(a: string, b: string)
    ensures NotAfter(a, b) || NotAfter(b, a)
    ensures NotAfter(a, b) && NotAfter(b, a) <==> a == b
  {
    if a != "" && b != "" {
      DatesAreOrdered(a[1..], b[1..]);
      assert a == [a[0]] + a[1..] && b == [b[0]] + b[1..];
    }
  }

  /** Repeating a replacement changes no read, whatever its rows. */
  lemma RepeatingChangesNoRead(table: seq<DailyRow>, w: Window, rows: seq<DailyRow>)
    ensures SameReads(Replaced(Replaced(table, w, rows), w, rows), Replaced(table, w, rows))
  {
    forall k ensures Final(Replaced(Replaced(table, w, rows), w, rows), k) == Final(Replaced(table, w, rows), k) {
      ReplacedReads(table, w, rows, k);
      ReplacedReads(Replaced(table, w, rows), w, rows, k);
    }
  }

  /**
   A replacement hides an earlier one, of the same or another window, exactly when the earlier one
   changed no read that the later one does not decide.
   */
  lemma ReplacementHidesExactly(table: seq<DailyRow>, v: Window, first: seq<DailyRow>, w: Window, second: seq<DailyRow>)
    ensures SameReads(Replaced(Replaced(table, v, first), w, second), Replaced(table, w, second))
       <==> forall k | Decides(v, first, k) && !Decides(w, second, k) :: Final(first, k) == Final(table, k)
  {
    forall k
      ensures Final(Replaced(Replaced(table, v, first), w, second), k) == Final(Replaced(table, w, second), k)
         <==> (Decides(v, first, k) && !Decides(w, second, k) ==> Final(first, k) == Final(table, k))
    {
      ReplacedReads(table, v, first, k);
      ReplacedReads(table, w, second, k);
      ReplacedReads(Replaced(table, v, first), w, second, k);
    }
  }

  /** Over one window: an earlier row outside it shows unless it was there before or a later row has its key. */
  lemma SameWindowHidesExactly(table: seq<DailyRow>, w: Window, first: seq<DailyRow>, second: seq<DailyRow>)
    ensures SameReads(Replaced(Replaced(table, w, first), w, second), Replaced(table, w, second))
       <==> forall row <- first | !InWindow(w, row) && Final(second, KeyOf(row)).None? ::
              Final(first, KeyOf(row)) == Final(table, KeyOf(row))
  {
    ReplacementHidesExactly(table, w, first, w, second);
    forall k | Decides(w, first, k) && !Decides(w, second, k) ensures exists row <- first :: KeyOf(row) == k {
      FinalIsARow(first, k);
    }
    forall row | row in first ensures Decides(w, first, KeyOf(row)) {
      FinalIsARow(first, KeyOf(row));
    }
  }

  lemma {:induction false} NotAfterTransitive(a: string, b: string, c: string)
    requires NotAfter(a, b) && NotAfter(b, c)
    ensures NotAfter(a, c)
  {
    if a != "" && b != "" && c != "" && a[0] == b[0] == c[0] {
      NotAfterTransitive(a[1..], b[1..], c[1..]);
    }
  }

  predicate Covers(w: Window, v: Window) {
    w.propertyId == v.propertyId && w.searchType == v.searchType && NotAfter(w.start, v.start) && NotAfter(v.end, w.end)
  }

  lemma CoveredIsDecided(v: Window, first: seq<DailyRow>, w: Window, second: seq<DailyRow>, k: DailyKey)
    requires Covers(w, v) && AllInWindow(v, first) && Decides(v, first, k)
    ensures Decides(w, second, k)
  {
    FinalIsARow(first, k);
    NotAfterTransitive(w.start, v.start, k.date);
    NotAfterTransitive(k.date, v.end, w.end);
  }

  // ----- A history of replacements -----

  datatype Change = Change(window: Window, rows: seq<DailyRow>, touched: bool)

  predicate Reaches(c: Change, k: DailyKey) {
    c.touched && Decides(c.window, c.rows, k)
  }

  function Replay(table: seq<DailyRow>, changes: seq<Change>): seq<DailyRow> {
    if changes == [] then table
    else
      var before, last := Replay(table, changes[..|changes| - 1]), changes[|changes| - 1];
      if last.touched then Replaced(before, last.window, last.rows) else before
  }

  /** However windows move, a read returns what the last replacement that reached the key has stored. */
  lemma {:induction false} LastChangeDecides(table: seq<DailyRow>, changes: seq<Change>, i: nat, k: DailyKey)
    requires i < |changes| && Reaches(changes[i], k)
    requires forall j | i < j < |changes| :: !Reaches(changes[j], k)
    ensures Final(Replay(table, changes), k) == Final(changes[i].rows, k)
  {
    var n := |changes| - 1;
    ReplacedReads(Replay(table, changes[..n]), changes[n].window, changes[n].rows, k);
    if i < n {
      assert !Reaches(changes[n], k);
      LastChangeDecides(table, changes[..n], i, k);
    }
  }

  lemma {:induction false} UnreachedIsKept(table: seq<DailyRow>, changes: seq<Change>, k: DailyKey)
    requires forall c <- changes :: !Reaches(c, k)
    ensures Final(Replay(table, changes), k) == Final(table, k)
  {
    if changes != [] {
      var n := |changes| - 1;
      assert !Reaches(changes[n], k);
      UnreachedIsKept(table, changes[..n], k);
      ReplacedReads(Replay(table, changes[..n]), changes[n].window, changes[n].rows, k);
    }
  }

  class GscRepository {
    var daily: seq<DailyRow>

    /** `deletes`: the delete succeeds; `inserts(k)`: the insert of chunk `k` succeeds. */
    method ReplaceDailyWindow(w: Window, rows: seq<DailyRow>, deletes: bool, inserts: nat -> bool)
      returns (inserted: nat, threw: bool)
      modifies this
      ensures inserted <= |rows|
      ensures daily == if deletes then Replaced(old(daily), w, rows[..inserted]) else old(daily)
      ensures !threw ==> deletes && inserted == |rows|
      ensures threw ==> !deletes || (inserted < |rows| && inserted % 1000 == 0 && !inserts(inserted / 1000))
      ensures deletes && (forall k :: inserts(k)) ==> !threw
      ensures OwnRows(w, rows) ==>
                forall k: DailyKey | k.propertyId != w.propertyId || k.searchType != w.searchType ::
                  Final(daily, k) == Final(old(daily), k)
    {
      forall k: DailyKey, n: nat |
        n <= |rows| && OwnRows(w, rows) && (k.propertyId != w.propertyId || k.searchType != w.searchType)
        ensures Final(Replaced(daily, w, rows[..n]), k) == Final(daily, k)
      {
        ReplacementByColumns(daily, w, rows[..n], k);
      }
      inserted, threw := 0, !deletes;
      if threw {
        return;
      }
      daily := Outside(daily, w);
      if |rows| == 0 {
        return;
      }
      var i := 0;
      while i < |rows|
        invariant i % BATCH == 0 && inserted == if i < |rows| then i else |rows|
        invariant daily == Replaced(old(daily), w, rows[..inserted])
      {
        var chunk := if i + BATCH < |rows| then rows[i..i + BATCH] else rows[i..];
        if !inserts(i / BATCH) {
          threw := true;
          return;
        }
        assert rows[..i] + chunk == rows[..i + |chunk|];
        daily := daily + chunk;
        inserted := inserted + |chunk|;
        i := i + BATCH;
      }
    }
  }
}
