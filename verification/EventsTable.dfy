/**
 The `events` table: every insert only adds rows, and a `FINAL` read keeps, for each
 (session_id, dedup_token), the row with the highest `_version`, the last inserted on a tie.
 */
module EventsTable {
  import opened Events

  datatype RowKey = RowKey(sessionId: string, dedupToken: string)

  function KeyOfRow(r: TrackingEvent): RowKey {
    RowKey(r.sessionId, r.dedupToken)
  }

  function Later(a: Option<TrackingEvent>, b: Option<TrackingEvent>): Option<TrackingEvent> {
    if b.None? then a
    else if a.None? || b.value.version >= a.value.version then b
    else a
  }

  /** The row a `FINAL` read returns for `k`. */
  function Final(rows: seq<TrackingEvent>, k: RowKey): Option<TrackingEvent> {
    if rows == [] then None
    else
      var last := rows[|rows| - 1];
      Later(Final(rows[..|rows| - 1], k), if KeyOfRow(last) == k then Some(last) else None)
  }

  /** One payload's rows: they all carry the version stamped when it arrived. */
  datatype Delivery = Delivery(version: int, rows: seq<TrackingEvent>)
  {
    ghost predicate Stamped() {
      forall r <- rows :: r.version == version
    }
  }

  function Rows(deliveries: seq<Delivery>): seq<TrackingEvent> {
    if deliveries == [] then []
    else Rows(deliveries[..|deliveries| - 1]) + deliveries[|deliveries| - 1].rows
  }

  ghost predicate Has(d: Delivery, k: RowKey) {
    Final(d.rows, k).Some?
  }

  // ----- How reads combine -----

  lemma {:induction false} FinalConcat(a: seq<TrackingEvent>, b: seq<TrackingEvent>, k: RowKey)
    ensures Final(a + b, k) == Later(Final(a, k), Final(b, k))
  {
    if b == [] {
      assert a + b == a;
    } else {
      FinalConcat(a, b[..|b| - 1], k);
      assert (a + b)[..|a + b| - 1] == a + b[..|b| - 1];
    }
  }

  lemma {:induction false} FinalIsARow(rows: seq<TrackingEvent>, k: RowKey)
    ensures Final(rows, k).Some? <==> exists r <- rows :: KeyOfRow(r) == k
    ensures Final(rows, k).Some? ==> Final(rows, k).value in rows && KeyOfRow(Final(rows, k).value) == k
  {
    if rows != [] {
      FinalIsARow(rows[..|rows| - 1], k);
      assert rows == rows[..|rows| - 1] + [rows[|rows| - 1]];
    }
  }

  /** Of the rows with the key, a read returns one of the highest version, and of these the last inserted. */
  lemma {:induction false} FinalIsLastOfHighest(rows: seq<TrackingEvent>, k: RowKey)
    requires Final(rows, k).Some?
    ensures exists i :: LastOfHighest(rows, k, i) && Final(rows, k) == Some(rows[i])
  {
    var n := |rows| - 1;
    var front := Final(rows[..n], k);
    if front.Some? {
      FinalIsLastOfHighest(rows[..n], k);
      var i :| LastOfHighest(rows[..n], k, i) && front == Some(rows[..n][i]);
      assert LastOfHighest(rows, k, if HasKey(rows[n], k) && rows[n].version >= rows[i].version then n else i);
    } else {
      FinalIsARow(rows[..n], k);
      assert forall j | 0 <= j < n :: rows[j] in rows[..n];
      assert LastOfHighest(rows, k, n);
    }
  }

  predicate HasKey(r: TrackingEvent, k: RowKey) {
    r.sessionId == k.sessionId && r.dedupToken == k.dedupToken
  }

  ghost predicate LastOfHighest(rows: seq<TrackingEvent>, k: RowKey, i: int) {
    && 0 <= i < |rows| && HasKey(rows[i], k)
    && (forall j | 0 <= j < |rows| && HasKey(rows[j], k) :: rows[j].version <= rows[i].version)
    && (forall j | i < j < |rows| && HasKey(rows[j], k) :: rows[j].version < rows[i].version)
  }

  lemma VersionOfFinal(d: Delivery, k: RowKey)
    requires d.Stamped() && Has(d, k)
    ensures Final(d.rows, k).value.version == d.version
  {
    FinalIsARow(d.rows, k);
  }

  /** A read never depends on order: it is the answer of some delivery with the highest version. */
  lemma {:induction false} FinalFromDeliveries(ds: seq<Delivery>, k: RowKey)
    requires forall d <- ds :: d.Stamped()
    ensures Final(Rows(ds), k).None? <==> forall d <- ds :: !Has(d, k)
    ensures Final(Rows(ds), k).Some? ==> exists d <- ds :: Has(d, k) && Final(d.rows, k) == Final(Rows(ds), k)
    ensures Final(Rows(ds), k).Some? ==> forall d <- ds | Has(d, k) :: d.version <= Final(Rows(ds), k).value.version
  {
    if ds != [] {
      var front, last := ds[..|ds| - 1], ds[|ds| - 1];
      assert ds == front + [last];
      FinalFromDeliveries(front, k);
      FinalConcat(Rows(front), last.rows, k);
      if Has(last, k) {
        VersionOfFinal(last, k);
      }
    }
  }

  // ----- Convergence -----

  ghost predicate VersionsIdentify(ds: seq<Delivery>) {
    forall d, e | d in ds && e in ds && d.version == e.version :: d == e
  }

  /** Any order, any repetition: the same deliveries give the same table. */
  lemma TableConverges(ds: seq<Delivery>, es: seq<Delivery>, k: RowKey)
    requires forall d <- ds :: d.Stamped()
    requires VersionsIdentify(ds)
    requires forall d :: d in ds <==> d in es
    ensures Final(Rows(ds), k) == Final(Rows(es), k)
  {
    FinalFromDeliveries(ds, k);
    FinalFromDeliveries(es, k);
    if Final(Rows(ds), k).Some? {
      var d :| d in ds && Has(d, k) && Final(d.rows, k) == Final(Rows(ds), k);
      var e :| e in es && Has(e, k) && Final(e.rows, k) == Final(Rows(es), k);
      VersionOfFinal(d, k);
      VersionOfFinal(e, k);
    }
  }

  lemma CommuteOn(d: Delivery, e: Delivery, k: RowKey)
    requires d.Stamped() && e.Stamped()
    ensures Final(d.rows + e.rows, k) == Final(e.rows + d.rows, k) <==> d.version != e.version || AgreeOn(d, e, k)
  {
    FinalConcat(d.rows, e.rows, k);
    FinalConcat(e.rows, d.rows, k);
    if Has(d, k) && Has(e, k) {
      VersionOfFinal(d, k);
      VersionOfFinal(e, k);
    }
  }

  ghost predicate AgreeOn(d: Delivery, e: Delivery, k: RowKey) {
    Has(d, k) && Has(e, k) ==> Final(d.rows, k) == Final(e.rows, k)
  }

  /** Two payloads stamped in the same millisecond commute only where they agree. */
  lemma DeliveriesCommuteExactly(d: Delivery, e: Delivery)
    requires d.Stamped() && e.Stamped()
    ensures (forall k :: Final(d.rows + e.rows, k) == Final(e.rows + d.rows, k))
       <==> (d.version != e.version || forall k :: AgreeOn(d, e, k))
  {
    if d.version != e.version || forall k :: AgreeOn(d, e, k) {
      forall k ensures Final(d.rows + e.rows, k) == Final(e.rows + d.rows, k) {
        CommuteOn(d, e, k);
      }
    } else {
      var k :| !AgreeOn(d, e, k);
      CommuteOn(d, e, k);
    }
  }

  /** No key that was ever delivered is lost, whatever arrives later. */
  lemma KeysOnlyGrow(ds: seq<Delivery>, more: seq<Delivery>, k: RowKey)
    ensures Final(Rows(ds), k).Some? ==> Final(Rows(ds + more), k).Some?
  {
    RowsConcat(ds, more);
    FinalConcat(Rows(ds), Rows(more), k);
  }

  lemma {:induction false} RowsConcat(ds: seq<Delivery>, more: seq<Delivery>)
    ensures Rows(ds + more) == Rows(ds) + Rows(more)
  {
    if more == [] {
      assert ds + more == ds;
    } else {
      RowsConcat(ds, more[..|more| - 1]);
      assert (ds + more)[..|ds + more| - 1] == ds + more[..|more| - 1];
    }
  }

  /** A delivery that is newest and covers a session's keys is all that a read of the session shows. */
  lemma NewestCoveringWins(ds: seq<Delivery>, newest: Delivery, k: RowKey)
    requires newest in ds && forall d <- ds :: d.Stamped()
    requires forall d <- ds :: d == newest || d.version < newest.version
    requires forall d <- ds | Has(d, k) :: Has(newest, k)
    ensures Final(Rows(ds), k) == Final(newest.rows, k)
  {
    FinalFromDeliveries(ds, k);
    if Has(newest, k) {
      VersionOfFinal(newest, k);
      var d :| d in ds && Has(d, k) && Final(d.rows, k) == Final(Rows(ds), k);
      VersionOfFinal(d, k);
    }
  }

  /** A delivery that has a key is what a read of the key shows exactly when no newer delivery has it. */
  lemma ShownExactly(ds: seq<Delivery>, shown: Delivery, k: RowKey)
    requires shown in ds && Has(shown, k) && forall d <- ds :: d.Stamped()
    requires forall d <- ds :: d == shown || d.version != shown.version
    ensures Final(Rows(ds), k) == Final(shown.rows, k) <==> forall d <- ds | Has(d, k) :: d.version <= shown.version
  {
    FinalFromDeliveries(ds, k);
    VersionOfFinal(shown, k);
    var d :| d in ds && Has(d, k) && Final(d.rows, k) == Final(Rows(ds), k);
    VersionOfFinal(d, k);
  }

  // ----- One row per action -----

  function KeySet(rows: seq<TrackingEvent>): set<RowKey> {
    set r | r in rows :: KeyOfRow(r)
  }

  ghost predicate DistinctKeys(rows: seq<TrackingEvent>) {
    forall i, j | 0 <= i < j < |rows| :: KeyOfRow(rows[i]) != KeyOfRow(rows[j])
  }

  lemma KeySetAppend(front: seq<TrackingEvent>, last: TrackingEvent)
    ensures KeySet(front + [last]) == KeySet(front) + {KeyOfRow(last)}
    ensures DistinctKeys(front + [last]) <==> DistinctKeys(front) && KeyOfRow(last) !in KeySet(front)
  {
    var rows := front + [last];
    assert forall i | 0 <= i < |front| :: rows[i] == front[i] && KeyOfRow(front[i]) in KeySet(front);
    if DistinctKeys(rows) {
      forall i | 0 <= i < |front| ensures KeyOfRow(front[i]) != KeyOfRow(last) {
        assert KeyOfRow(rows[i]) != KeyOfRow(rows[|front|]);
      }
      forall i, j | 0 <= i < j < |front| ensures KeyOfRow(front[i]) != KeyOfRow(front[j]) {
        assert KeyOfRow(rows[i]) != KeyOfRow(rows[j]);
      }
    }
  }

  /** A `FINAL` read of these rows returns as many rows as there are rows exactly when no key repeats. */
  lemma {:induction false} CountKeys(rows: seq<TrackingEvent>)
    ensures |KeySet(rows)| <= |rows|
    ensures |KeySet(rows)| == |rows| <==> DistinctKeys(rows)
  {
    if rows != [] {
      var front, last := rows[..|rows| - 1], rows[|rows| - 1];
      CountKeys(front);
      assert rows == front + [last];
      KeySetAppend(front, last);
      assert KeyOfRow(last) in KeySet(front) ==> KeySet(rows) == KeySet(front);
    }
  }
}
