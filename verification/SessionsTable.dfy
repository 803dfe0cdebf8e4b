/**
 The `sessions` table. Its materialized view makes one row per session and inserted block, and its key
 is (created_at, id) with the corrected creation time. Here each payload is inserted as its own block.
 */
module SessionsTable {
  import opened Events
  import opened Tokens
  import opened EventsTable
  import opened Ingestion
  import opened GoalsTable

  datatype SessionRowKey = SessionRowKey(createdAt: int, id: string)

  /** What the view inserts for one block: a payload's rows agree on the session and its creation time. */
  ghost function SessionKeys(rows: seq<TrackingEvent>): set<SessionRowKey> {
    set r | r in rows :: SessionRowKey(r.createdAt, r.sessionId)
  }

  ghost function Union(blocks: seq<set<SessionRowKey>>): set<SessionRowKey> {
    if blocks == [] then {} else Union(blocks[..|blocks| - 1]) + blocks[|blocks| - 1]
  }

  /** The rows that a deduplicated read of `sessions` returns. */
  ghost function Shown(ds: seq<Delivery>): set<SessionRowKey> {
    Union(seq(|ds|, i requires 0 <= i < |ds| => SessionKeys(ds[i].rows)))
  }

  ghost function AllCorrections(receipts: seq<Receipt>): set<int> {
    set r | r in receipts :: Correction(r)
  }

  /** Payloads of one session, none empty, all with the creation time that the SDK keeps for it. */
  ghost predicate SameSession(receipts: seq<Receipt>, sessionId: string, createdAt: int) {
    && OneSession(receipts, sessionId)
    && forall r <- receipts :: r.payload.actions != [] && r.payload.createdAt == createdAt
  }

  ghost function CorrectedKeys(skews: set<int>, sessionId: string, createdAt: int): set<SessionRowKey> {
    set skew | skew in skews :: SessionRowKey(createdAt + skew, sessionId)
  }

  function Members(skews: seq<int>): set<int> {
    set s | s in skews
  }

  lemma {:induction false} OneKey(rows: seq<TrackingEvent>, key: SessionRowKey)
    requires rows != [] && forall i | 0 <= i < |rows| :: SessionRowKey(rows[i].createdAt, rows[i].sessionId) == key
    ensures SessionKeys(rows) == {key}
  {
    assert rows[0] in rows;
  }

  lemma {:induction false} RowStamp(r: Receipt, filters: Filters, i: nat)
    requires Known(r.payload) && i < |r.payload.actions|
    ensures var row := RowsFor(r.payload, r.at, filters)[i];
            row.createdAt == r.payload.createdAt + Correction(r) && row.sessionId == r.payload.sessionId
  {
    assert r.payload.actions[i] in r.payload.actions;
  }

  lemma {:induction false} BlockIsOneRow(r: Receipt, filters: Filters)
    requires Known(r.payload) && r.payload.actions != []
    ensures SessionKeys(RowsFor(r.payload, r.at, filters))
         == {SessionRowKey(r.payload.createdAt + Correction(r), r.payload.sessionId)}
  {
    var rows := RowsFor(r.payload, r.at, filters);
    forall i | 0 <= i < |rows|
      ensures rows[i].createdAt == r.payload.createdAt + Correction(r) && rows[i].sessionId == r.payload.sessionId
    {
      RowStamp(r, filters, i);
    }
    OneKey(rows, SessionRowKey(r.payload.createdAt + Correction(r), r.payload.sessionId));
  }

  /** One row per block, under the key of its correction. */
  lemma {:induction false} UnionIs(blocks: seq<set<SessionRowKey>>, skews: seq<int>, sessionId: string, createdAt: int)
    requires |blocks| == |skews|
    requires forall i | 0 <= i < |blocks| :: blocks[i] == {SessionRowKey(createdAt + skews[i], sessionId)}
    ensures Union(blocks) == CorrectedKeys(Members(skews), sessionId, createdAt)
  {
    if blocks != [] {
      var n := |blocks| - 1;
      UnionIs(blocks[..n], skews[..n], sessionId, createdAt);
      OneMoreSkew(skews[..n], skews[n], sessionId, createdAt);
      assert skews == skews[..n] + [skews[n]];
    }
  }

  lemma {:induction false} OneMoreSkew(front: seq<int>, last: int, sessionId: string, createdAt: int)
    ensures CorrectedKeys(Members(front + [last]), sessionId, createdAt)
         == CorrectedKeys(Members(front), sessionId, createdAt) + {SessionRowKey(createdAt + last, sessionId)}
  {
    assert Members(front + [last]) == Members(front) + {last};
  }

  lemma {:induction false} CorrectedSize(skews: set<int>, sessionId: string, createdAt: int)
    ensures |CorrectedKeys(skews, sessionId, createdAt)| == |skews|
  {
    var keyOf := (skew: int) => SessionRowKey(createdAt + skew, sessionId);
    forall a, b | keyOf(a) == keyOf(b) ensures a == b {
      assert keyOf(a).createdAt == createdAt + a && keyOf(b).createdAt == createdAt + b;
    }
    ImageSize(skews, keyOf);
    assert CorrectedKeys(skews, sessionId, createdAt) == set skew | skew in skews :: keyOf(skew);
  }

  /** A session shows as exactly as many rows as its payloads were given different corrections. */
  lemma {:induction false} SessionShowsOncePerCorrection(receipts: seq<Receipt>, filters: Filters, sessionId: string,
                                                         createdAt: int)
    requires SameSession(receipts, sessionId, createdAt)
    ensures |Shown(Deliveries(receipts, filters))| == |AllCorrections(receipts)|
  {
    var n, ds := |receipts|, Deliveries(receipts, filters);
    var skews := seq(n, i requires 0 <= i < n => Correction(receipts[i]));
    var blocks := seq(n, i requires 0 <= i < n => SessionKeys(ds[i].rows));
    forall i | 0 <= i < n ensures blocks[i] == {SessionRowKey(createdAt + skews[i], sessionId)} {
      assert receipts[i] in receipts;
      BlockIsOneRow(receipts[i], filters);
    }
    assert Shown(ds) == Union(blocks);
    UnionIs(blocks, skews, sessionId, createdAt);
    SkewsAre(receipts, skews);
    CorrectedSize(AllCorrections(receipts), sessionId, createdAt);
  }

  lemma {:induction false} SkewsAre(receipts: seq<Receipt>, skews: seq<int>)
    requires |skews| == |receipts| && forall i | 0 <= i < |receipts| :: skews[i] == Correction(receipts[i])
    ensures AllCorrections(receipts) == Members(skews)
  {
    forall i | 0 <= i < |skews| ensures skews[i] in AllCorrections(receipts) {
      assert receipts[i] in receipts;
    }
    forall r | r in receipts ensures Correction(r) in skews {
      var i :| 0 <= i < |receipts| && receipts[i] == r;
      assert skews[i] == Correction(r);
    }
  }

  /** A session that was received shows once exactly when all its payloads were given the same correction. */
  lemma {:induction false} SessionShowsOnceExactly(receipts: seq<Receipt>, filters: Filters, sessionId: string,
                                                   createdAt: int)
    requires SameSession(receipts, sessionId, createdAt) && receipts != []
    ensures |Shown(Deliveries(receipts, filters))| == 1
       <==> forall r <- receipts :: Correction(r) == Correction(receipts[0])
  {
    SessionShowsOncePerCorrection(receipts, filters, sessionId, createdAt);
    assert receipts[0] in receipts && forall r <- receipts :: Correction(r) in AllCorrections(receipts);
    OneElementExactly(AllCorrections(receipts), Correction(receipts[0]));
  }
}
