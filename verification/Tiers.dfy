/** Heartbeat tiers: their normalisation, and the tier that applies at a given active time. */
module Tiers {
  import opened Events

  const MIN_HEARTBEAT_INTERVAL: int := 5000

  // A missing interval stops the heartbeat.
  datatype Tier = Tier(after: int, desktopInterval: Option<int>, mobileInterval: Option<int>)

  const DEFAULT_HEARTBEAT_TIERS: seq<Tier> := [
    Tier(0, Some(10000), Some(7000)),
    Tier(180000, Some(20000), Some(14000)),
    Tier(300000, Some(30000), Some(21000))]

  const FIRST_TIER := Tier(0, Some(10000), Some(7000))

  function Insert(t: Tier, sorted: seq<Tier>): seq<Tier> {
    if sorted == [] then [t]
    else if t.after < sorted[|sorted| - 1].after then Insert(t, sorted[..|sorted| - 1]) + [sorted[|sorted| - 1]]
    else sorted + [t]
  }

  /** Stable sort by threshold. */
  function SortByAfter(tiers: seq<Tier>): seq<Tier> {
    if tiers == [] then [] else Insert(tiers[|tiers| - 1], SortByAfter(tiers[..|tiers| - 1]))
  }

  function AtLeast(interval: Option<int>): Option<int> {
    if interval.None? then None
    else if interval.value < MIN_HEARTBEAT_INTERVAL then Some(MIN_HEARTBEAT_INTERVAL) else interval
  }

  function Clamp(t: Tier): Tier {
    t.(desktopInterval := AtLeast(t.desktopInterval), mobileInterval := AtLeast(t.mobileInterval))
  }

  function WithFirst(sorted: seq<Tier>): seq<Tier>
    requires sorted != []
  {
    if sorted[0].after != 0 then [FIRST_TIER] + sorted else sorted
  }

  function ValidateTiers(tiers: seq<Tier>): seq<Tier> {
    if tiers == [] then DEFAULT_HEARTBEAT_TIERS
    else
      SortPermutes(tiers);
      var sorted := WithFirst(SortByAfter(tiers));
      seq(|sorted|, i requires 0 <= i < |sorted| => Clamp(sorted[i]))
  }

  ghost predicate Sorted(tiers: seq<Tier>) {
    forall i, j | 0 <= i < j < |tiers| :: tiers[i].after <= tiers[j].after
  }

  predicate IntervalOk(interval: Option<int>) {
    interval.None? || interval.value >= MIN_HEARTBEAT_INTERVAL
  }

  /** What the heartbeat relies on: a first tier at zero and no interval below the minimum. */
  ghost predicate Usable(tiers: seq<Tier>) {
    && tiers != [] && tiers[0].after == 0
    && forall t <- tiers :: IntervalOk(t.desktopInterval) && IntervalOk(t.mobileInterval)
  }

  lemma {:induction false} InsertPermutes(t: Tier, sorted: seq<Tier>)
    ensures multiset(Insert(t, sorted)) == multiset(sorted) + multiset{t}
    ensures |Insert(t, sorted)| == |sorted| + 1
  {
    if sorted != [] && t.after < sorted[|sorted| - 1].after {
      InsertPermutes(t, sorted[..|sorted| - 1]);
      assert sorted == sorted[..|sorted| - 1] + [sorted[|sorted| - 1]];
    }
  }

  lemma {:induction false} SortPermutes(tiers: seq<Tier>)
    ensures multiset(SortByAfter(tiers)) == multiset(tiers)
    ensures |SortByAfter(tiers)| == |tiers|
  {
    if tiers != [] {
      var front, last := tiers[..|tiers| - 1], tiers[|tiers| - 1];
      SortPermutes(front);
      InsertPermutes(last, SortByAfter(front));
      assert tiers == front + [last];
    }
  }

  lemma {:induction false} InsertSorts(t: Tier, sorted: seq<Tier>)
    requires Sorted(sorted)
    ensures Sorted(Insert(t, sorted))
  {
    if sorted != [] && t.after < sorted[|sorted| - 1].after {
      var front, last := sorted[..|sorted| - 1], sorted[|sorted| - 1];
      InsertSorts(t, front);
      InsertPermutes(t, front);
      forall x | x in Insert(t, front) ensures x.after <= last.after {
        assert x in multiset(Insert(t, front));
        assert x == t || x in front;
      }
    }
  }

  lemma {:induction false} SortSorts(tiers: seq<Tier>)
    ensures Sorted(SortByAfter(tiers))
  {
    if tiers != [] {
      SortSorts(tiers[..|tiers| - 1]);
      InsertSorts(tiers[|tiers| - 1], SortByAfter(tiers[..|tiers| - 1]));
    }
  }

  // The interval of a validated tier: a missing one stays missing, a short one becomes the minimum.
  predicate Lifted(interval: Option<int>, validated: Option<int>) {
    && (interval.None? <==> validated.None?)
    && (interval.Some? && interval.value >= 5000 ==> validated == interval)
    && (interval.Some? && interval.value < 5000 ==> validated == Some(5000))
  }

  predicate StandsFor(validated: Tier, t: Tier) {
    && validated.after == t.after
    && Lifted(t.desktopInterval, validated.desktopInterval) && Lifted(t.mobileInterval, validated.mobileInterval)
  }

  lemma ClampStandsFor(t: Tier)
    ensures StandsFor(Clamp(t), t)
  {
  }

  /** Validation keeps every configured tier with its threshold, and adds none but the default first one. */
  lemma ValidatedKeepsTiers(tiers: seq<Tier>)
    requires tiers != []
    ensures forall t <- tiers :: exists v <- ValidateTiers(tiers) :: StandsFor(v, t)
    ensures forall v <- ValidateTiers(tiers) ::
              v == Tier(0, Some(10000), Some(7000)) || exists t <- tiers :: StandsFor(v, t)
  {
    forall t | t in tiers ensures exists v <- ValidateTiers(tiers) :: StandsFor(v, t) {
      var i := PlaceOf(tiers, t);
    }
    forall v | v in ValidateTiers(tiers)
      ensures v == Tier(0, Some(10000), Some(7000)) || exists t <- tiers :: StandsFor(v, t)
    {
      var i :| 0 <= i < |ValidateTiers(tiers)| && ValidateTiers(tiers)[i] == v;
      OriginOf(tiers, i);
    }
  }

  lemma PlaceOf(tiers: seq<Tier>, t: Tier) returns (i: nat)
    requires t in tiers
    ensures i < |ValidateTiers(tiers)| && StandsFor(ValidateTiers(tiers)[i], t)
  {
    var j := SortedPlace(tiers, t);
    i := FirstShifts(SortByAfter(tiers), j);
    ValidatedAt(tiers, i);
    ClampStandsFor(t);
  }

  lemma FirstShifts(sorted: seq<Tier>, j: nat) returns (i: nat)
    requires j < |sorted|
    ensures i < |WithFirst(sorted)| && WithFirst(sorted)[i] == sorted[j]
  {
    i := if sorted[0].after != 0 then j + 1 else j;
  }

  lemma ValidatedAt(tiers: seq<Tier>, i: nat)
    requires tiers != [] && SortByAfter(tiers) != [] && i < |WithFirst(SortByAfter(tiers))|
    ensures |ValidateTiers(tiers)| == |WithFirst(SortByAfter(tiers))|
    ensures ValidateTiers(tiers)[i] == Clamp(WithFirst(SortByAfter(tiers))[i])
  {
  }

  lemma SortedPlace(tiers: seq<Tier>, t: Tier) returns (j: nat)
    requires t in tiers
    ensures j < |SortByAfter(tiers)| && SortByAfter(tiers)[j] == t
  {
    SortPermutes(tiers);
    assert t in multiset(tiers) && t in multiset(SortByAfter(tiers));
    j :| 0 <= j < |SortByAfter(tiers)| && SortByAfter(tiers)[j] == t;
  }

  lemma OriginOf(tiers: seq<Tier>, i: nat)
    requires tiers != [] && i < |ValidateTiers(tiers)|
    ensures ValidateTiers(tiers)[i] == Tier(0, Some(10000), Some(7000))
            || exists t <- tiers :: StandsFor(ValidateTiers(tiers)[i], t)
  {
    SortPermutes(tiers);
    var sorted := WithFirst(SortByAfter(tiers));
    ValidatedAt(tiers, i);
    ClampStandsFor(sorted[i]);
    if sorted[i] in SortByAfter(tiers) {
      assert sorted[i] in multiset(tiers);
    }
  }

  lemma ValidatedIsUsable(tiers: seq<Tier>)
    ensures Usable(ValidateTiers(tiers))
  {
    if tiers != [] {
      SortPermutes(tiers);
      var sorted, result := WithFirst(SortByAfter(tiers)), ValidateTiers(tiers);
      assert result[0] == Clamp(sorted[0]);
    }
  }

  lemma SmallestFirst(tiers: seq<Tier>)
    requires tiers != []
    ensures SortByAfter(tiers) != []
    ensures SortByAfter(tiers)[0].after >= 0 <==> forall t <- tiers :: t.after >= 0
  {
    var sorted := SortByAfter(tiers);
    SortPermutes(tiers);
    SortSorts(tiers);
    assert sorted[0] in multiset(sorted);
    forall t | t in tiers ensures sorted[0].after <= t.after {
      assert t in multiset(sorted);
    }
  }

  lemma WithFirstSorted(sorted: seq<Tier>)
    requires sorted != [] && Sorted(sorted)
    ensures Sorted(WithFirst(sorted)) <==> sorted[0].after >= 0
  {
    var full := WithFirst(sorted);
    if sorted[0].after < 0 {
      assert full[0].after > full[1].after;
    }
  }

  /** Normalised tiers are in order exactly when no configured threshold is negative. */
  lemma ValidatedIsSortedExactly(tiers: seq<Tier>)
    ensures Sorted(ValidateTiers(tiers)) <==> forall t <- tiers :: t.after >= 0
  {
    if tiers != [] {
      SmallestFirst(tiers);
      SortSorts(tiers);
      WithFirstSorted(SortByAfter(tiers));
      var full, result := WithFirst(SortByAfter(tiers)), ValidateTiers(tiers);
      assert |result| == |full| && forall i | 0 <= i < |full| :: result[i].after == full[i].after;
    }
  }

  // ----- The tier that applies -----

  /** The early-exit scan: the last index reached while thresholds are met one after the other. */
  function Scan(tiers: seq<Tier>, total: int, i: nat): (index: nat)
    requires i < |tiers|
    ensures i <= index < |tiers|
    decreases |tiers| - i
  {
    if i + 1 < |tiers| && total >= tiers[i + 1].after then Scan(tiers, total, i + 1) else i
  }

  function TierIndex(tiers: seq<Tier>, total: int): (index: nat)
    requires tiers != []
    ensures index < |tiers|
  {
    if total >= tiers[0].after then Scan(tiers, total, 0) else 0
  }

  lemma {:induction false} ScanIsGreatest(tiers: seq<Tier>, total: int, i: nat)
    requires Sorted(tiers) && i < |tiers| && tiers[i].after <= total
    ensures var index := Scan(tiers, total, i);
            tiers[index].after <= total && forall j | index < j < |tiers| :: tiers[j].after > total
    decreases |tiers| - i
  {
    if i + 1 < |tiers| && total >= tiers[i + 1].after {
      ScanIsGreatest(tiers, total, i + 1);
    }
  }

  /** On tiers in order, the scan finds the greatest threshold that the active time has reached. */
  lemma TierIsGreatestReached(tiers: seq<Tier>, total: int)
    requires Sorted(tiers) && Usable(tiers) && total >= 0
    ensures var index := TierIndex(tiers, total);
            tiers[index].after <= total && forall j | index < j < |tiers| :: tiers[j].after > total
  {
    ScanIsGreatest(tiers, total, 0);
  }

  lemma TierIndexGrows(tiers: seq<Tier>, less: int, more: int)
    requires Sorted(tiers) && Usable(tiers) && 0 <= less <= more
    ensures TierIndex(tiers, less) <= TierIndex(tiers, more)
  {
    TierIsGreatestReached(tiers, less);
    TierIsGreatestReached(tiers, more);
  }

  /** Without a configuration: pings every 10, 20 and 30 seconds, from 0, 3 and 5 minutes of active time on. */
  lemma DefaultTiersApply(total: int)
    requires total >= 0
    ensures var tier := ValidateTiers([])[TierIndex(ValidateTiers([]), total)];
            && tier.desktopInterval == Some(if total < 180000 then 10000 else if total < 300000 then 20000 else 30000)
            && tier.mobileInterval == Some(if total < 180000 then 7000 else if total < 300000 then 14000 else 21000)
  {
    ValidatedIsUsable([]);
    TierIsGreatestReached(ValidateTiers([]), total);
  }

  method GetCurrentTier(tiers: seq<Tier>, totalActiveMs: int) returns (index: nat)
    requires tiers != []
    ensures index == TierIndex(tiers, totalActiveMs)
  {
    index := 0;
    var i := 0;
    while i < |tiers|
      invariant i <= |tiers| && index == (if i == 0 then 0 else i - 1)
      invariant i > 0 ==> totalActiveMs >= tiers[0].after
      invariant i > 0 ==> TierIndex(tiers, totalActiveMs) == Scan(tiers, totalActiveMs, i - 1)
    {
      if totalActiveMs >= tiers[i].after {
        index := i;
      } else {
        break;
      }
      i := i + 1;
    }
  }
}
