/** `buildFunnelSteps`: the arithmetic of a funnel. */
module Funnel {
  import opened Events

  datatype FunnelStep = FunnelStep(goalName: string, displayLabel: string)

  // A session or visitor: the longest prefix of steps it went through, and the value of its goals.
  datatype Visit = Visit(level: nat, value: real)

  /** countIf(level >= level'). */
  function Reaching(visits: seq<Visit>, level: nat): (n: nat)
    ensures n <= |visits|
  {
    if visits == [] then 0
    else Reaching(visits[..|visits| - 1], level) + if visits[|visits| - 1].level >= level then 1 else 0
  }

  /** sumIf(value, level >= level'). */
  function ValueReaching(visits: seq<Visit>, level: nat): real {
    if visits == [] then 0.0
    else
      var last := visits[|visits| - 1];
      ValueReaching(visits[..|visits| - 1], level) + if last.level >= level then last.value else 0.0
  }

  /** The row that the funnel query returns for `n` steps: one for all visits, or one per segment. */
  function RowOf(visits: seq<Visit>, n: nat): Row {
    Row(map i: nat | i < n :: StepCount(visits, i), map i: nat | i < n :: StepValue(visits, i))
  }

  function StepCount(visits: seq<Visit>, i: nat): nat {
    Reaching(visits, i + 1)
  }

  function StepValue(visits: seq<Visit>, i: nat): real {
    ValueReaching(visits, i + 1)
  }

  // The columns s0.. and v0.. of one row of the database; a missing column counts as zero.
  datatype Row = Row(counts: map<nat, nat>, values: map<nat, real>)
  {
    function Count(i: nat): nat {
      if i in counts then counts[i] else 0
    }

    function Value(i: nat): real {
      if i in values then values[i] else 0.0
    }
  }

  datatype StepResult = StepResult(
    step: nat, goalName: string, displayLabel: string, count: nat, value: real,
    conversionFromPrevious: Option<real>, conversionFromStart: real, dropoffFromPrevious: nat)

  function Round2(x: real): real {
    (x * 100.0 + 0.5).Floor as real / 100.0
  }

  function Rate(count: nat, base: nat): real {
    if base > 0 then Round2(count as real / base as real * 100.0) else 0.0
  }

  function StepOf(steps: seq<FunnelStep>, row: Row, i: nat): StepResult
    requires i < |steps|
  {
    var count := row.Count(i);
    StepResult(
      i + 1, steps[i].goalName, if steps[i].displayLabel != "" then steps[i].displayLabel else steps[i].goalName,
      count, Round2(row.Value(i)),
      if i == 0 then None else Some(Rate(count, row.Count(i - 1))),
      Rate(count, row.Count(0)),
      if i > 0 && row.Count(i - 1) > count then row.Count(i - 1) - count else 0)
  }

  function BuildFunnelSteps(steps: seq<FunnelStep>, row: Row): seq<StepResult> {
    seq(|steps|, i requires 0 <= i < |steps| => StepOf(steps, row, i))
  }

  function Entered(results: seq<StepResult>): nat {
    if results == [] then 0 else results[0].count
  }

  function Last(results: seq<StepResult>): nat {
    if results == [] then 0 else results[|results| - 1].count
  }

  function OverallConversion(results: seq<StepResult>): real {
    Rate(Last(results), Entered(results))
  }

  function TotalDropoff(results: seq<StepResult>): nat {
    if results == [] then 0 else TotalDropoff(results[..|results| - 1]) + results[|results| - 1].dropoffFromPrevious
  }

  /** No step counts more than the one before it. */
  ghost predicate Narrowing(results: seq<StepResult>) {
    forall i | 0 < i < |results| :: results[i].count <= results[i - 1].count
  }

  // ----- Drop-offs -----

  /** The drop-offs add up to what is lost between first and last step exactly when the funnel only narrows. */
  lemma {:induction false} DropoffsCoverTheLoss(steps: seq<FunnelStep>, row: Row)
    ensures var r := BuildFunnelSteps(steps, row);
            && TotalDropoff(r) >= Entered(r) - Last(r)
            && (TotalDropoff(r) == Entered(r) - Last(r) <==> Narrowing(r))
  {
    var r := BuildFunnelSteps(steps, row);
    if |steps| > 1 {
      var n := |steps| - 1;
      DropoffsCoverTheLoss(steps[..n], row);
      FirstSteps(steps, row, n);
      OneMoreStep(BuildFunnelSteps(steps[..n], row), StepOf(steps, row, n));
    } else if |steps| == 1 {
      assert r[..0] == [];
    }
  }

  lemma FirstSteps(steps: seq<FunnelStep>, row: Row, n: nat)
    requires n + 1 == |steps|
    ensures BuildFunnelSteps(steps, row) == BuildFunnelSteps(steps[..n], row) + [StepOf(steps, row, n)]
  {
    assert forall i | 0 <= i < n :: steps[..n][i] == steps[i];
  }

  lemma OneMoreStep(front: seq<StepResult>, last: StepResult)
    requires front != []
    ensures var r := front + [last];
            && TotalDropoff(r) == TotalDropoff(front) + last.dropoffFromPrevious
            && Entered(r) == Entered(front) && Last(r) == last.count
            && (Narrowing(r) <==> Narrowing(front) && last.count <= Last(front))
  {
    var r, n := front + [last], |front|;
    assert r[..n] == front;
    assert forall i | 0 <= i < n :: r[i] == front[i];
    if Narrowing(r) {
      assert r[n].count <= r[n - 1].count;
      forall i | 0 < i < n ensures front[i].count <= front[i - 1].count {
        assert r[i].count <= r[i - 1].count;
      }
    }
  }

  // ----- Rates -----

  lemma RoundIsNear(x: real)
    ensures -0.005 < Round2(x) - x <= 0.005
  {
    var n := (x * 100.0 + 0.5).Floor;
    assert n as real <= x * 100.0 + 0.5 < n as real + 1.0;
    assert Round2(x) * 100.0 == n as real;
  }

  lemma RoundGrows(x: real, y: real)
    requires x <= y
    ensures Round2(x) <= Round2(y)
  {
    assert (x * 100.0 + 0.5).Floor <= (y * 100.0 + 0.5).Floor;
  }

  /** The exact values that round to at most, and to at least, a hundred. */
  lemma RoundAtHundred(x: real)
    ensures Round2(x) <= 100.0 <==> x < 100.005
    ensures Round2(x) >= 100.0 <==> x >= 99.995
    ensures x >= 0.0 ==> Round2(x) >= 0.0
  {
    var f := (x * 100.0 + 0.5).Floor;
    assert f as real <= x * 100.0 + 0.5 < f as real + 1.0;
    assert Round2(x) * 100.0 == f as real;
    assert f <= 10000 <==> f as real <= 10000.0;
    assert f >= 10000 <==> f as real >= 10000.0;
  }

  lemma ExactRate(count: nat, base: nat)
    requires base > 0
    ensures var x := count as real / base as real * 100.0;
            && x >= 0.0 && x * base as real == count as real * 100.0
  {
    var q := count as real / base as real;
    assert q * base as real == count as real;
  }

  /** A rate is the exact percentage up to 0.005, and the exact conditions for it to be at most or at least 100. */
  lemma RateBounds(count: nat, base: nat)
    requires base > 0
    ensures Rate(count, base) >= 0.0
    ensures -0.005 < Rate(count, base) - count as real / base as real * 100.0 <= 0.005
    ensures Rate(count, base) <= 100.0 <==> 20000 * (count - base) < base
    ensures Rate(count, base) >= 100.0 <==> 20000 * (base - count) <= base
  {
    var x := count as real / base as real * 100.0;
    ExactRate(count, base);
    RoundIsNear(x);
    RoundAtHundred(x);
    PercentInWholes(x, count, base);
  }

  /** `shown` is the percentage of `base` that `count` is, rounded to two digits; of nothing it is zero. */
  ghost predicate ShowsPercent(shown: real, count: nat, base: nat) {
    && (base == 0 ==> shown == 0.0)
    && (base > 0 ==> -0.005 < shown - 100.0 * (count as real / base as real) <= 0.005)
  }

  /** Each step of the answer, column by column, for any visits. */
  lemma StepOfVisits(steps: seq<FunnelStep>, visits: seq<Visit>, i: nat)
    requires i < |steps|
    ensures var r, n := BuildFunnelSteps(steps, RowOf(visits, |steps|)), |steps|;
            && |r| == n && r[i].step == i + 1 && r[i].goalName == steps[i].goalName
            && (steps[i].displayLabel != "" ==> r[i].displayLabel == steps[i].displayLabel)
            && (steps[i].displayLabel == "" ==> r[i].displayLabel == steps[i].goalName)
            && r[i].count == Reaching(visits, i + 1)
            && -0.005 < r[i].value - ValueReaching(visits, i + 1) <= 0.005
            && ShowsPercent(r[i].conversionFromStart, r[i].count, r[0].count)
            && (r[i].conversionFromPrevious.None? <==> i == 0)
            && (i > 0 ==> ShowsPercent(r[i].conversionFromPrevious.value, r[i].count, r[i - 1].count))
  {
    var row := RowOf(visits, |steps|);
    assert row.Count(i) == StepCount(visits, i) && row.Value(i) == StepValue(visits, i);
    RoundIsNear(row.Value(i));
    RateShows(row.Count(i), row.Count(0));
    if i > 0 {
      RateShows(row.Count(i), row.Count(i - 1));
    }
  }

  lemma RateShows(count: nat, base: nat)
    ensures ShowsPercent(Rate(count, base), count, base)
  {
    if base > 0 {
      RateBounds(count, base);
    }
  }

  /** A level is reached by none of the visits exactly when each of them stopped below it. */
  lemma {:induction false} ReachedByNoneExactly(visits: seq<Visit>, level: nat)
    ensures Reaching(visits, level) == 0 <==> forall i | 0 <= i < |visits| :: visits[i].level < level
  {
    if visits != [] {
      var n := |visits| - 1;
      ReachedByNoneExactly(visits[..n], level);
      assert forall i | 0 <= i < n :: visits[..n][i] == visits[i];
    }
  }

  /** A level is reached by all the visits exactly when each of them got there. */
  lemma {:induction false} ReachedByAllExactly(visits: seq<Visit>, level: nat)
    ensures Reaching(visits, level) == |visits| <==> forall i | 0 <= i < |visits| :: visits[i].level >= level
  {
    if visits != [] {
      var n := |visits| - 1;
      ReachedByAllExactly(visits[..n], level);
      assert forall i | 0 <= i < n :: visits[..n][i] == visits[i];
    }
  }

  lemma PercentInWholes(x: real, count: nat, base: nat)
    requires base > 0 && x * base as real == count as real * 100.0
    ensures x < 100.005 <==> 20000 * (count - base) < base
    ensures x >= 99.995 <==> 20000 * (base - count) <= base
  {
    HundredInWholes(count, base);
    Cross(x, 100.005, base as real, count as real * 100.0);
    Cross(x, 99.995, base as real, count as real * 100.0);
  }

  lemma Cross(x: real, y: real, base: real, product: real)
    requires base > 0.0 && x * base == product
    ensures x < y <==> product < y * base
  {
    if x < y {
      assert (y - x) * base > 0.0;
    } else {
      assert (x - y) * base >= 0.0;
    }
  }

  lemma HundredInWholes(count: nat, base: nat)
    ensures count as real * 100.0 < 100.005 * base as real <==> 20000 * (count - base) < base
    ensures count as real * 100.0 >= 99.995 * base as real <==> 20000 * (base - count) <= base
  {
    assert (20000 * count) as real == 20000.0 * count as real;
    assert (20001 * base) as real == 20001.0 * base as real;
    assert (19999 * base) as real == 19999.0 * base as real;
  }

  lemma Scaled(x: real, y: real, base: nat)
    requires base > 0
    ensures x < y <==> x * base as real < y * base as real
  {
    if x < y {
      assert (y - x) * base as real > 0.0;
    } else {
      assert (x - y) * base as real >= 0.0;
    }
  }

  lemma RateGrows(small: nat, large: nat, base: nat)
    requires small <= large
    ensures Rate(small, base) <= Rate(large, base)
  {
    if base > 0 {
      var x, y := small as real / base as real * 100.0, large as real / base as real * 100.0;
      ExactRate(small, base);
      ExactRate(large, base);
      Scaled(y, x, base);
      RoundGrows(x, y);
    }
  }

  lemma RateInRange(count: nat, base: nat)
    requires count <= base
    ensures 0.0 <= Rate(count, base) <= 100.0
  {
    if base > 0 {
      RateBounds(count, base);
    }
  }

  lemma {:induction false} NarrowingBelow(results: seq<StepResult>, i: nat, j: nat)
    requires Narrowing(results) && i <= j < |results|
    ensures results[j].count <= results[i].count
  {
    if i < j {
      NarrowingBelow(results, i, j - 1);
    }
  }

  ghost predicate RateOk(s: StepResult, overall: real) {
    && 0.0 <= overall <= s.conversionFromStart <= 100.0
    && (s.conversionFromPrevious.Some? ==> 0.0 <= s.conversionFromPrevious.value <= 100.0)
  }

  lemma StepRatesOk(steps: seq<FunnelStep>, row: Row, i: nat)
    requires Narrowing(BuildFunnelSteps(steps, row)) && i < |steps|
    ensures var r := BuildFunnelSteps(steps, row); RateOk(r[i], OverallConversion(r))
  {
    var r := BuildFunnelSteps(steps, row);
    NarrowingBelow(r, 0, i);
    NarrowingBelow(r, i, |r| - 1);
    RateGrows(row.Count(|r| - 1), row.Count(i), row.Count(0));
    RateInRange(row.Count(i), row.Count(0));
    RateInRange(row.Count(|r| - 1), row.Count(0));
    if i > 0 {
      NarrowingBelow(r, i - 1, i);
      RateInRange(row.Count(i), row.Count(i - 1));
    }
  }

  /** In a funnel that narrows every rate is a percentage, and conversion from the start never rises. */
  lemma NarrowingRates(steps: seq<FunnelStep>, row: Row)
    requires Narrowing(BuildFunnelSteps(steps, row))
    ensures var r := BuildFunnelSteps(steps, row);
            && (forall i | 0 <= i < |r| :: RateOk(r[i], OverallConversion(r)))
            && (forall i, j | 0 <= i < j < |r| :: r[j].conversionFromStart <= r[i].conversionFromStart)
            && (r != [] ==> OverallConversion(r) == r[|r| - 1].conversionFromStart)
  {
    var r := BuildFunnelSteps(steps, row);
    forall i | 0 <= i < |r| ensures RateOk(r[i], OverallConversion(r)) {
      StepRatesOk(steps, row, i);
    }
    forall i, j | 0 <= i < j < |r| ensures r[j].conversionFromStart <= r[i].conversionFromStart {
      NarrowingBelow(r, i, j);
      RateGrows(row.Count(j), row.Count(i), row.Count(0));
    }
  }

  // ----- The funnels that the query can return -----

  lemma {:induction false} FewerReachFurther(visits: seq<Visit>, level: nat, further: nat)
    requires level <= further
    ensures Reaching(visits, further) <= Reaching(visits, level)
  {
    if visits != [] {
      FewerReachFurther(visits[..|visits| - 1], level, further);
    }
  }

  /** A funnel of visits only narrows. */
  lemma VisitsNarrow(steps: seq<FunnelStep>, visits: seq<Visit>)
    ensures Narrowing(BuildFunnelSteps(steps, RowOf(visits, |steps|)))
  {
    forall i | 0 < i < |steps| ensures Reaching(visits, i + 1) <= Reaching(visits, i) {
      FewerReachFurther(visits, i, i + 1);
    }
  }

  /**
   Whatever the visits: the drop-offs add up to the loss, every rate is a percentage, conversion from
   the start never rises, and the overall rate is that of the last step.
   */
  lemma FunnelOfVisits(steps: seq<FunnelStep>, visits: seq<Visit>)
    ensures var r := BuildFunnelSteps(steps, RowOf(visits, |steps|));
            && TotalDropoff(r) == Entered(r) - Last(r)
            && (forall i | 0 <= i < |r| :: RateOk(r[i], OverallConversion(r)))
            && (forall i, j | 0 <= i < j < |r| :: r[j].conversionFromStart <= r[i].conversionFromStart)
            && (r != [] ==> OverallConversion(r) == r[|r| - 1].conversionFromStart)
  {
    VisitsNarrow(steps, visits);
    DropoffsCoverTheLoss(steps, RowOf(visits, |steps|));
    NarrowingRates(steps, RowOf(visits, |steps|));
  }

  /**
   A step reads 100 percent exactly when it lost at most one visit in 20000, and 0 when nobody reached
   the step before it.
   */
  lemma StepReadsHundredExactly(steps: seq<FunnelStep>, visits: seq<Visit>, i: nat)
    requires 0 < i < |steps|
    ensures var s := BuildFunnelSteps(steps, RowOf(visits, |steps|))[i];
            var before, lost := Reaching(visits, i), Reaching(visits, i) - Reaching(visits, i + 1);
            && s.conversionFromPrevious.Some? && s.dropoffFromPrevious == lost >= 0
            && (before == 0 ==> s.conversionFromPrevious.value == 0.0)
            && (before > 0 ==> (s.conversionFromPrevious.value == 100.0 <==> 20000 * lost <= before))
  {
    FewerReachFurther(visits, i, i + 1);
    if Reaching(visits, i) > 0 {
      RateBounds(Reaching(visits, i + 1), Reaching(visits, i));
    }
  }

  lemma {:induction false} AllReach(visits: seq<Visit>, level: nat)
    requires forall v <- visits :: v.level >= level
    ensures Reaching(visits, level) == |visits|
  {
    if visits != [] {
      AllReach(visits[..|visits| - 1], level);
    }
  }

  /** 19999 visits that go through both steps, and one that stops after the first. */
  function NearlyAll(): seq<Visit> {
    seq(19999, _ => Visit(2, 0.0)) + [Visit(1, 0.0)]
  }

  /** A step can read 100 percent although a visit was lost. */
  lemma HundredHidesALoss(steps: seq<FunnelStep>)
    requires |steps| == 2
    ensures var s := BuildFunnelSteps(steps, RowOf(NearlyAll(), 2))[1];
            s.conversionFromPrevious == Some(100.0) && s.dropoffFromPrevious == 1
  {
    var most := seq(19999, _ => Visit(2, 0.0));
    AllReach(most, 2);
    AllReach(NearlyAll(), 1);
    assert NearlyAll()[..19999] == most;
    StepReadsHundredExactly(steps, NearlyAll(), 1);
  }
}
