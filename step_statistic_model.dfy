/**
 * `StepStatisticModel`: the records of the current period, kept in date order, and the goal
 * figures derived from them. The weekly `goal` and `daysInPeriod` are fixed at construction.
 */
module Repository {
  import opened Wrappers
  import opened DateHelper
  import opened StepStatisticDays

  class StepStatisticModel {
    const goal: int
    const daysInPeriod: int
    var dataSet: seq<StepStatisticDay>

    /** Every operation that changes `dataSet` sorts it by date afterwards. */
    ghost predicate Valid()
      reads this
    {
      SortedByDate(dataSet)
    }

    constructor (goal: int, daysInPeriod: int)
      ensures Valid()
      ensures this.goal == goal && this.daysInPeriod == daysInPeriod
      ensures dataSet == []
    {
      this.goal := goal;
      this.daysInPeriod := daysInPeriod;
      dataSet := [];
    }

    /** `dataList` and `getDaysAsList()`: a copy of the records in their current order. */
    method GetDaysAsList() returns (days: seq<StepStatisticDay>)
      ensures days == dataSet
    {
      days := dataSet;
    }

    /** `addDay`: appends the record and sorts the list by date. */
    method AddDay(date: int, stepCount: int, cycledDistance: Option<real>)
      requires Valid()
      modifies this
      ensures Valid()
      ensures dataSet == Insert(old(dataSet), StepStatisticDay(date, stepCount, cycledDistance))
      ensures |dataSet| == |old(dataSet)| + 1
      ensures multiset(dataSet) == multiset(old(dataSet)) + multiset{StepStatisticDay(date, stepCount, cycledDistance)}
      ensures TotalStepCount() == old(TotalStepCount()) + TotalSteps(StepStatisticDay(date, stepCount, cycledDistance))
    {
      var day := StepStatisticDay(date, stepCount, cycledDistance);
      SortByDateAppend(dataSet, day);
      InsertSorted(dataSet, day);
      InsertMultiset(dataSet, day);
      SumTotalStepsInsert(dataSet, day);
      dataSet := dataSet + [day];
      dataSet := SortByDate(dataSet);
    }

    /**
     * `addCyclingDay`: with no record on the same local date, adds (date, 0 steps, distance);
     * otherwise replaces the distance of the first record on that date. The list is then sorted.
     */
    method AddCyclingDay(zone: Zone, date: int, cycledDistance: Option<real>)
      requires Valid()
      modifies this
      ensures Valid()
      ensures dataSet == MergeCycling(zone, old(dataSet), date, cycledDistance)
      ensures FindSameDay(zone, old(dataSet), date).None? ==>
        && dataSet == Insert(old(dataSet), StepStatisticDay(date, 0, cycledDistance))
        && |dataSet| == |old(dataSet)| + 1
        && TotalStepCount() == old(TotalStepCount()) + TotalSteps(StepStatisticDay(date, 0, cycledDistance))
      ensures FindSameDay(zone, old(dataSet), date).Some? ==>
        var i := FindSameDay(zone, old(dataSet), date).value;
        var updated := StepStatisticDay(old(dataSet)[i].date, old(dataSet)[i].steps, cycledDistance);
        && |dataSet| == |old(dataSet)|
        && multiset(dataSet) == multiset(old(dataSet)) - multiset{old(dataSet)[i]} + multiset{updated}
        && TotalStepCount() == old(TotalStepCount()) - TotalSteps(old(dataSet)[i]) + TotalSteps(updated)
    {
      ghost var before := dataSet;
      var existingItem := FindSameDay(zone, dataSet, date);
      if existingItem.None? {
        MergeCyclingNewDay(zone, dataSet, date, cycledDistance);
        dataSet := dataSet + [StepStatisticDay(date, 0, cycledDistance)];
      } else {
        MergeCyclingExistingDay(zone, dataSet, date, cycledDistance, existingItem.value);
        var item := dataSet[existingItem.value];
        dataSet := RemoveFirst(dataSet, item);
        dataSet := dataSet + [item.(cycledDistance := cycledDistance)];
      }
      dataSet := SortByDate(dataSet);
      assert dataSet == MergeCycling(zone, before, date, cycledDistance);
    }

    /** `getTotalStepCount()`: the sum of `totalSteps()` over all records. */
    function TotalStepCount(): (total: int)
      reads this
      ensures dataSet == [] ==> total == 0
    {
      SumTotalSteps(dataSet)
    }

    /** `dailyGoal`: the weekly goal spread evenly over the days of the period. */
    function DailyGoal(): (share: real)
      reads this
      requires daysInPeriod != 0
      ensures share * daysInPeriod as real == goal as real
    {
      goal as real / daysInPeriod as real
    }

    /** `getDiffToWeeklyGoal()`: the steps still missing to the weekly goal. */
    function DiffToWeeklyGoal(): (missing: int)
      reads this
      ensures missing + TotalStepCount() == goal
      ensures dataSet == [] ==> missing == goal
    {
      goal - TotalStepCount()
    }

    /**
     * `getRequiredTodayForBreakEven()`: the steps still needed so that the total reaches the
     * daily goal times the number of recorded days, rounded to the nearest step.
     */
    function RequiredTodayForBreakEven(): (r: int)
      reads this
      requires daysInPeriod != 0
      ensures var target := |dataSet| as real * (goal as real / daysInPeriod as real);
        (r + TotalStepCount()) as real - 0.5 <= target < (r + TotalStepCount()) as real + 0.5
    {
      var required := |dataSet| as real * DailyGoal();
      RoundHalfUp(required) - TotalStepCount()
    }

    /**
     * `getRequiredPerDayUpcoming()`: with days left in the period, the steps still missing spread
     * over them, rounded to the nearest step; with none left, everything still missing.
     */
    function RequiredPerDayUpcoming(): (r: int)
      reads this
      ensures daysInPeriod - |dataSet| <= 0 ==> r == goal - TotalStepCount()
      ensures daysInPeriod - |dataSet| > 0 ==>
        var daysLeft := (daysInPeriod - |dataSet|) as real;
        r as real - 0.5 <= (goal - TotalStepCount()) as real / daysLeft < r as real + 0.5
    {
      var daysLeft := daysInPeriod - |dataSet|;
      if daysLeft <= 0 then DiffToWeeklyGoal() else RoundHalfUp(DiffToWeeklyGoal() as real / daysLeft as real)
    }

    /**
     * `diffLatestDay()`: the daily goal less the steps (without cycling) of the last record,
     * which is the latest-dated one, rounded; the daily goal itself when there is no record.
     */
    function DiffLatestDay(): (r: int)
      reads this
      requires daysInPeriod != 0
      ensures dataSet == [] ==> r as real - 0.5 <= DailyGoal() < r as real + 0.5
      ensures dataSet != [] ==>
        var latest := dataSet[|dataSet| - 1].steps as real;
        r as real - 0.5 <= DailyGoal() - latest < r as real + 0.5
    {
      if dataSet == [] then RoundHalfUp(DailyGoal()) else RoundHalfUp(DailyGoal() - dataSet[|dataSet| - 1].steps as real)
    }

    /** `clear()`: removes every record. */
    method Clear()
      modifies this
      ensures Valid()
      ensures dataSet == []
    {
      dataSet := [];
    }
  }

  /**
   * Walking the upcoming per-day figure on every remaining day reaches the weekly goal to within
   * half a step per remaining day.
   */
  lemma UpcomingReachesGoal(m: StepStatisticModel)
    requires m.daysInPeriod - |m.dataSet| > 0
    ensures var daysLeft := m.daysInPeriod - |m.dataSet|;
      var reached := m.TotalStepCount() + m.RequiredPerDayUpcoming() * daysLeft;
      2 * (reached - m.goal) <= daysLeft && 2 * (m.goal - reached) < daysLeft
  {
    var daysLeft := m.daysInPeriod - |m.dataSet|;
    RoundedShareBounds(m.goal - m.TotalStepCount(), daysLeft, m.RequiredPerDayUpcoming());
  }

  /** An amount split into `n` equal shares rounded to `r` differs from `r * n` by at most `n / 2`. */
  lemma RoundedShareBounds(amount: int, n: int, r: int)
    requires n > 0
    requires r as real - 0.5 <= amount as real / n as real < r as real + 0.5
    ensures 2 * (r * n - amount) <= n && 2 * (amount - r * n) < n
  {
    var a, bigN, bigR := amount as real, n as real, r as real;
    MulDivLe(bigR - 0.5, a, bigN);
    MulDivLt(a, bigR + 0.5, bigN);
    assert (bigR - 0.5) * bigN == bigR * bigN - 0.5 * bigN;
    assert (bigR + 0.5) * bigN == bigR * bigN + 0.5 * bigN;
    assert (r * n) as real == bigR * bigN;
  }

  lemma MulDivLe(lo: real, a: real, n: real)
    requires n > 0.0 && lo <= a / n
    ensures lo * n <= a
  {
    assert (a / n) * n == a;
  }

  lemma MulDivLt(a: real, hi: real, n: real)
    requires n > 0.0 && a / n < hi
    ensures a < hi * n
  {
    assert (a / n) * n == a;
  }

  /** When the records exactly fill the period, the break-even figure and the rest of the goal agree. */
  lemma BreakEvenAtPeriodEnd(m: StepStatisticModel)
    requires m.daysInPeriod > 0 && |m.dataSet| == m.daysInPeriod
    ensures m.RequiredTodayForBreakEven() == m.RequiredPerDayUpcoming()
  {
    var n := m.daysInPeriod as real;
    assert n * m.goal as real / n == m.goal as real;
    assert RoundHalfUp(m.goal as real) == m.goal;
  }

  /**
   * With more records than days in the period the two figures part: the break-even figure exceeds the
   * rest of the goal by the rounded over-full target less the goal, never less than 0 for a
   * non-negative goal, and exactly the surplus of records when the daily goal is one step.
   */
  lemma BreakEvenPastPeriodEnd(m: StepStatisticModel)
    requires 0 < m.daysInPeriod < |m.dataSet|
    ensures m.RequiredTodayForBreakEven() - m.RequiredPerDayUpcoming()
      == RoundHalfUp(|m.dataSet| as real * m.DailyGoal()) - m.goal
    ensures 0 <= m.goal ==> m.RequiredPerDayUpcoming() <= m.RequiredTodayForBreakEven()
    ensures m.goal == m.daysInPeriod ==>
      m.RequiredTodayForBreakEven() == m.RequiredPerDayUpcoming() + (|m.dataSet| - m.daysInPeriod)
  {
    var target := |m.dataSet| as real * m.DailyGoal();
    assert m.RequiredTodayForBreakEven() == RoundHalfUp(target) - m.TotalStepCount();
    assert m.RequiredPerDayUpcoming() == m.goal - m.TotalStepCount();
    ShareBelowTarget(m.goal, m.daysInPeriod, |m.dataSet|, m.DailyGoal());
  }

  /**
   * For `share * n == goal` and `n < size` days: a non-negative goal rounds to at most the rounded
   * target `size * share`, and a goal equal to `n` gives the target `size` exactly.
   */
  lemma ShareBelowTarget(goal: int, n: int, size: int, share: real)
    requires 0 < n < size && share * n as real == goal as real
    ensures 0 <= goal ==> goal <= RoundHalfUp(size as real * share)
    ensures goal == n ==> RoundHalfUp(size as real * share) == size
  {
    if 0 <= goal {
      TargetAtLeastShare(goal as real, n as real, size as real, share);
    }
    if goal == n {
      UnitShare(share, n as real, goal as real);
    }
  }

  /** A non-negative goal spread as `share` over `n` days is at most `size * share` for more days. */
  lemma TargetAtLeastShare(g: real, n: real, size: real, share: real)
    requires 0.0 < n < size && share * n == g && 0.0 <= g
    ensures g <= size * share
  {
    assert size * share == n * share + (size - n) * share;
    NonNegTimes(size - n, share);
  }

  lemma NonNegTimes(a: real, b: real)
    requires 0.0 <= a && 0.0 <= b
    ensures 0.0 <= a * b
  {
  }

  /** A goal equal to the number of days is a share of one step per day. */
  lemma UnitShare(share: real, n: real, g: real)
    requires n > 0.0 && share * n == g && g == n
    ensures share == 1.0
  {
    assert (share - 1.0) * n == 0.0;
  }

  /** The latest record that `diffLatestDay` reads is the one with the latest date. */
  lemma DiffLatestDayReadsLatest(m: StepStatisticModel)
    requires m.Valid() && m.dataSet != []
    ensures forall i :: 0 <= i < |m.dataSet| ==> m.dataSet[i].date <= m.dataSet[|m.dataSet| - 1].date
  {
    LastIsLatest(m.dataSet);
  }

  /** Two cycling entries on one local date leave the later distance, not the sum. */
  method MergeTwiceOverwrites(zone: Zone, m: StepStatisticModel, date: int, laterDate: int, first: Option<real>, second: Option<real>)
    requires m.Valid()
    requires IsSameDay(zone, date, laterDate)
    requires AtMostOneOnDay(zone, m.dataSet, date)
    modifies m
    ensures m.Valid()
    ensures m.dataSet == MergeCycling(zone, old(m.dataSet), date, second)
  {
    MergeCyclingOverwrites(zone, m.dataSet, date, laterDate, first, second);
    m.AddCyclingDay(zone, date, first);
    m.AddCyclingDay(zone, laterDate, second);
  }
}
