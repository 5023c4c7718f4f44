/**
 * The per-day record behind the weekly statistic, the rounding and truncation the queries use,
 * and the list operations `StepStatisticModel` applies to its records: a stable sort by date
 * (`sortBy { it.date }`), `find` of a same-day record and `remove` of an element.
 */
module StepStatisticDays {
  import opened Wrappers
  import opened DateHelper

  /** One day: its date in epoch milliseconds, the step count and the cycled distance, if any. */
  datatype StepStatisticDay = StepStatisticDay(date: int, steps: int, cycledDistance: Option<real>)

  /** Each unit of cycled distance is worth this many steps. */
  const CyclingStepFactor: real := 1.5

  /** `Double.toInt()` (the `Float` distance times the `Double` factor is a `Double`): drops the fraction, rounding toward zero. */
  function TruncateToInt(x: real): (r: int)
    ensures 0.0 <= x ==> 0 <= r && r as real <= x < r as real + 1.0
    ensures x < 0.0 ==> r <= 0 && r as real - 1.0 < x <= r as real
  {
    if x >= 0.0 then x.Floor else -((-x).Floor)
  }

  /** `Double.roundToInt()`: the nearest integer, ties rounded toward positive infinity. */
  function RoundHalfUp(x: real): (r: int)
    ensures r as real - 0.5 <= x < r as real + 0.5
  {
    (x + 0.5).Floor
  }

  /** `totalSteps()`: the steps plus the cycled distance converted to steps and truncated. */
  function TotalSteps(day: StepStatisticDay): (r: int)
    ensures day.cycledDistance.None? ==> r == day.steps
    ensures day.cycledDistance.Some? && day.cycledDistance.value >= 0.0 ==>
      day.steps <= r && (r - day.steps) as real <= day.cycledDistance.value * CyclingStepFactor < (r - day.steps + 1) as real
    ensures day.cycledDistance.Some? && day.cycledDistance.value < 0.0 ==>
      r <= day.steps && (r - day.steps - 1) as real < day.cycledDistance.value * CyclingStepFactor <= (r - day.steps) as real
  {
    var result := day.steps;
    if day.cycledDistance.Some? then result + TruncateToInt(day.cycledDistance.value * CyclingStepFactor) else result
  }

  /** A record counts for no fewer than zero steps when its steps and distance are not negative. */
  predicate NonNegative(day: StepStatisticDay)
  {
    day.steps >= 0 && (day.cycledDistance.Some? ==> day.cycledDistance.value >= 0.0)
  }

  /** `sumBy { it.totalSteps() }` over a list of records. */
  function SumTotalSteps(s: seq<StepStatisticDay>): (total: int)
    ensures s == [] ==> total == 0
  {
    if s == [] then 0 else TotalSteps(s[0]) + SumTotalSteps(s[1..])
  }

  /** Records with no negative steps or distance add up to no fewer than zero steps. */
  lemma {:induction false} SumTotalStepsNonNegative(s: seq<StepStatisticDay>)
    requires forall i :: 0 <= i < |s| ==> NonNegative(s[i])
    ensures SumTotalSteps(s) >= 0
  {
    if s != [] {
      assert NonNegative(s[0]);
      SumTotalStepsNonNegative(s[1..]);
    }
  }

  lemma {:induction false} SumTotalStepsAppend(s: seq<StepStatisticDay>, t: seq<StepStatisticDay>)
    ensures SumTotalSteps(s + t) == SumTotalSteps(s) + SumTotalSteps(t)
  {
    if s == [] {
      assert s + t == t;
    } else {
      assert (s + t)[1..] == s[1..] + t;
      SumTotalStepsAppend(s[1..], t);
    }
  }

  /** The total depends only on which records there are, not on their order. */
  lemma {:induction false} SumTotalStepsPermutation(s: seq<StepStatisticDay>, t: seq<StepStatisticDay>)
    requires multiset(s) == multiset(t)
    ensures SumTotalSteps(s) == SumTotalSteps(t)
    decreases |s|
  {
    if s != [] {
      assert s[0] in multiset(t);
      var i :| 0 <= i < |t| && t[i] == s[0];
      var rest := t[..i] + t[i + 1..];
      RemoveAtMultiset(t, i);
      assert s == [s[0]] + s[1..];
      assert multiset(s[1..]) == multiset(rest);
      SumTotalStepsPermutation(s[1..], rest);
      SumTotalStepsRemoveAt(t, i);
    } else {
      assert |t| == |multiset(t)| == 0;
    }
  }

  /**
   * Sequence identities stated once, as small lemmas of their own, so that the larger proofs
   * below call them instead of having the solver rediscover them in a big context.
   */
  lemma SplitJoin(s: seq<StepStatisticDay>, k: nat)
    requires k <= |s|
    ensures s[..k] + s[k..] == s
  {
  }

  /** See `SplitJoin`: the split around one element, kept out of the larger proofs for solver cost. */
  lemma SplitAround(s: seq<StepStatisticDay>, i: nat)
    requires i < |s|
    ensures s == s[..i] + [s[i]] + s[i + 1..]
  {
  }

  /** The records are in ascending date order. */
  predicate SortedByDate(s: seq<StepStatisticDay>)
  {
    forall i, j :: 0 <= i < j < |s| ==> s[i].date <= s[j].date
  }

  /** In a sorted list the last record has the latest date. */
  lemma LastIsLatest(s: seq<StepStatisticDay>)
    requires SortedByDate(s) && s != []
    ensures forall i :: 0 <= i < |s| ==> s[i].date <= s[|s| - 1].date
  {
  }

  /** The number of leading records not later than `date`: where a stable sort puts a new record. */
  function InsertIndex(s: seq<StepStatisticDay>, date: int): (k: nat)
    ensures k <= |s|
    ensures forall i :: 0 <= i < k ==> s[i].date <= date
    ensures k < |s| ==> date < s[k].date
  {
    if s == [] || date < s[0].date then 0 else 1 + InsertIndex(s[1..], date)
  }

  /** Adds `r` behind every leading record whose date is not later than its own. */
  function Insert(s: seq<StepStatisticDay>, r: StepStatisticDay): (t: seq<StepStatisticDay>)
    ensures |t| == |s| + 1
  {
    if s == [] || r.date < s[0].date then [r] + s else [s[0]] + Insert(s[1..], r)
  }

  /** An insertion adds exactly the new record. */
  lemma {:induction false} InsertMultiset(s: seq<StepStatisticDay>, r: StepStatisticDay)
    ensures multiset(Insert(s, r)) == multiset(s) + multiset{r}
  {
    if s != [] && r.date >= s[0].date {
      InsertMultiset(s[1..], r);
      assert s == [s[0]] + s[1..];
    }
  }

  /** The shape of an insertion: the list is split at `InsertIndex` and the record goes between. */
  lemma {:induction false} InsertShape(s: seq<StepStatisticDay>, r: StepStatisticDay)
    ensures Insert(s, r) == s[..InsertIndex(s, r.date)] + [r] + s[InsertIndex(s, r.date)..]
  {
    if s == [] || r.date < s[0].date {
    } else {
      InsertShape(s[1..], r);
      var k := InsertIndex(s[1..], r.date);
      assert s[..k + 1] == [s[0]] + s[1..][..k];
      assert s[k + 1..] == s[1..][k..];
    }
  }

  /** In a sorted list every record from the insertion point on is later than the new one. */
  lemma InsertIndexSplits(s: seq<StepStatisticDay>, date: int)
    requires SortedByDate(s)
    ensures forall i :: InsertIndex(s, date) <= i < |s| ==> date < s[i].date
  {
  }

  lemma InsertSorted(s: seq<StepStatisticDay>, r: StepStatisticDay)
    requires SortedByDate(s)
    ensures SortedByDate(Insert(s, r))
  {
    var k := InsertIndex(s, r.date);
    InsertShape(s, r);
    LaterAfterInsertIndex(s, r.date);
    SortedParts(s, k);
    SortedAround(s[..k], r, s[k..]);
  }

  /** Both parts of a sorted list are sorted. */
  lemma SortedParts(s: seq<StepStatisticDay>, k: nat)
    requires SortedByDate(s) && k <= |s|
    ensures SortedByDate(s[..k]) && SortedByDate(s[k..])
  {
    assert forall i :: k <= i < |s| ==> s[k..][i - k] == s[i];
  }

  /** A record between a sorted part not later than it and a sorted part later than it keeps the order. */
  lemma SortedAround(a: seq<StepStatisticDay>, r: StepStatisticDay, b: seq<StepStatisticDay>)
    requires SortedByDate(a) && SortedByDate(b)
    requires forall i :: 0 <= i < |a| ==> a[i].date <= r.date
    requires forall i :: 0 <= i < |b| ==> r.date < b[i].date
    ensures SortedByDate(a + [r] + b)
  {
    var t := a + [r] + b;
    var n := |a|;
    forall i, j | 0 <= i < j < |t| ensures t[i].date <= t[j].date {
      if j < n {
        assert t[i] == a[i] && t[j] == a[j];
      } else if j == n {
        assert t[i] == a[i] && t[j] == r;
      } else if i < n {
        assert t[i] == a[i] && t[j] == b[j - n - 1];
      } else if i == n {
        assert t[i] == r && t[j] == b[j - n - 1];
      } else {
        assert t[i] == b[i - n - 1] && t[j] == b[j - n - 1];
      }
    }
  }

  /** The total of a list grows by the inserted record's total. */
  lemma SumTotalStepsInsert(s: seq<StepStatisticDay>, r: StepStatisticDay)
    ensures SumTotalSteps(Insert(s, r)) == SumTotalSteps(s) + TotalSteps(r)
  {
    var k := InsertIndex(s, r.date);
    InsertShape(s, r);
    SumTotalStepsAround(s[..k], r, s[k..]);
    SumTotalStepsAppend(s[..k], s[k..]);
    SplitJoin(s, k);
  }

  /** The total of a list with one record between two parts. */
  lemma SumTotalStepsAround(a: seq<StepStatisticDay>, x: StepStatisticDay, b: seq<StepStatisticDay>)
    ensures SumTotalSteps(a + [x] + b) == SumTotalSteps(a) + TotalSteps(x) + SumTotalSteps(b)
  {
    SumTotalStepsAppend(a + [x], b);
    SumTotalStepsAppend(a, [x]);
    SumTotalStepsSingle(x);
  }

  lemma SumTotalStepsSingle(x: StepStatisticDay)
    ensures SumTotalSteps([x]) == TotalSteps(x)
  {
    assert [x][1..] == [];
  }

  /**
   * `sortBy { it.date }`, a stable sort: the records are inserted one by one in list order, each
   * behind the records already placed that are not later than it.
   */
  function SortByDate(s: seq<StepStatisticDay>): (t: seq<StepStatisticDay>)
    ensures |t| == |s|
  {
    if s == [] then [] else Insert(SortByDate(s[..|s| - 1]), s[|s| - 1])
  }

  /** The sorted list is in date order. */
  lemma {:induction false} SortByDateSorted(s: seq<StepStatisticDay>)
    ensures SortedByDate(SortByDate(s))
  {
    if s != [] {
      var init := s[..|s| - 1];
      SortByDateSorted(init);
      InsertSorted(SortByDate(init), s[|s| - 1]);
    }
  }

  /** The sorted list holds the same records as the input. */
  lemma {:induction false} SortByDatePermutation(s: seq<StepStatisticDay>)
    ensures multiset(SortByDate(s)) == multiset(s)
  {
    if s != [] {
      var init, last := s[..|s| - 1], s[|s| - 1];
      SortByDatePermutation(init);
      InsertMultiset(SortByDate(init), last);
      assert s == init + [last];
    }
  }

  /** Sorting a list that is already in date order leaves it as it is. */
  lemma {:induction false} SortByDateOfSorted(s: seq<StepStatisticDay>)
    requires SortedByDate(s)
    ensures SortByDate(s) == s
  {
    if s != [] {
      var init, last := s[..|s| - 1], s[|s| - 1];
      assert SortByDate(s) == Insert(SortByDate(init), last);
      assert SortedByDate(init);
      SortByDateOfSorted(init);
      assert forall j :: 0 <= j < |init| ==> init[j].date <= last.date;
      InsertAtEnd(init, last);
      assert init + [last] == s;
    }
  }

  /** A record not earlier than every record goes at the end. */
  lemma InsertAtEnd(s: seq<StepStatisticDay>, r: StepStatisticDay)
    requires forall j :: 0 <= j < |s| ==> s[j].date <= r.date
    ensures Insert(s, r) == s + [r]
  {
    InsertBetween(s, r, []);
    assert s + [] == s;
    assert s + [r] + [] == s + [r];
  }

  /** Appending a record to a sorted list and sorting is an insertion at `InsertIndex`. */
  lemma SortByDateAppend(s: seq<StepStatisticDay>, r: StepStatisticDay)
    requires SortedByDate(s)
    ensures SortByDate(s + [r]) == Insert(s, r)
  {
    assert (s + [r])[..|s|] == s;
    SortByDateOfSorted(s);
  }

  /** The records of `s` dated exactly `date`, in list order. */
  function OnDate(s: seq<StepStatisticDay>, date: int): seq<StepStatisticDay>
  {
    if s == [] then [] else Keep(s[0], date) + OnDate(s[1..], date)
  }

  /** The one-record list of `r` if it is dated `date`, otherwise the empty list. */
  function Keep(r: StepStatisticDay, date: int): seq<StepStatisticDay>
  {
    if r.date == date then [r] else []
  }

  lemma {:induction false} OnDateAppend(s: seq<StepStatisticDay>, t: seq<StepStatisticDay>, date: int)
    ensures OnDate(s + t, date) == OnDate(s, date) + OnDate(t, date)
  {
    if s == [] {
      assert s + t == t;
    } else {
      var u := s + t;
      assert u != [] && u[0] == s[0] && u[1..] == s[1..] + t;
      OnDateAppend(s[1..], t, date);
      var h, a, b := Keep(s[0], date), OnDate(s[1..], date), OnDate(t, date);
      assert OnDate(u, date) == h + (a + b);
      assert OnDate(s, date) == h + a;
      assert h + (a + b) == (h + a) + b;
    }
  }

  lemma {:induction false} OnDateNoneLater(s: seq<StepStatisticDay>, date: int)
    requires forall i :: 0 <= i < |s| ==> date < s[i].date
    ensures OnDate(s, date) == []
  {
    if s != [] {
      OnDateNoneLater(s[1..], date);
    }
  }

  /** Inserting into a sorted list puts the new record behind every record with the same date. */
  lemma OnDateInsert(s: seq<StepStatisticDay>, r: StepStatisticDay, date: int)
    requires SortedByDate(s)
    ensures OnDate(Insert(s, r), date) == OnDate(s, date) + Keep(r, date)
  {
    var k := InsertIndex(s, r.date);
    InsertShape(s, r);
    LaterAfterInsertIndex(s, r.date);
    OnDateInsertAt(s[..k], r, s[k..], date);
    SplitJoin(s, k);
  }

  /** In a sorted list every record from the insertion point on is later, stated on the suffix. */
  lemma LaterAfterInsertIndex(s: seq<StepStatisticDay>, date: int)
    requires SortedByDate(s)
    ensures var b := s[InsertIndex(s, date)..]; forall i :: 0 <= i < |b| ==> date < b[i].date
  {
    var k := InsertIndex(s, date);
    InsertIndexSplits(s, date);
    assert forall i :: 0 <= i < |s[k..]| ==> s[k..][i] == s[k + i];
  }

  /** The three-part form of `OnDateInsert`, stated on the pieces of the list. */
  lemma OnDateInsertAt(a: seq<StepStatisticDay>, r: StepStatisticDay, b: seq<StepStatisticDay>, date: int)
    requires r.date == date ==> forall i :: 0 <= i < |b| ==> date < b[i].date
    ensures OnDate(a + [r] + b, date) == OnDate(a + b, date) + Keep(r, date)
  {
    OnDateAppend(a + [r], b, date);
    OnDateSnoc(a, r, date);
    OnDateAppend(a, b, date);
    if r.date == date {
      OnDateNoneLater(b, date);
      OnDateSameEnd(OnDate(a, date), r);
    } else {
      OnDateOtherEnd(OnDate(a, date), OnDate(b, date));
    }
  }

  /** Regrouping identities used by `OnDateInsertAt`, kept as lemmas of their own for solver cost. */
  lemma OnDateSameEnd(x: seq<StepStatisticDay>, r: StepStatisticDay)
    ensures x + [r] + [] == (x + []) + [r]
  {
  }

  /** See `OnDateSameEnd`. */
  lemma OnDateOtherEnd(x: seq<StepStatisticDay>, y: seq<StepStatisticDay>)
    ensures x + [] + y == (x + y) + []
  {
  }

  lemma OnDateSnoc(init: seq<StepStatisticDay>, last: StepStatisticDay, date: int)
    ensures OnDate(init + [last], date) == OnDate(init, date) + Keep(last, date)
  {
    OnDateAppend(init, [last], date);
    OnDateSingle(last, date);
  }

  lemma OnDateSingle(r: StepStatisticDay, date: int)
    ensures OnDate([r], date) == Keep(r, date)
  {
    assert [r][1..] == [];
    assert Keep(r, date) + [] == Keep(r, date);
  }

  /** `sortBy` is stable: the records sharing a date keep their relative order. */
  lemma {:induction false} SortByDateStable(s: seq<StepStatisticDay>, date: int)
    ensures OnDate(SortByDate(s), date) == OnDate(s, date)
  {
    if s != [] {
      var init, last := s[..|s| - 1], s[|s| - 1];
      var sorted := SortByDate(init);
      assert SortByDate(s) == Insert(sorted, last);
      SortByDateStable(init, date);
      SortByDateSorted(init);
      OnDateInsert(sorted, last, date);
      OnDateSnoc(init, last, date);
      assert init + [last] == s;
    }
  }

  /** `MutableList.remove(element)`: drops the first element equal to `x`, if there is one. */
  function RemoveFirst(s: seq<StepStatisticDay>, x: StepStatisticDay): (t: seq<StepStatisticDay>)
    ensures x !in s ==> t == s
  {
    if s == [] then [] else if s[0] == x then s[1..] else [s[0]] + RemoveFirst(s[1..], x)
  }

  /** Removing an element that occurs drops one occurrence of it and nothing else. */
  lemma {:induction false} RemoveFirstMultiset(s: seq<StepStatisticDay>, x: StepStatisticDay)
    requires x in s
    ensures |RemoveFirst(s, x)| == |s| - 1
    ensures multiset(RemoveFirst(s, x)) == multiset(s) - multiset{x}
  {
    assert s == [s[0]] + s[1..];
    if s[0] != x {
      RemoveFirstMultiset(s[1..], x);
    }
  }

  /** When no earlier element equals `s[i]`, removing `s[i]` by value removes exactly position `i`. */
  lemma RemoveFirstAt(s: seq<StepStatisticDay>, i: nat)
    requires i < |s|
    requires forall j :: 0 <= j < i ==> s[j] != s[i]
    ensures RemoveFirst(s, s[i]) == s[..i] + s[i + 1..]
  {
    SplitAround(s, i);
    RemoveFirstAround(s[..i], s[i], s[i + 1..]);
  }

  /** Removing `x` by value from `a + [x] + b`, where `a` does not hold `x`, leaves `a + b`. */
  lemma {:induction false} RemoveFirstAround(a: seq<StepStatisticDay>, x: StepStatisticDay, b: seq<StepStatisticDay>)
    requires x !in a
    ensures RemoveFirst(a + [x] + b, x) == a + b
  {
    var s := a + [x] + b;
    if a == [] {
      assert s[0] == x && s[1..] == a + b;
    } else {
      assert s[0] == a[0] != x;
      assert s[1..] == a[1..] + [x] + b;
      RemoveFirstAround(a[1..], x, b);
      assert a + b == [a[0]] + (a[1..] + b);
    }
  }

  /** The total of a list less the removed record's total. */
  lemma SumTotalStepsRemoveAt(s: seq<StepStatisticDay>, i: nat)
    requires i < |s|
    ensures SumTotalSteps(s[..i] + s[i + 1..]) == SumTotalSteps(s) - TotalSteps(s[i])
  {
    SplitAround(s, i);
    SumTotalStepsAround(s[..i], s[i], s[i + 1..]);
    SumTotalStepsAppend(s[..i], s[i + 1..]);
  }

  /** `find { date.isSameDay(it.date) }`: the position of the first record on the same local date. */
  function FindSameDay(zone: Zone, s: seq<StepStatisticDay>, date: int): (r: Option<nat>)
    ensures r.Some? ==> r.value < |s| && IsSameDay(zone, date, s[r.value].date)
    ensures r.Some? ==> forall j :: 0 <= j < r.value ==> !IsSameDay(zone, date, s[j].date)
    ensures r.None? ==> forall j :: 0 <= j < |s| ==> !IsSameDay(zone, date, s[j].date)
  {
    if s == [] then
      None
    else if IsSameDay(zone, date, s[0].date) then
      Some(0)
    else
      match FindSameDay(zone, s[1..], date)
      case None => None
      case Some(i) => Some(i + 1)
  }

  /** At most one record of `s` lies on the local date of `date`. */
  predicate AtMostOneOnDay(zone: Zone, s: seq<StepStatisticDay>, date: int)
  {
    forall i, j :: 0 <= i < j < |s| && IsSameDay(zone, date, s[i].date) ==> !IsSameDay(zone, date, s[j].date)
  }

  /**
   * `addCyclingDay(date, cycledDistance)` on a list: with no record on that local date a record
   * (date, 0 steps, distance) is added; otherwise the first such record is removed and re-added
   * with the new distance. Either way the list is sorted by date afterwards.
   */
  function MergeCycling(zone: Zone, s: seq<StepStatisticDay>, date: int, cycledDistance: Option<real>): (t: seq<StepStatisticDay>)
    ensures FindSameDay(zone, s, date).None? ==> |t| == |s| + 1
    ensures FindSameDay(zone, s, date).Some? ==> |t| == |s|
  {
    match FindSameDay(zone, s, date)
    case None => SortByDate(s + [StepStatisticDay(date, 0, cycledDistance)])
    case Some(i) =>
      RemoveFirstMultiset(s, s[i]);
      SortByDate(RemoveFirst(s, s[i]) + [s[i].(cycledDistance := cycledDistance)])
  }

  /** Merging onto a date without a record inserts (date, 0, distance) in date order. */
  lemma MergeCyclingNewDay(zone: Zone, s: seq<StepStatisticDay>, date: int, cycledDistance: Option<real>)
    requires SortedByDate(s)
    requires FindSameDay(zone, s, date).None?
    ensures var t := MergeCycling(zone, s, date, cycledDistance);
      && t == Insert(s, StepStatisticDay(date, 0, cycledDistance))
      && |t| == |s| + 1
      && SortedByDate(t)
      && SumTotalSteps(t) == SumTotalSteps(s) + TotalSteps(StepStatisticDay(date, 0, cycledDistance))
  {
    var r := StepStatisticDay(date, 0, cycledDistance);
    SortByDateAppend(s, r);
    InsertSorted(s, r);
    SumTotalStepsInsert(s, r);
  }

  /** The list with position `i` removed is still sorted. */
  lemma RemoveAtSorted(s: seq<StepStatisticDay>, i: nat)
    requires SortedByDate(s) && i < |s|
    ensures SortedByDate(s[..i] + s[i + 1..])
  {
    var t := s[..i] + s[i + 1..];
    forall a, b | 0 <= a < b < |t| ensures t[a].date <= t[b].date {
      var a', b' := if a < i then a else a + 1, if b < i then b else b + 1;
      assert t[a] == s[a'] && t[b] == s[b'];
    }
  }

  /** Merging onto a date that has a record removes that record and inserts its updated copy. */
  lemma MergeCyclingExistingShape(zone: Zone, s: seq<StepStatisticDay>, date: int, cycledDistance: Option<real>, i: nat)
    requires SortedByDate(s)
    requires FindSameDay(zone, s, date) == Some(i)
    ensures MergeCycling(zone, s, date, cycledDistance) == Insert(s[..i] + s[i + 1..], s[i].(cycledDistance := cycledDistance))
  {
    var updated := s[i].(cycledDistance := cycledDistance);
    var rest := s[..i] + s[i + 1..];
    FoundIsFirstEqual(zone, s, date, i);
    RemoveFirstAt(s, i);
    assert MergeCycling(zone, s, date, cycledDistance) == SortByDate(rest + [updated]);
    RemoveAtSorted(s, i);
    SortByDateAppend(rest, updated);
  }

  /**
   * Merging onto a date whose first record is at position `i` keeps the length, replaces that
   * record by one with the same date and steps and the new distance, and keeps the order.
   */
  lemma MergeCyclingExistingDay(zone: Zone, s: seq<StepStatisticDay>, date: int, cycledDistance: Option<real>, i: nat)
    requires SortedByDate(s)
    requires FindSameDay(zone, s, date) == Some(i)
    ensures var updated := StepStatisticDay(s[i].date, s[i].steps, cycledDistance);
      var t := MergeCycling(zone, s, date, cycledDistance);
      && t == Insert(s[..i] + s[i + 1..], updated)
      && |t| == |s|
      && SortedByDate(t)
      && multiset(t) == multiset(s) - multiset{s[i]} + multiset{updated}
      && SumTotalSteps(t) == SumTotalSteps(s) - TotalSteps(s[i]) + TotalSteps(updated)
  {
    var updated := s[i].(cycledDistance := cycledDistance);
    var rest := s[..i] + s[i + 1..];
    MergeCyclingExistingShape(zone, s, date, cycledDistance, i);
    RemoveAtSorted(s, i);
    InsertSorted(rest, updated);
    InsertMultiset(rest, updated);
    SumTotalStepsInsert(rest, updated);
    SumTotalStepsRemoveAt(s, i);
    RemoveAtMultiset(s, i);
  }

  lemma RemoveAtMultiset(s: seq<StepStatisticDay>, i: nat)
    requires i < |s|
    ensures multiset(s[..i] + s[i + 1..]) == multiset(s) - multiset{s[i]}
  {
    assert s == s[..i] + ([s[i]] + s[i + 1..]);
    assert multiset(s) == multiset(s[..i]) + multiset{s[i]} + multiset(s[i + 1..]);
  }

  /** No record before the one `find` returns is equal to it, since none of them is on the same day. */
  lemma FoundIsFirstEqual(zone: Zone, s: seq<StepStatisticDay>, date: int, i: nat)
    requires FindSameDay(zone, s, date) == Some(i)
    ensures forall j :: 0 <= j < i ==> s[j] != s[i]
  {
  }

  /** When no later record shares the date of the record found, it is overwritten in place. */
  lemma MergeCyclingInPlace(zone: Zone, s: seq<StepStatisticDay>, date: int, cycledDistance: Option<real>, i: nat)
    requires SortedByDate(s)
    requires FindSameDay(zone, s, date) == Some(i)
    requires i + 1 == |s| || s[i].date < s[i + 1].date
    ensures MergeCycling(zone, s, date, cycledDistance) == s[i := s[i].(cycledDistance := cycledDistance)]
  {
    MergeCyclingExistingShape(zone, s, date, cycledDistance, i);
    assert forall j :: 0 <= j < i ==> s[j].date <= s[i].date;
    ReinsertInPlace(s, i, s[i].(cycledDistance := cycledDistance));
  }

  /** Re-inserting a record with the date of position `i` puts it back at `i` if no later record has that date. */
  lemma ReinsertInPlace(s: seq<StepStatisticDay>, i: nat, updated: StepStatisticDay)
    requires i < |s|
    requires forall j :: 0 <= j < i ==> s[j].date <= updated.date
    requires i + 1 < |s| ==> updated.date < s[i + 1].date
    ensures Insert(s[..i] + s[i + 1..], updated) == s[i := updated]
  {
    InsertBetween(s[..i], updated, s[i + 1..]);
    assert s[i := updated] == s[..i] + [updated] + s[i + 1..];
  }

  /** A record not earlier than every record of `a` and earlier than the first of `b` goes between them. */
  lemma {:induction false} InsertBetween(a: seq<StepStatisticDay>, r: StepStatisticDay, b: seq<StepStatisticDay>)
    requires forall j :: 0 <= j < |a| ==> a[j].date <= r.date
    requires b != [] ==> r.date < b[0].date
    ensures Insert(a + b, r) == a + [r] + b
  {
    if a == [] {
      assert a + b == b;
    } else {
      assert (a + b)[0] == a[0] && (a + b)[1..] == a[1..] + b;
      InsertBetween(a[1..], r, b);
      assert a + [r] + b == [a[0]] + (a[1..] + [r] + b);
    }
  }

  /** A record that is the only one on its day is found by `find`, and removing it gives the list back. */
  lemma FindInserted(zone: Zone, p: seq<StepStatisticDay>, r: StepStatisticDay, date: int)
    requires IsSameDay(zone, date, r.date)
    requires forall j :: 0 <= j < |p| ==> !IsSameDay(zone, date, p[j].date)
    ensures var t := Insert(p, r); var k := InsertIndex(p, r.date);
      && FindSameDay(zone, t, date) == Some(k)
      && t[k] == r
      && RemoveFirst(t, t[k]) == p
  {
    var t := Insert(p, r);
    var k := InsertIndex(p, r.date);
    var a, b := p[..k], p[k..];
    assert t == a + [r] + b by {
      InsertShape(p, r);
    }
    assert forall j :: 0 <= j < |a| ==> !IsSameDay(zone, date, a[j].date) by {
      assert forall j :: 0 <= j < |a| ==> a[j] == p[j];
    }
    FindAround(zone, a, r, b, date);
    RemoveFirstAround(a, r, b);
    SplitJoin(p, k);
  }

  /** `find` over `a + [r] + b` stops at `r` when `r` is on the day and no record of `a` is. */
  lemma FindAround(zone: Zone, a: seq<StepStatisticDay>, r: StepStatisticDay, b: seq<StepStatisticDay>, date: int)
    requires IsSameDay(zone, date, r.date)
    requires forall j :: 0 <= j < |a| ==> !IsSameDay(zone, date, a[j].date)
    ensures FindSameDay(zone, a + [r] + b, date) == Some(|a|)
    ensures (a + [r] + b)[|a|] == r
    ensures r !in a
  {
    var s := a + [r] + b;
    assert forall j :: 0 <= j < |a| ==> s[j] == a[j];
    FindSameDayFirst(zone, s, date, |a|);
  }

  /** `find` returns the first position holding a same-day record. */
  lemma {:induction false} FindSameDayFirst(zone: Zone, s: seq<StepStatisticDay>, date: int, k: nat)
    requires k < |s| && IsSameDay(zone, date, s[k].date)
    requires forall j :: 0 <= j < k ==> !IsSameDay(zone, date, s[j].date)
    ensures FindSameDay(zone, s, date) == Some(k)
  {
    if k > 0 {
      FindSameDayFirst(zone, s[1..], date, k - 1);
    }
  }

  /**
   * Repeated merges on the same local date overwrite rather than add: when at most one record lies
   * on that date, merging `first` and then `second` equals merging `second` alone.
   */
  lemma MergeCyclingOverwrites(zone: Zone, s: seq<StepStatisticDay>, date: int, laterDate: int,
                               first: Option<real>, second: Option<real>)
    requires SortedByDate(s)
    requires IsSameDay(zone, date, laterDate)
    requires AtMostOneOnDay(zone, s, date)
    ensures MergeCycling(zone, MergeCycling(zone, s, date, first), laterDate, second) == MergeCycling(zone, s, date, second)
  {
    match FindSameDay(zone, s, date)
    case None => OverwritesNewDay(zone, s, date, laterDate, first, second);
    case Some(i) => OverwritesExistingDay(zone, s, date, laterDate, first, second, i);
  }

  /** The case of `MergeCyclingOverwrites` where no record lies on the date: the added record is found again. */
  lemma OverwritesNewDay(zone: Zone, s: seq<StepStatisticDay>, date: int, laterDate: int,
                         first: Option<real>, second: Option<real>)
    requires SortedByDate(s)
    requires IsSameDay(zone, date, laterDate)
    requires FindSameDay(zone, s, date).None?
    ensures MergeCycling(zone, MergeCycling(zone, s, date, first), laterDate, second) == MergeCycling(zone, s, date, second)
  {
    IsSameDayEquivalence(zone, date, laterDate, date);
    var r := StepStatisticDay(date, 0, first);
    MergeCyclingNewDay(zone, s, date, first);
    MergeCyclingNewDay(zone, s, date, second);
    FindInserted(zone, s, r, laterDate);
    SortByDateAppend(s, r.(cycledDistance := second));
  }

  /** The case of `MergeCyclingOverwrites` where record `i` is the one on the date: the re-added copy is found again. */
  lemma OverwritesExistingDay(zone: Zone, s: seq<StepStatisticDay>, date: int, laterDate: int,
                              first: Option<real>, second: Option<real>, i: nat)
    requires SortedByDate(s)
    requires IsSameDay(zone, date, laterDate)
    requires AtMostOneOnDay(zone, s, date)
    requires FindSameDay(zone, s, date) == Some(i)
    ensures MergeCycling(zone, MergeCycling(zone, s, date, first), laterDate, second) == MergeCycling(zone, s, date, second)
  {
    var rest := s[..i] + s[i + 1..];
    MergeCyclingExistingShape(zone, s, date, first, i);
    MergeCyclingExistingShape(zone, s, date, second, i);
    OthersOffDay(zone, s, date, laterDate, i);
    RemoveAtSorted(s, i);
    IsSameDayEquivalence(zone, date, laterDate, s[i].date);
    MergeOntoInserted(zone, rest, s[i].(cycledDistance := first), laterDate, second);
  }

  /** With at most one record on the date, the records other than the one found all lie on other dates. */
  lemma OthersOffDay(zone: Zone, s: seq<StepStatisticDay>, date: int, laterDate: int, i: nat)
    requires IsSameDay(zone, date, laterDate)
    requires AtMostOneOnDay(zone, s, date)
    requires FindSameDay(zone, s, date) == Some(i)
    ensures var rest := s[..i] + s[i + 1..];
      forall j :: 0 <= j < |rest| ==> !IsSameDay(zone, laterDate, rest[j].date)
  {
    IsSameDayEquivalence(zone, date, laterDate, date);
    var rest := s[..i] + s[i + 1..];
    forall j | 0 <= j < |rest| ensures !IsSameDay(zone, laterDate, rest[j].date) {
      if j < i {
        assert rest[j] == s[j];
        IsSameDayEquivalence(zone, laterDate, date, rest[j].date);
      } else {
        assert rest[j] == s[j + 1];
        IsSameDayEquivalence(zone, laterDate, date, rest[j].date);
      }
    }
  }

  /** Merging onto a sorted list into which `r` was inserted as the only record of its date replaces `r`'s distance. */
  lemma MergeOntoInserted(zone: Zone, p: seq<StepStatisticDay>, r: StepStatisticDay, date: int, cycledDistance: Option<real>)
    requires SortedByDate(p)
    requires IsSameDay(zone, date, r.date)
    requires forall j :: 0 <= j < |p| ==> !IsSameDay(zone, date, p[j].date)
    ensures MergeCycling(zone, Insert(p, r), date, cycledDistance) == Insert(p, r.(cycledDistance := cycledDistance))
  {
    FindInserted(zone, p, r, date);
    SortByDateAppend(p, r.(cycledDistance := cycledDistance));
  }
}
