/**
 * What a distribution run promises, stated about the plan function that the
 * run is proved to write: where the dates lie, which days receive tasks, the
 * order along the queue, the capacity of each day, and when a task is left for
 * a later day.
 *
 * Most facts are proved for a run standing at queue position `i` on day `day`
 * with `left` days allowed, and then read off for a whole run from its start
 * day with the full 730 days.
 */
module SchedulerProperties {
  import opened Wrappers
  import opened Scheduler

  /** The sum of the durations at positions lo .. hi-1. */
  function SumIn(q: seq<int>, lo: nat, hi: nat): int
    requires lo <= hi <= |q|
    decreases hi - lo
  {
    if lo == hi then 0 else q[lo] + SumIn(q, lo + 1, hi)
  }

  /** The minutes the dates `p` put on day `d` among positions lo .. hi-1. */
  function LoadIn(q: seq<int>, p: seq<Option<int>>, lo: nat, hi: nat, d: int): int
    requires lo <= hi <= |q| == |p|
    decreases hi - lo
  {
    if lo == hi then 0 else (if p[lo] == Some(d) then q[lo] else 0) + LoadIn(q, p, lo + 1, hi, d)
  }

  /** How many of the positions lo .. hi-1 the dates `p` put on day `d`. */
  function CountIn(p: seq<Option<int>>, lo: nat, hi: nat, d: int): nat
    requires lo <= hi <= |p|
    decreases hi - lo
  {
    if lo == hi then 0 else (if p[lo] == Some(d) then 1 else 0) + CountIn(p, lo + 1, hi, d)
  }

  /** The minutes a whole plan puts on day `d`. */
  function LoadOn(q: seq<int>, p: seq<Option<int>>, d: int): int
    requires |q| == |p|
  {
    LoadIn(q, p, 0, |q|, d)
  }

  /** How many tasks a whole plan puts on day `d`. */
  function CountOn(p: seq<Option<int>>, d: int): nat
  {
    CountIn(p, 0, |p|, d)
  }

  /** Every duration of the queue is a positive number of minutes. */
  predicate Positive(q: seq<int>)
  {
    forall k :: 0 <= k < |q| ==> q[k] > 0
  }

  /** The load and the count of a range are those of its two halves added. */
  lemma {:induction false} LoadInSplit(q: seq<int>, p: seq<Option<int>>, lo: nat, mid: nat, hi: nat, d: int)
    requires lo <= mid <= hi <= |q| == |p|
    ensures LoadIn(q, p, lo, hi, d) == LoadIn(q, p, lo, mid, d) + LoadIn(q, p, mid, hi, d)
    ensures CountIn(p, lo, hi, d) == CountIn(p, lo, mid, d) + CountIn(p, mid, hi, d)
    decreases mid - lo
  {
    if lo < mid {
      LoadInSplit(q, p, lo + 1, mid, hi, d);
    }
  }

  /** A range whose tasks are all dated `day` carries their sum and their number on `day`, and nothing elsewhere. */
  lemma {:induction false} LoadInUniform(q: seq<int>, p: seq<Option<int>>, lo: nat, hi: nat, day: int, d: int)
    requires lo <= hi <= |q| == |p|
    requires forall k :: lo <= k < hi ==> p[k] == Some(day)
    ensures LoadIn(q, p, lo, hi, d) == if d == day then SumIn(q, lo, hi) else 0
    ensures CountIn(p, lo, hi, d) == if d == day then hi - lo else 0
    decreases hi - lo
  {
    if lo < hi {
      LoadInUniform(q, p, lo + 1, hi, day, d);
    }
  }

  /** A range that dates no task on `d` carries no load on `d`. */
  lemma {:induction false} LoadInAbsent(q: seq<int>, p: seq<Option<int>>, lo: nat, hi: nat, d: int)
    requires lo <= hi <= |q| == |p|
    requires forall k :: lo <= k < hi ==> p[k] != Some(d)
    ensures LoadIn(q, p, lo, hi, d) == 0 && CountIn(p, lo, hi, d) == 0
    decreases hi - lo
  {
    if lo < hi {
      LoadInAbsent(q, p, lo + 1, hi, d);
    }
  }

  /** The sum of positive durations is not negative. */
  lemma {:induction false} SumNonNegative(q: seq<int>, lo: nat, hi: nat)
    requires lo <= hi <= |q| && Positive(q)
    ensures 0 <= SumIn(q, lo, hi)
    decreases hi - lo
  {
    if lo < hi {
      SumNonNegative(q, lo + 1, hi);
    }
  }

  /**
   * The greedy fill of one day stays within the budget, except that a single
   * task larger than an empty day is placed on it alone.
   */
  lemma {:induction false} FillCapacity(q: seq<int>, i: nat, cap: int, used: int)
    requires i <= |q| && Positive(q) && 0 <= used <= cap
    ensures var n := Fill(q, i, cap, used);
            used + SumIn(q, i, i + n) <= cap || (n == 1 && used == 0 && q[i] > cap)
    decreases |q| - i
  {
    if i < |q| && used + q[i] <= cap {
      FillCapacity(q, i + 1, cap, used + q[i]);
    }
  }

  /**
   * A fill that stops before the end of the queue stops on a day that carries
   * load, at the first task that would overflow it.
   */
  lemma {:induction false} FillDefers(q: seq<int>, i: nat, cap: int, used: int)
    requires i <= |q| && Positive(q) && 0 <= used
    ensures var n := Fill(q, i, cap, used);
            i + n < |q| ==> 0 < used + SumIn(q, i, i + n) && cap < used + SumIn(q, i, i + n) + q[i + n]
    decreases |q| - i
  {
    if i < |q| && used + q[i] <= cap {
      FillDefers(q, i + 1, cap, used + q[i]);
    }
  }

  /** A first task larger than the whole day is placed on that day, and alone. */
  lemma FillForcesOversized(q: seq<int>, i: nat, cap: int)
    requires i < |q| && cap < q[i]
    ensures Fill(q, i, cap, 0) == 1
  {
  }

  /** A run of tasks the day can still hold is taken whole: the fill never stops early. */
  lemma {:induction false} FillTakesFittingPrefix(q: seq<int>, i: nat, cap: int, used: int, m: nat)
    requires i + m <= |q| && used + SumIn(q, i, i + m) <= cap
    requires Positive(q) && 0 <= used
    ensures m <= Fill(q, i, cap, used)
    decreases m
  {
    if m > 0 {
      SumNonNegative(q, i + 1, i + m);
      FillTakesFittingPrefix(q, i + 1, cap, used + q[i], m - 1);
    }
  }

  /** The dates a run writes lie between the day it stands on and the last day it may reach. */
  lemma {:induction false} Window(minutes: map<int, int>, q: seq<int>, i: nat, day: int, left: nat, k: int)
    requires i <= k < |q| && DateOf(minutes, q, i, day, left, k).Some?
    ensures day <= DateOf(minutes, q, i, day, left, k).value < day + left
    decreases left
  {
    var n := Taken(minutes, q, i, day);
    if k >= i + n {
      Window(minutes, q, i + n, day + 1, left - 1, k);
    }
  }

  /** A run dates no task on a day whose weekday has no positive budget. */
  lemma {:induction false} OnlyOpenDays(minutes: map<int, int>, q: seq<int>, i: nat, day: int, left: nat, k: int)
    requires i <= k < |q| && DateOf(minutes, q, i, day, left, k).Some?
    ensures Budget(minutes, DateOf(minutes, q, i, day, left, k).value) > 0
    decreases left
  {
    var n := Taken(minutes, q, i, day);
    if k >= i + n {
      OnlyOpenDays(minutes, q, i + n, day + 1, left - 1, k);
    }
  }

  /** Whenever a task is dated, every earlier task is dated too, and no later than it. */
  lemma {:induction false} Ordered(minutes: map<int, int>, q: seq<int>, i: nat, day: int, left: nat, j: int, k: int)
    requires i <= j <= k < |q| && DateOf(minutes, q, i, day, left, k).Some?
    ensures DateOf(minutes, q, i, day, left, j).Some?
    ensures DateOf(minutes, q, i, day, left, j).value <= DateOf(minutes, q, i, day, left, k).value
    decreases left
  {
    var n := Taken(minutes, q, i, day);
    if k >= i + n {
      Window(minutes, q, i + n, day + 1, left - 1, k);
      if j >= i + n {
        Ordered(minutes, q, i + n, day + 1, left - 1, j, k);
      }
    }
  }

  /** A run that first dates the task at its position on day `b` found no budget on any day before `b`. */
  lemma {:induction false} FirstDay(minutes: map<int, int>, q: seq<int>, i: nat, day: int, left: nat, e: int)
    requires i < |q| && DateOf(minutes, q, i, day, left, i).Some?
    requires day <= e < DateOf(minutes, q, i, day, left, i).value
    ensures Budget(minutes, e) <= 0
    decreases left
  {
    var n := Taken(minutes, q, i, day);
    if n == 0 && e > day {
      FirstDay(minutes, q, i, day + 1, left - 1, e);
    }
  }

  /**
   * When task k is dated later than task k-1, no day strictly between their
   * dates had a budget.
   */
  lemma {:induction false} SkipsOnlyClosedDays(minutes: map<int, int>, q: seq<int>, i: nat, day: int, left: nat,
                                               k: int, a: int, b: int, e: int)
    requires i < k < |q|
    requires DateOf(minutes, q, i, day, left, k - 1) == Some(a) && DateOf(minutes, q, i, day, left, k) == Some(b)
    requires a < e < b
    ensures Budget(minutes, e) <= 0
    decreases left
  {
    var n := Taken(minutes, q, i, day);
    if k == i + n {
      FirstDay(minutes, q, i + n, day + 1, left - 1, e);
    } else if k > i + n {
      SkipsOnlyClosedDays(minutes, q, i + n, day + 1, left - 1, k, a, b, e);
    }
  }

  /**
   * The load a run puts on day `d` from position `i` on: the tasks of the day
   * it stands on when `d` is that day, and otherwise the load of the rest of
   * the run, which continues from position `next` on the day after.
   */
  lemma StepLoad(minutes: map<int, int>, q: seq<int>, p: seq<Option<int>>,
                 i: nat, next: nat, day: int, left: nat, d: int)
    requires i < |q| == |p| && 0 < left
    requires next == i + Taken(minutes, q, i, day)
    requires forall k :: i <= k < |q| ==> p[k] == DateOf(minutes, q, i, day, left, k)
    ensures forall k :: next <= k < |q| ==> p[k] == DateOf(minutes, q, next, day + 1, left - 1, k)
    ensures LoadIn(q, p, i, |q|, d) == if d == day then SumIn(q, i, next) else LoadIn(q, p, next, |q|, d)
    ensures CountIn(p, i, |q|, d) == if d == day then next - i else CountIn(p, next, |q|, d)
  {
    AdvanceDay(minutes, q, i, next, day, left, day + 1, left - 1);
    LoadInSplit(q, p, i, next, |q|, d);
    LoadInUniform(q, p, i, next, day, d);
    if d == day {
      forall k | next <= k < |q|
        ensures p[k] != Some(d)
      {
        if p[k].Some? {
          Window(minutes, q, next, day + 1, left - 1, k);
        }
      }
      LoadInAbsent(q, p, next, |q|, d);
    }
  }

  /**
   * Capacity of every day of a run: a day that receives tasks receives at most
   * its budget in minutes, unless it receives exactly one task.
   */
  lemma {:induction false} Capacity(minutes: map<int, int>, q: seq<int>, p: seq<Option<int>>,
                                    i: nat, day: int, left: nat, d: int)
    requires i <= |q| == |p| && Positive(q)
    requires forall k :: i <= k < |q| ==> p[k] == DateOf(minutes, q, i, day, left, k)
    ensures 0 < CountIn(p, i, |q|, d) ==>
              LoadIn(q, p, i, |q|, d) <= Budget(minutes, d) || CountIn(p, i, |q|, d) == 1
    decreases left
  {
    if i < |q| && left == 0 {
      LoadInAbsent(q, p, i, |q|, d);
    } else if i < |q| {
      var next := i + Taken(minutes, q, i, day);
      StepLoad(minutes, q, p, i, next, day, left, d);
      if d != day {
        Capacity(minutes, q, p, next, day + 1, left - 1, d);
      } else if Budget(minutes, day) > 0 {
        FillCapacity(q, i, Budget(minutes, day), 0);
      }
    }
  }

  /**
   * When task k is dated `b`, later than the date `a` of task k-1, the day `a`
   * already carried load and could not hold task k as well.
   */
  lemma {:induction false} Defers(minutes: map<int, int>, q: seq<int>, p: seq<Option<int>>,
                                  i: nat, day: int, left: nat, k: int, a: int, b: int)
    requires i < k < |q| == |p| && Positive(q)
    requires forall k' :: i <= k' < |q| ==> p[k'] == DateOf(minutes, q, i, day, left, k')
    requires p[k - 1] == Some(a) && p[k] == Some(b) && a < b
    ensures 0 < LoadIn(q, p, i, |q|, a)
    ensures Budget(minutes, a) < LoadIn(q, p, i, |q|, a) + q[k]
    decreases left
  {
    var next := i + Taken(minutes, q, i, day);
    StepLoad(minutes, q, p, i, next, day, left, a);
    if k == next {
      assert a == day && Budget(minutes, day) > 0;
      FillDefers(q, i, Budget(minutes, day), 0);
    } else {
      assert next < k;
      Window(minutes, q, next, day + 1, left - 1, k - 1);
      Defers(minutes, q, p, next, day + 1, left - 1, k, a, b);
    }
  }

  /**
   * When every weekday has a positive budget and no more tasks remain than
   * days allowed, every remaining task receives a date.
   */
  lemma {:induction false} Complete(minutes: map<int, int>, q: seq<int>, i: nat, day: int, left: nat, k: int)
    requires forall wd :: 0 <= wd < 7 ==> WeekDayMinutes(minutes, wd) > 0
    requires i <= k < |q| && |q| - i <= left
    ensures DateOf(minutes, q, i, day, left, k).Some?
    decreases left
  {
    var n := Taken(minutes, q, i, day);
    if k >= i + n {
      Complete(minutes, q, i + n, day + 1, left - 1, k);
    }
  }

  /** A whole run dates tasks only within the 730 days from its start day. */
  lemma PlanWithinTwoYears(minutes: map<int, int>, q: seq<int>, startDay: int, k: int)
    requires 0 <= k < |q| && Plan(minutes, q, startDay)[k].Some?
    ensures startDay <= Plan(minutes, q, startDay)[k].value <= startDay + 729
  {
    Window(minutes, q, 0, startDay, MAX_DAYS, k);
  }

  /** A whole run dates tasks only on weekdays with a positive budget. */
  lemma PlanOnlyOpenDays(minutes: map<int, int>, q: seq<int>, startDay: int, k: int)
    requires 0 <= k < |q| && Plan(minutes, q, startDay)[k].Some?
    ensures Budget(minutes, Plan(minutes, q, startDay)[k].value) > 0
  {
    OnlyOpenDays(minutes, q, 0, startDay, MAX_DAYS, k);
  }

  /**
   * The dated tasks of a whole run are a prefix of the queue, and their dates
   * do not decrease along it.
   */
  lemma PlanOrdered(minutes: map<int, int>, q: seq<int>, startDay: int, j: int, k: int)
    requires 0 <= j <= k < |q| && Plan(minutes, q, startDay)[k].Some?
    ensures Plan(minutes, q, startDay)[j].Some?
    ensures Plan(minutes, q, startDay)[j].value <= Plan(minutes, q, startDay)[k].value
  {
    Ordered(minutes, q, 0, startDay, MAX_DAYS, j, k);
  }

  /** The first task of a whole run goes to the first day from the start that has a budget. */
  lemma PlanFirstDay(minutes: map<int, int>, q: seq<int>, startDay: int, e: int)
    requires 0 < |q| && Plan(minutes, q, startDay)[0].Some?
    requires startDay <= e < Plan(minutes, q, startDay)[0].value
    ensures Budget(minutes, e) <= 0
  {
    FirstDay(minutes, q, 0, startDay, MAX_DAYS, e);
  }

  /** Between the dates of two neighbouring tasks of a whole run lie only days without budget. */
  lemma PlanSkipsOnlyClosedDays(minutes: map<int, int>, q: seq<int>, startDay: int, k: int, e: int)
    requires 0 < k < |q|
    requires Plan(minutes, q, startDay)[k - 1].Some? && Plan(minutes, q, startDay)[k].Some?
    requires Plan(minutes, q, startDay)[k - 1].value < e < Plan(minutes, q, startDay)[k].value
    ensures Budget(minutes, e) <= 0
  {
    var p := Plan(minutes, q, startDay);
    SkipsOnlyClosedDays(minutes, q, 0, startDay, MAX_DAYS, k, p[k - 1].value, p[k].value, e);
  }

  /**
   * Capacity of a whole run: a day that receives tasks receives at most its
   * budget, unless it receives a single task.
   */
  lemma PlanCapacity(minutes: map<int, int>, q: seq<int>, startDay: int, d: int)
    requires Positive(q)
    ensures var p := Plan(minutes, q, startDay);
            0 < CountOn(p, d) ==> LoadOn(q, p, d) <= Budget(minutes, d) || CountOn(p, d) == 1
  {
    Capacity(minutes, q, Plan(minutes, q, startDay), 0, startDay, MAX_DAYS, d);
  }

  /**
   * A whole run moves task k to a later day than task k-1 only when the day of
   * task k-1 already carries load and would overflow with task k.
   */
  lemma PlanDefers(minutes: map<int, int>, q: seq<int>, startDay: int, k: int)
    requires Positive(q) && 0 < k < |q|
    requires Plan(minutes, q, startDay)[k - 1].Some? && Plan(minutes, q, startDay)[k].Some?
    requires Plan(minutes, q, startDay)[k - 1].value < Plan(minutes, q, startDay)[k].value
    ensures var p := Plan(minutes, q, startDay);
            0 < LoadOn(q, p, p[k - 1].value) && Budget(minutes, p[k - 1].value) < LoadOn(q, p, p[k - 1].value) + q[k]
  {
    var p := Plan(minutes, q, startDay);
    Defers(minutes, q, p, 0, startDay, MAX_DAYS, k, p[k - 1].value, p[k].value);
  }

  /**
   * With a positive budget on every weekday, a queue of at most 730 tasks is
   * dated completely.
   */
  lemma PlanComplete(minutes: map<int, int>, q: seq<int>, startDay: int, k: int)
    requires forall wd :: 0 <= wd < 7 ==> WeekDayMinutes(minutes, wd) > 0
    requires |q| <= MAX_DAYS && 0 <= k < |q|
    ensures Plan(minutes, q, startDay)[k].Some?
  {
    Complete(minutes, q, 0, startDay, MAX_DAYS, k);
  }

  /**
   * Past the first task a run does not reach, every stored date is the one the
   * task had before the run.
   */
  lemma UnreachedTailKept(minutes: map<int, int>, q: seq<int>, startDay: int, prior: seq<Option<int>>, k: int)
    requires |prior| == |q| && 0 <= k < |q| && Plan(minutes, q, startDay)[k] == None
    ensures forall j :: k <= j < |q| ==> Overlay(prior, Plan(minutes, q, startDay))[j] == prior[j]
  {
    var p := Plan(minutes, q, startDay);
    forall j | k <= j < |q|
      ensures p[j] == None
    {
      if p[j].Some? {
        PlanOrdered(minutes, q, startDay, k, j);
      }
    }
  }

  /**
   * Recalculating twice on unchanged inputs gives the dates the first
   * recalculation gave: the second run writes the same plan over them.
   */
  lemma RecalculateTwice(minutes: map<int, int>, q: seq<int>, today: int, prior: seq<Option<int>>)
    requires |prior| == |q|
    ensures var once := Overlay(prior, Plan(minutes, q, today));
            Overlay(once, Plan(minutes, q, today)) == once
  {
  }

  /** A single task longer than the only open day still receives that day. */
  lemma OversizedTaskStillPlaced()
    ensures Plan(AvailabilityMap([Availability(1, 1)]), [500], 19723) == [Some(19723)]
  {
    var avail := [Availability(1, 1)];
    assert avail[..0] == [];
    var minutes := AvailabilityMap(avail);
    assert minutes == map[1 := 60];
    assert WeekDay(19723) == 1;
    assert DateOf(minutes, [500], 0, 19723, MAX_DAYS, 0) == Some(19723);
  }

  /**
   * A week that opens with one hour on Monday, none on Tuesday and two on
   * Wednesday (2024-01-01, day 19723, is a Monday): tasks of 40, 50 and 90
   * minutes go to Monday, Wednesday, and the Monday after.
   */
  lemma MondayTuesdayWednesday()
    ensures Plan(AvailabilityMap([Availability(1, 1), Availability(2, 0), Availability(3, 2)]), [40, 50, 90], 19723)
            == [Some(19723), Some(19725), Some(19730)]
  {
    var avail := [Availability(1, 1), Availability(2, 0), Availability(3, 2)];
    assert avail[..2] == [Availability(1, 1), Availability(2, 0)];
    assert avail[..2][..1] == [Availability(1, 1)] && avail[..2][..1][..0] == [];
    assert AvailabilityMap(avail[..2][..1]) == map[1 := 60];
    assert AvailabilityMap(avail[..2]) == map[1 := 60, 2 := 0];
    assert AvailabilityMap(avail) == map[1 := 60, 2 := 0, 3 := 120];
    MondayTuesdayWednesdayDates();
  }

  /** The three dates of the week above, computed one day of the run at a time. */
  lemma MondayTuesdayWednesdayDates()
    ensures var minutes := map[1 := 60, 2 := 0, 3 := 120];
            DateOf(minutes, [40, 50, 90], 0, 19723, MAX_DAYS, 0) == Some(19723) &&
            DateOf(minutes, [40, 50, 90], 0, 19723, MAX_DAYS, 1) == Some(19725) &&
            DateOf(minutes, [40, 50, 90], 0, 19723, MAX_DAYS, 2) == Some(19730)
  {
    var minutes := map[1 := 60, 2 := 0, 3 := 120];
    var q := [40, 50, 90];
    assert WeekDay(19723) == 1 && Fill(q, 0, 60, 0) == 1;
    assert WeekDay(19724) == 2 && WeekDay(19725) == 3 && Fill(q, 1, 120, 0) == 1;
    assert DateOf(minutes, q, 1, 19724, MAX_DAYS - 1, 1) == DateOf(minutes, q, 1, 19725, MAX_DAYS - 2, 1);
    assert DateOf(minutes, q, 2, 19726, MAX_DAYS - 3, 2) == Some(19730) by {
      assert WeekDay(19726) == 4 && WeekDay(19727) == 5 && WeekDay(19728) == 6 && WeekDay(19729) == 0;
      assert WeekDay(19730) == 1 && Fill(q, 2, 60, 0) == 1;
      assert DateOf(minutes, q, 2, 19726, MAX_DAYS - 3, 2) == DateOf(minutes, q, 2, 19727, MAX_DAYS - 4, 2);
      assert DateOf(minutes, q, 2, 19727, MAX_DAYS - 4, 2) == DateOf(minutes, q, 2, 19728, MAX_DAYS - 5, 2);
      assert DateOf(minutes, q, 2, 19728, MAX_DAYS - 5, 2) == DateOf(minutes, q, 2, 19729, MAX_DAYS - 6, 2);
      assert DateOf(minutes, q, 2, 19729, MAX_DAYS - 6, 2) == DateOf(minutes, q, 2, 19730, MAX_DAYS - 7, 2);
    }
    assert DateOf(minutes, q, 0, 19723, MAX_DAYS, 2) == DateOf(minutes, q, 1, 19724, MAX_DAYS - 1, 2);
    assert DateOf(minutes, q, 1, 19724, MAX_DAYS - 1, 2) == DateOf(minutes, q, 1, 19725, MAX_DAYS - 2, 2);
  }

  /**
   * The budget of a weekday comes from its last row: the dictionary holds m
   * for `wd` exactly when some row names `wd` with m minutes and no later row
   * names it.
   */
  lemma {:induction false} AvailabilityMapLastRow(avail: seq<Availability>, wd: int, m: int)
    ensures (wd in AvailabilityMap(avail) && AvailabilityMap(avail)[wd] == m) <==>
            exists i :: 0 <= i < |avail| && avail[i].weekDay == wd && m == avail[i].hoursPerDay * 60 &&
                        forall j :: i < j < |avail| ==> avail[j].weekDay != wd
    decreases |avail|
  {
    if avail != [] {
      var last := |avail| - 1;
      var init := avail[..last];
      AvailabilityMapLastRow(init, wd, m);
      if avail[last].weekDay != wd {
        if wd in AvailabilityMap(avail) && AvailabilityMap(avail)[wd] == m {
          var i :| 0 <= i < |init| && init[i].weekDay == wd && m == init[i].hoursPerDay * 60 &&
                   forall j :: i < j < |init| ==> init[j].weekDay != wd;
          assert avail[i] == init[i];
          assert forall j :: i < j < |avail| ==> avail[j].weekDay != wd by {
            forall j | i < j < |avail|
              ensures avail[j].weekDay != wd
            {
              if j < last {
                assert avail[j] == init[j];
              }
            }
          }
        }
        if exists i :: 0 <= i < |avail| && avail[i].weekDay == wd && m == avail[i].hoursPerDay * 60 &&
                       forall j :: i < j < |avail| ==> avail[j].weekDay != wd {
          var i :| 0 <= i < |avail| && avail[i].weekDay == wd && m == avail[i].hoursPerDay * 60 &&
                   forall j :: i < j < |avail| ==> avail[j].weekDay != wd;
          assert i < last && avail[i] == init[i];
          assert forall j :: i < j < |init| ==> init[j].weekDay != wd by {
            forall j | i < j < |init|
              ensures init[j].weekDay != wd
            {
              assert init[j] == avail[j];
            }
          }
        }
      }
    }
  }

  /** A weekday that no row names has no entry, hence a budget of 0 minutes. */
  lemma {:induction false} NoRowNoMinutes(avail: seq<Availability>, wd: int)
    requires forall i :: 0 <= i < |avail| ==> avail[i].weekDay != wd
    ensures wd !in AvailabilityMap(avail) && WeekDayMinutes(AvailabilityMap(avail), wd) == 0
    decreases |avail|
  {
    if avail != [] {
      var init := avail[..|avail| - 1];
      assert forall i :: 0 <= i < |init| ==> init[i] == avail[i];
      NoRowNoMinutes(init, wd);
    }
  }
}
