/**
 * The task distribution engine of the scheduling service: a learner's pending
 * study tasks, in queue order, are packed greedily into the daily minute budget
 * that the learner's weekly availability grants, walking forward one calendar
 * day at a time for at most two years.
 *
 * Calendar days are integer day numbers counted from 1970-01-01 (day 0, a
 * Thursday), in the server's local time; a start instant is represented by the
 * number of the day it falls on, which is what taking the start of that day keeps.
 */
module Scheduler {
  import opened Wrappers

  /** A stored availability row: `hoursPerDay` hours of study on `weekDay` (0 = Sunday .. 6 = Saturday). */
  datatype Availability = Availability(weekDay: int, hoursPerDay: int)

  /** How a distribution run ended. */
  datatype Status = Distributed | NoAvailabilitySet

  /** The safety bound on the number of calendar days a run walks through: two years of 365 days. */
  const MAX_DAYS: nat := 365 * 2

  /** The weekday of a day number, 0 = Sunday, as the date library reports it. */
  function WeekDay(day: int): (wd: int)
    ensures 0 <= wd < 7
  {
    (day + 4) % 7
  }

  /**
   * The availability dictionary from weekday to minutes, filled row by row: a
   * later row for the same weekday overwrites an earlier one.
   */
  function AvailabilityMap(avail: seq<Availability>): map<int, int>
  {
    if avail == [] then map[]
    else
      var last := avail[|avail| - 1];
      AvailabilityMap(avail[..|avail| - 1])[last.weekDay := last.hoursPerDay * 60]
  }

  /** The daily budget in minutes of weekday `wd`: 0 for a weekday without an entry. */
  function WeekDayMinutes(minutes: map<int, int>, wd: int): int
  {
    if wd in minutes then minutes[wd] else 0
  }

  /** The budget of calendar day `day`. */
  function Budget(minutes: map<int, int>, day: int): int
  {
    WeekDayMinutes(minutes, WeekDay(day))
  }

  /**
   * How many tasks from position `i` of the queue `q` go onto a day with budget
   * `cap` that already carries `used` minutes: a task that fits is placed and
   * the next one is tried; a task that does not fit is still placed, alone,
   * when the day is empty; otherwise the day is closed.
   */
  function Fill(q: seq<int>, i: nat, cap: int, used: int): (n: nat)
    requires i <= |q|
    ensures i + n <= |q|
    ensures i < |q| && used == 0 ==> 1 <= n
    decreases |q| - i
  {
    if i == |q| then 0
    else if used + q[i] <= cap then 1 + Fill(q, i + 1, cap, used + q[i])
    else if used == 0 then 1
    else 0
  }

  /** How many tasks from position `i` on the day `day` takes: none on a day without budget. */
  function Taken(minutes: map<int, int>, q: seq<int>, i: nat, day: int): (n: nat)
    requires i <= |q|
    ensures i + n <= |q|
    ensures i < |q| && Budget(minutes, day) > 0 ==> 1 <= n
  {
    if Budget(minutes, day) > 0 then Fill(q, i, Budget(minutes, day), 0) else 0
  }

  /**
   * The date a run writes for task k when it stands on day `day` at queue
   * position `i`, with `left` days still allowed; None when the run ends before
   * reaching task k.
   */
  function DateOf(minutes: map<int, int>, q: seq<int>, i: nat, day: int, left: nat, k: int): Option<int>
    requires i <= k < |q|
    decreases left
  {
    if left == 0 then None
    else
      var n := Taken(minutes, q, i, day);
      if k < i + n then Some(day) else DateOf(minutes, q, i + n, day + 1, left - 1, k)
  }

  /** The dates a whole run starting on `startDay` writes, task by task. */
  function Plan(minutes: map<int, int>, q: seq<int>, startDay: int): (p: seq<Option<int>>)
    ensures |p| == |q|
    ensures forall k :: 0 <= k < |q| ==> p[k] == DateOf(minutes, q, 0, startDay, MAX_DAYS, k)
  {
    seq(|q|, k requires 0 <= k < |q| => DateOf(minutes, q, 0, startDay, MAX_DAYS, k))
  }

  /** The stored dates after writing `plan` over `prior`: a run writes dates and never clears one. */
  function Overlay(prior: seq<Option<int>>, plan: seq<Option<int>>): (r: seq<Option<int>>)
    requires |prior| == |plan|
    ensures |r| == |prior|
  {
    seq(|prior|, k requires 0 <= k < |prior| => if plan[k].Some? then plan[k] else prior[k])
  }

  /** Fills the dictionary from weekday to minutes, one availability row at a time. */
  method BuildAvailabilityMap(avail: seq<Availability>) returns (minutes: map<int, int>)
    ensures minutes == AvailabilityMap(avail)
  {
    minutes := map[];
    var i := 0;
    while i < |avail|
      invariant 0 <= i <= |avail|
      invariant minutes == AvailabilityMap(avail[..i])
    {
      var a := avail[i];
      minutes := minutes[a.weekDay := a.hoursPerDay * 60];
      assert avail[..i + 1][..i] == avail[..i];
      i := i + 1;
    }
    assert avail[..i] == avail;
  }

  /**
   * One step of a run standing on day `day` at position `i`: the tasks up to
   * `next` get that day, and the later ones get what the run from the day after
   * gives them.
   */
  lemma AdvanceDay(minutes: map<int, int>, q: seq<int>, i: nat, next: nat, day: int, left: nat,
                   nextDay: int, nextLeft: nat)
    requires i < |q| && 0 < left
    requires next == i + Taken(minutes, q, i, day)
    requires nextDay == day + 1 && nextLeft == left - 1
    ensures forall k :: i <= k < next ==> DateOf(minutes, q, i, day, left, k) == Some(day)
    ensures forall k :: next <= k < |q| ==>
              DateOf(minutes, q, i, day, left, k) == DateOf(minutes, q, next, nextDay, nextLeft, k)
  {
  }

  /** When a run stops, the stored dates are the ones it wrote over the ones it found. */
  lemma FinishRun(minutes: map<int, int>, q: seq<int>, startDay: int, prior: seq<Option<int>>,
                  final: seq<Option<int>>, i: nat, day: int, left: nat)
    requires i <= |q| == |prior| == |final|
    requires i == |q| || left == 0
    requires forall k :: i <= k < |q| ==>
               DateOf(minutes, q, 0, startDay, MAX_DAYS, k) == DateOf(minutes, q, i, day, left, k)
    requires forall k :: 0 <= k < i ==>
               final[k] == DateOf(minutes, q, 0, startDay, MAX_DAYS, k) && final[k].Some?
    requires forall k :: i <= k < |final| ==> final[k] == prior[k]
    ensures final == Overlay(prior, Plan(minutes, q, startDay))
  {
  }

  /**
   * The inner loop of a run: tasks from index `first` on are placed on day `day`,
   * whose budget is `cap`, for as long as Fill says; returns the index of the
   * first task left for a later day.
   */
  method FillDay(durations: seq<int>, dates: array<Option<int>>, first: nat, cap: int, day: int)
    returns (next: nat)
    requires dates.Length == |durations| && first <= |durations|
    modifies dates
    ensures next == first + Fill(durations, first, cap, 0)
    ensures forall k :: 0 <= k < first ==> dates[k] == old(dates[k])
    ensures forall k :: first <= k < next ==> dates[k] == Some(day)
    ensures forall k :: next <= k < dates.Length ==> dates[k] == old(dates[k])
  {
    var currentTaskIndex := first;
    var minutesUsedToday := 0;
    while currentTaskIndex < |durations|
      invariant first <= currentTaskIndex <= |durations|
      invariant (currentTaskIndex - first) + Fill(durations, currentTaskIndex, cap, minutesUsedToday)
                == Fill(durations, first, cap, 0)
      invariant forall k :: 0 <= k < first ==> dates[k] == old(dates[k])
      invariant forall k :: first <= k < currentTaskIndex ==> dates[k] == Some(day)
      invariant forall k :: currentTaskIndex <= k < dates.Length ==> dates[k] == old(dates[k])
    {
      var taskDuration := durations[currentTaskIndex];
      if minutesUsedToday + taskDuration <= cap {
        dates[currentTaskIndex] := Some(day);
        minutesUsedToday := minutesUsedToday + taskDuration;
        currentTaskIndex := currentTaskIndex + 1;
      } else {
        if minutesUsedToday == 0 {
          // larger than the whole day: placed anyway, so that it cannot block the queue
          dates[currentTaskIndex] := Some(day);
          currentTaskIndex := currentTaskIndex + 1;
        }
        return currentTaskIndex;
      }
    }
    return currentTaskIndex;
  }

  /**
   * One pass of the outer loop: the day `day` gets its tasks from index `first`
   * on when its weekday has a budget, and none otherwise. Returns the index of
   * the first task left for a later day, the day after, and how many days are
   * still allowed then.
   */
  method ScheduleDay(minutes: map<int, int>, durations: seq<int>, dates: array<Option<int>>,
                     first: nat, day: int, ghost left: nat)
    returns (next: nat, nextDay: int, ghost nextLeft: nat)
    requires dates.Length == |durations| && first < |durations| && 0 < left
    modifies dates
    ensures next == first + Taken(minutes, durations, first, day)
    ensures nextDay == day + 1 && nextLeft == left - 1
    ensures forall k :: 0 <= k < first ==> dates[k] == old(dates[k])
    ensures forall k :: first <= k < next ==> dates[k] == Some(day)
    ensures forall k :: next <= k < dates.Length ==> dates[k] == old(dates[k])
  {
    var dayOfWeek := WeekDay(day);
    var dailyMinutesAvailable := if dayOfWeek in minutes then minutes[dayOfWeek] else 0;
    next := first;
    if dailyMinutesAvailable > 0 {
      next := FillDay(durations, dates, first, dailyMinutesAvailable, day);
    }
    nextDay, nextLeft := day + 1, left - 1;
  }

  /**
   * The day-by-day walk of a run from `startDay`, with the availability
   * dictionary `minutes` already built.
   */
  method WalkDays(minutes: map<int, int>, durations: seq<int>, startDay: int, dates: array<Option<int>>)
    requires dates.Length == |durations|
    modifies dates
    ensures dates[..] == Overlay(old(dates[..]), Plan(minutes, durations, startDay))
  {
    var currentDay := startDay;
    var currentTaskIndex := 0;
    var daysProcessed := 0;
    ghost var left: nat := MAX_DAYS;
    while currentTaskIndex < |durations| && daysProcessed < MAX_DAYS
      invariant 0 <= currentTaskIndex <= |durations|
      invariant 0 <= daysProcessed <= MAX_DAYS && left == MAX_DAYS - daysProcessed
      invariant currentDay == startDay + daysProcessed
      invariant forall k :: 0 <= k < currentTaskIndex ==>
                  dates[k] == DateOf(minutes, durations, 0, startDay, MAX_DAYS, k) && dates[k].Some?
      invariant forall k :: currentTaskIndex <= k < dates.Length ==> dates[k] == old(dates[k])
      invariant forall k :: currentTaskIndex <= k < |durations| ==>
                  DateOf(minutes, durations, 0, startDay, MAX_DAYS, k)
                  == DateOf(minutes, durations, currentTaskIndex, currentDay, left, k)
    {
      ghost var first, day, dayLeft := currentTaskIndex, currentDay, left;
      currentTaskIndex, currentDay, left := ScheduleDay(minutes, durations, dates, currentTaskIndex, currentDay, left);
      AdvanceDay(minutes, durations, first, currentTaskIndex, day, dayLeft, currentDay, left);
      daysProcessed := daysProcessed + 1;
    }
    FinishRun(minutes, durations, startDay, old(dates[..]), dates[..], currentTaskIndex, currentDay, left);
  }

  /**
   * Distributes the pending tasks, whose durations in minutes are `durations` in
   * queue order, from `startDay` on. `dates[k]` is the stored date of the task
   * with duration durations[k]; the run overwrites the dates of the tasks it
   * reaches and leaves the others as they were. A learner without any
   * availability row is refused before any task is looked at.
   */
  method DistributeTasks(avail: seq<Availability>, durations: seq<int>, startDay: int, dates: array<Option<int>>)
    returns (status: Status)
    requires dates.Length == |durations|
    modifies dates
    ensures avail == [] ==> status == NoAvailabilitySet && dates[..] == old(dates[..])
    ensures avail != [] ==> status == Distributed
    ensures avail != [] ==> dates[..] == Overlay(old(dates[..]), Plan(AvailabilityMap(avail), durations, startDay))
  {
    if |avail| == 0 {
      return NoAvailabilitySet;
    }
    var minutes := BuildAvailabilityMap(avail);
    status := Distributed;
    if |durations| == 0 {
      // nothing to schedule
      assert dates[..] == Overlay(old(dates[..]), Plan(minutes, durations, startDay));
      return;
    }
    WalkDays(minutes, durations, startDay, dates);
  }

  /**
   * Recalculation: every pending task, including those already holding a future
   * date, is distributed again from the start of today.
   */
  method RecalculateSchedule(avail: seq<Availability>, durations: seq<int>, today: int, dates: array<Option<int>>)
    returns (status: Status)
    requires dates.Length == |durations|
    modifies dates
    ensures avail == [] ==> status == NoAvailabilitySet && dates[..] == old(dates[..])
    ensures avail != [] ==> status == Distributed
    ensures avail != [] ==> dates[..] == Overlay(old(dates[..]), Plan(AvailabilityMap(avail), durations, today))
  {
    status := DistributeTasks(avail, durations, today, dates);
  }
}
