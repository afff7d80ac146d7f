/**
 * The student's schedule screen: the pomodoro clock face, the tasks grouped
 * by the day they are planned for, the order the days are shown in and which
 * of them are late, and the pomodoro timer with its play/pause and reset
 * buttons.
 */
module StudentScheduler {
  import opened Wrappers
  import opened Decimal
  import opened Sequences

  // ---------------------------------------------------------------- clock face

  /** The quotient of an integer division truncated toward zero, as JavaScript's `%` divides. */
  function JsQuot(a: int, b: int): int
    requires b > 0
  {
    if a >= 0 then a / b else -((-a) / b)
  }

  /**
   * The remainder of JavaScript's `%`: what is left of `a` after taking away
   * the truncated quotient times `b`, so it takes the sign of the dividend.
   */
  function JsRem(a: int, b: int): (r: int)
    requires b > 0
    ensures a == b * JsQuot(a, b) + r
    ensures -b < r < b
    ensures a >= 0 ==> r >= 0
    ensures a < 0 ==> r <= 0
  {
    if a >= 0 then a % b else -((-a) % b)
  }

  /**
   * `formatTime`: the whole minutes (rounded down), a colon, and the
   * remaining seconds, with a "0" before them when they are below 10.
   */
  function FormatTime(seconds: int): string
  {
    var mins := seconds / 60;
    var secs := JsRem(seconds, 60);
    IntToString(mins) + ":" + (if secs < 10 then "0" else "") + IntToString(secs)
  }

  /** A clock face "m:ss" read back as seconds; None for a text that is not one. */
  function ReadClock(t: string): Option<int>
  {
    if |t| >= 4 && t[|t| - 3] == ':' && AllDigits(t[..|t| - 3]) && AllDigits(t[|t| - 2..]) then
      var secs := ParseDigits(t[|t| - 2..]);
      if secs < 60 then Some(ParseDigits(t[..|t| - 3]) * 60 + secs) else None
    else None
  }

  // ---------------------------------------------------------------- tasks by day

  /**
   * A task of the schedule. `scheduledDate` is the local calendar day the
   * task is planned for, as a day number; None when it has no date.
   */
  datatype Task = Task(id: int, scheduledDate: Option<int>)

  /** Some task of `ts` is planned for day `d`. */
  predicate Dated(ts: seq<Task>, d: int)
  {
    exists i :: 0 <= i < |ts| && ts[i].scheduledDate == Some(d)
  }

  /** The tasks of `ts` planned for day `d`, in the order of `ts`. */
  function TasksOn(ts: seq<Task>, d: int): seq<Task>
    decreases |ts|
  {
    if ts == [] then []
    else (if ts[0].scheduledDate == Some(d) then [ts[0]] else []) + TasksOn(ts[1..], d)
  }

  /** Filtering a concatenation filters each part. */
  lemma {:induction false} TasksOnConcat(a: seq<Task>, b: seq<Task>, d: int)
    ensures TasksOn(a + b, d) == TasksOn(a, d) + TasksOn(b, d)
    decreases |a|
  {
    if a == [] {
      assert a + b == b;
    } else {
      var head := if a[0].scheduledDate == Some(d) then [a[0]] else [];
      assert (a + b)[0] == a[0] && (a + b)[1..] == a[1..] + b;
      assert TasksOn(a + b, d) == head + TasksOn(a[1..] + b, d);
      TasksOnConcat(a[1..], b, d);
      assert head + (TasksOn(a[1..], d) + TasksOn(b, d)) == (head + TasksOn(a[1..], d)) + TasksOn(b, d);
    }
  }

  /** One more task is planned for day `d` exactly when it is dated `d`. */
  lemma TasksOnAppend(ts: seq<Task>, t: Task, d: int)
    ensures TasksOn(ts + [t], d) == TasksOn(ts, d) + if t.scheduledDate == Some(d) then [t] else []
    ensures Dated(ts + [t], d) <==> Dated(ts, d) || t.scheduledDate == Some(d)
  {
    TasksOnConcat(ts, [t], d);
    assert [t][1..] == [];
    assert forall i :: 0 <= i < |ts| ==> (ts + [t])[i] == ts[i];
    if t.scheduledDate == Some(d) {
      assert (ts + [t])[|ts|] == t;
    }
  }

  /**
   * The `groupedTasks` reduce: a dictionary from day to the tasks planned for
   * it, in input order; undated tasks are skipped. `days` lists the keys in
   * the order the dictionary gained them.
   */
  method GroupByDay(tasks: seq<Task>) returns (groups: map<int, seq<Task>>, days: seq<int>)
    ensures forall d :: d in groups <==> Dated(tasks, d)
    ensures forall d :: d in groups ==> groups[d] == TasksOn(tasks, d)
    ensures Distinct(days) && forall d :: d in days <==> d in groups
  {
    groups := map[];
    days := [];
    var i := 0;
    while i < |tasks|
      invariant 0 <= i <= |tasks|
      invariant forall d :: d in groups <==> Dated(tasks[..i], d)
      invariant forall d :: d in groups ==> groups[d] == TasksOn(tasks[..i], d)
      invariant Distinct(days) && forall d :: d in days <==> d in groups
    {
      var task := tasks[i];
      assert tasks[..i + 1] == tasks[..i] + [task];
      forall d {
        TasksOnAppend(tasks[..i], task, d);
      }
      if task.scheduledDate.Some? {
        var dateKey := task.scheduledDate.value;
        if dateKey !in groups {
          assert TasksOn(tasks[..i], dateKey) == [] by {
            TasksOnUndated(tasks[..i], dateKey);
          }
          groups := groups[dateKey := []];
          days := days + [dateKey];
        }
        groups := groups[dateKey := groups[dateKey] + [task]];
      }
      i := i + 1;
    }
    assert tasks[..|tasks|] == tasks;
  }

  /** No task is planned for a day to which no task is dated. */
  lemma {:induction false} TasksOnUndated(ts: seq<Task>, d: int)
    ensures TasksOn(ts, d) == [] <==> !Dated(ts, d)
    decreases |ts|
  {
    if ts != [] {
      TasksOnUndated(ts[1..], d);
      assert forall i :: 1 <= i < |ts| ==> ts[1..][i - 1] == ts[i];
      if Dated(ts, d) && ts[0].scheduledDate != Some(d) {
        var i :| 0 <= i < |ts| && ts[i].scheduledDate == Some(d);
        assert ts[1..][i - 1] == ts[i];
      }
    }
  }

  // ---------------------------------------------------------------- day order

  predicate Ascending(s: seq<int>)
  {
    forall i, j :: 0 <= i < j < |s| ==> s[i] <= s[j]
  }

  predicate StrictlyAscending(s: seq<int>)
  {
    forall i, j :: 0 <= i < j < |s| ==> s[i] < s[j]
  }

  /** `x` placed before the first element of `s` that is not below it. */
  function Insert(x: int, s: seq<int>): (r: seq<int>)
    ensures multiset(r) == multiset(s) + multiset{x}
    decreases |s|
  {
    if s == [] || x <= s[0] then [x] + s
    else
      assert s == [s[0]] + s[1..];
      [s[0]] + Insert(x, s[1..])
  }

  /** `sort()` of the dictionary's days, by insertion: the same days, rearranged. */
  function SortDays(days: seq<int>): (r: seq<int>)
    ensures multiset(r) == multiset(days)
    decreases |days|
  {
    if days == [] then []
    else
      assert days == days[..|days| - 1] + [days[|days| - 1]];
      Insert(days[|days| - 1], SortDays(days[..|days| - 1]))
  }

  // ---------------------------------------------------------------- late days

  const SECONDS_PER_DAY: int := 86400

  /**
   * `isPast(day) && !isToday(day)` for the local midnight that starts `day`,
   * at the local time `now` in seconds.
   */
  predicate IsLate(day: int, now: int)
  {
    day * SECONDS_PER_DAY < now && day != now / SECONDS_PER_DAY
  }

  /** One day of the schedule as the screen shows it. */
  datatype DayGroup = DayGroup(day: int, late: bool, tasks: seq<Task>)

  /** The screen's list of days: the dictionary's days in ascending order, each with its tasks and whether it is late. */
  function Agenda(groups: map<int, seq<Task>>, days: seq<int>, now: int): (r: seq<DayGroup>)
    requires forall d :: d in days ==> d in groups
  {
    var sorted := SortDays(days);
    assert forall i :: 0 <= i < |sorted| ==> sorted[i] in multiset(days);
    seq(|sorted|, i requires 0 <= i < |sorted| => DayGroup(sorted[i], IsLate(sorted[i], now), groups[sorted[i]]))
  }

  // ---------------------------------------------------------------- pomodoro

  /** A pomodoro lasts 25 minutes. */
  const POMODORO: int := 25 * 60

  /** The state of the pomodoro widget: seconds left and whether it runs. */
  datatype Clock = Clock(timer: int, isActive: bool)

  /** The effect keeps a one-second interval only while the clock runs and has time left. */
  predicate Counting(c: Clock)
  {
    c.isActive && c.timer > 0
  }

  /** The effect's other branch: a clock that is not counting and shows 0 is stopped, with an alert. */
  predicate Finishes(c: Clock)
  {
    !Counting(c) && c.timer == 0
  }

  /** The state after the effect has run once. */
  function Settle(c: Clock): Clock
  {
    if Finishes(c) then c.(isActive := false) else c
  }

  /** One second: the interval, when there is one, decrements the timer; then the effect runs. */
  function Second(c: Clock): Clock
  {
    Settle(if Counting(c) then c.(timer := c.timer - 1) else c)
  }

  /** `n` seconds. */
  function Run(c: Clock, n: nat): Clock
    decreases n
  {
    if n == 0 then c else Run(Second(c), n - 1)
  }

  /** The play/pause button, then the effect. */
  function Press(c: Clock): Clock
  {
    Settle(c.(isActive := !c.isActive))
  }

  /** The reset button, then the effect. */
  function ResetClock(c: Clock): Clock
  {
    Settle(Clock(POMODORO, false))
  }

  /** The timer never leaves 0..POMODORO. */
  predicate ClockValid(c: Clock)
  {
    0 <= c.timer <= POMODORO
  }

  /**
   * The number of alerts after the state changed to `c`: the effect runs,
   * and runs again as long as it changed the state.
   */
  function AlertsAfterChange(c: Clock): nat
    decreases if c.isActive then 1 else 0
  {
    if !Finishes(c) then 0
    else if Settle(c) == c then 1
    else 1 + AlertsAfterChange(Settle(c))
  }

  /** The pomodoro widget's state, updated in place by its interval, its buttons and its effect. */
  class Pomodoro {
    var timer: int
    var isActive: bool

    function State(): Clock
      reads this
    {
      Clock(timer, isActive)
    }

    constructor()
      ensures State() == Clock(POMODORO, false)
    {
      timer := POMODORO;
      isActive := false;
    }

    /** The interval's callback. */
    method Decrement()
      modifies this
      ensures timer == old(timer) - 1 && isActive == old(isActive)
    {
      timer := timer - 1;
    }

    /** The effect: it reports whether it keeps an interval and whether it alerts. */
    method Effect() returns (counting: bool, alerted: bool)
      modifies this
      ensures counting == Counting(old(State())) && alerted == Finishes(old(State()))
      ensures State() == Settle(old(State()))
    {
      counting := isActive && timer > 0;
      alerted := false;
      if counting {
      } else if timer == 0 {
        isActive := false;
        alerted := true;
      }
    }

    /**
     * One second of the interval, which exists only while the clock counts,
     * then the effect; the second that reaches 0 stops the clock and alerts.
     */
    method Tick() returns (alerted: bool)
      requires Counting(State())
      modifies this
      ensures State() == Second(old(State()))
      ensures alerted <==> old(timer) == 1
      ensures ClockValid(old(State())) ==> ClockValid(State())
    {
      Decrement();
      var counting;
      counting, alerted := Effect();
    }

    /** The play/pause button, then the effect. */
    method Toggle() returns (alerted: bool)
      modifies this
      ensures State() == Press(old(State()))
      ensures alerted <==> old(timer) == 0
      ensures ClockValid(old(State())) ==> ClockValid(State())
    {
      isActive := !isActive;
      var counting;
      counting, alerted := Effect();
    }

    /** The reset button, then the effect. */
    method Reset() returns (alerted: bool)
      modifies this
      ensures State() == ResetClock(old(State())) && !alerted
      ensures ClockValid(State())
    {
      isActive := false;
      timer := POMODORO;
      var counting;
      counting, alerted := Effect();
    }
  }
}
