/**
 * What the schedule screen promises: the clock face reads back as the
 * seconds it shows, every dated task is listed under its own day and only
 * there, the days come in ascending order, a day is late exactly when it is
 * before today, and the pomodoro timer stays within its range and stops at 0.
 */
module StudentSchedulerProperties {
  import opened Wrappers
  import opened Decimal
  import opened Sequences
  import opened StudentScheduler

  // ---------------------------------------------------------------- clock face

  /** A number from 10 to 99 prints as two digits. */
  lemma TwoDigits(n: nat)
    requires 10 <= n < 100
    ensures |NatToString(n)| == 2
  {
    assert NatToString(n) == NatToString(n / 10) + [DigitChar(n % 10)];
  }

  /** The seconds field of the clock face: two digits that read back as the seconds. */
  lemma SecondsField(secs: nat)
    requires secs < 60
    ensures var f := (if secs < 10 then "0" else "") + IntToString(secs);
            |f| == 2 && AllDigits(f) && ParseDigits(f) == secs
  {
    var f := (if secs < 10 then "0" else "") + IntToString(secs);
    ParseNatToString(secs);
    if secs < 10 {
      assert f == ['0', DigitChar(secs)];
      assert f[..1] == ['0'] && f[..1][..0] == [];
    } else {
      TwoDigits(secs);
      assert f == NatToString(secs);
    }
  }

  /** A digit run, a colon and two digits below 60 read as minutes and seconds. */
  lemma ReadClockFields(m: string, f: string)
    requires m != [] && AllDigits(m)
    requires |f| == 2 && AllDigits(f) && ParseDigits(f) < 60
    ensures ReadClock(m + ":" + f) == Some(ParseDigits(m) * 60 + ParseDigits(f))
  {
    var t := m + ":" + f;
    assert |t| == |m| + 3 && t[|m|] == ':';
    assert t[..|m|] == m;
    assert t[|m| + 1..] == f;
    assert AllDigits(t[..|t| - 3]) && AllDigits(t[|t| - 2..]);
  }

  /** For a time that is not negative, JavaScript's remainder is Dafny's. */
  lemma FaceOfNonNegative(seconds: int)
    requires seconds >= 0
    ensures FormatTime(seconds) ==
            NatToString(seconds / 60) + ":" + ((if seconds % 60 < 10 then "0" else "") + IntToString(seconds % 60))
  {
    assert JsRem(seconds, 60) == seconds % 60;
  }

  /** For a time that is not negative, the clock face reads back as the same number of seconds. */
  lemma FormatTimeRoundTrip(seconds: int)
    requires seconds >= 0
    ensures ReadClock(FormatTime(seconds)) == Some(seconds)
  {
    var mins := seconds / 60;
    var secs := seconds % 60;
    var m := NatToString(mins);
    var f := (if secs < 10 then "0" else "") + IntToString(secs);
    FaceOfNonNegative(seconds);
    assert |f| == 2 && AllDigits(f) && ParseDigits(f) == secs by {
      SecondsField(secs);
    }
    assert ParseDigits(m) == mins by {
      ParseNatToString(mins);
    }
    ReadClockFields(m, f);
  }

  /** A full pomodoro shows "25:00"; a minute and five seconds show "1:05". */
  lemma FormatTimeExamples()
    ensures FormatTime(POMODORO) == "25:00"
    ensures FormatTime(65) == "1:05"
    ensures FormatTime(0) == "0:00"
  {
    assert NatToString(25) == NatToString(2) + [DigitChar(5)];
  }

  // ---------------------------------------------------------------- tasks by day

  /** A day's group holds only tasks of the input dated that day, so undated tasks are in no group. */
  lemma {:induction false} TasksOnMembers(ts: seq<Task>, d: int)
    ensures forall t :: t in TasksOn(ts, d) ==> t in ts && t.scheduledDate == Some(d)
    decreases |ts|
  {
    if ts != [] {
      TasksOnMembers(ts[1..], d);
      assert forall t :: t in ts[1..] ==> t in ts;
    }
  }

  /** A task is therefore in at most one day's group. */
  lemma OneGroupPerTask(ts: seq<Task>, t: Task, d: int, e: int)
    requires t in TasksOn(ts, d) && t in TasksOn(ts, e)
    ensures d == e && t.scheduledDate == Some(d)
  {
    TasksOnMembers(ts, d);
    TasksOnMembers(ts, e);
  }

  /** Every dated task is in the group of its own day. */
  lemma {:induction false} DatedTaskGrouped(ts: seq<Task>, i: int)
    requires 0 <= i < |ts| && ts[i].scheduledDate.Some?
    ensures ts[i] in TasksOn(ts, ts[i].scheduledDate.value)
    decreases |ts|
  {
    if i > 0 {
      DatedTaskGrouped(ts[1..], i - 1);
    }
  }

  /** The groups keep input order: the group of a prefix of the tasks is a prefix of the group. */
  lemma GroupsKeepOrder(ts: seq<Task>, k: int, d: int)
    requires 0 <= k <= |ts|
    ensures var g := TasksOn(ts, d);
            var p := TasksOn(ts[..k], d);
            |p| <= |g| && g[..|p|] == p
  {
    assert ts == ts[..k] + ts[k..];
    TasksOnConcat(ts[..k], ts[k..], d);
  }

  /** The number of tasks of the input dated day `d`. */
  function CountOn(ts: seq<Task>, d: int): nat
    decreases |ts|
  {
    if ts == [] then 0 else (if ts[0].scheduledDate == Some(d) then 1 else 0) + CountOn(ts[1..], d)
  }

  /** A day's group holds as many tasks as the input has tasks dated that day. */
  lemma {:induction false} GroupSize(ts: seq<Task>, d: int)
    ensures |TasksOn(ts, d)| == CountOn(ts, d)
    decreases |ts|
  {
    if ts != [] {
      GroupSize(ts[1..], d);
    }
  }

  // ---------------------------------------------------------------- day order

  /** The days of a list after an insertion are the inserted day and the days it had. */
  lemma InsertMembers(x: int, s: seq<int>)
    ensures forall y :: y in Insert(x, s) <==> y == x || y in s
  {
    var r := Insert(x, s);
    assert forall y :: y in r <==> y in multiset(r);
    assert forall y :: y in s <==> y in multiset(s);
  }

  /** Inserting keeps a list ascending. */
  lemma {:induction false} InsertAscending(x: int, s: seq<int>)
    requires Ascending(s)
    ensures Ascending(Insert(x, s))
    decreases |s|
  {
    var r := Insert(x, s);
    if s == [] || x <= s[0] {
      assert r == [x] + s;
      assert forall i :: 1 <= i < |r| ==> r[i] == s[i - 1];
    } else {
      var tail := s[1..];
      var rest := Insert(x, tail);
      InsertAscending(x, tail);
      InsertMembers(x, tail);
      assert r == [s[0]] + rest;
      assert forall i :: 1 <= i < |r| ==> r[i] == rest[i - 1] && rest[i - 1] in rest;
      assert forall y :: y in tail ==> s[0] <= y;
    }
  }

  /** Inserting a day that is not in a strictly ascending list keeps it strictly ascending. */
  lemma {:induction false} InsertStrictlyAscending(x: int, s: seq<int>)
    requires StrictlyAscending(s) && x !in s
    ensures StrictlyAscending(Insert(x, s))
    decreases |s|
  {
    var r := Insert(x, s);
    if s == [] || x <= s[0] {
      assert r == [x] + s;
      assert forall i :: 1 <= i < |r| ==> r[i] == s[i - 1];
    } else {
      var tail := s[1..];
      var rest := Insert(x, tail);
      InsertStrictlyAscending(x, tail);
      InsertMembers(x, tail);
      assert r == [s[0]] + rest;
      assert forall i :: 1 <= i < |r| ==> r[i] == rest[i - 1] && rest[i - 1] in rest;
      assert forall y :: y in tail ==> s[0] < y;
    }
  }

  /** The sorted days are in ascending order, strictly when no day repeats, and are the same days. */
  lemma {:induction false} SortDaysAscending(days: seq<int>)
    ensures Ascending(SortDays(days))
    ensures Distinct(days) ==> StrictlyAscending(SortDays(days))
    ensures forall d :: d in SortDays(days) <==> d in days
    decreases |days|
  {
    var r := SortDays(days);
    assert forall d :: d in r <==> d in multiset(r);
    assert forall d :: d in days <==> d in multiset(days);
    if days != [] {
      var init := days[..|days| - 1];
      var x := days[|days| - 1];
      SortDaysAscending(init);
      InsertAscending(x, SortDays(init));
      if Distinct(days) {
        assert x !in init;
        InsertStrictlyAscending(x, SortDays(init));
      }
    }
  }

  // ---------------------------------------------------------------- late days

  /** A day is late exactly when it is before today. */
  lemma LateIffBeforeToday(day: int, now: int)
    ensures IsLate(day, now) <==> day < now / SECONDS_PER_DAY
  {
    var today := now / SECONDS_PER_DAY;
    assert today * SECONDS_PER_DAY <= now < today * SECONDS_PER_DAY + SECONDS_PER_DAY;
    if day < today {
      assert day * SECONDS_PER_DAY <= today * SECONDS_PER_DAY - SECONDS_PER_DAY;
    } else if day > today {
      assert day * SECONDS_PER_DAY >= today * SECONDS_PER_DAY + SECONDS_PER_DAY;
    }
  }

  /** The agenda has one row per sorted day, carrying that day, its late flag and its group. */
  lemma AgendaRows(groups: map<int, seq<Task>>, days: seq<int>, now: int)
    requires forall d :: d in days ==> d in groups
    ensures var r := Agenda(groups, days, now);
            var sorted := SortDays(days);
            |r| == |sorted| &&
            forall i :: 0 <= i < |r| ==> r[i].day == sorted[i] && sorted[i] in groups &&
                                         r[i].late == IsLate(sorted[i], now) && r[i].tasks == groups[sorted[i]]
  {
    var sorted := SortDays(days);
    assert forall i :: 0 <= i < |sorted| ==> sorted[i] in multiset(days);
  }

  /** Days that do not repeat are listed in strictly ascending order. */
  lemma AgendaAscending(groups: map<int, seq<Task>>, days: seq<int>, now: int)
    requires forall d :: d in days ==> d in groups
    requires Distinct(days)
    ensures var r := Agenda(groups, days, now);
            forall i, j :: 0 <= i < j < |r| ==> r[i].day < r[j].day
  {
    AgendaRows(groups, days, now);
    SortDaysAscending(days);
  }

  /** Every day of the list, and no other, has a row. */
  lemma AgendaCovers(groups: map<int, seq<Task>>, days: seq<int>, now: int)
    requires forall d :: d in days ==> d in groups
    ensures var r := Agenda(groups, days, now);
            forall d :: d in days <==> exists i :: 0 <= i < |r| && r[i].day == d
  {
    var r := Agenda(groups, days, now);
    var sorted := SortDays(days);
    AgendaRows(groups, days, now);
    SortDaysAscending(days);
    forall d | d in days
      ensures exists i :: 0 <= i < |r| && r[i].day == d
    {
      var i :| 0 <= i < |sorted| && sorted[i] == d;
      assert r[i].day == d;
    }
  }

  /** Each row is marked late exactly when its day is before today. */
  lemma AgendaLate(groups: map<int, seq<Task>>, days: seq<int>, now: int)
    requires forall d :: d in days ==> d in groups
    ensures var r := Agenda(groups, days, now);
            forall i :: 0 <= i < |r| ==> (r[i].late <==> r[i].day < now / SECONDS_PER_DAY)
  {
    var r := Agenda(groups, days, now);
    AgendaRows(groups, days, now);
    forall i | 0 <= i < |r|
      ensures r[i].late <==> r[i].day < now / SECONDS_PER_DAY
    {
      LateIffBeforeToday(r[i].day, now);
    }
  }

  /**
   * The screen lists each day that has a task once, in ascending order, with
   * that day's tasks in input order, marked late exactly when it is before
   * today.
   */
  lemma AgendaContents(tasks: seq<Task>, groups: map<int, seq<Task>>, days: seq<int>, now: int)
    requires forall d :: d in groups <==> Dated(tasks, d)
    requires forall d :: d in groups ==> groups[d] == TasksOn(tasks, d)
    requires Distinct(days) && forall d :: d in days <==> d in groups
    ensures var r := Agenda(groups, days, now);
            (forall i, j :: 0 <= i < j < |r| ==> r[i].day < r[j].day) &&
            (forall d :: Dated(tasks, d) <==> exists i :: 0 <= i < |r| && r[i].day == d) &&
            (forall i :: 0 <= i < |r| ==> r[i].tasks == TasksOn(tasks, r[i].day)) &&
            (forall i :: 0 <= i < |r| ==> (r[i].late <==> r[i].day < now / SECONDS_PER_DAY))
  {
    AgendaRows(groups, days, now);
    AgendaAscending(groups, days, now);
    AgendaCovers(groups, days, now);
    AgendaLate(groups, days, now);
  }

  // ---------------------------------------------------------------- pomodoro

  /** The timer stays between 0 and a full pomodoro whatever happens. */
  lemma ClockStaysValid(c: Clock)
    requires ClockValid(c)
    ensures ClockValid(Second(c)) && ClockValid(Press(c)) && ClockValid(ResetClock(c))
  {
  }

  /** A clock that reaches 0 is no longer active, whether by counting down or by pressing play at 0. */
  lemma ZeroStops(c: Clock)
    ensures Second(c).timer == 0 ==> !Second(c).isActive
    ensures Press(c).timer == 0 ==> !Press(c).isActive
  {
  }

  /** The timer changes only while the clock is active and above 0, and then by one second. */
  lemma SecondCounts(c: Clock)
    ensures Counting(c) ==> Second(c).timer == c.timer - 1
    ensures !Counting(c) ==> Second(c).timer == c.timer
  {
  }

  /** A paused clock does not change, however many seconds pass. */
  lemma {:induction false} PausedHolds(c: Clock, n: nat)
    requires !c.isActive
    ensures Run(c, n) == c
    decreases n
  {
    if n > 0 {
      assert Second(c) == c;
      PausedHolds(c, n - 1);
    }
  }

  /** A clock running with `k + m` seconds left, `k > 0`, has `k` left after `m` seconds. */
  lemma {:induction false} CountsDown(k: int, m: nat)
    requires k > 0
    ensures Run(Clock(k + m, true), m) == Clock(k, true)
    decreases m
  {
    if m > 0 {
      assert Second(Clock(k + m, true)) == Clock(k + (m - 1), true);
      CountsDown(k, m - 1);
    }
  }

  /** A clock started with `n > 0` seconds left is at 0 and stopped after exactly `n` seconds. */
  lemma RunsOut(n: int)
    requires n > 0
    ensures Run(Clock(n, true), n - 1) == Clock(1, true)
    ensures Run(Clock(n, true), n) == Clock(0, false)
  {
    CountsDown(1, n - 1);
    RunThenSecond(Clock(n, true), n - 1);
  }

  /** Running `n + 1` seconds is running `n` seconds and then one more. */
  lemma {:induction false} RunThenSecond(c: Clock, n: nat)
    ensures Run(c, n + 1) == Second(Run(c, n))
    decreases n
  {
    if n > 0 {
      RunThenSecond(Second(c), n - 1);
    }
  }

  /** Play/pause flips only whether the clock runs; pressed twice with time left it is back where it was; at 0 it stays stopped. */
  lemma PressFlips(c: Clock)
    ensures Press(c).timer == c.timer
    ensures c.timer != 0 ==> Press(c).isActive == !c.isActive && Press(Press(c)) == c
    ensures c.timer == 0 ==> !Press(c).isActive
  {
  }

  /** Reset gives a full, stopped pomodoro from any state, without an alert. */
  lemma ResetStops(c: Clock)
    ensures ResetClock(c) == Clock(POMODORO, false) && AlertsAfterChange(Clock(POMODORO, false)) == 0
  {
  }

  /**
   * When the clock runs out, the effect alerts twice: once on reaching 0,
   * when it stops the clock, and again on the change that stopping made. The
   * same happens on pressing play at 0. A clock at 0 that is already stopped
   * alerts once.
   */
  lemma AlertsOnFinish(b: bool)
    ensures AlertsAfterChange(Clock(0, b)) == if b then 2 else 1
    ensures forall c: Clock :: c.timer != 0 ==> AlertsAfterChange(c) == 0
  {
    assert Settle(Clock(0, true)) == Clock(0, false);
  }
}
