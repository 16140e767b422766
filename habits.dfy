/** The per-habit half of the habit tracker: the habit record and the streak
    step that one logged completion date applies to it.

    Calendar dates are whole day numbers (`Day`), so the number of days
    between two dates is their difference. */
module Habits {

  datatype Option<T> = None | Some(value: T)

  /** A calendar date, counted in whole days. */
  type Day = int

  /** One tracked habit: its name (the lookup key), its weekly goal and its
      streak state.  The goal is advisory: nothing below reads it. */
  datatype Habit = Habit(
    name: string,
    goalFrequency: int,
    currentStreak: int,
    longestStreak: int,
    lastLoggedDate: Option<Day>)

  function Max(a: int, b: int): int {
    if a >= b then a else b
  }

  /** The invariant every habit created by the tracker keeps: the streak is
      never negative, never above the longest streak, and is zero exactly
      while the habit has never been logged. */
  predicate WellFormed(h: Habit) {
    0 <= h.currentStreak <= h.longestStreak &&
    (h.lastLoggedDate.None? <==> h.currentStreak == 0)
  }

  /** What logging one date does to a habit: either the updated habit, or the
      rejection of a date that is not strictly after the last logged one. */
  datatype StreakResult = Updated(habit: Habit) | DateNotAfterLast

  /** The bookkeeping that follows every accepted log: the longest streak is a
      running maximum and the date is recorded. */
  function Record(h: Habit, streak: int, date: Day): Habit {
    h.(currentStreak := streak,
       longestStreak := Max(h.longestStreak, streak),
       lastLoggedDate := Some(date))
  }

  /** The streak step of logging `date` for habit `h`. */
  function ApplyLog(h: Habit, date: Day): (r: StreakResult)
    // first log ever: the streak starts at one
    ensures h.lastLoggedDate.None? ==> r.Updated? && r.habit.currentStreak == 1
    // the day after the last log: the streak grows by exactly one
    ensures h.lastLoggedDate.Some? && date == h.lastLoggedDate.value + 1 ==>
              r.Updated? && r.habit.currentStreak == h.currentStreak + 1
    // a gap of more than one day: the streak restarts at one
    ensures h.lastLoggedDate.Some? && date > h.lastLoggedDate.value + 1 ==>
              r.Updated? && r.habit.currentStreak == 1
    // the same day or an earlier one is refused
    ensures r.DateNotAfterLast? <==> h.lastLoggedDate.Some? && date <= h.lastLoggedDate.value
    // identity is kept and the date is recorded
    ensures r.Updated? ==>
              r.habit.name == h.name && r.habit.goalFrequency == h.goalFrequency &&
              r.habit.lastLoggedDate == Some(date)
    // the longest streak is the running maximum of the current streak
    ensures r.Updated? ==> r.habit.longestStreak == Max(h.longestStreak, r.habit.currentStreak)
    ensures r.Updated? ==>
              r.habit.currentStreak <= r.habit.longestStreak && h.longestStreak <= r.habit.longestStreak
    ensures r.Updated? && WellFormed(h) ==> WellFormed(r.habit)
  {
    match h.lastLoggedDate
    case None => Updated(Record(h, 1, date))
    case Some(last) =>
      var delta := date - last;
      if delta == 1 then Updated(Record(h, h.currentStreak + 1, date))
      else if delta > 1 then Updated(Record(h, 1, date))
      else DateNotAfterLast
  }

  /** Logging every date of `dates`, in order, stopping at the first refusal. */
  function LogAll(h: Habit, dates: seq<Day>): StreakResult
    decreases |dates|
  {
    if dates == [] then Updated(h)
    else
      match LogAll(h, dates[..|dates| - 1])
      case DateNotAfterLast => DateNotAfterLast
      case Updated(g) => ApplyLog(g, dates[|dates| - 1])
  }

  /** Every date strictly after the one before it. */
  predicate Increasing(ds: seq<Day>) {
    forall i :: 0 < i < |ds| ==> ds[i - 1] < ds[i]
  }

  /** Every date exactly one day after the one before it. */
  predicate Consecutive(ds: seq<Day>) {
    forall i :: 0 < i < |ds| ==> ds[i] == ds[i - 1] + 1
  }

  /** The length of the run of consecutive days that ends with the last date. */
  function TrailingRun(ds: seq<Day>): nat
    decreases |ds|
  {
    if |ds| == 0 then 0
    else if |ds| == 1 then 1
    else if ds[|ds| - 1] == ds[|ds| - 2] + 1 then TrailingRun(ds[..|ds| - 1]) + 1
    else 1
  }

  /** The length of the longest run of consecutive days anywhere in `ds`. */
  function LongestRun(ds: seq<Day>): nat
    decreases |ds|
  {
    if ds == [] then 0 else Max(LongestRun(ds[..|ds| - 1]), TrailingRun(ds))
  }

  lemma IncreasingSnoc(p: seq<Day>, d: Day)
    ensures Increasing(p + [d]) <==> Increasing(p) && (p == [] || p[|p| - 1] < d)
  {
    var ds := p + [d];
    if Increasing(ds) {
      forall i | 0 < i < |p| ensures p[i - 1] < p[i] {
        assert p[i - 1] == ds[i - 1] && p[i] == ds[i];
      }
      if p != [] {
        assert ds[|ds| - 2] < ds[|ds| - 1];
      }
    }
    if Increasing(p) && (p == [] || p[|p| - 1] < d) {
      forall i | 0 < i < |ds| ensures ds[i - 1] < ds[i] {
        if i < |p| {
          assert ds[i - 1] == p[i - 1] && ds[i] == p[i];
        }
      }
    }
  }

  /** Starting from a habit that has never been logged, a sequence of logs is
      accepted exactly when its dates are strictly increasing; then the
      current streak is the trailing run of consecutive days, the longest
      streak the longest such run (or the stored longest streak, if larger),
      and the last logged date the last date. */
  lemma {:induction false} LogAllFromUnlogged(h: Habit, ds: seq<Day>)
    requires WellFormed(h) && h.lastLoggedDate.None?
    ensures LogAll(h, ds).Updated? <==> Increasing(ds)
    ensures Increasing(ds) ==>
              LogAll(h, ds).habit ==
              h.(currentStreak := TrailingRun(ds),
                 longestStreak := Max(h.longestStreak, LongestRun(ds)),
                 lastLoggedDate := if ds == [] then None else Some(ds[|ds| - 1]))
    decreases |ds|
  {
    if ds != [] {
      var p, d := ds[..|ds| - 1], ds[|ds| - 1];
      assert ds == p + [d];
      LogAllFromUnlogged(h, p);
      IncreasingSnoc(p, d);
      if p != [] {
        assert ds[|ds| - 2] == p[|p| - 1];
      }
    }
  }

  lemma ConsecutiveSnoc(p: seq<Day>, d: Day)
    requires p != []
    ensures Consecutive(p + [d]) <==> Consecutive(p) && d == p[|p| - 1] + 1
  {
    var ds := p + [d];
    if Consecutive(ds) {
      forall i | 0 < i < |p| ensures p[i] == p[i - 1] + 1 {
        assert p[i - 1] == ds[i - 1] && p[i] == ds[i];
      }
      assert ds[|ds| - 1] == ds[|ds| - 2] + 1;
    }
    if Consecutive(p) && d == p[|p| - 1] + 1 {
      forall i | 0 < i < |ds| ensures ds[i] == ds[i - 1] + 1 {
        if i < |p| {
          assert ds[i - 1] == p[i - 1] && ds[i] == p[i];
        }
      }
    }
  }

  /** `TrailingRun` is the longest consecutive suffix: the suffix of that
      length is a run of consecutive days, and no longer suffix is. */
  lemma {:induction false} TrailingRunIsLongestConsecutiveSuffix(ds: seq<Day>)
    requires ds != []
    ensures 1 <= TrailingRun(ds) <= |ds|
    ensures Consecutive(ds[|ds| - TrailingRun(ds)..])
    ensures forall j :: 0 <= j < |ds| - TrailingRun(ds) ==> !Consecutive(ds[j..])
    decreases |ds|
  {
    var n := |ds|;
    if n > 1 {
      var p, d := ds[..n - 1], ds[n - 1];
      assert ds == p + [d];
      TrailingRunIsLongestConsecutiveSuffix(p);
      forall j | 0 <= j < n - 1 ensures ds[j..] == p[j..] + [d] {
      }
      if d == ds[n - 2] + 1 {
        var t := TrailingRun(p);
        ConsecutiveSnoc(p[|p| - t..], d);
        forall j | 0 <= j < n - TrailingRun(ds) ensures !Consecutive(ds[j..]) {
          ConsecutiveSnoc(p[j..], d);
        }
      } else {
        forall j | 0 <= j < n - 1 ensures !Consecutive(ds[j..]) {
          ConsecutiveSnoc(p[j..], d);
        }
      }
    }
  }

  /** `LongestRun` is the length of the longest window of consecutive days:
      every such window is at most that long, and one is exactly that long. */
  lemma {:induction false} LongestRunIsLongestConsecutiveWindow(ds: seq<Day>)
    ensures LongestRun(ds) <= |ds|
    ensures forall i, j :: 0 <= i <= j <= |ds| && Consecutive(ds[i..j]) ==> j - i <= LongestRun(ds)
    ensures exists i, j :: 0 <= i <= j <= |ds| && j - i == LongestRun(ds) && Consecutive(ds[i..j])
    decreases |ds|
  {
    if ds == [] {
      assert Consecutive(ds[0..0]);
    } else {
      var n := |ds|;
      var p := ds[..n - 1];
      LongestRunIsLongestConsecutiveWindow(p);
      TrailingRunIsLongestConsecutiveSuffix(ds);
      forall i, j | 0 <= i <= j <= n && Consecutive(ds[i..j]) ensures j - i <= LongestRun(ds) {
        if j < n {
          assert ds[i..j] == p[i..j];
        } else {
          assert ds[i..j] == ds[i..];
        }
      }
      if LongestRun(ds) == LongestRun(p) {
        var i, j :| 0 <= i <= j <= |p| && j - i == LongestRun(p) && Consecutive(p[i..j]);
        assert ds[i..j] == p[i..j];
        assert 0 <= i <= j <= n && j - i == LongestRun(ds) && Consecutive(ds[i..j]);
      } else {
        var i := n - TrailingRun(ds);
        assert LongestRun(ds) == TrailingRun(ds);
        assert ds[i..n] == ds[i..];
        assert 0 <= i <= n && n - i == LongestRun(ds) && Consecutive(ds[i..n]);
      }
    }
  }
}
