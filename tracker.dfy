/** The habit collection: the tracker that owns an ordered list of habits,
    adds to it, deletes from it, logs progress for one habit by name and
    summarises the whole list. */
module Tracker {
  import opened Habits

  /** Every habit of the list keeps the habit invariant. */
  predicate AllWellFormed(hs: seq<Habit>) {
    forall j :: 0 <= j < |hs| ==> WellFormed(hs[j])
  }

  /** The position of the first habit called `name`, if there is one. */
  function FirstIndex(hs: seq<Habit>, name: string): (r: Option<nat>)
    ensures r.Some? ==>
              r.value < |hs| && hs[r.value].name == name &&
              forall j :: 0 <= j < r.value ==> hs[j].name != name
    ensures r.None? ==> forall j :: 0 <= j < |hs| ==> hs[j].name != name
    decreases |hs|
  {
    if hs == [] then None
    else if hs[0].name == name then Some(0)
    else
      match FirstIndex(hs[1..], name)
      case None => None
      case Some(i) => Some(i + 1)
  }

  /** How a call to log progress ends: the habit was updated, no habit has
      that name, or the date was refused. */
  datatype LogOutcome = Logged | NotFound | InvalidDate

  datatype LogResult = LogResult(outcome: LogOutcome, habits: seq<Habit>)

  /** Logging `date` for the habit called `name`: the streak step applied to
      the first habit of that name, and to nothing else. */
  function LogIn(hs: seq<Habit>, name: string, date: Day): (r: LogResult)
    ensures |r.habits| == |hs|
    // an unknown name is reported, not created
    ensures r.outcome == NotFound <==> forall j :: 0 <= j < |hs| ==> hs[j].name != name
    // a refused date or an unknown name leaves every habit as it was
    ensures r.outcome != Logged ==> r.habits == hs
    // the only habit that can change is the first one with that name
    ensures forall j :: 0 <= j < |hs| && r.habits[j] != hs[j] ==> FirstIndex(hs, name) == Some(j)
    ensures r.outcome == InvalidDate <==>
              FirstIndex(hs, name).Some? && ApplyLog(hs[FirstIndex(hs, name).value], date).DateNotAfterLast?
    ensures r.outcome == Logged ==>
              FirstIndex(hs, name).Some? &&
              ApplyLog(hs[FirstIndex(hs, name).value], date) == Updated(r.habits[FirstIndex(hs, name).value])
    ensures AllWellFormed(hs) ==> AllWellFormed(r.habits)
  {
    match FirstIndex(hs, name)
    case None => LogResult(NotFound, hs)
    case Some(i) =>
      match ApplyLog(hs[i], date)
      case DateNotAfterLast => LogResult(InvalidDate, hs)
      case Updated(h) => LogResult(Logged, hs[i := h])
  }

  /** Logging the same date twice: the second call is refused and changes
      nothing, because the first has recorded that date. */
  lemma LogTwiceSameDayRefused(hs: seq<Habit>, name: string, date: Day)
    requires LogIn(hs, name, date).outcome == Logged
    ensures LogIn(LogIn(hs, name, date).habits, name, date) ==
              LogResult(InvalidDate, LogIn(hs, name, date).habits)
  {
  }

  /** The list with every habit called `name` filtered out. */
  function Without(hs: seq<Habit>, name: string): (r: seq<Habit>)
    ensures |r| <= |hs|
    ensures forall h :: h in r <==> h in hs && h.name != name
    decreases |hs|
  {
    if hs == [] then []
    else if hs[0].name == name then Without(hs[1..], name)
    else [hs[0]] + Without(hs[1..], name)
  }

  /** Filtering distributes over concatenation, so the survivors keep their
      relative order. */
  lemma {:induction false} WithoutAppend(a: seq<Habit>, b: seq<Habit>, name: string)
    ensures Without(a + b, name) == Without(a, name) + Without(b, name)
    decreases |a|
  {
    if a != [] {
      assert (a + b)[0] == a[0] && (a + b)[1..] == a[1..] + b;
      WithoutAppend(a[1..], b, name);
    } else {
      assert a + b == b;
    }
  }

  /** A list that holds no habit of that name is left exactly as it was. */
  lemma {:induction false} WithoutAbsent(hs: seq<Habit>, name: string)
    requires forall j :: 0 <= j < |hs| ==> hs[j].name != name
    ensures Without(hs, name) == hs
    decreases |hs|
  {
    if hs != [] {
      WithoutAbsent(hs[1..], name);
      assert hs == [hs[0]] + hs[1..];
    }
  }

  /** The sum of the current streaks, the streak total of the summary. */
  function TotalStreaks(hs: seq<Habit>): int
    decreases |hs|
  {
    if hs == [] then 0 else hs[0].currentStreak + TotalStreaks(hs[1..])
  }

  lemma {:induction false} TotalStreaksAppend(a: seq<Habit>, b: seq<Habit>)
    ensures TotalStreaks(a + b) == TotalStreaks(a) + TotalStreaks(b)
    decreases |a|
  {
    if a != [] {
      assert (a + b)[0] == a[0] && (a + b)[1..] == a[1..] + b;
      TotalStreaksAppend(a[1..], b);
    } else {
      assert a + b == b;
    }
  }

  /** Replacing one habit changes the total by exactly the change of its streak. */
  lemma {:induction false} TotalStreaksUpdate(hs: seq<Habit>, i: nat, h: Habit)
    requires i < |hs|
    ensures TotalStreaks(hs[i := h]) == TotalStreaks(hs) - hs[i].currentStreak + h.currentStreak
    decreases |hs|
  {
    if i > 0 {
      assert hs[i := h][1..] == hs[1..][i - 1 := h];
      TotalStreaksUpdate(hs[1..], i - 1, h);
    }
  }

  lemma {:induction false} TotalStreaksNonNegative(hs: seq<Habit>)
    requires AllWellFormed(hs)
    ensures TotalStreaks(hs) >= 0
    decreases |hs|
  {
    if hs != [] {
      assert WellFormed(hs[0]);
      TotalStreaksNonNegative(hs[1..]);
    }
  }

  /** One line of the progress summary. */
  datatype SummaryRow = SummaryRow(name: string, currentStreak: int, longestStreak: int)

  /** The progress summary: how many habits there are, the sum of their
      current streaks (the numerator of the average streak) and one row per
      habit. */
  datatype ProgressSummary = ProgressSummary(totalHabits: nat, totalStreaks: int, rows: seq<SummaryRow>)

  /** The summary of a list, or `None` for the "no habits" early exit. */
  function OverallProgress(hs: seq<Habit>): (r: Option<ProgressSummary>)
    ensures r.None? <==> hs == []
    // the count is never zero, so the average never divides by zero
    ensures r.Some? ==> r.value.totalHabits == |hs| > 0 && r.value.totalStreaks == TotalStreaks(hs)
    ensures r.Some? ==>
              |r.value.rows| == |hs| &&
              forall i :: 0 <= i < |hs| ==>
                r.value.rows[i] == SummaryRow(hs[i].name, hs[i].currentStreak, hs[i].longestStreak)
  {
    if hs == [] then None
    else
      Some(ProgressSummary(
             |hs|,
             TotalStreaks(hs),
             seq(|hs|, i requires 0 <= i < |hs| => SummaryRow(hs[i].name, hs[i].currentStreak, hs[i].longestStreak))))
  }

  /** Adding a habit counts one more habit and leaves the streak total alone. */
  lemma AddThenSummarise(hs: seq<Habit>, name: string, goal: int)
    ensures OverallProgress(hs + [Habit(name, goal, 0, 0, None)]).Some?
    ensures OverallProgress(hs + [Habit(name, goal, 0, 0, None)]).value.totalHabits == |hs| + 1
    ensures TotalStreaks(hs + [Habit(name, goal, 0, 0, None)]) == TotalStreaks(hs)
  {
    var h := Habit(name, goal, 0, 0, None);
    TotalStreaksAppend(hs, [h]);
    assert TotalStreaks([h]) == 0 + TotalStreaks([h][1..]);
  }

  /** A successful log moves the streak total by exactly the change of the
      logged habit's streak; every other habit contributes what it did. */
  lemma LogThenSummarise(hs: seq<Habit>, name: string, date: Day)
    requires LogIn(hs, name, date).outcome == Logged
    ensures FirstIndex(hs, name).Some?
    ensures TotalStreaks(LogIn(hs, name, date).habits) ==
              TotalStreaks(hs) - hs[FirstIndex(hs, name).value].currentStreak
                + LogIn(hs, name, date).habits[FirstIndex(hs, name).value].currentStreak
  {
  }

  /** The habits called `name`, in order. */
  function Named(hs: seq<Habit>, name: string): seq<Habit>
    decreases |hs|
  {
    if hs == [] then []
    else if hs[0].name == name then [hs[0]] + Named(hs[1..], name)
    else Named(hs[1..], name)
  }

  /** A delete splits the list into the survivors and the habits of that
      name, losing and adding nothing. */
  lemma {:induction false} WithoutNamedPartition(hs: seq<Habit>, name: string)
    ensures multiset(Without(hs, name)) + multiset(Named(hs, name)) == multiset(hs)
    decreases |hs|
  {
    if hs != [] {
      WithoutNamedPartition(hs[1..], name);
      assert hs == [hs[0]] + hs[1..];
    }
  }

  /** A successful delete keeps the streaks of the surviving habits only. */
  lemma {:induction false} DeleteThenSummarise(hs: seq<Habit>, name: string)
    ensures TotalStreaks(Without(hs, name)) + TotalStreaks(Named(hs, name)) == TotalStreaks(hs)
    decreases |hs|
  {
    if hs != [] {
      DeleteThenSummarise(hs[1..], name);
    }
  }

  /** The tracker: the in-memory list of habits, in insertion order. */
  class HabitTracker {
    var habitList: seq<Habit>

    /** A tracker starts from the habits stored when it was created. */
    constructor (loaded: seq<Habit>)
      ensures habitList == loaded
    {
      habitList := loaded;
    }

    /** Appends a habit with zeroed streaks and no logged date.  Names are
        not checked for duplicates. */
    method AddHabit(name: string, goalFrequency: int)
      modifies this
      ensures habitList == old(habitList) + [Habit(name, goalFrequency, 0, 0, None)]
      ensures AllWellFormed(old(habitList)) ==> AllWellFormed(habitList)
    {
      habitList := habitList + [Habit(name, goalFrequency, 0, 0, None)];
    }

    /** Deletes every habit called `name` when the stored row existed
        (`rowExisted`); otherwise reports it as not found and changes nothing. */
    method DeleteHabit(name: string, rowExisted: bool) returns (removed: bool)
      modifies this
      ensures removed == rowExisted
      ensures habitList == if rowExisted then Without(old(habitList), name) else old(habitList)
      ensures removed ==> forall h :: h in habitList ==> h.name != name
      ensures AllWellFormed(old(habitList)) ==> AllWellFormed(habitList)
    {
      if rowExisted {
        habitList := Without(habitList, name);
        removed := true;
      } else {
        removed := false;
      }
    }

    /** Logs `date` for the first habit called `name`, updating its streak in
        place. */
    method LogProgress(name: string, date: Day) returns (outcome: LogOutcome)
      modifies this
      ensures LogResult(outcome, habitList) == LogIn(old(habitList), name, date)
    {
      var i := 0;
      while i < |habitList|
        invariant 0 <= i <= |habitList|
        invariant habitList == old(habitList)
        invariant forall j :: 0 <= j < i ==> habitList[j].name != name
      {
        if habitList[i].name == name {
          var habit := habitList[i];
          var current := habit.currentStreak;
          match habit.lastLoggedDate {
            case None =>
              current := 1;
            case Some(last) =>
              var deltaDays := date - last;
              if deltaDays == 1 {
                current := current + 1;
              } else if deltaDays > 1 {
                current := 1;
              } else {
                return InvalidDate;
              }
          }
          habitList := habitList[i := Record(habit, current, date)];
          return Logged;
        }
        i := i + 1;
      }
      return NotFound;
    }
  }

  /** The unit tests' set-up: a fresh tracker holding two new habits. */
  method SetUp() returns (tracker: HabitTracker)
    ensures fresh(tracker)
    ensures tracker.habitList == [Habit("Go on a walk", 4, 0, 0, None), Habit("Read before bed", 5, 0, 0, None)]
  {
    tracker := new HabitTracker([]);
    tracker.AddHabit("Go on a walk", 4);
    tracker.AddHabit("Read before bed", 5);
  }

  /** Adding a third habit appends it. */
  method AddScenario() {
    var tracker := SetUp();
    tracker.AddHabit("Meditate", 7);
    assert |tracker.habitList| == 3 && tracker.habitList[2].name == "Meditate";
  }

  /** Deleting one habit leaves the other. */
  method DeleteScenario() {
    var tracker := SetUp();
    var removed := tracker.DeleteHabit("Read before bed", true);
    assert |tracker.habitList| == 1 && tracker.habitList[0].name == "Go on a walk";
  }

  /** The first log of a habit, then the next day, a gap and the same day
      again. */
  method LogScenario(today: Day) {
    var tracker := SetUp();
    var outcome := tracker.LogProgress("Go on a walk", today);
    assert outcome == Logged;
    assert tracker.habitList[0] == Habit("Go on a walk", 4, 1, 1, Some(today));

    outcome := tracker.LogProgress("Go on a walk", today + 1);
    assert tracker.habitList[0].currentStreak == 2 && tracker.habitList[0].longestStreak == 2;
    outcome := tracker.LogProgress("Go on a walk", today + 4);
    assert tracker.habitList[0].currentStreak == 1 && tracker.habitList[0].longestStreak == 2;
    outcome := tracker.LogProgress("Go on a walk", today + 4);
    assert outcome == InvalidDate && tracker.habitList[0].currentStreak == 1;
  }

  /** Logging an unknown habit reports it and creates nothing. */
  method LogUnknownScenario(today: Day) {
    var tracker := SetUp();
    var outcome := tracker.LogProgress("Evening meditation", today);
    assert outcome == NotFound && |tracker.habitList| == 2;
  }
}
