# Habit tracker: streaks and the habit list

A model of the core of a small habit tracker, written in Python. Each habit
has a name, a weekly goal, a current streak, a longest streak and the date it
was last logged. The tracker keeps an ordered list of habits. It can add a
habit, delete every habit with a given name, log a completion date for a habit
by name, and summarise the list.

Logging a date for a habit works like this:

- a habit that was never logged gets a streak of 1;
- a date one day after the last log adds 1 to the streak;
- a later date restarts the streak at 1;
- the same day or an earlier one is refused with an error and changes nothing.

After an accepted log, the longest streak is the running maximum of the
current streak, and the date is recorded.

Files:

- `habits.dfy`, module `Habits`: the `Habit` record and the streak step
  `ApplyLog`. It also has `LogAll`, which replays a sequence of logs, and
  reference definitions of runs of consecutive days (`TrailingRun`,
  `LongestRun`, `Consecutive`). The lemmas prove that the streak counters
  are exactly those run lengths.
- `tracker.dfy`, module `Tracker`: the class `HabitTracker`, whose field
  `habitList` is a sequence of `Habit` values. Its methods `AddHabit`,
  `DeleteHabit` and `LogProgress` change that field in place. `DeleteHabit` is
  proved against the pure filter `Without` and `LogProgress` against the pure
  function `LogIn`. `AddHabit` states its new list directly: the old list with
  one zeroed habit appended. The summary is the pure function
  `OverallProgress`. Its streak total is `TotalStreaks`, the sum of the
  current streaks (habit_tracker.py:143).
  `SetUp`, `AddScenario`, `DeleteScenario`, `LogScenario` and
  `LogUnknownScenario` replay the unit tests' set-up and their add, delete and
  log scenarios against the contracts. `LogScenario` goes on to walk the habit
  through a consecutive day, a gap and a same-day repeat.
  `LogUnknownScenario` shows that logging an unknown name creates nothing.

Dates are whole day numbers (`Day = int`). So the number of days between two
dates is a subtraction. "## Left out" says where this differs from the code's
time-of-day arithmetic.

Decisions where the code and its surroundings disagree:

- The unit tests and the menu call `add_habit`, but the class defines
  `_add_habit` (habit_tracker.py:64). Both are modelled as the one operation
  `AddHabit`.
- One unit test (habit_tracker_unit_tests.py:61-72) expects that logging an
  unknown habit creates it with goal 7. The code does not do this: it reports
  that the habit was not found and changes nothing (habit_tracker.py:108).
  The model follows the code. `LogIn` returns `NotFound` with the list
  unchanged, and `LogUnknownScenario` shows it.
- Names are not checked for uniqueness. The code never checks
  (habit_tracker.py:64-69), so duplicates can exist. `LogIn` updates only the
  first habit with that name, and `DeleteHabit` removes them all.
- Logging the same day again is refused, as the code refuses any gap of zero
  days or less (habit_tracker.py:99-100). `LogTwiceSameDayRefused` states it.

## Model

| member | source | states |
|---|---|---|
| Habits.ApplyLog | habit_tracker.py:91-103 | First log gives streak 1. The next day adds exactly 1. A longer gap restarts at 1. The same or an earlier day is refused (iff). When accepted: name and goal kept, date recorded, longest streak = max(old longest, new streak), so longest >= current and longest never drops. Well-formedness is preserved. |
| Habits.LogAllFromUnlogged | habit_tracker.py:84-106 | From a never-logged habit, a sequence of logs is accepted iff its dates strictly increase. Then the current streak is the trailing run of consecutive days, the longest streak is the longest such run (or the stored value, if larger), and the last date is recorded. |
| Habits.TrailingRunIsLongestConsecutiveSuffix | habit_tracker.py:94-98 | The trailing run is between 1 and the length. The suffix of that length is consecutive days, and no longer suffix is. |
| Habits.LongestRunIsLongestConsecutiveWindow | habit_tracker.py:102 | Every window of consecutive days is at most the longest run, and some window has exactly that length. |
| Tracker.FirstIndex | habit_tracker.py:86-87 | The result is the first position whose habit has the name. None means no habit has the name. |
| Tracker.LogIn | habit_tracker.py:84-108 | The list keeps its length. NotFound iff no habit has the name. Unless the result is Logged, the list is unchanged. Only the first habit with the name can change. InvalidDate iff the streak step refuses that habit's date. Logged means that habit became the streak step's result. Well-formedness of every habit is preserved. |
| Tracker.LogTwiceSameDayRefused | habit_tracker.py:99-100 | Logging the same date again right after a successful log is refused, and the list is unchanged. |
| Tracker.HabitTracker.LogProgress | habit_tracker.py:84-108 | The search loop and in-place update give exactly the outcome and new list of `LogIn`. |
| Tracker.HabitTracker.AddHabit | habit_tracker.py:64-69 | The list grows by one at the end: a habit with the given name and goal, both streaks 0, no date. Earlier habits are unchanged. Well-formedness is preserved. |
| Tracker.Without | habit_tracker.py:78 | The result is no longer than the input. A habit is in the result iff it is in the input and has a different name. |
| Tracker.WithoutAppend | habit_tracker.py:78 | Filtering distributes over concatenation, so the survivors keep their order. |
| Tracker.WithoutAbsent | habit_tracker.py:78 | A list with no habit of that name is returned unchanged. |
| Tracker.HabitTracker.DeleteHabit | habit_tracker.py:72-81 | If the stored row existed, every habit with the name is removed and the rest keep their order; the method reports removal. Otherwise it reports not found and changes nothing. |
| Tracker.HabitTracker.constructor | habit_tracker.py:15-19 | The tracker starts from the list of loaded habits. |
| Tracker.OverallProgress | habit_tracker.py:137-149 | An empty list takes the "no habits" exit. Otherwise the count is the list length (never 0, so the average does not divide by zero), the total is the sum of current streaks, and there is one row per habit with its name and both streaks. |
| Tracker.TotalStreaksAppend | habit_tracker.py:143 | The streak total of a concatenation is the sum of the two totals. |
| Tracker.TotalStreaksUpdate | habit_tracker.py:143 | Replacing one habit changes the total by exactly the change in its current streak. |
| Tracker.TotalStreaksNonNegative | habit_tracker.py:143 | The total is non-negative when every habit is well formed. |
| Tracker.AddThenSummarise | habit_tracker.py:142-143 | After an add, the summary exists, counts one more habit, and has the same streak total. |
| Tracker.LogThenSummarise | habit_tracker.py:143 | A successful log changes the streak total by exactly the change in the logged habit's streak. |
| Tracker.WithoutNamedPartition | habit_tracker.py:78 | The survivors of a delete and the habits with that name together are exactly the old list, as multisets: the delete removes the named habits and nothing else. |
| Tracker.DeleteThenSummarise | habit_tracker.py:143 | The streak total of the survivors plus that of the removed habits equals the old total. |

## Left out

- SQLite persistence (creating the table, loading, the insert-or-update, and
  that SQL delete) is database I/O through a library. The constructor takes
  the loaded habits as a parameter. The delete's "row existed" answer is the
  boolean input `rowExisted` of `DeleteHabit`. Saving after add and log is not
  modelled. So the model does not show that the stored table keys habits
  uniquely by name (habit_tracker.py:28, 55): adding a name twice leaves two
  habits in the list, but the one stored row is overwritten with zeroed
  streaks.
- Date parsing and formatting are library date handling. Dates are whole day
  numbers. The code subtracts two `datetime` values that carry a time of day
  (the logged date comes from `datetime.now()`, habit_tracker.py:179), and
  `.days` rounds the elapsed time down to whole 24-hour periods
  (habit_tracker.py:94). It does not cut each date back to its calendar day.
  The model matches the code exactly when the new log's time of day is not
  earlier than the last one's, as always happens when the last date was
  loaded from storage (midnight, habit_tracker.py:44). When the new log is
  earlier in the day, `.days` is one less than the day-number difference:
  a log at 08:00 on the day after a log at 20:00 has `.days == 0` and is
  refused by the code,
  while `ApplyLog` adds 1 to the streak. A log at 08:00 two days after a log
  at 20:00 has `.days == 1` and counts as consecutive in the code, while
  `ApplyLog` restarts the streak at 1.
- The runtime type check on the logged date (`TypeError`) is not modelled,
  because a Dafny `Day` is always a date.
- All printed messages, `display_all_habits`, and the formatted
  floating-point average are presentation. The summary gives the integer count
  and sum that the average is computed from.
- The interactive menu loop is console I/O.
- `Habit` is a value in the model, so the in-place update of the habit object
  becomes replacing one element of `habitList`. Nothing else holds a
  reference to a habit, so no aliasing is lost.
- The stub module `finalproj.py` has only docstrings and no code, so there is
  nothing to model.
