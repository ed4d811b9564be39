# FriendTimer timer store, modelled in Dafny

FriendTimer is a single-page dashboard of "days since X" timers. Each timer
is a record `{name, date, target_days}`. The session holds the records in an
ordered list, and a JSON file keeps a copy. Adding a timer appends a record
dated "now". Deleting removes the record at a row position, and resetting
sets that record's date to "now". Each of these edits then rewrites the
whole file (`save_timers`). Before the rows are drawn, the list may be sorted
in place by name or by elapsed days. The sort is not saved. Each row shows
the whole days elapsed since the record's date, in red when that count has
reached the target.

The model has five modules:

- `Wrappers` (wrappers.dfy): `Option`, used for a backing file that may not exist.
- `Lex` (lex.dfy): Python's `<=` on `str`, which compares code points
  lexicographically. It is proved to be a total order and to agree with the
  "first differing position" definition.
- `Timers` (timers.dfy): the record, elapsed days and the overdue test, and
  the three list edits as functions on sequences.
- `Sorting` (sorting.dfy): the stable sort `list.sort(key=...)` for both
  keys. Insertion sort is the reference. `StableSortIsUnique` proves that
  every sorted, stable rearrangement equals it, so the model does not depend
  on the algorithm the Python library uses.
- `Store` (store.dfy): the class `TimerStore`. Its field `timers` is the
  session list and its field `file` is the backing file (`None` while no file
  exists). Its methods are the edits, the save, the sort and the two display
  values.

Time is an integer count of microseconds, which is the resolution of
`datetime`. The current time `now` is passed in as a parameter. Elapsed days
are `(now - date) / 86_400_000_000`. Dafny's division rounds down when the
divisor is positive, which matches `timedelta.days`, including for dates in
the future.

## Model

| member | source | states |
|---|---|---|
| `Timers.ElapsedDays` | app.py:104 | the result is the largest whole number of days not exceeding `now - date`, i.e. floor division, the same as `timedelta.days` |
| `Timers.OverdueIffTargetReached` | app.py:104-105 | a row is red exactly when `date + target_days` days is at or before `now` |
| `Timers.ElapsedDaysMonotone` | app.py:104 | elapsed days never decrease as time moves forward |
| `Timers.OverdueStaysOverdue` | app.py:104-105 | once red, a timer stays red at every later time until it is reset |
| `Timers.ElapsedDaysAfterWholeDays` | app.py:104 | waiting exactly `n` days adds exactly `n` to the elapsed days |
| `Timers.FreshTimerNotOverdue` | app.py:104-105 | a record dated `now` shows 0 days, and is not red when its target is at least 1 |
| `Timers.Appended` | app.py:62-67 | appending adds exactly one record at the end, holding the given name and target and dated `now`; every earlier record is unchanged; the multiset grows by that record |
| `Timers.RemovedAt` | app.py:71-72 | deleting at `i` shortens the list by one; records before `i` stay put, records after it move down one place in their old order; exactly one copy of the record at `i` leaves the multiset |
| `Timers.ResetAt` | app.py:76-77 | resetting at `i` keeps the length, keeps the name and target at `i`, sets its date to `now`, and leaves every other record alone |
| `Timers.RemoveAppendedIsIdentity` | app.py:62-72 | deleting the record that was just added restores the previous list |
| `Timers.ResetClearsOverdue` | app.py:76-77 | right after a reset at `now`, that record shows 0 days and is not red if its target is at least 1 |
| `Timers.ResetIdempotent` | app.py:76-77 | two resets at the same time leave the same list as one |
| `Lex.LexLeMeansFirstDifference` | app.py:94 | the recursive string order holds exactly when one string is a prefix of the other or the first differing character is smaller |
| `Lex.LexLeReflexive` | app.py:94 | every name is at most itself |
| `Lex.LexLeAntisymmetric` | app.py:94 | two names that are each at most the other are equal |
| `Lex.LexLeTransitive` | app.py:94 | the name order is transitive |
| `Lex.LexLeTotal` | app.py:94 | any two names are comparable |
| `Sorting.KeyLeTotal` | app.py:93-96 | under either sort key, any two records are comparable |
| `Sorting.KeyLeTransitive` | app.py:93-96 | the key order is transitive for both keys |
| `Sorting.KeyLeReflexive` | app.py:93-96 | every record's key is at most itself |
| `Sorting.SameKeyByNameIffSameName` | app.py:94 | under "Alphabetically", two records tie exactly when their names are equal |
| `Sorting.SortByPermutes` | app.py:93-96 | sorting yields a permutation of the list |
| `Sorting.SortBySorted` | app.py:93-96 | the sorted list is non-decreasing by key across every pair of positions |
| `Sorting.SortByStable` | app.py:93-96 | for every record, the records that tie with it appear in the same relative order before and after the sort |
| `Sorting.StableSortIsUnique` | app.py:93-96 | any list that is sorted and keeps every group of ties in its original order is the reference sort's result |
| `Sorting.Arrange` | app.py:90-96 | the sort step yields a permutation; "None" leaves the list unchanged; the other two options yield a stable list that is non-decreasing by name or by elapsed days at `now` |
| `Store.TimerStore.Open` | app.py:46-59 | session start: the list is the file's list, or empty when no file exists, and the file is as it was; when a file exists, it equals the list |
| `Store.Reopen` | app.py:46-59 | saving and then starting a new session from the saved file gives back the same records in the same order; the new session is a fresh store over the same file, and the old store keeps its list, now saved |
| `Store.TimerStore.Save` | app.py:53-55 | saving leaves the list as it is and makes the file equal to it |
| `Store.TimerStore.AddTimer` | app.py:62-68 | the list becomes `Appended(old list, name, target, now)` with no check on either argument, and the file then equals the list |
| `Store.TimerStore.DeleteTimer` | app.py:71-73 | the list becomes `RemovedAt(old list, i)` and the file then equals the list |
| `Store.TimerStore.ResetTimer` | app.py:76-78 | the list becomes `ResetAt(old list, i, now)` and the file then equals the list |
| `Store.TimerStore.SortTimers` | app.py:93-96 | the list becomes `Arrange(old list, option, now)`, a stable sorted permutation, and the file is untouched |
| `Store.TimerStore.ShownDays` | app.py:104 | the number shown in a row is the floor of the days elapsed since that record's date |
| `Store.TimerStore.ShownOverdue` | app.py:104-105 | a row is drawn in red exactly when `date + target_days` days is at or before `now` |

`Store.AddExample` and `Store.SortExample` are client methods. They replay
two examples using only the contracts above. Adding "Quit
smoking" (target 30) to an empty store shows 0 days and no highlight, and
the row is red 31 days later. Sorting `[B, A]` alphabetically gives
`[A, B]`; the file keeps `[B, A]` until the next edit saves the sorted order.

## Left out

- The Streamlit page (title, columns, text and number inputs, buttons, the select box, HTML markup) and the rerun-per-interaction execution model: presentation only. The input widget's `min_value=1` is why `target_days >= 1` is an assumption of the caller, not of the store.
- The password gate (`check_password`, `password_entered`): a constant-time comparison through `hmac.compare_digest` against `st.secrets`, whose point (timing) cannot be stated here.
- File I/O and JSON encoding (`os.path.exists`, `open`, `json.load`, `json.dump`): the file is the field `file`. A corrupt file raises a parse error in the source; the model has no such state.
- ISO-8601 formatting and parsing of dates, and the clock `datetime.now()`: dates are microsecond integers, and `now` is a parameter. Time zones are not modelled.
- `Store.TimerStore.SortTimers`: "Days Passed" computes every key with a single `now`. The source calls `datetime.now()` once per record, so keys computed on either side of a day boundary during one sort are not modelled.
- `Store.TimerStore.DeleteTimer`, `Store.TimerStore.ResetTimer`: require `0 <= i < len`. The source also accepts Python's negative positions and raises `IndexError` outside `[-len, len)`. Neither case is modelled, because the row buttons only pass positions from `enumerate`.
- Records are values. In the source a record is a dict that the list refers to, and `reset_timer` changes it in place. No dict is shared between two list positions, so nothing observable is lost.
- The unused `pandas` import.
- Several sessions at once: every session shares one `timers.json` and reads it only at its start. The model covers one session at a time, so it does not capture a session's save overwriting another session's, or a session's view of the file going stale when another session saves.
