/**
 * The session's timer list and its backing file. Every edit (add, delete,
 * reset) is followed by a save that overwrites the file with the whole list;
 * the display sort reorders the list and does not save.
 */
module Store {
  import opened Wrappers
  import opened Timers
  import opened Sorting

  /** `load_timers`: the stored list, or an empty list when there is no file. */
  function Load(stored: Option<seq<Timer>>): (r: seq<Timer>)
  {
    match stored
    case None => []
    case Some(s) => s
  }

  class TimerStore {
    /** `st.session_state.timers`. */
    var timers: seq<Timer>
    /** The JSON file: `None` while it does not exist. */
    var file: Option<seq<Timer>>

    /** The file holds exactly the list in memory. */
    predicate Persisted()
      reads this
    {
      file == Some(timers)
    }

    /** Session start: the list is whatever the file holds, or empty. */
    constructor Open(stored: Option<seq<Timer>>)
      ensures file == stored
      ensures stored == None ==> timers == []
      ensures stored != None ==> Persisted()
    {
      timers := Load(stored);
      file := stored;
    }

    /** `save_timers`: overwrite the file with the whole list. */
    method Save()
      modifies this
      ensures timers == old(timers)
      ensures Persisted()
    {
      file := Some(timers);
    }

    /** `add_timer`: append a record dated `now`, then save. Neither argument is checked. */
    method AddTimer(name: string, targetDays: int, now: int)
      modifies this
      ensures timers == Appended(old(timers), name, targetDays, now)
      ensures Persisted()
    {
      timers := timers + [Timer(name, now, targetDays)];
      Save();
    }

    /** `delete_timer`: remove the record at position `i`, then save. */
    method DeleteTimer(i: int)
      requires 0 <= i < |timers|
      modifies this
      ensures timers == RemovedAt(old(timers), i)
      ensures Persisted()
    {
      timers := timers[..i] + timers[i + 1..];
      Save();
    }

    /** `reset_timer`: set the date of the record at position `i` to `now`, then save. */
    method ResetTimer(i: int, now: int)
      requires 0 <= i < |timers|
      modifies this
      ensures timers == ResetAt(old(timers), i, now)
      ensures Persisted()
    {
      timers := timers[i := timers[i].(date := now)];
      Save();
    }

    /** The display step's sort: reorders the list in place and leaves the file alone. */
    method SortTimers(option: SortOption, now: int)
      modifies this
      ensures timers == Arrange(old(timers), option, now)
      ensures file == old(file)
    {
      if option == Alphabetically {
        timers := SortBy(ByName, timers);
      } else if option == DaysPassed {
        timers := SortBy(ByDays(now), timers);
      }
    }

    /** `days_passed` for the row at position `i`. */
    method ShownDays(i: int, now: int) returns (days: int)
      requires 0 <= i < |timers|
      ensures days * MicrosPerDay <= now - timers[i].date < (days + 1) * MicrosPerDay
    {
      days := ElapsedDays(timers[i], now);
    }

    /** Whether the row at position `i` is drawn in red. */
    method ShownOverdue(i: int, now: int) returns (red: bool)
      requires 0 <= i < |timers|
      ensures red <==> timers[i].date + timers[i].targetDays * MicrosPerDay <= now
    {
      red := IsOverdue(timers[i], now);
      OverdueIffTargetReached(timers[i], now);
    }
  }

  /**
   * Saving and starting a new session from the saved file gives back the
   * same records in the same order.
   */
  method Reopen(store: TimerStore) returns (again: TimerStore)
    modifies store
    ensures store.timers == old(store.timers) && store.Persisted()
    ensures fresh(again) && again.file == store.file
    ensures again.timers == old(store.timers)
    ensures again.Persisted()
  {
    store.Save();
    again := new TimerStore.Open(store.file);
  }

  /**
   * Example: adding "Quit smoking" with a 30-day target to an
   * empty store shows 0 days and no highlight, and 31 days later it is red.
   */
  method AddExample(now: int)
  {
    var store := new TimerStore.Open(None);
    store.AddTimer("Quit smoking", 30, now);
    assert store.timers == [Timer("Quit smoking", now, 30)];
    var days := store.ShownDays(0, now);
    assert days == 0;
    var red := store.ShownOverdue(0, now);
    assert !red;
    red := store.ShownOverdue(0, now + 31 * MicrosPerDay);
    assert red;
  }

  /**
   * Example: sorting `[B, A]` alphabetically gives `[A, B]`.
   * The file keeps the old order until the next edit saves the sorted list.
   */
  method SortExample(now: int)
  {
    var b, a := Timer("B", now, 5), Timer("A", now, 5);
    var store := new TimerStore.Open(Some([b, a]));
    store.SortTimers(Alphabetically, now);
    assert Insert(ByName, b, [a]) == [a, b];
    assert store.timers == [a, b];
    assert store.file == Some([b, a]);
    store.ResetTimer(1, now + MicrosPerDay);
    assert store.timers == ResetAt([a, b], 1, now + MicrosPerDay);
    assert store.timers == [a, b.(date := now + MicrosPerDay)];
    assert store.file == Some([a, b.(date := now + MicrosPerDay)]);
  }
}
