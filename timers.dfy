/**
 * The timer record, the two values derived from it for display, and the
 * three list edits the store performs (append, delete at a position, reset
 * the date at a position), stated on plain sequences.
 *
 * Dates are integer timestamps in microseconds, the resolution of Python's
 * `datetime`; the current time `now` is always a parameter.
 */
module Timers {

  /** Length of one day in microseconds. */
  const MicrosPerDay: int := 86_400_000_000

  /** One `{name, date, target_days}` record. */
  datatype Timer = Timer(name: string, date: int, targetDays: int)

  /**
   * Whole days from `t.date` to `now`, rounded down, as `timedelta.days`
   * does (negative when the date lies in the future).
   */
  function ElapsedDays(t: Timer, now: int): (d: int)
    ensures d * MicrosPerDay <= now - t.date < (d + 1) * MicrosPerDay
  {
    (now - t.date) / MicrosPerDay
  }

  /** The red "overdue" highlight: at least `targetDays` whole days have passed. */
  predicate IsOverdue(t: Timer, now: int)
  {
    ElapsedDays(t, now) >= t.targetDays
  }

  /** Overdue means exactly that the target instant has been reached. */
  lemma OverdueIffTargetReached(t: Timer, now: int)
    ensures IsOverdue(t, now) <==> t.date + t.targetDays * MicrosPerDay <= now
  {
  }

  lemma ElapsedDaysMonotone(t: Timer, now: int, later: int)
    requires now <= later
    ensures ElapsedDays(t, now) <= ElapsedDays(t, later)
  {
  }

  /** Once a timer is overdue it stays overdue until it is reset. */
  lemma OverdueStaysOverdue(t: Timer, now: int, later: int)
    requires now <= later && IsOverdue(t, now)
    ensures IsOverdue(t, later)
  {
    ElapsedDaysMonotone(t, now, later);
  }

  /** Waiting exactly `n` days adds exactly `n` to the elapsed days. */
  lemma ElapsedDaysAfterWholeDays(t: Timer, now: int, n: int)
    ensures ElapsedDays(t, now + n * MicrosPerDay) == ElapsedDays(t, now) + n
  {
  }

  /** A record whose date is `now` shows 0 days and, with a target of at least 1, no highlight. */
  lemma FreshTimerNotOverdue(t: Timer, now: int)
    requires t.date == now
    ensures ElapsedDays(t, now) == 0
    ensures t.targetDays >= 1 ==> !IsOverdue(t, now)
  {
  }

  /** `timers.append({...})` with `date` set to `now`. */
  function Appended(s: seq<Timer>, name: string, targetDays: int, now: int): (r: seq<Timer>)
    ensures |r| == |s| + 1
    ensures forall j :: 0 <= j < |s| ==> r[j] == s[j]
    ensures r[|s|].name == name && r[|s|].targetDays == targetDays && r[|s|].date == now
    ensures multiset(r) == multiset(s) + multiset{Timer(name, now, targetDays)}
  {
    s + [Timer(name, now, targetDays)]
  }

  /** `del timers[i]`. */
  function RemovedAt(s: seq<Timer>, i: int): (r: seq<Timer>)
    requires 0 <= i < |s|
    ensures |r| == |s| - 1
    ensures forall j :: 0 <= j < i ==> r[j] == s[j]
    ensures forall j :: i <= j < |r| ==> r[j] == s[j + 1]
    ensures multiset(r) == multiset(s) - multiset{s[i]}
  {
    assert s == s[..i] + [s[i]] + s[i+1..];
    s[..i] + s[i+1..]
  }

  /** `timers[i]['date'] = now`. */
  function ResetAt(s: seq<Timer>, i: int, now: int): (r: seq<Timer>)
    requires 0 <= i < |s|
    ensures |r| == |s|
    ensures r[i].name == s[i].name && r[i].targetDays == s[i].targetDays && r[i].date == now
    ensures forall j :: 0 <= j < |s| && j != i ==> r[j] == s[j]
  {
    s[i := s[i].(date := now)]
  }

  /** Deleting the record just appended gives back the list as it was. */
  lemma RemoveAppendedIsIdentity(s: seq<Timer>, name: string, targetDays: int, now: int)
    ensures RemovedAt(Appended(s, name, targetDays, now), |s|) == s
  {
  }

  /** Right after a reset the record shows 0 days and is not overdue when its target is at least 1. */
  lemma ResetClearsOverdue(s: seq<Timer>, i: int, now: int)
    requires 0 <= i < |s|
    ensures ElapsedDays(ResetAt(s, i, now)[i], now) == 0
    ensures s[i].targetDays >= 1 ==> !IsOverdue(ResetAt(s, i, now)[i], now)
  {
  }

  /** Resetting twice at the same time is the same as resetting once. */
  lemma ResetIdempotent(s: seq<Timer>, i: int, now: int)
    requires 0 <= i < |s|
    ensures ResetAt(ResetAt(s, i, now), i, now) == ResetAt(s, i, now)
  {
  }
}
