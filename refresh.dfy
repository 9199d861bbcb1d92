/**
 * The three-valued refresh interval a scraper declares for its saved discovery
 * requests (`indices_refresh_interval`) and for its document index
 * (`index_refresh_interval`): `True` (always refresh), `False` (never refresh)
 * or a `timedelta` (refresh what is older than it). Times are whole seconds.
 */
module Refresh {
  import opened Wrappers

  datatype Interval = Always | Never | Within(seconds: int)

  /** Whether the saved discovery requests of a source are regenerated
      (creator.py:119-122): there is no saved file, the interval is `True`, or
      the interval is a duration the file's age strictly exceeds. `savedAt` is
      the file's modification time, `None` when the file does not exist. */
  predicate MustRegenerate(savedAt: Option<int>, interval: Interval, now: int)
  {
    || savedAt.None?
    || interval.Always?
    || (interval.Within? && now - savedAt.value > interval.seconds)
  }

  /** Whether an index record retrieved at `retrievedAt` may be kept
      (creator.py:162-163): always under `False`, when its age is at most the
      duration otherwise. Under `True` the whole index is deleted before this
      test is reached (creator.py:147-150), so no record is fresh. */
  predicate IsFresh(interval: Interval, retrievedAt: int, now: int)
  {
    match interval
    case Always => false
    case Never => true
    case Within(d) => now - retrievedAt <= d
  }

  /** Once saved requests must be regenerated they stay due as time passes. */
  lemma RegenerationPersists(savedAt: Option<int>, interval: Interval, now: int, later: int)
    requires now <= later && MustRegenerate(savedAt, interval, now)
    ensures MustRegenerate(savedAt, interval, later)
  {
  }

  /** A record fresh now was fresh at every earlier time. */
  lemma FreshnessFades(interval: Interval, retrievedAt: int, earlier: int, now: int)
    requires earlier <= now && IsFresh(interval, retrievedAt, now)
    ensures IsFresh(interval, retrievedAt, earlier)
  {
  }

  /** The two tests put the boundary in the same place: a saved file of age
      exactly `d` is kept, and so is an index record of age exactly `d`; for a
      duration, "not regenerated" and "fresh" coincide. */
  lemma SameBoundary(t: int, d: int, now: int)
    ensures !MustRegenerate(Some(t), Within(d), now) <==> IsFresh(Within(d), t, now)
  {
  }

  /** With `False`, a saved file is never regenerated and every record stays fresh. */
  lemma NeverRefreshes(t: int, now: int)
    ensures !MustRegenerate(Some(t), Never, now) && IsFresh(Never, t, now)
  {
  }
}
