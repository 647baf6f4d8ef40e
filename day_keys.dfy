/** The start-of-day key that the toggle handler computes for "now".
    Instants are integer milliseconds; a day key is the first instant of the
    calendar day, in one fixed reference frame whose midnights lie at
    `MidnightOffsetMs` modulo one day. */
module DayKeys {

  /** Length of one calendar day in milliseconds. */
  const DayMs: int := 86_400_000

  /** Where midnight falls, modulo one day, in the fixed reference frame
      (0: midnights of Coordinated Universal Time). */
  const MidnightOffsetMs: int := 0

  /** `k` is the first instant of some calendar day. */
  predicate IsDayStart(k: int) {
    (k - MidnightOffsetMs) % DayMs == 0
  }

  /** Start of the day that contains instant `t`: Dafny's `%` is Euclidean, so
      this floors also for instants before the epoch. */
  function DayKey(t: int): (k: int)
    ensures IsDayStart(k)
    ensures k <= t < k + DayMs
  {
    t - (t - MidnightOffsetMs) % DayMs
  }

  /** A day start is the key of every instant of its day, and of no other. */
  lemma DayKeyUnique(k: int, t: int)
    requires IsDayStart(k)
    requires k <= t < k + DayMs
    ensures DayKey(t) == k
  {
  }

  /** Normalising twice is normalising once. */
  lemma DayKeyIdempotent(t: int)
    ensures DayKey(DayKey(t)) == DayKey(t)
  {
  }

  /** Two instants share a key exactly when the second lies in the first one's
      day: any time of day maps to the same key. */
  lemma SameDayIff(t1: int, t2: int)
    ensures DayKey(t1) == DayKey(t2) <==> DayKey(t1) <= t2 < DayKey(t1) + DayMs
  {
  }

  /** A later instant never has an earlier key. */
  lemma DayKeyMonotonic(t1: int, t2: int)
    requires t1 <= t2
    ensures DayKey(t1) <= DayKey(t2)
  {
  }
}
