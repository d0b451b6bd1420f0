/** `OTP.is_expired`: whether a one-time code is too old to use. Ages are
    `timezone.now() - created_at` in microseconds, as a `timedelta` holds them. */
module Otp {

  const MicrosPerSecond: int := 1000000
  const SecondsPerDay: int := 86400
  /** The threshold in the source, in seconds. */
  const MaxAgeSeconds: int := 12300
  /** `code = models.CharField(max_length=6)`. */
  const CodeLength: nat := 6

  /** `timedelta.seconds`: the seconds part of the normalised `timedelta`
      (days, seconds, microseconds), always in `0 .. 86399`. Normalisation
      floors, which for a positive divisor is Dafny's Euclidean division. */
  function TimedeltaSeconds(ageMicros: int): (s: int)
    ensures 0 <= s < SecondsPerDay
  {
    (ageMicros / MicrosPerSecond) % SecondsPerDay
  }

  /** The whole seconds of an age are its days and its `.seconds`. */
  lemma SecondsAndDays(ageMicros: int)
    ensures var whole := ageMicros / MicrosPerSecond;
      whole == (whole / SecondsPerDay) * SecondsPerDay + TimedeltaSeconds(ageMicros)
  {
  }

  /** `is_expired` as written: `.seconds` drops whole days from the age. */
  predicate IsExpiredAsWritten(ageMicros: int)
    ensures 0 <= ageMicros < (MaxAgeSeconds + 1) * MicrosPerSecond ==> !IsExpiredAsWritten(ageMicros)
    ensures SecondsPerDay * MicrosPerSecond <= ageMicros < (SecondsPerDay + MaxAgeSeconds + 1) * MicrosPerSecond
            ==> !IsExpiredAsWritten(ageMicros)
  {
    TimedeltaSeconds(ageMicros) > MaxAgeSeconds
  }

  /** The whole age in seconds compared, days included, as the expiry check
      evidently means. */
  predicate IsExpired(ageMicros: int)
    ensures ageMicros < (MaxAgeSeconds + 1) * MicrosPerSecond ==> !IsExpired(ageMicros)
    ensures ageMicros >= (MaxAgeSeconds + 1) * MicrosPerSecond ==> IsExpired(ageMicros)
  {
    ageMicros / MicrosPerSecond > MaxAgeSeconds
  }

  /** Within a day both readings agree: expired iff more than 12300 whole
      seconds have passed. */
  lemma SameWithinADay(ageMicros: int)
    requires 0 <= ageMicros < SecondsPerDay * MicrosPerSecond
    ensures IsExpiredAsWritten(ageMicros) <==> ageMicros / MicrosPerSecond > MaxAgeSeconds
    ensures IsExpired(ageMicros) <==> IsExpiredAsWritten(ageMicros)
  {
    var whole := ageMicros / MicrosPerSecond;
    assert 0 <= whole < SecondsPerDay;
    assert whole % SecondsPerDay == whole;
  }

  /** As written, adding whole days to the age never changes the answer. */
  lemma DaysIgnoredAsWritten(ageMicros: int, days: nat)
    ensures IsExpiredAsWritten(ageMicros + days * SecondsPerDay * MicrosPerSecond) <==> IsExpiredAsWritten(ageMicros)
  {
    var whole := ageMicros / MicrosPerSecond;
    assert (ageMicros + days * SecondsPerDay * MicrosPerSecond) / MicrosPerSecond == whole + days * SecondsPerDay;
    assert (whole + days * SecondsPerDay) % SecondsPerDay == whole % SecondsPerDay;
  }

  /** A code created exactly one day ago reads as fresh as written. */
  lemma DayOldCodeAccepted()
    ensures !IsExpiredAsWritten(SecondsPerDay * MicrosPerSecond)
    ensures IsExpired(SecondsPerDay * MicrosPerSecond)
  {
    DaysIgnoredAsWritten(0, 1);
  }

  /** With the whole age compared, an expired code stays expired. */
  lemma ExpiryIsFinal(ageMicros: int, later: nat)
    requires IsExpired(ageMicros)
    ensures IsExpired(ageMicros + later)
  {
    assert (ageMicros + later) / MicrosPerSecond >= ageMicros / MicrosPerSecond;
  }
}
