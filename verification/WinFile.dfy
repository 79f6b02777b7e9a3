/** Windows file times and the times of a manifest: which of them a restore gives back. */
module WinFile {
  import opened Binary

  /** 1970-01-01T00:00:00Z in intervals of 100 ns since 1601-01-01. */
  const UNIX_EPOCH: int := 116444736000000000

  predicate IsInt64(n: int) { -TWO_TO_THE_63 <= n < TWO_TO_THE_63 }

  /** filetimeToUnixNano, with the wrap-around of int64. */
  function UnixNanoOf(filetime: int): int {
    if filetime == 0 then 0 else Int64((filetime - UNIX_EPOCH) * 100)
  }

  /** Division of Go, which truncates toward zero. */
  function Truncated(n: int, d: int): int
    requires d > 0
  {
    if n >= 0 then n / d else -(-n / d)
  }

  /** unixNanoToFiletime. */
  function FiletimeOf(nanos: int): int { if nanos == 0 then 0 else Truncated(nanos, 100) + UNIX_EPOCH }

  /** The time of an entry that was created at `now` and then given the recorded
      time by setTimes, which leaves out a recorded zero. */
  function RestoredTime(now: int, recorded: int): int { if recorded == 0 then now else FiletimeOf(recorded) }

  /** The times in reach of the manifest: whole nanoseconds of an int64 around
      1970, which is 1677 to 2262, without the first moment of 1970. */
  predicate IsKept(filetime: int) {
    filetime != 0 && filetime != UNIX_EPOCH && IsInt64((filetime - UNIX_EPOCH) * 100)
  }

  lemma TruncatedIsClose(n: int)
    ensures -100 < n - 100 * Truncated(n, 100) < 100
    ensures n % 100 == 0 ==> n == 100 * Truncated(n, 100)
  {
  }

  lemma WrapIsFar(n: int)
    ensures IsInt64(n) <==> Int64(n) == n
    ensures !IsInt64(n) ==> n - Int64(n) >= TWO_TO_THE_64 || Int64(n) - n >= TWO_TO_THE_64
  {
    var q := n / TWO_TO_THE_64;
    assert n == TWO_TO_THE_64 * q + n % TWO_TO_THE_64;
  }

  /** A file that had the time `filetime` when it was backed up has it again after
      a restore at another time, exactly when it is in reach. */
  lemma TimeIsRestored(now: int, filetime: int)
    requires IsInt64(filetime) && now != filetime
    ensures RestoredTime(now, UnixNanoOf(filetime)) == filetime <==> IsKept(filetime)
  {
    var n := (filetime - UNIX_EPOCH) * 100;
    WrapIsFar(n);
    TruncatedIsClose(Int64(n));
    hide Int64, Truncated;
  }

  /** 369 years, 89 of them leap years, of intervals of 100 ns; a millisecond before or
      after are recorded as such. */
  lemma EpochIs()
    ensures UNIX_EPOCH == (369 * 365 + 89) * 24 * 60 * 60 * 10_000_000
    ensures UnixNanoOf(UNIX_EPOCH + 10_000) == 1_000_000 && UnixNanoOf(UNIX_EPOCH - 10_000) == -1_000_000
    ensures FiletimeOf(1_000_000) == UNIX_EPOCH + 10_000 && FiletimeOf(-150) == UNIX_EPOCH - 1 && FiletimeOf(0) == 0
  {
  }

  /** What is recorded of the first moment of 1970 is the mark of a time that is not known. */
  lemma EpochIsLost(now: int)
    requires now != UNIX_EPOCH
    ensures UnixNanoOf(UNIX_EPOCH) == UnixNanoOf(0) == 0 && RestoredTime(now, UnixNanoOf(UNIX_EPOCH)) != UNIX_EPOCH
  {
    assert Int64(0) == 0;
  }
}
