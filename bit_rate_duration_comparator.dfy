/** BitRateDurationComparator: orders songs by bitrate, then by duration, treating a missing
    value as equal to anything. */
module BitRateDurationComparator {
  import opened Jdk

  /** The two keys a song offers the comparator, as `Integer`s that may be null. */
  datatype BitRateDuration = BitRateDuration(bitRate: Nullable<Int32>, durationSec: Nullable<Int32>)

  /** The sign of an integer. */
  function Sign(x: int): int {
    if x < 0 then -1 else if x == 0 then 0 else 1
  }

  /** `Integer.compareTo`: -1, 0 or 1 as x is below, equal to or above y (no overflow, unlike a
      subtraction of two `int`s). */
  function CompareTo(x: Int32, y: Int32): (r: int)
    ensures r == Sign(x - y)
  {
    if x < y then -1 else if x == y then 0 else 1
  }

  /** One key compared, 0 when either side is missing. */
  function CompareKey(x: Nullable<Int32>, y: Nullable<Int32>): (r: int)
    ensures x.Null? || y.Null? ==> r == 0
    ensures x.NonNull? && y.NonNull? ==> r == Sign(x.value - y.value)
  {
    if x.Null? || y.Null? then 0 else CompareTo(x.value, y.value)
  }

  /** Both bitrates are present and they differ. */
  predicate BitRatesDiffer(song1: BitRateDuration, song2: BitRateDuration) {
    song1.bitRate.NonNull? && song2.bitRate.NonNull? && song1.bitRate.value != song2.bitRate.value
  }

  /** `compare(song1, song2)`: the bitrate comparison when both bitrates are present and differ;
      otherwise the duration comparison when both durations are present; otherwise 0. */
  function Compare(song1: BitRateDuration, song2: BitRateDuration): (r: int)
    ensures -1 <= r <= 1
    ensures BitRatesDiffer(song1, song2) ==> r == Sign(song1.bitRate.value - song2.bitRate.value)
    ensures !BitRatesDiffer(song1, song2) && song1.durationSec.NonNull? && song2.durationSec.NonNull? ==>
              r == Sign(song1.durationSec.value - song2.durationSec.value)
    ensures !BitRatesDiffer(song1, song2) && (song1.durationSec.Null? || song2.durationSec.Null?) ==> r == 0
  {
    var compareBitRates := CompareKey(song1.bitRate, song2.bitRate);
    if compareBitRates != 0 then compareBitRates else CompareKey(song1.durationSec, song2.durationSec)
  }

  /** Every song compares equal to itself. */
  lemma CompareReflexive(song: BitRateDuration)
    ensures Compare(song, song) == 0
  {
  }

  /** Swapping the songs negates the result. */
  lemma CompareAntisymmetric(song1: BitRateDuration, song2: BitRateDuration)
    ensures Compare(song1, song2) == -Compare(song2, song1)
  {
  }

  /** "Compares equal" is not transitive: a song without a bitrate or duration is equal to both
      128 and 320 kbit/s songs, which differ from each other. */
  lemma CompareEqualNotTransitive()
    ensures var unknown := BitRateDuration(Null, Null);
            var low := BitRateDuration(NonNull(128), Null);
            var high := BitRateDuration(NonNull(320), Null);
            Compare(low, unknown) == 0 && Compare(unknown, high) == 0 && Compare(low, high) == -1
  {
  }
}
