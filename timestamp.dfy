/**
 * Conversion of Chrome's `expires_utc` (microseconds since 1601-01-01 UTC)
 * into Unix time (seconds since 1970-01-01 UTC), cookie_exporter.py:167-177.
 *
 * The source computes `int(chrome_ts / 1000000 - 11644473600)`: a true
 * division, a subtraction and a conversion to int, which rounds toward
 * zero. This module uses exact rational arithmetic for that expression,
 * so the result is `(ts - 11644473600 * 1000000) / 1000000` rounded
 * toward zero.
 */
module Timestamp {
  import opened Wrappers

  /** Seconds between 1601-01-01 and 1970-01-01. */
  const EpochDeltaSeconds: int := 11644473600
  const MicrosPerSecond: int := 1000000
  /** 1970-01-01 expressed in Chrome's microsecond epoch. */
  const UnixEpochInChromeMicros: int := EpochDeltaSeconds * MicrosPerSecond

  /**
   * Microseconds to whole seconds, rounding toward zero, as Python's `int()`
   * of the quotient `micros / 1000000`.
   */
  function TruncToSeconds(micros: int): (q: int)
    ensures 0 <= micros ==> 0 <= q && q * MicrosPerSecond <= micros < q * MicrosPerSecond + MicrosPerSecond
    ensures micros < 0 ==> q <= 0 && q * MicrosPerSecond - MicrosPerSecond < micros <= q * MicrosPerSecond
  {
    if micros >= 0 then micros / MicrosPerSecond else -((-micros) / MicrosPerSecond)
  }

  /**
   * `convert_chrome_timestamp_to_unix`. An absent or zero timestamp is the
   * session-cookie sentinel 0; every other value, negative ones included,
   * goes through the formula.
   */
  function ConvertChromeTimestampToUnix(chromeTs: Option<int>): (r: int)
    ensures chromeTs == None || chromeTs == Some(0) ==> r == 0
    ensures chromeTs.Some? && chromeTs.value != 0 && chromeTs.value >= UnixEpochInChromeMicros ==>
      0 <= r && r * MicrosPerSecond <= chromeTs.value - UnixEpochInChromeMicros
             < r * MicrosPerSecond + MicrosPerSecond
    ensures chromeTs.Some? && chromeTs.value != 0 && chromeTs.value < UnixEpochInChromeMicros ==>
      r <= 0 && r * MicrosPerSecond - MicrosPerSecond < chromeTs.value - UnixEpochInChromeMicros
             <= r * MicrosPerSecond
  {
    match chromeTs
    case None => 0
    case Some(ts) =>
      if ts == 0 then 0
      else TruncToSeconds(ts - UnixEpochInChromeMicros)
  }

  /** From 1970 on the conversion is plain floor division minus the epoch delta. */
  lemma ConvertAfterUnixEpoch(ts: int)
    requires ts >= UnixEpochInChromeMicros
    ensures ConvertChromeTimestampToUnix(Some(ts)) == ts / MicrosPerSecond - EpochDeltaSeconds
  {
  }

  /**
   * A non-zero timestamp before 1970, negative ones included, rounds toward
   * zero, not down: when it is not a whole second, the result is one more
   * than floor division gives.
   */
  lemma ConvertBeforeUnixEpoch(ts: int)
    requires ts != 0 && ts < UnixEpochInChromeMicros
    ensures ConvertChromeTimestampToUnix(Some(ts)) ==
      ts / MicrosPerSecond - EpochDeltaSeconds + (if ts % MicrosPerSecond == 0 then 0 else 1)
  {
  }

  /** The example expiry 13320288000000000 is 1675814400 in Unix time. */
  lemma ConvertExample()
    ensures ConvertChromeTimestampToUnix(Some(13320288000000000)) == 1675814400
  {
  }
}
