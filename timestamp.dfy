/**
 * Relative-time labels for a post (`formatTimestamp`, docs/app.js).
 *
 * The source subtracts two `Date`s, which gives whole milliseconds, and then
 * takes nested `Math.floor` divisions. Dafny's `/` with a positive divisor is
 * floor division, so the arithmetic below is exact also for negative elapsed
 * times (posts stamped in the future).
 */
module Timestamp {
  import opened Wrappers

  /** The label a post header shows; the string formatting (`秒前`, `分前`, ...) is not modelled. */
  datatype Label = Secs(n: int) | Mins(n: int) | Hours(n: int) | Days(n: int) | DateFallback

  const MsPerSec := 1000
  const MsPerMin := 60 * MsPerSec
  const MsPerHour := 60 * MsPerMin
  const MsPerDay := 24 * MsPerHour

  /**
   * The nested `Math.floor`s of `formatTimestamp` are single divisions of the
   * elapsed milliseconds.
   */
  lemma ElapsedUnits(diffMs: int)
    ensures diffMs / 1000 / 60 == diffMs / MsPerMin
    ensures diffMs / 1000 / 60 / 60 == diffMs / MsPerHour
    ensures diffMs / 1000 / 60 / 60 / 24 == diffMs / MsPerDay
  {
  }

  /**
   * `formatTimestamp` on the elapsed time `nowMs - tsMs`. Exactly one bucket
   * applies, chosen by the elapsed whole seconds; every count is a single
   * floor division of the elapsed milliseconds.
   */
  function FormatTimestamp(diffMs: int): (r: Label)
    ensures r.Secs? <==> diffMs / MsPerSec < 60
    ensures r.Mins? <==> 60 <= diffMs / MsPerSec < 3600
    ensures r.Hours? <==> 3600 <= diffMs / MsPerSec < 86400
    ensures r.Days? <==> 86400 <= diffMs / MsPerSec < 604800
    ensures r.DateFallback? <==> 604800 <= diffMs / MsPerSec
    ensures r.Secs? ==> r.n == diffMs / MsPerSec
    ensures r.Mins? ==> r.n == diffMs / MsPerMin && 1 <= r.n < 60
    ensures r.Hours? ==> r.n == diffMs / MsPerHour && 1 <= r.n < 24
    ensures r.Days? ==> r.n == diffMs / MsPerDay && 1 <= r.n < 7
  {
    var diffSec := diffMs / 1000;
    var diffMin := diffSec / 60;
    var diffHour := diffMin / 60;
    var diffDay := diffHour / 24;
    if diffSec < 60 then Secs(diffSec)
    else if diffMin < 60 then Mins(diffMin)
    else if diffHour < 24 then Hours(diffHour)
    else if diffDay < 7 then Days(diffDay)
    else DateFallback
  }

  /**
   * The label of a post stamped `ts` (the parsed ISO string; `None` when it
   * does not parse, where `Date` arithmetic gives `NaN`, every comparison is
   * false and the date fallback is taken) at the instant `nowMs`.
   */
  function FormatInstant(ts: Option<int>, nowMs: int): (r: Label)
    ensures ts.None? ==> r == DateFallback
    ensures ts.Some? && ts.value <= nowMs - 604800 * MsPerSec ==> r == DateFallback
    ensures ts.Some? && nowMs - 60 * MsPerSec < ts.value ==> r == Secs((nowMs - ts.value) / MsPerSec)
  {
    match ts
    case None => DateFallback
    case Some(t) => FormatTimestamp(nowMs - t)
  }

  /** Position of a bucket in the order the source tests them. */
  function Rank(l: Label): nat
  {
    match l
    case Secs(_) => 0
    case Mins(_) => 1
    case Hours(_) => 2
    case Days(_) => 3
    case DateFallback => 4
  }

  /** An older post never gets a finer bucket, nor a smaller count within the same bucket. */
  lemma FormatMonotone(d1: int, d2: int)
    requires d1 <= d2
    ensures Rank(FormatTimestamp(d1)) <= Rank(FormatTimestamp(d2))
    ensures (Rank(FormatTimestamp(d1)) == Rank(FormatTimestamp(d2)) && !FormatTimestamp(d1).DateFallback?)
              ==> FormatTimestamp(d1).n <= FormatTimestamp(d2).n
  {
  }

  /** Sample elapsed times: 45 s, 90 s, 3661 s, two days, eight days, and a post 1.5 s in the future. */
  lemma FormatExamples()
    ensures FormatTimestamp(45 * MsPerSec) == Secs(45)
    ensures FormatTimestamp(90 * MsPerSec) == Mins(1)
    ensures FormatTimestamp(3661 * MsPerSec) == Hours(1)
    ensures FormatTimestamp(2 * MsPerDay + 5) == Days(2)
    ensures FormatTimestamp(8 * MsPerDay) == DateFallback
    ensures FormatTimestamp(-1500) == Secs(-2)
  {
  }
}
