/** The uptime split of the `/status` handler: an integer number of seconds
    broken into days, hours, minutes and seconds by a chain of Python
    `divmod` calls. With a positive divisor Python's `divmod` floors the
    quotient and leaves a remainder in [0, divisor), which is exactly what
    Dafny's `/` and `%` on `int` do, so the model holds for every integer,
    negative ones included. */
module Uptime {

  const SecondsPerMinute := 60
  const SecondsPerHour := 3600
  const SecondsPerDay := 86400

  /** The four values the status reply shows, in the order it shows them. */
  datatype Duration = Duration(days: int, hours: int, minutes: int, seconds: int)

  /** The clock fields are in range: what a divmod remainder guarantees. */
  predicate Normal(t: Duration) {
    0 <= t.hours < 24 && 0 <= t.minutes < 60 && 0 <= t.seconds < 60
  }

  /** The number of seconds a duration stands for. */
  function TotalSeconds(t: Duration): int {
    t.days * SecondsPerDay + t.hours * SecondsPerHour + t.minutes * SecondsPerMinute + t.seconds
  }

  /** `days, remainder = divmod(u, 86400)`, `hours, remainder =
      divmod(remainder, 3600)`, `minutes, seconds = divmod(remainder, 60)`. */
  function SplitUptime(u: int): (t: Duration)
    ensures Normal(t)
    ensures TotalSeconds(t) == u
    ensures t.days * SecondsPerDay <= u < (t.days + 1) * SecondsPerDay
    ensures u >= 0 ==> t.days >= 0
  {
    var days, remainder := u / SecondsPerDay, u % SecondsPerDay;
    var hours, remainder' := remainder / SecondsPerHour, remainder % SecondsPerHour;
    var minutes, seconds := remainder' / SecondsPerMinute, remainder' % SecondsPerMinute;
    Duration(days, hours, minutes, seconds)
  }

  /** The split is the only normal duration with the given total: any
      days/hours/minutes/seconds with in-range clock fields that add up to
      `u` seconds are the ones the handler reports. */
  lemma SplitUptimeUnique(u: int, t: Duration)
    requires Normal(t) && TotalSeconds(t) == u
    ensures SplitUptime(u) == t
  {
    var s := SplitUptime(u);
    assert t.days == s.days;
    assert t.hours == s.hours;
  }

  /** Joining the split fields back together gives the uptime again, and
      splitting a joined normal duration gives that duration: the two are
      inverse. */
  lemma SplitJoinRoundTrip(u: int, t: Duration)
    ensures TotalSeconds(SplitUptime(u)) == u
    ensures Normal(t) ==> SplitUptime(TotalSeconds(t)) == t
  {
    if Normal(t) {
      SplitUptimeUnique(TotalSeconds(t), t);
    }
  }

  /** One more second of uptime either bumps the seconds field, or wraps it
      to zero and carries into the minutes, and so on up to the days. */
  lemma SplitUptimeTick(u: int)
    ensures var a, b := SplitUptime(u), SplitUptime(u + 1);
      if a.seconds < 59 then b == a.(seconds := a.seconds + 1)
      else if a.minutes < 59 then b == a.(minutes := a.minutes + 1, seconds := 0)
      else if a.hours < 23 then b == a.(hours := a.hours + 1, minutes := 0, seconds := 0)
      else b == Duration(a.days + 1, 0, 0, 0)
  {
    var a := SplitUptime(u);
    var next :=
      if a.seconds < 59 then a.(seconds := a.seconds + 1)
      else if a.minutes < 59 then a.(minutes := a.minutes + 1, seconds := 0)
      else if a.hours < 23 then a.(hours := a.hours + 1, minutes := 0, seconds := 0)
      else Duration(a.days + 1, 0, 0, 0);
    assert Normal(next) && TotalSeconds(next) == u + 1;
    SplitUptimeUnique(u + 1, next);
  }
}
