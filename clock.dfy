/** Wall-clock values as the page handles them: a time of day with whole
    seconds (what `strftime("%H:%M:%S")` shows) and a naive calendar
    datetime, laid out on a timeline of seconds counted from day 0. */
module Clock {

  const SecondsPerDay: int := 86400

  /** A `datetime.time` without its microseconds. */
  datatype TimeOfDay = TimeOfDay(hour: nat, minute: nat, second: nat)
  {
    predicate Valid() {
      hour < 24 && minute < 60 && second < 60
    }
  }

  /** Seconds since midnight. */
  function Seconds(t: TimeOfDay): (s: nat)
    requires t.Valid()
    ensures s < SecondsPerDay
  {
    t.hour * 3600 + t.minute * 60 + t.second
  }

  /** The hour, minute and second fields of a number of seconds since midnight. */
  function FromSeconds(s: nat): (t: TimeOfDay)
    requires s < SecondsPerDay
    ensures t.Valid() && Seconds(t) == s
  {
    TimeOfDay(s / 3600, s % 3600 / 60, s % 60)
  }

  /** Reading the fields back from the seconds gives the same time of day. */
  lemma {:induction false} FromSecondsOfSeconds(t: TimeOfDay)
    requires t.Valid()
    ensures FromSeconds(Seconds(t)) == t
  {
    var s := Seconds(t);
    DivModUnique(s, 3600, t.hour, t.minute * 60 + t.second);
    DivModUnique(t.minute * 60 + t.second, 60, t.minute, t.second);
    DivModUnique(s, 60, t.hour * 60 + t.minute, t.second);
  }

  /** A naive `datetime`: a day number and a time of day. */
  datatype DateTime = DateTime(day: int, time: TimeOfDay)

  /** `datetime.combine(date, time)`, as a point of the naive timeline. */
  function Combine(day: int, t: TimeOfDay): (w: int)
    requires t.Valid()
    ensures w / SecondsPerDay == day && w % SecondsPerDay == Seconds(t)
  {
    DivModUnique(day * 86400 + Seconds(t), 86400, day, Seconds(t));
    day * 86400 + Seconds(t)
  }

  /** The date and the time of day of a point of the naive timeline. */
  function Split(w: int): (d: DateTime)
    ensures d.time.Valid() && Combine(d.day, d.time) == w
  {
    DateTime(w / SecondsPerDay, FromSeconds(w % SecondsPerDay))
  }

  /** Splitting a combined date and time gives both back. */
  lemma {:induction false} SplitCombine(day: int, t: TimeOfDay)
    requires t.Valid()
    ensures Split(Combine(day, t)) == DateTime(day, t)
  {
    FromSecondsOfSeconds(t);
  }

  /** Moving a point of the timeline by `x` seconds from midnight of `day`
      lands on day `day + x / 86400` (floor division) at `x % 86400`. */
  lemma ShiftFromMidnight(day: int, x: int)
    ensures (day * 86400 + x) / SecondsPerDay == day + x / SecondsPerDay
    ensures (day * 86400 + x) % SecondsPerDay == x % SecondsPerDay
  {
    DivModUnique(day * 86400 + x, 86400, day + x / 86400, x % 86400);
  }

  /** Quotient and remainder by a positive divisor are unique. */
  lemma DivModUnique(n: int, d: int, q: int, r: int)
    requires 0 < d && 0 <= r < d && n == q * d + r
    ensures n / d == q && n % d == r
  {
    var q', r' := n / d, n % d;
    if q' > q {
      assert q' * d - q * d == (q' - q) * d;
      MultipleAtLeast(q' - q, d);
    } else if q' < q {
      assert q * d - q' * d == (q - q') * d;
      MultipleAtLeast(q - q', d);
    }
  }

  /** One or more whole multiples of `d` amount to at least `d`. */
  lemma {:induction false} MultipleAtLeast(k: int, d: int)
    requires 1 <= k && 0 < d
    ensures k * d >= d
  {
    if k > 1 {
      MultipleAtLeast(k - 1, d);
      assert k * d == (k - 1) * d + d;
    }
  }
}
