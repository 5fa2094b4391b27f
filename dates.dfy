/**
 * dates.go: the next occurrence of a weekday at a given hour and minute, and
 * the Unix second inside a Slack message timestamp.
 *
 * Time is an integer count of seconds since 1970-01-01 00:00:00 UTC; the
 * computation happens in UTC, where a calendar day is always 86400 seconds.
 * Weekdays follow Go's time.Weekday: 0 is Sunday, 6 is Saturday.
 */
module Dates {
  import opened Text

  const SECONDS_PER_DAY: int := 86400
  const SECONDS_PER_WEEK: int := 7 * 86400
  /** 1970-01-01 was a Thursday. */
  const EPOCH_WEEKDAY: int := 4

  /** Index of the UTC day that contains `t` (floor division). */
  function Day(t: int): int
  {
    t / SECONDS_PER_DAY
  }

  /** time.Time.Weekday in UTC. */
  function Weekday(t: int): int
  {
    (Day(t) + EPOCH_WEEKDAY) % 7
  }

  /** Seconds elapsed since midnight UTC. */
  function TimeOfDay(t: int): int
  {
    t % SECONDS_PER_DAY
  }

  /** Go's `%`, which truncates toward zero. */
  function GoRem(a: int, b: int): int
    requires b > 0
  {
    if a >= 0 then a % b else -((-a) % b)
  }

  /** What NextWeekdayTime returns: the instant and the wait until it. */
  datatype Next = Next(at: int, wait: int)

  /** The day offset `(w - nowWeekday + 7) % 7` of dates.go. */
  function DayOffset(w: int, nowWeekday: int): int
  {
    GoRem(w - nowWeekday + 7, 7)
  }

  /**
   * NextWeekdayTime: the instant on weekday `w` at hour:min:00 that is
   * `DayOffset` days after the day of `from`, pushed one week later when it
   * does not lie strictly after `from`; time.Date normalises an hour or
   * minute outside its usual range by carrying into the neighbouring units.
   */
  function NextWeekdayTime(from: int, w: int, hour: int, min: int): (n: Next)
    ensures n.wait == n.at - from
  {
    var delta := DayOffset(w, Weekday(from));
    var res := (Day(from) + delta) * SECONDS_PER_DAY + hour * 3600 + min * 60;
    var at := if res - from <= 0 then res + SECONDS_PER_WEEK else res;
    Next(at, at - from)
  }

  /** The day offset lies in 0..6, lands on the requested weekday, and is 0 exactly on that weekday. */
  lemma DayOffsetInRange(w: int, nowWeekday: int)
    requires 0 <= w < 7 && 0 <= nowWeekday < 7
    ensures 0 <= DayOffset(w, nowWeekday) < 7
    ensures (nowWeekday + DayOffset(w, nowWeekday)) % 7 == w
    ensures DayOffset(w, nowWeekday) == 0 <==> nowWeekday == w
  {
  }

  /** Splitting `k * day + r` back into day index and time of day. */
  lemma DayParts(k: int, r: int)
    requires 0 <= r < SECONDS_PER_DAY
    ensures Day(k * SECONDS_PER_DAY + r) == k
    ensures TimeOfDay(k * SECONDS_PER_DAY + r) == r
  {
  }

  lemma DayDecomposition(t: int)
    ensures t == Day(t) * SECONDS_PER_DAY + TimeOfDay(t)
    ensures 0 <= TimeOfDay(t) < SECONDS_PER_DAY
  {
  }

  /** The instant whose weekday, hour and minute are the requested ones. */
  ghost predicate IsSlot(t: int, w: int, hour: int, min: int)
  {
    Weekday(t) == w && TimeOfDay(t) == hour * 3600 + min * 60
  }

  /** Two instants on the same weekday at the same time of day are a whole number of weeks apart. */
  lemma {:induction false} SlotsWeeksApart(t: int, u: int, w: int, hour: int, min: int)
    requires IsSlot(t, w, hour, min) && IsSlot(u, w, hour, min)
    ensures (u - t) % SECONDS_PER_WEEK == 0
  {
    DayDecomposition(t);
    DayDecomposition(u);
    var a, b := Day(t), Day(u);
    assert (a + EPOCH_WEEKDAY) % 7 == (b + EPOCH_WEEKDAY) % 7;
    var q := (b - a) / 7;
    assert b - a == 7 * q;
    assert u - t == (b - a) * SECONDS_PER_DAY;
    assert u - t == q * SECONDS_PER_WEEK;
  }

  /** `delta` days and `j` whole weeks after a day, the weekday has moved by `delta`. */
  lemma WeekdayAfter(d: int, delta: int, j: int)
    ensures (d + delta + 7 * j + EPOCH_WEEKDAY) % 7 == ((d + EPOCH_WEEKDAY) % 7 + delta) % 7
  {
    var q, m := (d + EPOCH_WEEKDAY) / 7, (d + EPOCH_WEEKDAY) % 7;
    assert d + delta + 7 * j + EPOCH_WEEKDAY == 7 * (q + j) + (m + delta);
    ShiftByWeeks(q + j, m + delta);
  }

  lemma ShiftByWeeks(a: int, x: int)
    ensures (7 * a + x) % 7 == x % 7
  {
  }

  /**
   * The slot `delta` days after the day of `from` at time of day `hm`, or
   * one week after that when it does not lie after `from`: the wait is
   * positive, at most a week, and a full week exactly when the slot is `from`.
   */
  lemma {:induction false} WaitBounds(d: int, r: int, delta: int, hm: int)
    requires 0 <= r < SECONDS_PER_DAY && 0 <= hm < SECONDS_PER_DAY && 0 <= delta < 7
    ensures var gap := delta * SECONDS_PER_DAY + hm - r;
            var wait := if gap <= 0 then gap + SECONDS_PER_WEEK else gap;
            0 < wait <= SECONDS_PER_WEEK
            && (wait == SECONDS_PER_WEEK <==> delta == 0 && hm == r)
  {
    if delta > 0 {
      assert delta * SECONDS_PER_DAY >= SECONDS_PER_DAY;
      assert delta * SECONDS_PER_DAY <= 6 * SECONDS_PER_DAY;
    }
  }

  /**
   * For a weekday in 0..6, an hour in 0..23 and a minute in 0..59 the result
   * falls on weekday `w` at hour:min:00 UTC, the wait is positive and at most
   * one week, and it is exactly one week when `from` is itself that slot.
   */
  lemma {:induction false} NextWeekdayTimeLandsOnSlot(from: int, w: int, hour: int, min: int)
    requires 0 <= w < 7 && 0 <= hour < 24 && 0 <= min < 60
    ensures IsSlot(NextWeekdayTime(from, w, hour, min).at, w, hour, min)
    ensures 0 < NextWeekdayTime(from, w, hour, min).wait <= SECONDS_PER_WEEK
    ensures NextWeekdayTime(from, w, hour, min).wait == SECONDS_PER_WEEK <==> IsSlot(from, w, hour, min)
  {
    var n := NextWeekdayTime(from, w, hour, min);
    var d, r, hm := Day(from), TimeOfDay(from), hour * 3600 + min * 60;
    var wd := Weekday(from);
    var delta := DayOffset(w, wd);
    DayOffsetInRange(w, wd);
    DayDecomposition(from);
    assert 0 <= hm < SECONDS_PER_DAY;
    var gap := delta * SECONDS_PER_DAY + hm - r;
    assert (d + delta) * SECONDS_PER_DAY + hm - from == gap;
    WaitBounds(d, r, delta, hm);
    var k := if gap <= 0 then d + delta + 7 else d + delta;
    assert n.at == k * SECONDS_PER_DAY + hm;
    DayParts(k, hm);
    WeekdayAfter(d, delta, if gap <= 0 then 1 else 0);
  }

  /** No slot lies strictly between `from` and the result: it is the next one. */
  lemma {:induction false} NextWeekdayTimeIsNext(from: int, w: int, hour: int, min: int)
    requires 0 <= w < 7 && 0 <= hour < 24 && 0 <= min < 60
    ensures forall t :: from < t < NextWeekdayTime(from, w, hour, min).at ==> !IsSlot(t, w, hour, min)
  {
    var at := NextWeekdayTime(from, w, hour, min).at;
    NextWeekdayTimeLandsOnSlot(from, w, hour, min);
    forall t | from < t < at && IsSlot(t, w, hour, min)
      ensures false
    {
      SlotsWeeksApart(t, at, w, hour, min);
    }
  }

  /** dates_test.go: from Tuesday 2018-10-23 12:00 UTC, the next Tuesday noon is a week later. */
  lemma NextTuesdayNoon()
    ensures NextWeekdayTime(1540296000, 2, 12, 0) == Next(1540900800, 604800)
  {
    assert Day(1540296000) == 17827;
    assert Weekday(1540296000) == 2;
    assert DayOffset(2, 2) == 0;
  }

  /** dates_test.go: from the same instant, the next Sunday noon is 2018-10-28 12:00 UTC. */
  lemma NextSundayNoon()
    ensures NextWeekdayTime(1540296000, 0, 12, 0) == Next(1540728000, 432000)
  {
    assert Day(1540296000) == 17827;
    assert Weekday(1540296000) == 2;
    assert DayOffset(0, 2) == 5;
  }

  /**
   * unixFromTimestamp: the integer before the first '.' of a Slack
   * "seconds.micros" timestamp, read by strconv.Atoi with its error dropped.
   */
  function UnixFromTimestamp(ts: string): (r: int)
    ensures MIN_INT64 <= r <= MAX_INT64
    ensures Atoi(BeforeFirst(ts, '.')).err == ErrSyntax ==> r == 0
    ensures IsDecimal(BeforeFirst(ts, '.')) ==> r == ClampedDecimal(BeforeFirst(ts, '.')).value
  {
    var t := BeforeFirst(ts, '.');
    if IsDecimal(t) then AtoiOfDecimal(t); Atoi(t).value else Atoi(t).value
  }

  /** Rendering seconds and any fraction as "sec.frac" and reading it back gives the seconds. */
  lemma {:induction false} UnixFromTimestampRoundTrip(sec: int, frac: string)
    requires MIN_INT64 <= sec <= MAX_INT64
    ensures UnixFromTimestamp(IntToString(sec) + "." + frac) == sec
  {
    RenderingHasNoDot(sec);
    BeforeFirstOfJoined(IntToString(sec), '.', frac);
    AtoiOfRendering(sec);
  }

  /** A timestamp without a fraction is read as the whole integer. */
  lemma UnixFromTimestampWhole(sec: int)
    requires MIN_INT64 <= sec <= MAX_INT64
    ensures UnixFromTimestamp(IntToString(sec)) == sec
  {
    var t := IntToString(sec);
    RenderingHasNoDot(sec);
    assert |BeforeFirst(t, '.')| == |t|;
    assert BeforeFirst(t, '.') == t[..|t|] == t;
    AtoiOfRendering(sec);
  }

  /** dates_test.go: a string that is not a timestamp reads as 0. */
  lemma InvalidTimestampIsZero()
    ensures UnixFromTimestamp("invalid") == 0
  {
    assert !IsDigit("invalid"[0]);
  }
}
