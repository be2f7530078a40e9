/** Wall-clock timestamps. Every start time the scraper builds carries the
    same `TZ` object, and Python compares and adds datetimes that share a
    tzinfo by their wall-clock fields, so a timestamp is modelled as the
    number of minutes since the start of day 0 of the proleptic Gregorian
    ordinal: `ordinal * 1440 + hour * 60 + minute`. Seconds are always 0. */
module Timeline {
  import opened Calendar

  const MinutesPerDay: int := 1440

  /** A `time(hh, mm)`; the fields are whatever the page gave. */
  datatype TimeOfDay = TimeOfDay(hour: int, minute: int)

  /** What `time(hh, mm)` accepts without raising ValueError. */
  predicate ValidTime(t: TimeOfDay) {
    0 <= t.hour <= 23 && 0 <= t.minute <= 59
  }

  /** A provisional or final programme; `start` and `stop` are timestamps. */
  datatype Programme = Programme(start: int, stop: int, title: string)

  /** `datetime.combine(d, t)`. */
  function Combine(d: Date, t: TimeOfDay): int {
    ToOrdinal(d) * MinutesPerDay + t.hour * 60 + t.minute
  }

  /** The calendar day (as an ordinal) and the minute within it. */
  function DayOf(ts: int): int {
    ts / MinutesPerDay
  }

  /** `(ts + timedelta(days=1)).replace(hour=0, minute=0, second=0)`. */
  function NextMidnight(ts: int): (r: int)
    ensures ts < r <= ts + MinutesPerDay
    ensures r % MinutesPerDay == 0
  {
    (DayOf(ts) + 1) * MinutesPerDay
  }

  /** A combined timestamp keeps its date and its time of day apart. */
  lemma CombineParts(d: Date, t: TimeOfDay)
    requires ValidTime(t)
    ensures DayOf(Combine(d, t)) == ToOrdinal(d)
    ensures Combine(d, t) % MinutesPerDay == t.hour * 60 + t.minute
  {
    var ts := Combine(d, t);
    var rest := t.hour * 60 + t.minute;
    assert 0 <= rest < MinutesPerDay;
    assert ts == ToOrdinal(d) * MinutesPerDay + rest;
  }

  /** Different valid date and time pairs give different timestamps. */
  lemma CombineInjective(d1: Date, t1: TimeOfDay, d2: Date, t2: TimeOfDay)
    requires ValidDate(d1) && ValidDate(d2) && ValidTime(t1) && ValidTime(t2)
    requires Combine(d1, t1) == Combine(d2, t2)
    ensures d1 == d2 && t1 == t2
  {
    CombineParts(d1, t1);
    CombineParts(d2, t2);
    OrdinalInjective(d1, d2);
    var r := t1.hour * 60 + t1.minute;
    assert t1.hour == r / 60 && t1.minute == r % 60;
  }

  /** The stop of the last programme is 00:00 on the calendar day after the
      start's date. */
  lemma NextMidnightIsNextDay(d: Date, t: TimeOfDay)
    requires ValidDate(d) && ValidTime(t)
    ensures NextMidnight(Combine(d, t)) == Combine(AddDays(d, 1), TimeOfDay(0, 0))
  {
    CombineParts(d, t);
  }
}
