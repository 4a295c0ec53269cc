/**
 * The `dates` table and `mkdate` (defcon.py:38-47), and the `'%H:%M'`
 * parse that `time.strptime` applies to a time heading (defcon.py:113-114).
 * Timestamps are whole minutes since 2015-08-01 00:00, venue wall-clock time.
 */
module Dates {
  import opened Wrappers

  /** Minutes in an hour and in a day. */
  const Hour := 60
  const Day := 1440

  /** The conference's days in weekday order. */
  const ConferenceDays: seq<string> := ["Thursday", "Friday", "Saturday", "Sunday"]

  /** `dates[day]`: the day of August 2015 a day heading names, or None where
      the lookup raises KeyError. */
  function DayOfMonth(day: Option<string>): (r: Option<nat>)
    ensures r.Some? <==> day in {Some("Thursday"), Some("Friday"), Some("Saturday"), Some("Sunday")}
    ensures r.Some? ==> 6 <= r.value <= 9
  {
    match day
    case Some("Thursday") => Some(6)
    case Some("Friday") => Some(7)
    case Some("Saturday") => Some(8)
    case Some("Sunday") => Some(9)
    case _ => None
  }

  /** The four days of the table are consecutive days of the month, in
      weekday order: the order of the days is the order of their dates. */
  lemma ConsecutiveDays()
    ensures forall k | 0 <= k < |ConferenceDays| :: DayOfMonth(Some(ConferenceDays[k])) == Some(6 + k)
  {
  }

  /** A time of day as `time.strptime` returns it (hour and minute only). */
  datatype Clock = Clock(hour: nat, minute: nat)

  predicate ValidClock(c: Clock) {
    c.hour < 24 && c.minute < 60
  }

  predicate IsDigit(c: char) {
    '0' <= c <= '9'
  }

  function DigitValue(c: char): nat
    requires IsDigit(c)
  {
    c as int - '0' as int
  }

  /** The `%H` directive on the whole of `s`: `2[0-3]|[0-1]\d|\d`. */
  function ParseHour(s: string): (r: Option<nat>)
    ensures r.Some? ==> r.value < 24
  {
    if |s| == 1 && IsDigit(s[0]) then Some(DigitValue(s[0]))
    else if |s| == 2 && (s[0] == '0' || s[0] == '1') && IsDigit(s[1]) then
      Some(10 * DigitValue(s[0]) + DigitValue(s[1]))
    else if |s| == 2 && s[0] == '2' && '0' <= s[1] <= '3' then
      Some(20 + DigitValue(s[1]))
    else None
  }

  /** The `%M` directive on the whole of `s`: `[0-5]\d|\d`. */
  function ParseMinute(s: string): (r: Option<nat>)
    ensures r.Some? ==> r.value < 60
  {
    if |s| == 1 && IsDigit(s[0]) then Some(DigitValue(s[0]))
    else if |s| == 2 && '0' <= s[0] <= '5' && IsDigit(s[1]) then
      Some(10 * DigitValue(s[0]) + DigitValue(s[1]))
    else None
  }

  /** `time.strptime(text, '%H:%M')`: None where it raises (a missing text is a
      TypeError, a text that does not match the whole format a ValueError).
      Neither directive matches a colon, so the colon of the format is the
      first colon of the text, at index 1 or 2. */
  function ParseClock(text: Option<string>): (r: Option<Clock>)
    ensures r.Some? ==> ValidClock(r.value)
  {
    if text.None? then None
    else
      var s := text.value;
      var colon := if |s| > 1 && s[1] == ':' then 1 else if |s| > 2 && s[2] == ':' then 2 else 0;
      if colon == 0 then None
      else
        match (ParseHour(s[..colon]), ParseMinute(s[colon + 1..]))
        case (Some(h), Some(m)) => Some(Clock(h, m))
        case _ => None
  }

  function TwoDigits(n: nat): string
    requires n < 100
  {
    [(n / 10 + '0' as int) as char, (n % 10 + '0' as int) as char]
  }

  /** A clock written the way the schedule writes it, `HH:MM`. */
  function FormatClock(c: Clock): string
    requires ValidClock(c)
  {
    TwoDigits(c.hour) + ":" + TwoDigits(c.minute)
  }

  /** Every valid clock written as `HH:MM` parses back to itself. */
  lemma ParseFormat(c: Clock)
    requires ValidClock(c)
    ensures ParseClock(Some(FormatClock(c))) == Some(c)
  {
    var s := FormatClock(c);
    assert s[2] == ':' && s[1] != ':';
    assert s[..2] == TwoDigits(c.hour) && s[3..] == TwoDigits(c.minute);
  }

  /** The unpadded hour `H:MM` is accepted as well. */
  lemma ParseShortHour(c: Clock)
    requires ValidClock(c) && c.hour < 10
    ensures ParseClock(Some([(c.hour + '0' as int) as char] + ":" + TwoDigits(c.minute))) == Some(c)
  {
    var s := [(c.hour + '0' as int) as char] + ":" + TwoDigits(c.minute);
    assert s[1] == ':';
    assert s[..1] == [(c.hour + '0' as int) as char] && s[2..] == TwoDigits(c.minute);
  }

  /** The ways `%H` or `%M` can spell `n`: two digits, or one when `n < 10`. */
  function Spellings(n: nat): set<string>
    requires n < 100
  {
    {TwoDigits(n)} + if n < 10 then {[(n + '0' as int) as char]} else {}
  }

  lemma ParseHourSpelled(s: string, h: nat)
    requires ParseHour(s) == Some(h)
    ensures h < 100 && s in Spellings(h)
  {
    if |s| == 2 {
      var d0, d1 := DigitValue(s[0]), DigitValue(s[1]);
      assert h == 10 * d0 + d1 && h / 10 == d0 && h % 10 == d1;
      assert s == TwoDigits(h);
    } else {
      assert s == [(h + '0' as int) as char];
    }
  }

  lemma ParseMinuteSpelled(s: string, m: nat)
    requires ParseMinute(s) == Some(m)
    ensures m < 100 && s in Spellings(m)
  {
    if |s| == 2 {
      var d0, d1 := DigitValue(s[0]), DigitValue(s[1]);
      assert m == 10 * d0 + d1 && m / 10 == d0 && m % 10 == d1;
      assert s == TwoDigits(m);
    } else {
      assert s == [(m + '0' as int) as char];
    }
  }

  /** Only the spellings `H:M`, `H:MM`, `HH:M` and `HH:MM` of a clock parse to it. */
  lemma ParseClockSpelled(s: string, c: Clock)
    requires ParseClock(Some(s)) == Some(c)
    ensures c.hour < 100 && c.minute < 100
    ensures exists h, m | h in Spellings(c.hour) && m in Spellings(c.minute) :: s == h + ":" + m
  {
    var colon := if |s| > 1 && s[1] == ':' then 1 else 2;
    var h, m := s[..colon], s[colon + 1..];
    ParseHourSpelled(h, c.hour);
    ParseMinuteSpelled(m, c.minute);
    assert s == h + ":" + m;
  }

  /** An hour past 23 and a trailing space are rejected; a one-digit minute is accepted. */
  lemma ParseClockExamples()
    ensures ParseClock(Some("24:00")) == None
    ensures ParseClock(Some("10:00 ")) == None
    ensures ParseClock(Some("9:5")) == Some(Clock(9, 5))
  {
    assert "24:00"[..2] == "24";
    assert "10:00 "[3..] == "00 ";
    assert "9:5"[..1] == "9" && "9:5"[2..] == "5";
  }

  /** Minutes since 2015-08-01 00:00 of a clock on the given day of August. */
  function Stamp(dayOfMonth: nat, c: Clock): int {
    (dayOfMonth - 1) * Day + c.hour * Hour + c.minute
  }

  /** `mkdate(day, tm)`: None where `dates[day]` raises KeyError. */
  function MkDate(day: Option<string>, c: Clock): (r: Option<int>)
    ensures r.Some? <==> DayOfMonth(day).Some?
  {
    match DayOfMonth(day)
    case Some(d) => Some(Stamp(d, c))
    case None => None
  }

  /** Timestamps order like (day, hour, minute): the schedule's chronological
      order is the order of the timestamps. */
  lemma StampOrder(d1: nat, c1: Clock, d2: nat, c2: Clock)
    requires ValidClock(c1) && ValidClock(c2)
    ensures Stamp(d1, c1) < Stamp(d2, c2) <==>
      d1 < d2 || (d1 == d2 && (c1.hour < c2.hour || (c1.hour == c2.hour && c1.minute < c2.minute)))
  {
  }

  /** Distinct (day, clock) pairs get distinct timestamps. */
  lemma StampInjective(d1: nat, c1: Clock, d2: nat, c2: Clock)
    requires ValidClock(c1) && ValidClock(c2)
    requires Stamp(d1, c1) == Stamp(d2, c2)
    ensures d1 == d2 && c1 == c2
  {
    StampOrder(d1, c1, d2, c2);
    StampOrder(d2, c2, d1, c1);
  }
}
