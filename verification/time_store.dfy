/** The in-game clock store: day, hour and minute, a pause flag, and the day
    phase derived from the hour. Each action is a function from the old state
    to the new one. */
module TimeStore {
  import opened Wrappers
  import opened Seqs
  import opened Text

  datatype DayPhase = Morning | Day | Evening | Night

  datatype TimeState = TimeState(day: int, hour: int, minute: int, paused: bool, dayPhase: DayPhase)

  /** The phase of the day for an hour; hours outside 0..23 are not rejected. */
  function GetDayPhase(hour: int): (p: DayPhase)
    ensures p == Morning <==> 5 <= hour < 11
    ensures p == Day <==> 11 <= hour < 18
    ensures p == Evening <==> 18 <= hour < 22
    ensures p == Night <==> hour < 5 || 22 <= hour
  {
    if 5 <= hour < 11 then Morning
    else if 11 <= hour < 18 then Day
    else if 18 <= hour < 22 then Evening
    else Night
  }

  /** Day 1, 08:00, running. */
  const InitialTime := TimeState(1, 8, 0, false, Morning)

  predicate Normalized(t: TimeState) {
    0 <= t.minute < 60 && 0 <= t.hour < 24
  }

  predicate PhaseMatchesHour(t: TimeState) {
    t.dayPhase == GetDayPhase(t.hour)
  }

  /** Minutes elapsed since day 0, 00:00. */
  function TotalMinutes(t: TimeState): int {
    (t.day * 24 + t.hour) * 60 + t.minute
  }

  lemma InitialTimeWellFormed()
    ensures Normalized(InitialTime) && PhaseMatchesHour(InitialTime) && !InitialTime.paused
  {
  }

  /** The effect of `while (v >= base) { v -= base; carry++; }`, as (carry, v). */
  function Carry(v: int, base: int): (r: (int, int))
    requires base > 0
    ensures r.0 >= 0 && r.1 < base && r.0 * base + r.1 == v
    ensures v >= 0 ==> r.1 >= 0
    ensures v < base ==> r == (0, v)
  {
    if v < base then (0, v) else (v / base, v % base)
  }

  /** Reference definition of `advanceTime(minutes)`: minute overflow carries
      into the hour, hour overflow into the day, and the phase is recomputed. */
  function Advance(t: TimeState, minutes: int): (r: TimeState)
    requires minutes >= 0
    ensures TotalMinutes(r) == TotalMinutes(t) + minutes
    ensures r.minute < 60 && r.hour < 24
    ensures 0 <= t.minute && 0 <= t.hour ==> Normalized(r)
    ensures r.day >= t.day
    ensures PhaseMatchesHour(r) && r.paused == t.paused
  {
    var (carryHours, minute) := Carry(t.minute + minutes, 60);
    var (carryDays, hour) := Carry(t.hour + carryHours, 24);
    t.(day := t.day + carryDays, hour := hour, minute := minute, dayPhase := GetDayPhase(hour))
  }

  /** `advanceTime(minutes)` as the store writes it, with its two overflow loops. */
  method AdvanceTime(t: TimeState, minutes: int) returns (r: TimeState)
    requires minutes >= 0
    ensures r == Advance(t, minutes)
  {
    var newMinute := t.minute + minutes;
    var newHour := t.hour;
    var newDay := t.day;

    while newMinute >= 60
      invariant newMinute + 60 * (newHour - t.hour) == t.minute + minutes
      invariant t.minute + minutes >= 60 ==> newMinute >= 0
      invariant t.minute + minutes < 60 ==> newHour == t.hour
      decreases newMinute
    {
      newMinute := newMinute - 60;
      newHour := newHour + 1;
    }

    ghost var hourBeforeCarry := newHour;
    while newHour >= 24
      invariant newHour + 24 * (newDay - t.day) == hourBeforeCarry
      invariant hourBeforeCarry >= 24 ==> newHour >= 0
      invariant hourBeforeCarry < 24 ==> newDay == t.day
      decreases newHour
    {
      newHour := newHour - 24;
      newDay := newDay + 1;
    }

    r := t.(day := newDay, hour := newHour, minute := newMinute, dayPhase := GetDayPhase(newHour));
  }

  /** Two normalised clocks showing the same total are the same clock. */
  lemma NormalizedUnique(a: TimeState, b: TimeState)
    requires Normalized(a) && Normalized(b)
    requires TotalMinutes(a) == TotalMinutes(b)
    ensures a.day == b.day && a.hour == b.hour && a.minute == b.minute
  {
    var ra := a.hour * 60 + a.minute;
    var rb := b.hour * 60 + b.minute;
    assert 0 <= ra < 1440 && 0 <= rb < 1440;
    assert a.day * 1440 + ra == b.day * 1440 + rb;
  }

  /** Advancing in two steps is advancing by the sum. */
  lemma AdvanceAdditive(t: TimeState, a: int, b: int)
    requires a >= 0 && b >= 0
    requires 0 <= t.minute && 0 <= t.hour
    ensures Advance(Advance(t, a), b) == Advance(t, a + b)
  {
    NormalizedUnique(Advance(Advance(t, a), b), Advance(t, a + b));
  }

  /** Advancing a well-formed clock by zero minutes changes nothing. */
  lemma AdvanceZero(t: TimeState)
    requires Normalized(t) && PhaseMatchesHour(t)
    ensures Advance(t, 0) == t
  {
  }

  /** Day 1, 23:50 advanced by 75 minutes is day 2, 01:05, at night. */
  lemma AdvanceAcrossMidnight()
    ensures Advance(TimeState(1, 23, 50, false, Night), 75) == TimeState(2, 1, 5, false, Night)
  {
  }

  /** `togglePause()`: flips the pause flag and nothing else. */
  function TogglePause(t: TimeState): (r: TimeState)
    ensures r.paused != t.paused
    ensures r.day == t.day && r.hour == t.hour && r.minute == t.minute && r.dayPhase == t.dayPhase
  {
    t.(paused := !t.paused)
  }

  lemma TogglePauseTwice(t: TimeState)
    ensures TogglePause(TogglePause(t)) == t
  {
  }

  /** `setTime(day, hour, minute)`: stores the three values as given, without
      normalising them, and recomputes the phase from the hour. */
  function SetTime(t: TimeState, day: int, hour: int, minute: int): (r: TimeState)
    ensures r.day == day && r.hour == hour && r.minute == minute
    ensures PhaseMatchesHour(r) && r.paused == t.paused
  {
    TimeState(day, hour, minute, t.paused, GetDayPhase(hour))
  }

  /** `setTime` does not normalise: a later `advanceTime(0)` does. */
  lemma SetTimeThenAdvanceZero(t: TimeState, day: int, hour: int, minute: int)
    requires 0 <= hour && 0 <= minute
    ensures Normalized(Advance(SetTime(t, day, hour, minute), 0))
    ensures 0 <= minute < 60 && hour < 24 ==> Advance(SetTime(t, day, hour, minute), 0) == SetTime(t, day, hour, minute)
  {
  }

  lemma TwoDigitString(n: int)
    ensures 0 <= n < 100 ==> PadStart(IntToString(n), 2, '0') == [DigitChar(n / 10), DigitChar(n % 10)]
  {
    if 0 <= n < 10 {
      assert IntToString(n) == [DigitChar(n)];
    } else if 10 <= n < 100 {
      assert NatToString(n) == NatToString(n / 10) + [DigitChar(n % 10)];
    }
  }

  /** One clock field, zero-padded to two characters (`padStart(2, '0')`). */
  function Pad2(n: int): (r: string)
    ensures |r| >= 2
    ensures 0 <= n < 100 ==> r == [DigitChar(n / 10), DigitChar(n % 10)]
  {
    TwoDigitString(n);
    PadStart(IntToString(n), 2, '0')
  }

  /** `formatTime(hour, minute)`: both fields padded to two characters and
      joined by ':'; for values below 100 this is exactly "HH:MM". */
  function FormatTime(hour: int, minute: int): (r: string)
    ensures 0 <= hour < 100 && 0 <= minute < 100 ==>
      r == [DigitChar(hour / 10), DigitChar(hour % 10), ':', DigitChar(minute / 10), DigitChar(minute % 10)]
  {
    Pad2(hour) + ":" + Pad2(minute)
  }

  lemma ParseTwoDigits(n: int)
    requires 0 <= n < 100
    ensures ParseDigits([DigitChar(n / 10), DigitChar(n % 10)]) == Some(n)
  {
    var s := [DigitChar(n / 10), DigitChar(n % 10)];
    assert s[..1] == [DigitChar(n / 10)];
    assert ParseDigits(s[..1]) == Some(n / 10);
  }

  /** Both fields of "HH:MM" read back as the hour and the minute. */
  lemma FormatTimeRoundTrip(hour: int, minute: int)
    requires 0 <= hour < 100 && 0 <= minute < 100
    ensures |FormatTime(hour, minute)| == 5
    ensures ParseDigits(FormatTime(hour, minute)[..2]) == Some(hour)
    ensures ParseDigits(FormatTime(hour, minute)[3..]) == Some(minute)
  {
    var hh := [DigitChar(hour / 10), DigitChar(hour % 10)];
    var mm := [DigitChar(minute / 10), DigitChar(minute % 10)];
    var s := FormatTime(hour, minute);
    assert s == hh + [':'] + mm;
    assert s[..2] == hh;
    assert s[3..] == mm;
    ParseTwoDigits(hour);
    ParseTwoDigits(minute);
  }

  /** `formatDayTime(day, hour, minute)`: "День <day>, HH:MM". */
  function FormatDayTime(day: int, hour: int, minute: int): (r: string)
    ensures |r| == 7 + |IntToString(day)| + |FormatTime(hour, minute)|
    ensures r[..5] == "День "
    ensures r[5..5 + |IntToString(day)|] == IntToString(day)
    ensures r[5 + |IntToString(day)|..7 + |IntToString(day)|] == ", "
    ensures r[|r| - |FormatTime(hour, minute)|..] == FormatTime(hour, minute)
  {
    var prefix := "День ";
    var dayText := IntToString(day);
    var time := FormatTime(hour, minute);
    ConcatParts(prefix, dayText, ", ", time);
    prefix + dayText + ", " + time
  }

  /** The day reads back from the formatted text: `parseInt` stops at the
      comma after it. */
  lemma FormatDayTimeDay(day: int, hour: int, minute: int)
    ensures ParseInt(FormatDayTime(day, hour, minute)[5..]) == Some(day)
  {
    var dayText := IntToString(day);
    var time := FormatTime(hour, minute);
    ConcatParts("День ", dayText, ", ", time);
    assert FormatDayTime(day, hour, minute)[5..] == dayText + (", " + time);
    ParseIntToString(day, ", " + time);
  }

  /** The day and the time read back from the formatted text. */
  lemma FormatDayTimeRoundTrip(day: int, hour: int, minute: int)
    requires 0 <= hour < 100 && 0 <= minute < 100
    ensures var r := FormatDayTime(day, hour, minute);
      ParseInt(r[5..]) == Some(day) &&
      ParseDigits(r[|r| - 5..|r| - 3]) == Some(hour) &&
      ParseDigits(r[|r| - 2..]) == Some(minute)
  {
    FormatDayTimeDay(day, hour, minute);
    FormatTimeRoundTrip(hour, minute);
    TimeSuffix(FormatDayTime(day, hour, minute), FormatTime(hour, minute));
  }

  /** The fields of an "HH:MM" suffix. */
  lemma TimeSuffix<T>(r: seq<T>, time: seq<T>)
    requires |time| == 5 && |r| >= 5 && r[|r| - 5..] == time
    ensures r[|r| - 5..|r| - 3] == time[..2] && r[|r| - 2..] == time[3..]
  {
    assert r[|r| - 5..|r| - 3] == r[|r| - 5..][..2];
    assert r[|r| - 2..] == r[|r| - 5..][3..];
  }


}
