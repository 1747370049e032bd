/** The clock readings the loggers format with strftime. The clock itself is
    not modelled: every operation that read `Time.now` takes a reading as a
    parameter. Formats follow ISO 8601:2004 — the extended calendar date of
    section 4.1.2.2 (`%F`) and the extended time of day of section 4.2.2.2
    (`%T`) — plus strftime's numeric zone offset (`%z`). */
module Clock {
  import opened Wrappers
  import opened Text

  datatype Date = Date(year: nat, month: nat, day: nat)
  datatype TimeOfDay = TimeOfDay(hour: nat, minute: nat, second: nat)
  datatype DateTime = DateTime(date: Date, time: TimeOfDay)

  /** A local wall-clock reading and its offset from UTC in minutes, east
      positive (what `Time.now` gives in irclogger.rb). */
  datatype LocalTime = LocalTime(wall: DateTime, utcOffset: int)

  predicate ValidDate(d: Date) { 1 <= d.month <= 12 && 1 <= d.day <= 31 }

  /** Seconds run to 60 to allow a leap second, as Ruby's Time does. */
  predicate ValidTime(t: TimeOfDay) { t.hour < 24 && t.minute < 60 && t.second <= 60 }

  predicate ValidDateTime(t: DateTime) { ValidDate(t.date) && ValidTime(t.time) }

  predicate ValidOffset(minutes: int) { -1440 < minutes < 1440 }

  predicate ValidLocal(lt: LocalTime) { ValidDateTime(lt.wall) && ValidOffset(lt.utcOffset) }

  // ---------------------------------------------------------------------
  // strftime
  // ---------------------------------------------------------------------

  /** `%F`, that is `%Y-%m-%d`: the year padded to at least four digits. */
  function FormatDate(d: Date): string
  {
    Pad(d.year, 4) + "-" + Pad(d.month, 2) + "-" + Pad(d.day, 2)
  }

  /** `%T`, that is `%H:%M:%S`. */
  function FormatTime(t: TimeOfDay): string
  {
    Pad(t.hour, 2) + ":" + Pad(t.minute, 2) + ":" + Pad(t.second, 2)
  }

  function Abs(m: int): nat { if m < 0 then -m else m }

  /** `%z`: sign, then hours and minutes of the offset, two digits each. */
  function FormatOffset(minutes: int): string
  {
    (if minutes < 0 then "-" else "+") + Pad(Abs(minutes) / 60, 2) + Pad(Abs(minutes) % 60, 2)
  }

  /** ilog.rb's stamp, `Time.now.utc.strftime('%F %T utc')`. */
  function UtcStamp(t: DateTime): string
  {
    FormatDate(t.date) + " " + FormatTime(t.time) + " utc"
  }

  /** irclogger.rb's stamp, `Time.now.strftime("%F %z %T")`: the offset sits
      between the date and the time of day. */
  function LocalStamp(lt: LocalTime): string
  {
    FormatDate(lt.wall.date) + " " + FormatOffset(lt.utcOffset) + " " + FormatTime(lt.wall.time)
  }

  // ---------------------------------------------------------------------
  // Readers: the inverses that show the formats lose nothing
  // ---------------------------------------------------------------------

  function ParseTwo(s: string): Option<nat>
  {
    if |s| == 2 && AllDigits(s) then Some(ValueOf(s)) else None
  }

  function ParseDate(s: string): Option<Date>
  {
    if |s| < 10 || s[|s| - 6] != '-' || s[|s| - 3] != '-' || !AllDigits(s[..|s| - 6]) then None
    else
      match (ParseTwo(s[|s| - 5..|s| - 3]), ParseTwo(s[|s| - 2..]))
      case (Some(m), Some(d)) => Some(Date(ValueOf(s[..|s| - 6]), m, d))
      case _ => None
  }

  function ParseTime(s: string): Option<TimeOfDay>
  {
    if |s| != 8 || s[2] != ':' || s[5] != ':' then None
    else
      match (ParseTwo(s[..2]), ParseTwo(s[3..5]), ParseTwo(s[6..]))
      case (Some(h), Some(m), Some(sec)) => Some(TimeOfDay(h, m, sec))
      case _ => None
  }

  function ParseOffset(s: string): Option<int>
  {
    if |s| != 5 || (s[0] != '+' && s[0] != '-') then None
    else
      match (ParseTwo(s[1..3]), ParseTwo(s[3..]))
      case (Some(h), Some(m)) =>
        var magnitude: int := h * 60 + m;
        Some(if s[0] == '-' then -magnitude else magnitude)
      case _ => None
  }

  function ParseUtcStamp(s: string): Option<DateTime>
  {
    if |s| < 23 || s[|s| - 13] != ' ' || s[|s| - 4..] != " utc" then None
    else
      match (ParseDate(s[..|s| - 13]), ParseTime(s[|s| - 12..|s| - 4]))
      case (Some(d), Some(t)) => Some(DateTime(d, t))
      case _ => None
  }

  function ParseLocalStamp(s: string): Option<LocalTime>
  {
    if |s| < 25 || s[|s| - 15] != ' ' || s[|s| - 9] != ' ' then None
    else
      match (ParseDate(s[..|s| - 15]), ParseOffset(s[|s| - 14..|s| - 9]), ParseTime(s[|s| - 8..]))
      case (Some(d), Some(z), Some(t)) => Some(LocalTime(DateTime(d, t), z))
      case _ => None
  }

  // ---------------------------------------------------------------------
  // Round trips
  // ---------------------------------------------------------------------

  lemma TwoDigitRoundTrip(n: nat)
    requires n < 100
    ensures |Pad(n, 2)| == 2 && ParseTwo(Pad(n, 2)) == Some(n)
  {
    PadTwoLength(n);
    PadValue(n, 2);
  }

  /** `%F` loses nothing: the calendar date reads back from its spelling. */
  lemma DateRoundTrip(d: Date)
    requires ValidDate(d)
    ensures ParseDate(FormatDate(d)) == Some(d)
  {
    TwoDigitRoundTrip(d.month);
    TwoDigitRoundTrip(d.day);
    PadValue(d.year, 4);
    ParseDateFields(Pad(d.year, 4), Pad(d.month, 2), Pad(d.day, 2));
  }

  /** Reading `y-m-d` with a digit year of four or more places and
      two-digit month and day reads the three fields. */
  lemma ParseDateFields(y: string, m: string, dd: string)
    requires |y| >= 4 && AllDigits(y) && |m| == 2 && AllDigits(m) && |dd| == 2 && AllDigits(dd)
    ensures ParseDate(y + "-" + m + "-" + dd) == Some(Date(ValueOf(y), ValueOf(m), ValueOf(dd)))
  {
    DateFieldsAt(y, m, dd);
  }

  /** Where the three fields of `y-m-d` sit, counted from its end. */
  lemma DateFieldsAt(y: string, m: string, dd: string)
    requires |m| == 2 && |dd| == 2
    ensures var s := y + "-" + m + "-" + dd;
      |s| == |y| + 6 && s[|s| - 6] == '-' && s[|s| - 3] == '-'
      && s[..|s| - 6] == y && s[|s| - 5..|s| - 3] == m && s[|s| - 2..] == dd
  {
    var s := y + "-" + m + "-" + dd;
    assert s[..|s| - 6] == y;
    assert s[|s| - 5..|s| - 3] == m;
    assert s[|s| - 2..] == dd;
  }

  /** Two valid dates share a `%F` spelling only if they are the same date. */
  lemma DateSpellingInjective(d1: Date, d2: Date)
    requires ValidDate(d1) && ValidDate(d2)
    ensures FormatDate(d1) == FormatDate(d2) <==> d1 == d2
  {
    DateRoundTrip(d1);
    DateRoundTrip(d2);
  }

  lemma TimeRoundTrip(t: TimeOfDay)
    requires ValidTime(t)
    ensures |FormatTime(t)| == 8
    ensures ParseTime(FormatTime(t)) == Some(t)
  {
    TwoDigitRoundTrip(t.hour);
    TwoDigitRoundTrip(t.minute);
    TwoDigitRoundTrip(t.second);
    var s := FormatTime(t);
    assert s[..2] == Pad(t.hour, 2);
    assert s[3..5] == Pad(t.minute, 2);
    assert s[6..] == Pad(t.second, 2);
  }

  lemma OffsetRoundTrip(minutes: int)
    requires ValidOffset(minutes)
    ensures |FormatOffset(minutes)| == 5
    ensures ParseOffset(FormatOffset(minutes)) == Some(minutes)
  {
    var a := Abs(minutes);
    TwoDigitRoundTrip(a / 60);
    TwoDigitRoundTrip(a % 60);
    var s := FormatOffset(minutes);
    assert s[1..3] == Pad(a / 60, 2);
    assert s[3..] == Pad(a % 60, 2);
  }

  /** Reading a UTC stamp reads its two fields. */
  lemma ParseUtcStampFields(f: string, c: string, d: Date, t: TimeOfDay)
    requires |f| >= 10 && |c| == 8
    requires ParseDate(f) == Some(d) && ParseTime(c) == Some(t)
    ensures ParseUtcStamp(f + " " + c + " utc") == Some(DateTime(d, t))
  {
    var s := f + " " + c + " utc";
    assert s[..|s| - 13] == f;
    assert s[|s| - 12..|s| - 4] == c;
    assert s[|s| - 4..] == " utc";
  }

  /** ilog.rb's stamp carries the whole UTC reading and nothing else. */
  lemma UtcStampRoundTrip(t: DateTime)
    requires ValidDateTime(t)
    ensures ParseUtcStamp(UtcStamp(t)) == Some(t)
  {
    DateRoundTrip(t.date);
    TimeRoundTrip(t.time);
    ParseUtcStampFields(FormatDate(t.date), FormatTime(t.time), t.date, t.time);
  }

  /** Reading a local stamp reads its three fields. */
  lemma ParseLocalStampFields(f: string, z: string, c: string, d: Date, o: int, t: TimeOfDay)
    requires |f| >= 10 && |z| == 5 && |c| == 8
    requires ParseDate(f) == Some(d) && ParseOffset(z) == Some(o) && ParseTime(c) == Some(t)
    ensures ParseLocalStamp(f + " " + z + " " + c) == Some(LocalTime(DateTime(d, t), o))
  {
    var s := f + " " + z + " " + c;
    assert s[..|s| - 15] == f;
    assert s[|s| - 14..|s| - 9] == z;
    assert s[|s| - 8..] == c;
  }

  /** irclogger.rb's stamp carries the local reading and its offset. */
  lemma LocalStampRoundTrip(lt: LocalTime)
    requires ValidLocal(lt)
    ensures ParseLocalStamp(LocalStamp(lt)) == Some(lt)
  {
    DateRoundTrip(lt.wall.date);
    TimeRoundTrip(lt.wall.time);
    OffsetRoundTrip(lt.utcOffset);
    ParseLocalStampFields(FormatDate(lt.wall.date), FormatOffset(lt.utcOffset), FormatTime(lt.wall.time),
                          lt.wall.date, lt.utcOffset, lt.wall.time);
  }
}
