/** Civil time in UTC, to the second: the part of Go's `time.Time` that the
    calendar code reads. A time parsed without a zone is in UTC, and the
    timestamps of the timetable feeds carry no fractional seconds. */
module DateTime {
  import opened Decimal

  datatype Time = Time(year: nat, month: nat, day: nat, hour: nat, minute: nat, second: nat)

  /** Gregorian leap years. */
  predicate IsLeap(y: nat) {
    y % 4 == 0 && (y % 100 != 0 || y % 400 == 0)
  }

  function DaysIn(month: nat, year: nat): nat
    requires 1 <= month <= 12
  {
    if month == 2 then (if IsLeap(year) then 29 else 28)
    else if month in {4, 6, 9, 11} then 30
    else 31
  }

  /** A calendar date and a clock reading that Go's `time.Date` would leave
      unnormalised. */
  predicate Valid(t: Time) {
    && 1 <= t.month <= 12
    && 1 <= t.day <= DaysIn(t.month, t.year)
    && t.hour < 24 && t.minute < 60 && t.second < 60
  }

  /** `Time.String()` of a UTC time without fractional seconds, as `%s`
      prints it: `2006-01-02 15:04:05 +0000 UTC`. */
  function TimeText(t: Time): string {
    Stamp(Pad(t.year, 4), Pad(t.month, 2), Pad(t.day, 2), Pad(t.hour, 2), Pad(t.minute, 2), Pad(t.second, 2))
  }

  /** The layout of `TimeText` around its six numeric fields. */
  function Stamp(y: string, mo: string, d: string, h: string, mi: string, s: string): string {
    y + "-" + mo + "-" + d + " " + h + ":" + mi + ":" + s + " +0000 UTC"
  }

  /** Every valid time of a four-digit year prints in 29 characters. */
  lemma TimeTextLength(t: Time)
    requires Valid(t) && t.year < 10000
    ensures |TimeText(t)| == 29
  {
    assert Pow10(4) == 10000 && Pow10(2) == 100;
  }

  /** With fixed field widths the layout is unambiguous. */
  lemma StampFields(y: string, mo: string, d: string, h: string, mi: string, s: string,
                    y': string, mo': string, d': string, h': string, mi': string, s': string)
    requires |y| == |y'| == 4
    requires |mo| == |mo'| == |d| == |d'| == |h| == |h'| == |mi| == |mi'| == |s| == |s'| == 2
    requires Stamp(y, mo, d, h, mi, s) == Stamp(y', mo', d', h', mi', s')
    ensures y == y' && mo == mo' && d == d' && h == h' && mi == mi' && s == s'
  {
    var u, v := Stamp(y, mo, d, h, mi, s), Stamp(y', mo', d', h', mi', s');
    assert u[0..4] == y && v[0..4] == y';
    assert u[5..7] == mo && v[5..7] == mo';
    assert u[8..10] == d && v[8..10] == d';
    assert u[11..13] == h && v[11..13] == h';
    assert u[14..16] == mi && v[14..16] == mi';
    assert u[17..19] == s && v[17..19] == s';
  }

  /** The fields of a valid time of a four-digit year print at their
      full widths. */
  lemma FieldWidths(t: Time)
    requires Valid(t) && t.year < 10000
    ensures |Pad(t.year, 4)| == 4
    ensures |Pad(t.month, 2)| == |Pad(t.day, 2)| == |Pad(t.hour, 2)| == |Pad(t.minute, 2)| == |Pad(t.second, 2)| == 2
  {
    assert Pow10(4) == 10000 && Pow10(2) == 100;
  }

  /** Two valid times of four-digit years print differently unless equal. */
  lemma TimeTextInjective(a: Time, b: Time)
    requires Valid(a) && Valid(b) && a.year < 10000 && b.year < 10000
    requires TimeText(a) == TimeText(b)
    ensures a == b
  {
    FieldWidths(a);
    FieldWidths(b);
    StampFields(Pad(a.year, 4), Pad(a.month, 2), Pad(a.day, 2), Pad(a.hour, 2), Pad(a.minute, 2), Pad(a.second, 2),
                Pad(b.year, 4), Pad(b.month, 2), Pad(b.day, 2), Pad(b.hour, 2), Pad(b.minute, 2), Pad(b.second, 2));
  }

  /** Days from 1 January of year 0 to 1 January of `year`. */
  function DaysBeforeYear(year: nat): nat {
    if year == 0 then 0 else DaysBeforeYear(year - 1) + YearLength(year - 1)
  }

  function YearLength(year: nat): nat {
    if IsLeap(year) then 366 else 365
  }

  /** Days from 1 January to the first of `month` in `year`. */
  function DaysBeforeMonth(month: nat, year: nat): nat
    requires 1 <= month <= 12
  {
    [0, 31, 59, 90, 120, 151, 181, 212, 243, 273, 304, 334][month - 1]
      + (if month > 2 && IsLeap(year) then 1 else 0)
  }

  /** The day number of the date, counting 1 January of year 0 as day 0. */
  function DayNumber(t: Time): nat
    requires Valid(t)
  {
    DaysBeforeYear(t.year) + DaysBeforeMonth(t.month, t.year) + t.day - 1
  }

  /** The instant as seconds since 0000-01-01T00:00:00 UTC. */
  function Seconds(t: Time): nat
    requires Valid(t)
  {
    ((DayNumber(t) * 24 + t.hour) * 60 + t.minute) * 60 + t.second
  }

  /** The same clock reading on the next calendar day. */
  function NextDay(t: Time): (r: Time)
    requires Valid(t)
    ensures Valid(r) && DayNumber(r) == DayNumber(t) + 1
    ensures r.hour == t.hour && r.minute == t.minute && r.second == t.second
  {
    if t.day < DaysIn(t.month, t.year) then t.(day := t.day + 1)
    else if t.month < 12 then t.(month := t.month + 1, day := 1)
    else t.(year := t.year + 1, month := 1, day := 1)
  }

  /** `t.Add(h * time.Hour)` for `0 <= h < 24`, in UTC. */
  function AddHours(t: Time, h: nat): (r: Time)
    requires Valid(t) && h < 24
    ensures Valid(r)
    ensures Seconds(r) == Seconds(t) + h * 3600
  {
    if t.hour + h < 24 then t.(hour := t.hour + h)
    else NextDay(t).(hour := t.hour + h - 24)
  }
}
