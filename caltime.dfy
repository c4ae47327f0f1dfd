/** The JSON form of the timetable timestamps: `CalendarTime` wraps a
    `time.Time` and reads and writes it with the layout
    `"2006-01-02T15:04:05"`, quotes included. The same type is declared in
    unibo/calendar.go and in unibo/timetable.go with identical bodies; this
    module models both. */
module CalTime {
  import opened Wrappers
  import opened Decimal
  import opened DateTime

  /** The layout around the six numeric fields, quotes included: the date
      part up to the `T`, the hour, then the rest of the clock reading. */
  function Layout(y: string, mo: string, d: string, h: string, mi: string, s: string): string {
    DatePart(y, mo, d) + h + ClockRest(mi, s)
  }

  function DatePart(y: string, mo: string, d: string): string {
    "\"" + y + "-" + mo + "-" + d + "T"
  }

  function ClockRest(mi: string, s: string): string {
    ":" + mi + ":" + s + "\""
  }

  /** `c.Format("\"2006-01-02T15:04:05\"")`: `MarshalJSON`'s bytes. */
  function Format(t: Time): string {
    Layout(Pad(t.year, 4), Pad(t.month, 2), Pad(t.day, 2), Pad(t.hour, 2), Pad(t.minute, 2), Pad(t.second, 2))
  }

  /** The text is a quoted `YYYY-MM-DDThh:mm:ss` with all fields of fixed
      width except the hour, which the layout's `15` reads as one digit or
      two, and nothing after the closing quote; so it is 20 or 21 long. */
  predicate Shaped(s: string) {
    && (|s| == 20 || |s| == 21)
    && var h := |s| - 19;
    && s == Layout(s[1..5], s[6..8], s[9..11], s[12..12 + h], s[13 + h..15 + h], s[16 + h..18 + h])
    && AllDigits(s[1..5]) && AllDigits(s[6..8]) && AllDigits(s[9..11])
    && AllDigits(s[12..12 + h]) && AllDigits(s[13 + h..15 + h]) && AllDigits(s[16 + h..18 + h])
  }

  /** The fields of a shaped text, read as numbers. */
  function Fields(s: string): Time
    requires Shaped(s)
  {
    var h := |s| - 19;
    Time(ValueOf(s[1..5]), ValueOf(s[6..8]), ValueOf(s[9..11]),
         ValueOf(s[12..12 + h]), ValueOf(s[13 + h..15 + h]), ValueOf(s[16 + h..18 + h]))
  }

  /** `time.Parse("\"2006-01-02T15:04:05\"", s)`: the shape must match and the
      fields must name a real date and clock time; the result is in UTC. */
  function Parse(s: string): (r: Result<Time>)
    ensures r.Ok? ==> Valid(r.value) && r.value.year < 10000
    ensures r.Ok? <==> Shaped(s) && Valid(Fields(s))
    ensures !r.Panic?
  {
    if !Shaped(s) then Err("cannot parse")
    else
      var t := Fields(s);
      ValueBound(s[1..5]);
      assert Pow10(4) == 10000;
      if Valid(t) then Ok(t) else Err("out of range")
  }

  /** The text `Parse` reads the same time from, in its two-digit-hour form:
      a one-digit hour gains a leading zero. */
  function Canonical(s: string): string
    requires Shaped(s)
  {
    if |s| == 21 then s else s[..12] + "0" + s[12..]
  }

  /** With a four-digit year and two-digit fields, each field is found at
      its fixed offset. */
  lemma LayoutFields(y: string, mo: string, d: string, h: string, mi: string, s: string)
    requires |y| == 4 && |mo| == 2 && |d| == 2 && |h| == 2 && |mi| == 2 && |s| == 2
    ensures var u := Layout(y, mo, d, h, mi, s);
      && |u| == 21
      && u[1..5] == y && u[6..8] == mo && u[9..11] == d
      && u[12..14] == h && u[15..17] == mi && u[18..20] == s
  {
  }

  /** Parsing what `MarshalJSON` writes gives the time back, for every valid
      time with a four-digit year. */
  lemma ParseFormat(t: Time)
    requires Valid(t) && t.year < 10000
    ensures Parse(Format(t)) == Ok(t)
  {
    assert Pow10(4) == 10000 && Pow10(2) == 100;
    var y, mo, d := Pad(t.year, 4), Pad(t.month, 2), Pad(t.day, 2);
    var h, mi, sc := Pad(t.hour, 2), Pad(t.minute, 2), Pad(t.second, 2);
    LayoutFields(y, mo, d, h, mi, sc);
    var u := Format(t);
    assert u == Layout(y, mo, d, h, mi, sc);
    assert Shaped(u);
    assert Fields(u) == t;
  }

  /** `MarshalJSON` after a successful `UnmarshalJSON`: the parsed time is
      written back in the canonical form of the text it came from, which is
      that text byte for byte when the hour had two digits. */
  lemma FormatParse(s: string)
    requires Parse(s).Ok?
    ensures Format(Parse(s).value) == Canonical(s)
  {
    var t := Parse(s).value;
    var hw := |s| - 19;
    var y, mo, d, hh, mi, sc := s[1..5], s[6..8], s[9..11], s[12..12 + hw], s[13 + hw..15 + hw], s[16 + hw..18 + hw];
    var hour := TwoDigits(hh);
    assert AllDigits(hour) && ValueOf(hour) == t.hour by {
      if hw == 1 {
        LeadingZero(hh);
      }
    }
    PadFields(y, mo, d, hour, mi, sc);
    CanonicalLayout(s);
  }

  /** An hour of one digit widened to two. */
  function TwoDigits(h: string): string {
    if |h| == 1 then "0" + h else h
  }

  /** Fixed-width digit fields are what padding their values prints. */
  lemma {:induction false} PadFields(y: string, mo: string, d: string, h: string, mi: string, s: string)
    requires AllDigits(y) && AllDigits(mo) && AllDigits(d) && AllDigits(h) && AllDigits(mi) && AllDigits(s)
    requires |y| == 4 && |mo| == 2 && |d| == 2 && |h| == 2 && |mi| == 2 && |s| == 2
    ensures Layout(Pad(ValueOf(y), 4), Pad(ValueOf(mo), 2), Pad(ValueOf(d), 2), Pad(ValueOf(h), 2), Pad(ValueOf(mi), 2), Pad(ValueOf(s), 2))
         == Layout(y, mo, d, h, mi, s)
  {
    PadOfValue(y);
    PadOfValue(mo);
    PadOfValue(d);
    PadOfValue(h);
    PadOfValue(mi);
    PadOfValue(s);
  }

  /** The canonical text of a shaped text is its layout with the hour
      widened to two digits. */
  lemma CanonicalLayout(s: string)
    requires Shaped(s)
    ensures var hw := |s| - 19;
      var hh := s[12..12 + hw];
      Canonical(s) == Layout(s[1..5], s[6..8], s[9..11], TwoDigits(hh), s[13 + hw..15 + hw], s[16 + hw..18 + hw])
  {
    if |s| == 20 {
      var date, hh, rest := DatePart(s[1..5], s[6..8], s[9..11]), s[12..13], ClockRest(s[14..16], s[17..19]);
      assert |date| == 12;
      InsertAfter(date, hh, rest, "0");
    }
  }

  /** Inserting `x` at the end of the first of three parts. */
  lemma InsertAfter(a: string, b: string, c: string, x: string)
    ensures var u, n := a + b + c, |a|; u[..n] + x + u[n..] == a + (x + b) + c
  {
    var u := a + b + c;
    assert u[..|a|] == a;
    assert u[|a|..] == b + c;
  }

  /** `MarshalJSON` of a valid time is read back by `UnmarshalJSON`. */
  lemma MarshalReadsBack(t: Time)
    ensures Valid(t) && t.year < 10000 ==> Parse(Format(t)) == Ok(t)
  {
    if Valid(t) && t.year < 10000 {
      ParseFormat(t);
    }
  }

  /** The `CalendarTime` wrapper, whose JSON methods have a pointer receiver. */
  class CalendarTime {
    var time: Time

    /** The zero value: Go's zero `time.Time`, 0001-01-01 00:00:00 UTC. */
    constructor ()
      ensures time == Time(1, 1, 1, 0, 0, 0)
    {
      time := Time(1, 1, 1, 0, 0, 0);
    }

    /** `UnmarshalJSON`: on success the receiver holds the parsed time; on a
        parse error it is left as it was. */
    method UnmarshalJSON(b: string) returns (err: Option<string>)
      modifies this
      ensures err.None? <==> Parse(b).Ok?
      ensures err.None? ==> time == Parse(b).value
      ensures err.Some? ==> time == old(time)
    {
      var r := Parse(b);
      if r.Ok? {
        time := r.value;
        err := None;
      } else {
        err := Some(r.msg);
      }
    }

    /** `MarshalJSON`: never fails. */
    function MarshalJSON(): (b: string)
      reads this
      ensures Valid(time) && time.year < 10000 ==> Parse(b) == Ok(time)
    {
      MarshalReadsBack(time);
      Format(time)
    }
  }
}
