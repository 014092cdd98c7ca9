/** The bot's textual time format `YYYY MM DD HHMM - HHMM`: the parser used
    by the add conversation (`parse_dt`), its single-timestamp variant
    (`parse_single_dt`), and the `strftime('%Y %m %d %H%M')` rendering that
    `/list` and the weekly digest print. */
module TimeFormat {
  import opened Strings
  import opened Calendar

  /** A parsed start/end pair. */
  datatype Range = Range(start: Stamp, end: Stamp)

  // ---------------------------------------------------------------- parsing

  /** `hm[:2]`: Python slicing never fails, it only shortens. */
  function HourText(hm: string): string {
    hm[..if |hm| < 2 then |hm| else 2]
  }

  /** `hm[2:]`: everything after the first two characters, possibly empty or
      longer than two characters. */
  function MinuteText(hm: string): string {
    hm[if |hm| < 2 then |hm| else 2..]
  }

  /** `datetime(int(year), int(month), int(day), int(hm[:2]), int(hm[2:]))`:
      `None` where an `int()` or the `datetime` constructor raises. */
  function StampOf(year: string, month: string, day: string, hm: string): (r: Option<Stamp>)
    ensures r.Some? ==> Valid(r.value)
    ensures r.Some? ==> (&& ParseInt(year) == Some(r.value.year)
                         && ParseInt(month) == Some(r.value.month)
                         && ParseInt(day) == Some(r.value.day)
                         && ParseInt(HourText(hm)) == Some(r.value.hour)
                         && ParseInt(MinuteText(hm)) == Some(r.value.minute))
    ensures r.Some? <==> (&& ParseInt(year).Some? && ParseInt(month).Some? && ParseInt(day).Some?
                          && ParseInt(HourText(hm)).Some? && ParseInt(MinuteText(hm)).Some?
                          && Valid(Stamp(ParseInt(year).value, ParseInt(month).value, ParseInt(day).value,
                                         ParseInt(HourText(hm)).value, ParseInt(MinuteText(hm)).value)))
  {
    match (ParseInt(year), ParseInt(month), ParseInt(day), ParseInt(HourText(hm)), ParseInt(MinuteText(hm)))
    case (Some(y), Some(mo), Some(d), Some(h), Some(mi)) =>
      var s := Stamp(y, mo, d, h, mi);
      if Valid(s) then Some(s) else None
    case _ => None
  }

  /** `parse_dt`: "YYYY MM DD HHMM - HHMM" to a start and an end on the same
      date. Never raises: every failure is `None` (the source's
      `(None, None)`). The end is not required to follow the start. */
  function ParseRange(text: string): (r: Option<Range>)
    ensures '-' !in text ==> r.None?
    ensures r.Some? ==> Valid(r.value.start) && Valid(r.value.end)
    ensures r.Some? ==> SameDate(r.value.start, r.value.end)
  {
    if '-' !in text then None
    else
      var (datePart, timePart) := SplitAtFirst(text, '-');
      var parts := Words(datePart);
      if |parts| != 4 then None
      else
        var endHm := Strip(timePart);
        match (StampOf(parts[0], parts[1], parts[2], parts[3]), StampOf(parts[0], parts[1], parts[2], endHm))
        case (Some(s), Some(e)) => Some(Range(s, e))
        case _ => None
  }

  /** Where each field of a successful parse comes from: the date from the
      first three words before the first `-`, the start's hour and minute
      from the fourth word, the end's from the stripped text after the `-`. */
  lemma ParseRangeFields(text: string)
    requires ParseRange(text).Some?
    ensures var r := ParseRange(text).value;
            var (datePart, timePart) := SplitAtFirst(text, '-');
            var parts := Words(datePart);
            var endHm := Strip(timePart);
            && |parts| == 4
            && ParseInt(parts[0]) == Some(r.start.year)
            && ParseInt(parts[1]) == Some(r.start.month)
            && ParseInt(parts[2]) == Some(r.start.day)
            && ParseInt(HourText(parts[3])) == Some(r.start.hour)
            && ParseInt(MinuteText(parts[3])) == Some(r.start.minute)
            && ParseInt(HourText(endHm)) == Some(r.end.hour)
            && ParseInt(MinuteText(endHm)) == Some(r.end.minute)
  {
  }

  /** `parse_single_dt`: "YYYY MM DD HHMM" to one timestamp, `None` on any
      failure. */
  function ParseSingle(text: string): (r: Option<Stamp>)
    ensures r.Some? ==> Valid(r.value) && |Words(Strip(text))| == 4
  {
    var parts := Words(Strip(text));
    if |parts| != 4 then None
    else StampOf(parts[0], parts[1], parts[2], parts[3])
  }

  /** Where a successful `parse_single_dt` takes its fields from, and that
      it succeeds on every four tokens that `int()` turns into a valid
      timestamp, padded or not. */
  lemma ParseSingleFields(text: string)
    ensures var ws, r := Words(Strip(text)), ParseSingle(text);
            r.Some? ==> (&& |ws| == 4
                         && ParseInt(ws[0]) == Some(r.value.year)
                         && ParseInt(ws[1]) == Some(r.value.month)
                         && ParseInt(ws[2]) == Some(r.value.day)
                         && ParseInt(HourText(ws[3])) == Some(r.value.hour)
                         && ParseInt(MinuteText(ws[3])) == Some(r.value.minute))
    ensures var ws := Words(Strip(text));
            forall s: Stamp ::
              (&& |ws| == 4 && Valid(s)
               && ParseInt(ws[0]) == Some(s.year)
               && ParseInt(ws[1]) == Some(s.month)
               && ParseInt(ws[2]) == Some(s.day)
               && ParseInt(HourText(ws[3])) == Some(s.hour)
               && ParseInt(MinuteText(ws[3])) == Some(s.minute)) ==> ParseSingle(text) == Some(s)
  {
  }

  // ---------------------------------------------------------------- rendering

  /** A zero-padded two-digit field (`%m`, `%d`, `%H`, `%M`). */
  function Pad2(n: int): (s: string)
    requires 0 <= n < 100
    ensures |s| == 2 && IsNumeral(s)
  {
    [Digit(n / 10), Digit(n % 10)]
  }

  /** `%H%M`. */
  function ClockText(s: Stamp): (t: string)
    requires Valid(s)
    ensures |t| == 4 && IsNumeral(t)
  {
    Pad2(s.hour) + Pad2(s.minute)
  }

  /** The four space-separated fields of `%Y %m %d %H%M`. */
  function StampFields(s: Stamp): (ws: seq<string>)
    requires Valid(s)
    ensures |ws| == 4 && forall k :: 0 <= k < 4 ==> IsNumeral(ws[k])
  {
    [NatText(s.year), Pad2(s.month), Pad2(s.day), ClockText(s)]
  }

  /** `%Y %m %d %H%M`; the year is printed as `str(year)`, which is four
      digits for the years 1000 to 9999. */
  function StampText(s: Stamp): (t: string)
    requires Valid(s)
    ensures NatText(s.year) + " " <= t
    ensures |t| == |NatText(s.year)| + 11
  {
    var ws := StampFields(s);
    assert ws == [ws[0], ws[1], ws[2], ws[3]];
    JoinFour(ws[0], ws[1], ws[2], ws[3]);
    Join(" ", ws)
  }

  /** The time line of a listed meeting: the start, then ` - ` and the end's
      `%H%M` when there is an end. */
  function TimeLine(start: Stamp, end: Option<Stamp>): (t: string)
    requires Valid(start) && (end.Some? ==> Valid(end.value))
    ensures StampText(start) <= t
    ensures |t| == |StampText(start)| + (if end.Some? then 7 else 0)
  {
    if end.Some? then StampText(start) + " - " + ClockText(end.value) else StampText(start)
  }

  // ---------------------------------------------------------------- round trip

  /** The value of two digits. */
  lemma TwoDigitsValue(a: char, b: char)
    requires IsDigit(a) && IsDigit(b)
    ensures DigitsValue([a, b]) == DigitValue(a) * 10 + DigitValue(b)
  {
    assert [a][..0] == [];
    assert DigitsValue([a]) == DigitValue(a);
    assert [a, b][..1] == [a];
  }

  lemma Pad2Value(n: int)
    requires 0 <= n < 100
    ensures ParseInt(Pad2(n)) == Some(n)
  {
    TwoDigitsValue(Digit(n / 10), Digit(n % 10));
  }

  lemma ClockTextFields(s: Stamp)
    requires Valid(s)
    ensures HourText(ClockText(s)) == Pad2(s.hour)
    ensures MinuteText(ClockText(s)) == Pad2(s.minute)
  {
  }

  /** The four words of `StampText(s)` convert back to the components of `s`. */
  lemma StampOfFields(s: Stamp)
    requires Valid(s)
    ensures var ws := StampFields(s); StampOf(ws[0], ws[1], ws[2], ws[3]) == Some(s)
  {
    NatTextRoundTrip(s.year);
    Pad2Value(s.month);
    Pad2Value(s.day);
    ClockTextFields(s);
    Pad2Value(s.hour);
    Pad2Value(s.minute);
  }

  /** `StampText(s)` followed by whitespace or nothing splits into its four
      fields. */
  lemma WordsOfStampText(s: Stamp, rest: string)
    requires Valid(s)
    requires rest == [] || IsSpace(rest[0])
    ensures Words(StampText(s) + rest) == StampFields(s) + Words(rest)
  {
    var ws := StampFields(s);
    forall k | 0 <= k < |ws| ensures ws[k] != [] && NoSpace(ws[k]) {
      assert IsNumeral(ws[k]);
    }
    WordsOfJoin(ws, rest);
  }

  /** The rendering holds only digits and spaces. */
  lemma StampTextAvoids(s: Stamp, c: char)
    requires Valid(s) && !IsDigit(c) && c != ' '
    ensures c !in StampText(s) && c !in ClockText(s)
  {
    var ws := StampFields(s);
    forall k | 0 <= k < |ws| ensures c !in ws[k] {
      assert IsNumeral(ws[k]);
    }
    JoinAvoids(c, " ", ws);
  }

  lemma TimeLineAvoids(start: Stamp, end: Option<Stamp>, c: char)
    requires Valid(start) && (end.Some? ==> Valid(end.value))
    requires !IsDigit(c) && c != ' ' && c != '-'
    ensures c !in TimeLine(start, end)
  {
    StampTextAvoids(start, c);
    if end.Some? {
      StampTextAvoids(end.value, c);
    }
  }

  /** `parse_dt` on a text whose parts around the first `-` give two
      timestamps. */
  lemma ParseRangeOfParts(datePart: string, timePart: string, a: Stamp, b: Stamp)
    requires '-' !in datePart
    requires var ws := Words(datePart);
             && |ws| == 4
             && StampOf(ws[0], ws[1], ws[2], ws[3]) == Some(a)
             && StampOf(ws[0], ws[1], ws[2], Strip(timePart)) == Some(b)
    ensures ParseRange(datePart + ['-'] + timePart) == Some(Range(a, b))
  {
    SplitAtFirstOf(datePart, '-', timePart);
  }

  /** The date fields of `s` with the printed time of `e` give back `e`
      when both fall on the same date. */
  lemma StampOfEnd(s: Stamp, e: Stamp)
    requires Valid(s) && Valid(e) && SameDate(s, e)
    ensures var ws := StampFields(s); StampOf(ws[0], ws[1], ws[2], ClockText(e)) == Some(e)
  {
    StampOfFields(e);
    assert StampFields(e)[..3] == StampFields(s)[..3];
  }

  /** Round trip for ranges: the time line printed for a meeting with a start
      and an end on the same date parses back to exactly that start and end. */
  lemma {:induction false} ParseRangeOfTimeLine(s: Stamp, e: Stamp)
    requires Valid(s) && Valid(e) && SameDate(s, e)
    ensures ParseRange(TimeLine(s, Some(e))) == Some(Range(s, e))
  {
    var datePart := StampText(s) + " ";
    var timePart := " " + ClockText(e);
    assert TimeLine(s, Some(e)) == datePart + ['-'] + timePart;
    StampTextAvoids(s, '-');
    WordsOfStampText(s, " ");
    WordsBlank(' ', "");
    assert Words(datePart) == StampFields(s);
    StripLeadingSpace(ClockText(e));
    StampOfFields(s);
    StampOfEnd(s, e);
    ParseRangeOfParts(datePart, timePart, s, e);
  }

  /** Round trip for single timestamps. */
  lemma {:induction false} ParseSingleOfTimeLine(s: Stamp)
    requires Valid(s)
    ensures ParseSingle(TimeLine(s, None)) == Some(s)
  {
    var t := StampText(s);
    var ws := StampFields(s);
    assert t[0] == ws[0][0];
    JoinLast(" ", ws);
    assert t[|t| - 1] == ws[3][3];
    StripUnpadded(t);
    WordsOfStampText(s, "");
    assert t + "" == t;
    StampOfFields(s);
  }

  /** Normalisation: whatever text a range was parsed from, printing it and
      parsing again gives the same range. */
  lemma ParseFormatParse(text: string)
    requires ParseRange(text).Some?
    ensures var r := ParseRange(text).value;
            ParseRange(TimeLine(r.start, Some(r.end))) == Some(r)
  {
    var r := ParseRange(text).value;
    ParseRangeOfTimeLine(r.start, r.end);
  }

  /** Four fields joined by single spaces. */
  lemma JoinFour(a: string, b: string, c: string, d: string)
    ensures Join(" ", [a, b, c, d]) == a + " " + b + " " + c + " " + d
  {
    assert [c, d][1..] == [d];
    assert Join(" ", [c, d]) == c + " " + d;
    assert [b, c, d][1..] == [c, d];
    assert Join(" ", [b, c, d]) == b + " " + (c + " " + d);
    assert [a, b, c, d][1..] == [b, c, d];
  }

  lemma YearText()
    ensures NatText(2024) == "2024"
  {
    assert NatText(2) == "2";
    assert NatText(20) == "20";
    assert NatText(202) == "202";
  }

  lemma SampleFields()
    ensures StampFields(Stamp(2024, 6, 10, 10, 0)) == ["2024", "06", "10", "1000"]
  {
    YearText();
    assert Pad2(6) == "06" && Pad2(10) == "10" && Pad2(0) == "00";
    assert ClockText(Stamp(2024, 6, 10, 10, 0)) == "1000";
  }

  lemma SampleStampText()
    ensures StampText(Stamp(2024, 6, 10, 10, 0)) == "2024 06 10 1000"
  {
    SampleFields();
    JoinFour("2024", "06", "10", "1000");
  }

  lemma SampleClockText()
    ensures ClockText(Stamp(2024, 6, 10, 9, 0)) == "0900"
  {
    assert Pad2(9) == "09" && Pad2(0) == "00";
  }

  lemma SampleTimeLine()
    ensures TimeLine(Stamp(2024, 6, 10, 10, 0), Some(Stamp(2024, 6, 10, 9, 0))) == "2024 06 10 1000 - 0900"
  {
    SampleStampText();
    SampleClockText();
    var line := "2024 06 10 1000" + " - " + "0900";
    assert line == "2024 06 10 1000 - 0900";
  }

  /** The parser accepts an end earlier than the start on the same day. */
  lemma EndMayPrecedeStart()
    ensures ParseRange("2024 06 10 1000 - 0900")
         == Some(Range(Stamp(2024, 6, 10, 10, 0), Stamp(2024, 6, 10, 9, 0)))
  {
    SampleTimeLine();
    ParseRangeOfTimeLine(Stamp(2024, 6, 10, 10, 0), Stamp(2024, 6, 10, 9, 0));
  }

  /** An information separator inside a time: `split()` and `strip()` treat
      U+001C as whitespace, `int()` does not, so `int("1\x1c")` raises. */
  lemma SeparatorHour()
    ensures ParseInt(HourText("1\U{1C}30")).None?
  {
    assert HourText("1\U{1C}30") == "1\U{1C}";
    ParseIntRejects("1\U{1C}", 1);
  }

  lemma SeparatorInTime()
    ensures StampOf("2024", "06", "10", "1\U{1C}30").None?
  {
    SeparatorHour();
  }

  /** A two-character time token leaves `hm[2:]` empty, and `int("")`
      raises, so such a time is rejected. */
  lemma ShortTimeRejected(year: string, month: string, day: string, hm: string)
    requires |hm| <= 2
    ensures StampOf(year, month, day, hm).None?
  {
    assert MinuteText(hm) == "";
    ParseIntEmpty();
  }

  /** An end hour that `int()` rejects makes `parse_dt` fail, whatever
      precedes the `-`. */
  lemma EndHourRejected(datePart: string, timePart: string)
    requires '-' !in datePart
    requires ParseInt(HourText(Strip(timePart))).None?
    ensures ParseRange(datePart + ['-'] + timePart).None?
  {
    SplitAtFirstOf(datePart, '-', timePart);
  }

  lemma SampleEndStrip()
    ensures Strip(" 1\U{1C}30") == "1\U{1C}30"
  {
    StripLeadingSpace("1\U{1C}30");
  }

  lemma SampleDatePart()
    ensures '-' !in "2024 06 10 1000 "
  {
    SampleStampText();
    StampTextAvoids(Stamp(2024, 6, 10, 10, 0), '-');
  }

  /** The same separator in the end time makes `parse_dt` fail. */
  lemma SeparatorInEndTime()
    ensures ParseRange("2024 06 10 1000 - 1\U{1C}30").None?
  {
    assert "2024 06 10 1000 - 1\U{1C}30" == "2024 06 10 1000 " + ['-'] + " 1\U{1C}30";
    SampleEndStrip();
    SeparatorHour();
    SampleDatePart();
    EndHourRejected("2024 06 10 1000 ", " 1\U{1C}30");
  }
}
