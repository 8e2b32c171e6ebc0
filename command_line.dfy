/**
 * How the command line turns its start and end texts into the window given
 * to the date filter: both texts go through parse_date, and an end text
 * without a time part becomes 23:59:59 of the day after the given date.
 */
module CommandLine {
  import opened Wrappers
  import opened Calendar
  import opened TimeText
  import opened PhotoManager

  /**
   * `datetime(d.year, d.month, d.day, 23, 59, 59) + timedelta(days=1)`;
   * `None` where Python raises `OverflowError` (the given date is 9999-12-31).
   */
  function EndOfFollowingDay(d: Instant): (r: Option<Instant>)
    ensures r.None? <==> (d.year == MaxYear && d.month == 12 && d.day == 31)
    ensures r.Some? ==> r.value.hour == 23 && r.value.minute == 59 && r.value.second == 59
  {
    AddOneDay(d.(hour := 23, minute := 59, second := 59))
  }

  /**
   * The expanded end is on the next calendar date (month, year and
   * February 29 roll over as the ordinals say), one second before the
   * end of that date, and strictly later than the given instant.
   */
  lemma EndOfFollowingDayMeaning(d: Instant)
    requires EndOfFollowingDay(d).Some?
    ensures var r := EndOfFollowingDay(d).value;
      Ordinal(r) == Ordinal(d) + 1 &&
      Timeline(r) == Timeline(StartOfDay(d)) + 2 * SecondsPerDay - 1 &&
      Before(d, r)
  {
    var late := d.(hour := 23, minute := 59, second := 59);
    AddOneDayOrdinal(late);
    BeforeIsTimeline(d, EndOfFollowingDay(d).value);
  }

  /**
   * With the expanded end, the window takes an item exactly when it is not
   * before the start and its date is at most one day after the given end
   * date, whatever its time of day.
   */
  lemma ExpandedEndSelects(p: MediaItem, start: Instant, d: Instant)
    requires EndOfFollowingDay(d).Some?
    ensures InWindow(p, start, EndOfFollowingDay(d).value) <==>
      NotAfter(start, p.created) && Ordinal(p.created) <= Ordinal(d) + 1
  {
    var r := EndOfFollowingDay(d).value;
    EndOfFollowingDayMeaning(d);
    OrdinalMonotone(p.created, r);
  }

  /** main.py's rule as written: an end text without a space character counts as date-only. */
  function EndBoundAsWritten(text: string, parsed: Instant): Option<Instant> {
    if ' ' !in text then EndOfFollowingDay(parsed) else Some(parsed)
  }

  /**
   * As written, a text with a space keeps its parsed value, and a text
   * without one is replaced by 23:59:59 of the next date (`None` only for
   * 9999-12-31); for the ordinary date-only text that is the end of the day
   * after the given date at midnight.
   */
  lemma EndBoundAsWrittenMeaning(text: string, parsed: Instant)
    requires ParseDate(text) == Some(parsed)
    ensures ' ' in text ==> EndBoundAsWritten(text, parsed) == Some(parsed)
    ensures ' ' !in text ==> EndBoundAsWritten(text, parsed) == EndOfFollowingDay(parsed)
    ensures ' ' !in text && EndBoundAsWritten(text, parsed).Some? ==>
      var r := EndBoundAsWritten(text, parsed).value;
      r.hour == 23 && r.minute == 59 && r.second == 59 && Ordinal(r) == Ordinal(parsed) + 1 && Before(parsed, r)
    ensures text == FourDigits(parsed.year) + "-" + TwoDigits(parsed.month) + "-" + TwoDigits(parsed.day) ==>
      parsed == StartOfDay(parsed) && ' ' !in text
  {
    if ' ' !in text && EndOfFollowingDay(parsed).Some? {
      EndOfFollowingDayMeaning(parsed);
    }
    var date := FourDigits(parsed.year) + "-" + TwoDigits(parsed.month) + "-" + TwoDigits(parsed.day);
    if text == date {
      ParseDateOnlyText(parsed);
      NoSpaceInDateText(parsed, Padded, Padded);
    }
  }

  /** The rule main.py evidently intends: expand the end exactly when the date-only format read the text. */
  function EndBound(text: string, parsed: Instant): Option<Instant> {
    if StrptimeDate(text).Some? then EndOfFollowingDay(parsed) else Some(parsed)
  }

  /** The corrected rule expands every date-only layout and keeps every layout with a time. */
  lemma EndBoundFollowsFormat(t: Instant, f: Layout)
    requires Fits(t, f)
    ensures ParseDate(Render(t, f)) == Some(t)
    ensures f.DateOnly? ==> EndBound(Render(t, f), t) == EndOfFollowingDay(t)
    ensures f.WithTime? ==> EndBound(Render(t, f), t) == Some(t)
  {
    RenderParses(t, f);
  }

  lemma NoSpaceInDateText(t: Instant, m: Spelling, d: Spelling)
    requires m != Blank && d != Blank
    ensures ' ' !in DateText(t, m, d)
  {
  }

  /**
   * The two rules agree on every text whose day is not space-padded and
   * whose date and time are separated by whitespace that includes a space,
   * which covers `YYYY-MM-DD` and `YYYY-MM-DD HH:MM:SS`.
   */
  lemma EndBoundsAgree(t: Instant, f: Layout)
    requires Fits(t, f)
    requires f.DateOnly? ==> f.day != Blank
    requires f.WithTime? ==> ' ' in f.gap
    ensures ParseDate(Render(t, f)) == Some(t)
    ensures EndBoundAsWritten(Render(t, f), t) == EndBound(Render(t, f), t)
  {
    RenderParses(t, f);
    match f
    case DateOnly(m, d) =>
      NoSpaceInDateText(t, m, d);
    case WithTime(m, d, gap, h, mi, sec) =>
      var i :| 0 <= i < |gap| && gap[i] == ' ';
      RenderAssociates(t, m, d, gap, h, mi, sec);
      assert Render(t, f)[|DateText(t, m, d)| + i] == ' ';
  }

  /** The field texts the two examples below are made of. */
  lemma ExampleFields()
    ensures FourDigits(2024) == "2024"
    ensures TwoDigits(0) == "00" && TwoDigits(1) == "01" && TwoDigits(5) == "05"
    ensures TwoDigits(10) == "10" && TwoDigits(30) == "30"
    ensures Field(5, Blank) == " 5"
  {
  }

  lemma SpacePaddedDayParses(text: string)
    requires text == "2024-01- 5"
    ensures ParseDate(text) == Some(DateTime(2024, 1, 5, 0, 0, 0))
    ensures StrptimeDate(text).Some?
  {
    var t: Instant := DateTime(2024, 1, 5, 0, 0, 0);
    var f := DateOnly(Padded, Blank);
    ExampleFields();
    assert Render(t, f) == "2024" + "-" + "01" + "-" + " 5";
    assert "2024" + "-" + "01" + "-" + " 5" == text;
    RenderParses(t, f);
  }

  /**
   * "2024-01- 5" is a date-only text (the space-padded day is one of the
   * spellings '%d' accepts), yet it contains a space. As written, the end
   * stays at midnight, so an item from noon that day falls outside the
   * window; the corrected rule includes it.
   */
  lemma SpacePaddedDayNotExpanded(text: string)
    requires text == "2024-01- 5"
    ensures var t := DateTime(2024, 1, 5, 0, 0, 0);
      var noon := MediaItem("IMG_0001.JPG", DateTime(2024, 1, 5, 12, 0, 0), "image", None, None, None);
      ParseDate(text) == Some(t) && StrptimeDate(text).Some? &&
      EndBoundAsWritten(text, t) == Some(t) &&
      !InWindow(noon, t, EndBoundAsWritten(text, t).value) &&
      EndBound(text, t) == Some(DateTime(2024, 1, 6, 23, 59, 59)) &&
      InWindow(noon, t, EndBound(text, t).value)
  {
    SpacePaddedDayParses(text);
    assert text[8] == ' ';
    var t: Instant := DateTime(2024, 1, 5, 0, 0, 0);
    assert EndOfFollowingDay(t) == Some(DateTime(2024, 1, 6, 23, 59, 59));
  }

  lemma TabExampleParses(text: string)
    requires text == "2024-01-05\t10:30:00"
    ensures ParseDate(text) == Some(DateTime(2024, 1, 5, 10, 30, 0))
    ensures StrptimeDate(text).None?
  {
    var t: Instant := DateTime(2024, 1, 5, 10, 30, 0);
    var f := WithTime(Padded, Padded, "\t", Padded, Padded, Padded);
    assert IsGap("\t");
    ExampleFields();
    assert Render(t, f) == "2024" + "-" + "01" + "-" + "05" + "\t" + "10" + ":" + "30" + ":" + "00";
    assert "2024" + "-" + "01" + "-" + "05" + "\t" + "10" + ":" + "30" + ":" + "00" == text;
    RenderParses(t, f);
  }

  lemma TabExampleHasNoSpace(text: string)
    requires text == "2024-01-05\t10:30:00"
    ensures ' ' !in text
  {
  }

  /**
   * "2024-01-05\t10:30:00" has a time, read through the whitespace that
   * the format's space stands for, but no space character. As written, its
   * time is thrown away and the end becomes 2024-01-06 23:59:59.
   */
  lemma TabSeparatedTimeDiscarded(text: string)
    requires text == "2024-01-05\t10:30:00"
    ensures var t := DateTime(2024, 1, 5, 10, 30, 0);
      ParseDate(text) == Some(t) && StrptimeDate(text).None? &&
      EndBoundAsWritten(text, t) == Some(DateTime(2024, 1, 6, 23, 59, 59)) &&
      EndBound(text, t) == Some(t)
  {
    TabExampleParses(text);
    TabExampleHasNoSpace(text);
    var t: Instant := DateTime(2024, 1, 5, 10, 30, 0);
    assert EndOfFollowingDay(t) == Some(DateTime(2024, 1, 6, 23, 59, 59));
  }

  datatype Window = Window(start: Instant, end: Instant)

  /** The outcome of reading the two texts: a window, or the fatal exit of parse_date or of the end's overflow. */
  datatype Resolution = Resolved(window: Window) | InvalidDate(text: string) | EndOutOfRange

  /**
   * main.py as written: the start text is parsed and used as it is; the end
   * text is parsed and, when it contains no space character, expanded to
   * 23:59:59 of the following day.
   */
  function ResolveWindow(startText: string, endText: string): (r: Resolution)
    ensures r.Resolved? ==> ParseDate(startText) == Some(r.window.start)
    ensures r.Resolved? ==> ParseDate(endText).Some? && Some(r.window.end) == EndBoundAsWritten(endText, ParseDate(endText).value)
    ensures ParseDate(startText).None? ==> r == InvalidDate(startText)
    ensures ParseDate(startText).Some? && ParseDate(endText).None? ==> r == InvalidDate(endText)
    ensures r == EndOutOfRange <==>
      (ParseDate(startText).Some? && ParseDate(endText).Some? && ' ' !in endText &&
       var e := ParseDate(endText).value; e.year == MaxYear && e.month == 12 && e.day == 31)
    ensures r.InvalidDate? ==> ParseDate(startText).None? || ParseDate(endText).None?
    ensures (ParseDate(startText).Some? && ParseDate(endText).Some? &&
             EndBoundAsWritten(endText, ParseDate(endText).value).Some?) ==> r.Resolved?
  {
    match ParseDate(startText)
    case None => InvalidDate(startText)
    case Some(start) =>
      match ParseDate(endText)
      case None => InvalidDate(endText)
      case Some(end) =>
        match EndBoundAsWritten(endText, end)
        case None => EndOutOfRange
        case Some(e) => Resolved(Window(start, e))
  }

  /** The window with the corrected end rule: expanded exactly when the end text is date-only. */
  function ResolveWindowCorrected(startText: string, endText: string): (r: Resolution)
    ensures r.Resolved? ==> ParseDate(startText) == Some(r.window.start)
    ensures r.Resolved? ==> ParseDate(endText).Some? && Some(r.window.end) == EndBound(endText, ParseDate(endText).value)
    ensures ParseDate(startText).None? ==> r == InvalidDate(startText)
    ensures ParseDate(startText).Some? && ParseDate(endText).None? ==> r == InvalidDate(endText)
    ensures r == EndOutOfRange <==>
      (ParseDate(startText).Some? && StrptimeDate(endText).Some? &&
       var e := ParseDate(endText).value; e.year == MaxYear && e.month == 12 && e.day == 31)
    ensures r.InvalidDate? ==> ParseDate(startText).None? || ParseDate(endText).None?
    ensures (ParseDate(startText).Some? && ParseDate(endText).Some? &&
             EndBound(endText, ParseDate(endText).value).Some?) ==> r.Resolved?
  {
    match ParseDate(startText)
    case None => InvalidDate(startText)
    case Some(start) =>
      match ParseDate(endText)
      case None => InvalidDate(endText)
      case Some(end) =>
        match EndBound(endText, end)
        case None => EndOutOfRange
        case Some(e) => Resolved(Window(start, e))
  }

  /**
   * As written, an end text without a space gives a window that takes an
   * item exactly when it is not before the parsed start and is dated no
   * later than the day after the given end date.
   */
  lemma DateOnlyEndWindow(startText: string, endText: string, p: MediaItem)
    requires ResolveWindow(startText, endText).Resolved?
    requires ' ' !in endText
    ensures var w := ResolveWindow(startText, endText).window;
      var e := ParseDate(endText).value;
      InWindow(p, w.start, w.end) <==> NotAfter(ParseDate(startText).value, p.created) && Ordinal(p.created) <= Ordinal(e) + 1
  {
    var e := ParseDate(endText).value;
    ExpandedEndSelects(p, ResolveWindow(startText, endText).window.start, e);
  }

  /** As written, an end text with a space ends the window at exactly the instant it names. */
  lemma SpacedEndWindow(startText: string, endText: string, p: MediaItem)
    requires ResolveWindow(startText, endText).Resolved?
    requires ' ' in endText
    ensures var w := ResolveWindow(startText, endText).window;
      w.end == ParseDate(endText).value &&
      (InWindow(p, w.start, w.end) <==> NotAfter(ParseDate(startText).value, p.created) && NotAfter(p.created, ParseDate(endText).value))
  {
  }

  /**
   * With the corrected rule, every date-only end text gives a window that
   * takes an item exactly when it is not before the parsed start and is
   * dated no later than the day after the given end date.
   */
  lemma DateOnlyEndWindowCorrected(startText: string, endText: string, p: MediaItem)
    requires ResolveWindowCorrected(startText, endText).Resolved?
    requires StrptimeDate(endText).Some?
    ensures var w := ResolveWindowCorrected(startText, endText).window;
      var e := ParseDate(endText).value;
      InWindow(p, w.start, w.end) <==> NotAfter(ParseDate(startText).value, p.created) && Ordinal(p.created) <= Ordinal(e) + 1
  {
    var e := ParseDate(endText).value;
    ExpandedEndSelects(p, ResolveWindowCorrected(startText, endText).window.start, e);
  }

  lemma DateOnlyTextParses(text: string, t: Instant)
    requires t.hour == 0 && t.minute == 0 && t.second == 0
    requires text == FourDigits(t.year) + "-" + TwoDigits(t.month) + "-" + TwoDigits(t.day)
    ensures ParseDate(text) == Some(t) && StrptimeDate(text).Some?
  {
    RenderParses(t, DateOnly(Padded, Padded));
  }

  /**
   * Start "2024-01-01" and end "2024-01-02" resolve to the window from
   * 2024-01-01 00:00:00 to 2024-01-03 23:59:59.
   */
  lemma TwoDayTextWindow(startText: string, endText: string)
    requires startText == "2024-01-01" && endText == "2024-01-02"
    ensures ResolveWindow(startText, endText) ==
      Resolved(Window(DateTime(2024, 1, 1, 0, 0, 0), DateTime(2024, 1, 3, 23, 59, 59)))
    ensures ResolveWindowCorrected(startText, endText) == ResolveWindow(startText, endText)
  {
    assert FourDigits(2024) + "-" + TwoDigits(1) + "-" + TwoDigits(1) == startText;
    assert DateText(DateTime(2024, 1, 2, 0, 0, 0), Padded, Padded) == endText;
    NoSpaceInDateText(DateTime(2024, 1, 2, 0, 0, 0), Padded, Padded);
    DateOnlyTextParses(startText, DateTime(2024, 1, 1, 0, 0, 0));
    DateOnlyTextParses(endText, DateTime(2024, 1, 2, 0, 0, 0));
    assert EndOfFollowingDay(DateTime(2024, 1, 2, 0, 0, 0)) == Some(DateTime(2024, 1, 3, 23, 59, 59));
  }

  /** An item taken at 10:00 on 1, 2 or 3 January 2024 lies in the window from 2024-01-01 to 2024-01-03 23:59:59. */
  lemma JanuaryMorningInWindow(p: MediaItem, d: int)
    requires 1 <= d <= 3
    requires p.created == DateTime(2024, 1, d, 10, 0, 0)
    ensures InWindow(p, DateTime(2024, 1, 1, 0, 0, 0), DateTime(2024, 1, 3, 23, 59, 59))
  {
  }

  /**
   * Items created at 10:00:00 on 2024-01-01, 01-02 and 01-03 all fall in
   * that window: the expanded end keeps the third day as well.
   */
  lemma ThreeDaySelection(library: seq<MediaItem>)
    requires |library| == 3
    requires library[0].created == DateTime(2024, 1, 1, 10, 0, 0)
    requires library[1].created == DateTime(2024, 1, 2, 10, 0, 0)
    requires library[2].created == DateTime(2024, 1, 3, 10, 0, 0)
    ensures Selected(library, DateTime(2024, 1, 1, 0, 0, 0), DateTime(2024, 1, 3, 23, 59, 59)) == library
  {
    var s: Instant := DateTime(2024, 1, 1, 0, 0, 0);
    var end: Instant := DateTime(2024, 1, 3, 23, 59, 59);
    JanuaryMorningInWindow(library[0], 1);
    JanuaryMorningInWindow(library[1], 2);
    JanuaryMorningInWindow(library[2], 3);
    assert library[..1][..0] == [];
    assert library[..2][..1] == library[..1];
    assert library[..3][..2] == library[..2];
    assert Selected(library[..1], s, end) == library[..1];
    assert Selected(library[..2], s, end) == library[..2];
    assert library[..3] == library;
  }
}
