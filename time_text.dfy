/**
 * The text forms of a timestamp the tool reads and writes: `strftime` with
 * '%Y-%m-%d %H:%M:%S' and '%Y%m%d_%H%M%S_', and `parse_date`, which tries
 * `datetime.strptime` with '%Y-%m-%d' and then with '%Y-%m-%d %H:%M:%S'.
 *
 * CPython's `strptime` matches a regular expression built from the format:
 * `%Y` is exactly four digits; `%m`, `%d`, `%H`, `%M` and `%S` take one or
 * two digits, each with its own set of alternatives; `%d` also takes a
 * space followed by one digit; and the space of the format becomes `\s+`.
 * Text left over after the match is an error ("unconverted data remains"),
 * and the fields then go through the `datetime` constructor's range checks.
 * Each scanner below takes the first alternative that matches. Backtracking
 * into a later alternative never helps: a shorter alternative always leaves a
 * digit where the pattern next needs '-', ':', whitespace or the end.
 */
module TimeText {
  import opened Wrappers
  import opened Calendar

  predicate IsDigit(c: char) {
    '0' <= c <= '9'
  }

  function DigitValue(c: char): nat
    requires IsDigit(c)
  {
    c as int - '0' as int
  }

  function DigitChar(v: nat): (c: char)
    requires v < 10
    ensures IsDigit(c) && DigitValue(c) == v
  {
    (v + '0' as int) as char
  }

  /** The characters `\s` matches in a Python `str` pattern (those for which `str.isspace` holds). */
  predicate IsSpace(c: char) {
    c == ' ' || '\t' <= c <= '\r' || '\U{1c}' <= c <= '\U{1f}' || c == '\U{85}' || c == '\U{a0}' ||
    c == '\U{1680}' || '\U{2000}' <= c <= '\U{200a}' || c == '\U{2028}' || c == '\U{2029}' ||
    c == '\U{202f}' || c == '\U{205f}' || c == '\U{3000}'
  }

  /** A zero-padded two-digit field, as `%m`, `%d`, `%H`, `%M`, `%S` print it. */
  function TwoDigits(v: nat): string {
    [DigitChar(v / 10 % 10), DigitChar(v % 10)]
  }

  /** A zero-padded four-digit year, as `%Y` prints it. */
  function FourDigits(v: nat): string {
    [DigitChar(v / 1000 % 10), DigitChar(v / 100 % 10), DigitChar(v / 10 % 10), DigitChar(v % 10)]
  }

  /** `t.strftime('%Y-%m-%d %H:%M:%S')` */
  function Timestamp(t: Instant): string {
    FourDigits(t.year) + "-" + TwoDigits(t.month) + "-" + TwoDigits(t.day) + " " +
    TwoDigits(t.hour) + ":" + TwoDigits(t.minute) + ":" + TwoDigits(t.second)
  }

  /** `t.strftime('%Y%m%d_%H%M%S_')`, the prefix that keeps exported names apart. */
  function FilePrefix(t: Instant): string {
    FourDigits(t.year) + TwoDigits(t.month) + TwoDigits(t.day) + "_" +
    TwoDigits(t.hour) + TwoDigits(t.minute) + TwoDigits(t.second) + "_"
  }

  // ---------------------------------------------------------------------
  // The regular-expression pieces of strptime

  /** A field value and the text after it. */
  datatype Scan = Scan(value: nat, rest: string)

  /** `%Y`: four digits. */
  function ScanYear(s: string): Option<Scan> {
    if |s| >= 4 && IsDigit(s[0]) && IsDigit(s[1]) && IsDigit(s[2]) && IsDigit(s[3]) then
      Some(Scan(1000 * DigitValue(s[0]) + 100 * DigitValue(s[1]) + 10 * DigitValue(s[2]) + DigitValue(s[3]), s[4..]))
    else None
  }

  /** `%m`: `1[0-2]`, `0[1-9]` or `[1-9]`. */
  function ScanMonth(s: string): Option<Scan> {
    if |s| >= 2 && s[0] == '1' && '0' <= s[1] <= '2' then Some(Scan(10 + DigitValue(s[1]), s[2..]))
    else if |s| >= 2 && s[0] == '0' && '1' <= s[1] <= '9' then Some(Scan(DigitValue(s[1]), s[2..]))
    else if |s| >= 1 && '1' <= s[0] <= '9' then Some(Scan(DigitValue(s[0]), s[1..]))
    else None
  }

  /** `%d`: `3[01]`, `[12]\d`, `0[1-9]`, `[1-9]` or a space and `[1-9]`. */
  function ScanDay(s: string): Option<Scan> {
    if |s| >= 2 && s[0] == '3' && '0' <= s[1] <= '1' then Some(Scan(30 + DigitValue(s[1]), s[2..]))
    else if |s| >= 2 && '1' <= s[0] <= '2' && IsDigit(s[1]) then Some(Scan(10 * DigitValue(s[0]) + DigitValue(s[1]), s[2..]))
    else if |s| >= 2 && s[0] == '0' && '1' <= s[1] <= '9' then Some(Scan(DigitValue(s[1]), s[2..]))
    else if |s| >= 1 && '1' <= s[0] <= '9' then Some(Scan(DigitValue(s[0]), s[1..]))
    else if |s| >= 2 && s[0] == ' ' && '1' <= s[1] <= '9' then Some(Scan(DigitValue(s[1]), s[2..]))
    else None
  }

  /** `%H`: `2[0-3]`, `[01]\d` or `\d`. */
  function ScanHour(s: string): Option<Scan> {
    if |s| >= 2 && s[0] == '2' && '0' <= s[1] <= '3' then Some(Scan(20 + DigitValue(s[1]), s[2..]))
    else if |s| >= 2 && '0' <= s[0] <= '1' && IsDigit(s[1]) then Some(Scan(10 * DigitValue(s[0]) + DigitValue(s[1]), s[2..]))
    else if |s| >= 1 && IsDigit(s[0]) then Some(Scan(DigitValue(s[0]), s[1..]))
    else None
  }

  /** `%M`: `[0-5]\d` or `\d`. */
  function ScanMinute(s: string): Option<Scan> {
    if |s| >= 2 && '0' <= s[0] <= '5' && IsDigit(s[1]) then Some(Scan(10 * DigitValue(s[0]) + DigitValue(s[1]), s[2..]))
    else if |s| >= 1 && IsDigit(s[0]) then Some(Scan(DigitValue(s[0]), s[1..]))
    else None
  }

  /** `%S`: `6[01]`, `[0-5]\d` or `\d` (60 and 61 match, and the `datetime` constructor then rejects them). */
  function ScanSecond(s: string): Option<Scan> {
    if |s| >= 2 && s[0] == '6' && '0' <= s[1] <= '1' then Some(Scan(60 + DigitValue(s[1]), s[2..]))
    else if |s| >= 2 && '0' <= s[0] <= '5' && IsDigit(s[1]) then Some(Scan(10 * DigitValue(s[0]) + DigitValue(s[1]), s[2..]))
    else if |s| >= 1 && IsDigit(s[0]) then Some(Scan(DigitValue(s[0]), s[1..]))
    else None
  }

  /** A literal character of the format. */
  function Expect(s: string, c: char): Option<string> {
    if |s| >= 1 && s[0] == c then Some(s[1..]) else None
  }

  /** The length of the run of whitespace that starts `s`. */
  function LeadingSpaces(s: string): (n: nat)
    ensures n <= |s|
    ensures forall i :: 0 <= i < n ==> IsSpace(s[i])
    ensures n < |s| ==> !IsSpace(s[n])
  {
    if |s| >= 1 && IsSpace(s[0]) then 1 + LeadingSpaces(s[1..]) else 0
  }

  /** `\s+`, greedy. */
  function ScanGap(s: string): Option<string> {
    var n := LeadingSpaces(s);
    if n == 0 then None else Some(s[n..])
  }

  /** The fields of '%Y-%m-%d', shared by both formats. */
  datatype DateFields = DateFields(year: nat, month: nat, day: nat, rest: string)

  function ScanDateFields(s: string): Option<DateFields> {
    var y :- ScanYear(s);
    var r1 :- Expect(y.rest, '-');
    var m :- ScanMonth(r1);
    var r2 :- Expect(m.rest, '-');
    var d :- ScanDay(r2);
    Some(DateFields(y.value, m.value, d.value, d.rest))
  }

  /** The `datetime` constructor: `None` where it raises `ValueError`. */
  function MakeInstant(y: int, m: int, d: int, h: int, mi: int, s: int): Option<Instant> {
    var t := DateTime(y, m, d, h, mi, s);
    if IsValid(t) then Some(t) else None
  }

  /** `datetime.strptime(s, '%Y-%m-%d')`; `None` where it raises `ValueError`. */
  function StrptimeDate(s: string): Option<Instant> {
    var p :- ScanDateFields(s);
    if p.rest != [] then None else MakeInstant(p.year, p.month, p.day, 0, 0, 0)
  }

  /** The fields of '%H:%M:%S'. */
  datatype TimeFields = TimeFields(hour: nat, minute: nat, second: nat, rest: string)

  function ScanTimeFields(s: string): Option<TimeFields> {
    var h :- ScanHour(s);
    var r1 :- Expect(h.rest, ':');
    var mi :- ScanMinute(r1);
    var r2 :- Expect(mi.rest, ':');
    var sec :- ScanSecond(r2);
    Some(TimeFields(h.value, mi.value, sec.value, sec.rest))
  }

  /** `datetime.strptime(s, '%Y-%m-%d %H:%M:%S')`; `None` where it raises `ValueError`. */
  function StrptimeDateTime(s: string): Option<Instant> {
    var p :- ScanDateFields(s);
    var r :- ScanGap(p.rest);
    var c :- ScanTimeFields(r);
    if c.rest != [] then None else MakeInstant(p.year, p.month, p.day, c.hour, c.minute, c.second)
  }

  /** `parse_date`: the date-only format first, then the date-and-time format; `None` is the fatal exit. */
  function ParseDate(s: string): Option<Instant> {
    match StrptimeDate(s)
    case Some(t) => Some(t)
    case None => StrptimeDateTime(s)
  }

  // ---------------------------------------------------------------------
  // Every text parse_date accepts, described as a layout of fields

  /** How one field is written: "05", "5" or " 5". */
  datatype Spelling = Padded | Bare | Blank

  function Field(v: nat, sp: Spelling): string {
    match sp
    case Padded => TwoDigits(v)
    case Bare => [DigitChar(v % 10)]
    case Blank => [' ', DigitChar(v % 10)]
  }

  /** `sp` can write the value `v`. */
  predicate Spells(v: int, sp: Spelling) {
    match sp
    case Padded => 0 <= v < 100
    case Bare => 0 <= v < 10
    case Blank => 1 <= v < 10
  }

  /** The shape of an accepted text: which format matched, how each field is written, and the whitespace between date and time. */
  datatype Layout =
    | DateOnly(month: Spelling, day: Spelling)
    | WithTime(month: Spelling, day: Spelling, gap: string, hour: Spelling, minute: Spelling, second: Spelling)

  predicate IsGap(gap: string) {
    |gap| >= 1 && forall i :: 0 <= i < |gap| ==> IsSpace(gap[i])
  }

  /** `f` can write `t`; only the day may be space-padded, and a date-only text stands for midnight. */
  predicate Fits(t: Instant, f: Layout) {
    Spells(t.month, f.month) && f.month != Blank && Spells(t.day, f.day) &&
    match f
    case DateOnly(_, _) => t.hour == 0 && t.minute == 0 && t.second == 0
    case WithTime(_, _, gap, h, mi, s) =>
      IsGap(gap) && Spells(t.hour, h) && h != Blank && Spells(t.minute, mi) && mi != Blank &&
      Spells(t.second, s) && s != Blank
  }

  function DateText(t: Instant, m: Spelling, d: Spelling): string {
    FourDigits(t.year) + "-" + Field(t.month, m) + "-" + Field(t.day, d)
  }

  function Render(t: Instant, f: Layout): string {
    match f
    case DateOnly(m, d) => DateText(t, m, d)
    case WithTime(m, d, gap, h, mi, s) =>
      DateText(t, m, d) + gap + Field(t.hour, h) + ":" + Field(t.minute, mi) + ":" + Field(t.second, s)
  }

  /** What may follow a numeric field without changing how it scans. */
  predicate EndsField(rest: string) {
    rest == [] || !IsDigit(rest[0])
  }

  lemma CharOfDigit(c: char)
    requires IsDigit(c)
    ensures DigitChar(DigitValue(c)) == c
  {
  }

  lemma ScanYearText(v: nat, rest: string)
    requires v < 10000
    ensures ScanYear(FourDigits(v) + rest) == Some(Scan(v, rest))
  {
    var s := FourDigits(v) + rest;
    assert s[4..] == rest;
    FourDigitsValue(v);
  }

  lemma FourDigitsValue(v: nat)
    requires v < 10000
    ensures 1000 * (v / 1000 % 10) + 100 * (v / 100 % 10) + 10 * (v / 10 % 10) + v % 10 == v
  {
    var a, r1 := v / 1000, v % 1000;
    var b, r2 := r1 / 100, r1 % 100;
    var c, d := r2 / 10, r2 % 10;
    assert v == 1000 * a + r1 && r1 == 100 * b + r2 && r2 == 10 * c + d;
    FourDigitsArithmetic(a, b, c, d);
  }

  lemma TwoDigitsValue(v: nat)
    requires v < 100
    ensures 10 * DigitValue(TwoDigits(v)[0]) + DigitValue(TwoDigits(v)[1]) == v
  {
  }

  lemma ScanMonthText(v: nat, sp: Spelling, rest: string)
    requires 1 <= v <= 12 && Spells(v, sp) && sp != Blank && EndsField(rest)
    ensures ScanMonth(Field(v, sp) + rest) == Some(Scan(v, rest))
  {
    var s := Field(v, sp) + rest;
    assert s[|Field(v, sp)|..] == rest;
    if sp == Padded { TwoDigitsValue(v); }
  }

  lemma ScanDayText(v: nat, sp: Spelling, rest: string)
    requires 1 <= v <= 31 && Spells(v, sp) && EndsField(rest)
    ensures ScanDay(Field(v, sp) + rest) == Some(Scan(v, rest))
  {
    var s := Field(v, sp) + rest;
    assert s[|Field(v, sp)|..] == rest;
    if sp == Padded { TwoDigitsValue(v); }
  }

  lemma ScanHourText(v: nat, sp: Spelling, rest: string)
    requires v <= 23 && Spells(v, sp) && sp != Blank && EndsField(rest)
    ensures ScanHour(Field(v, sp) + rest) == Some(Scan(v, rest))
  {
    var s := Field(v, sp) + rest;
    assert s[|Field(v, sp)|..] == rest;
    if sp == Padded { TwoDigitsValue(v); }
  }

  lemma ScanMinuteText(v: nat, sp: Spelling, rest: string)
    requires v <= 59 && Spells(v, sp) && sp != Blank && EndsField(rest)
    ensures ScanMinute(Field(v, sp) + rest) == Some(Scan(v, rest))
  {
    var s := Field(v, sp) + rest;
    assert s[|Field(v, sp)|..] == rest;
    if sp == Padded { TwoDigitsValue(v); }
  }

  lemma ScanSecondText(v: nat, sp: Spelling, rest: string)
    requires v <= 59 && Spells(v, sp) && sp != Blank && EndsField(rest)
    ensures ScanSecond(Field(v, sp) + rest) == Some(Scan(v, rest))
  {
    var s := Field(v, sp) + rest;
    assert s[|Field(v, sp)|..] == rest;
    if sp == Padded { TwoDigitsValue(v); }
  }

  lemma {:induction false} LeadingSpacesOfGap(gap: string, rest: string)
    requires forall i :: 0 <= i < |gap| ==> IsSpace(gap[i])
    requires rest == [] || !IsSpace(rest[0])
    ensures LeadingSpaces(gap + rest) == |gap|
  {
    if gap != [] {
      assert (gap + rest)[1..] == gap[1..] + rest;
      LeadingSpacesOfGap(gap[1..], rest);
    } else {
      assert gap + rest == rest;
    }
  }

  lemma ScanGapText(gap: string, rest: string)
    requires IsGap(gap) && (rest == [] || !IsSpace(rest[0]))
    ensures ScanGap(gap + rest) == Some(rest)
  {
    LeadingSpacesOfGap(gap, rest);
    assert (gap + rest)[|gap|..] == rest;
  }

  lemma DateTextAssociates(t: Instant, m: Spelling, d: Spelling, rest: string)
    ensures DateText(t, m, d) + rest == FourDigits(t.year) + ("-" + (Field(t.month, m) + ("-" + (Field(t.day, d) + rest))))
  {
  }

  lemma ScanDateFieldsText(t: Instant, m: Spelling, d: Spelling, rest: string)
    requires Spells(t.month, m) && m != Blank && Spells(t.day, d) && EndsField(rest)
    ensures ScanDateFields(DateText(t, m, d) + rest) == Some(DateFields(t.year, t.month, t.day, rest))
  {
    var dayPart := Field(t.day, d) + rest;
    var monthPart := Field(t.month, m) + ("-" + dayPart);
    var s := DateText(t, m, d) + rest;
    DateTextAssociates(t, m, d, rest);
    ScanYearText(t.year, "-" + monthPart);
    assert ScanYear(s) == Some(Scan(t.year, "-" + monthPart));
    assert Expect("-" + monthPart, '-') == Some(monthPart);
    ScanMonthText(t.month, m, "-" + dayPart);
    assert Expect("-" + dayPart, '-') == Some(dayPart);
    ScanDayText(t.day, d, rest);
  }

  /** Every layout that fits an instant writes a text parse_date reads back as that instant. */
  lemma RenderParses(t: Instant, f: Layout)
    requires Fits(t, f)
    ensures ParseDate(Render(t, f)) == Some(t)
    ensures StrptimeDate(Render(t, f)).Some? <==> f.DateOnly?
  {
    match f
    case DateOnly(m, d) =>
      ScanDateFieldsText(t, m, d, []);
      assert Render(t, f) == DateText(t, m, d) + [];
    case WithTime(m, d, gap, h, mi, sec) =>
      var timePart := Field(t.hour, h) + (":" + (Field(t.minute, mi) + (":" + (Field(t.second, sec) + []))));
      RenderAssociates(t, m, d, gap, h, mi, sec);
      assert Field(t.second, sec) + [] == Field(t.second, sec);
      ScanDateFieldsText(t, m, d, gap + timePart);
      ScanGapText(gap, timePart);
      ScanTimeFieldsText(t.hour, h, t.minute, mi, t.second, sec, []);
  }

  lemma ScanTimeFieldsText(hv: nat, h: Spelling, mv: nat, mi: Spelling, sv: nat, sec: Spelling, rest: string)
    requires hv <= 23 && Spells(hv, h) && h != Blank
    requires mv <= 59 && Spells(mv, mi) && mi != Blank
    requires sv <= 59 && Spells(sv, sec) && sec != Blank
    requires EndsField(rest)
    ensures ScanTimeFields(Field(hv, h) + (":" + (Field(mv, mi) + (":" + (Field(sv, sec) + rest))))) ==
      Some(TimeFields(hv, mv, sv, rest))
  {
    var secPart := Field(sv, sec) + rest;
    var minPart := Field(mv, mi) + (":" + secPart);
    ScanHourText(hv, h, ":" + minPart);
    assert Expect(":" + minPart, ':') == Some(minPart);
    ScanMinuteText(mv, mi, ":" + secPart);
    assert Expect(":" + secPart, ':') == Some(secPart);
    ScanSecondText(sv, sec, rest);
  }

  lemma FourDigitsArithmetic(a: nat, b: nat, c: nat, d: nat)
    requires a < 10 && b < 10 && c < 10 && d < 10
    ensures var v := 1000 * a + 100 * b + 10 * c + d;
      v / 1000 % 10 == a && v / 100 % 10 == b && v / 10 % 10 == c && v % 10 == d && v < 10000
  {
    var v := 1000 * a + 100 * b + 10 * c + d;
    assert v / 1000 == a;
    assert v / 100 == 10 * a + b;
    assert v / 10 == 100 * a + 10 * b + c;
  }

  lemma ScanYearShape(s: string)
    requires ScanYear(s).Some?
    ensures ScanYear(s).value.value < 10000
    ensures s == FourDigits(ScanYear(s).value.value) + ScanYear(s).value.rest
  {
    var v := ScanYear(s).value.value;
    FourDigitsArithmetic(DigitValue(s[0]), DigitValue(s[1]), DigitValue(s[2]), DigitValue(s[3]));
    CharOfDigit(s[0]); CharOfDigit(s[1]); CharOfDigit(s[2]); CharOfDigit(s[3]);
    assert FourDigits(v) == s[..4];
    assert s == s[..4] + s[4..];
  }

  lemma ScanMonthShape(s: string) returns (sp: Spelling)
    requires ScanMonth(s).Some?
    ensures var r := ScanMonth(s).value;
      1 <= r.value <= 12 && Spells(r.value, sp) && sp != Blank && s == Field(r.value, sp) + r.rest
  {
    var r := ScanMonth(s).value;
    if |r.rest| + 2 == |s| {
      sp := Padded;
      CharOfDigit(s[1]);
      assert Field(r.value, sp) == s[..2];
      assert s == s[..2] + s[2..];
    } else {
      sp := Bare;
      CharOfDigit(s[0]);
      assert Field(r.value, sp) == s[..1];
      assert s == s[..1] + s[1..];
    }
  }

  lemma ScanDayShape(s: string) returns (sp: Spelling)
    requires ScanDay(s).Some?
    ensures var r := ScanDay(s).value;
      1 <= r.value <= 31 && Spells(r.value, sp) && s == Field(r.value, sp) + r.rest
  {
    var r := ScanDay(s).value;
    if |r.rest| + 1 == |s| {
      sp := Bare;
      CharOfDigit(s[0]);
      assert Field(r.value, sp) == s[..1];
      assert s == s[..1] + s[1..];
    } else if s[0] == ' ' {
      sp := Blank;
      CharOfDigit(s[1]);
      assert Field(r.value, sp) == s[..2];
      assert s == s[..2] + s[2..];
    } else {
      sp := Padded;
      CharOfDigit(s[0]); CharOfDigit(s[1]);
      assert Field(r.value, sp) == s[..2];
      assert s == s[..2] + s[2..];
    }
  }

  lemma ScanHourShape(s: string) returns (sp: Spelling)
    requires ScanHour(s).Some?
    ensures var r := ScanHour(s).value;
      r.value <= 23 && Spells(r.value, sp) && sp != Blank && s == Field(r.value, sp) + r.rest
  {
    var r := ScanHour(s).value;
    if |r.rest| + 2 == |s| {
      sp := Padded;
      CharOfDigit(s[0]); CharOfDigit(s[1]);
      assert Field(r.value, sp) == s[..2];
      assert s == s[..2] + s[2..];
    } else {
      sp := Bare;
      CharOfDigit(s[0]);
      assert Field(r.value, sp) == s[..1];
      assert s == s[..1] + s[1..];
    }
  }

  lemma ScanMinuteShape(s: string) returns (sp: Spelling)
    requires ScanMinute(s).Some?
    ensures var r := ScanMinute(s).value;
      r.value <= 59 && Spells(r.value, sp) && sp != Blank && s == Field(r.value, sp) + r.rest
  {
    var r := ScanMinute(s).value;
    if |r.rest| + 2 == |s| {
      sp := Padded;
      CharOfDigit(s[0]); CharOfDigit(s[1]);
      assert Field(r.value, sp) == s[..2];
      assert s == s[..2] + s[2..];
    } else {
      sp := Bare;
      CharOfDigit(s[0]);
      assert Field(r.value, sp) == s[..1];
      assert s == s[..1] + s[1..];
    }
  }

  lemma ScanSecondShape(s: string) returns (sp: Spelling)
    requires ScanSecond(s).Some?
    ensures var r := ScanSecond(s).value;
      r.value <= 61 && Spells(r.value, sp) && sp != Blank && s == Field(r.value, sp) + r.rest
  {
    var r := ScanSecond(s).value;
    if |r.rest| + 2 == |s| {
      sp := Padded;
      CharOfDigit(s[0]); CharOfDigit(s[1]);
      assert Field(r.value, sp) == s[..2];
      assert s == s[..2] + s[2..];
    } else {
      sp := Bare;
      CharOfDigit(s[0]);
      assert Field(r.value, sp) == s[..1];
      assert s == s[..1] + s[1..];
    }
  }

  lemma ScanGapShape(s: string) returns (gap: string)
    requires ScanGap(s).Some?
    ensures IsGap(gap) && s == gap + ScanGap(s).value
  {
    gap := s[..LeadingSpaces(s)];
    assert s == gap + s[LeadingSpaces(s)..];
  }

  lemma ExpectShape(s: string, c: char)
    requires Expect(s, c).Some?
    ensures s == [c] + Expect(s, c).value
  {
    assert s == s[..1] + s[1..];
  }

  /** The date fields of an accepted text, and the spellings it used for them. */
  lemma ScanDateFieldsShape(s: string) returns (m: Spelling, d: Spelling)
    requires ScanDateFields(s).Some?
    ensures var p := ScanDateFields(s).value;
      Spells(p.month, m) && m != Blank && Spells(p.day, d) && 1 <= p.month <= 12 && 1 <= p.day <= 31 &&
      p.year < 10000 &&
      s == FourDigits(p.year) + ("-" + (Field(p.month, m) + ("-" + (Field(p.day, d) + p.rest))))
  {
    var y := ScanYear(s).value;
    ScanYearShape(s);
    var r1 := Expect(y.rest, '-').value;
    ExpectShape(y.rest, '-');
    var mo := ScanMonth(r1).value;
    m := ScanMonthShape(r1);
    var r2 := Expect(mo.rest, '-').value;
    ExpectShape(mo.rest, '-');
    d := ScanDayShape(r2);
  }

  lemma RenderAssociates(t: Instant, m: Spelling, d: Spelling, gap: string, h: Spelling, mi: Spelling, sec: Spelling)
    ensures Render(t, WithTime(m, d, gap, h, mi, sec)) ==
      DateText(t, m, d) + (gap + (Field(t.hour, h) + (":" + (Field(t.minute, mi) + (":" + Field(t.second, sec))))))
  {
  }

  /** The time fields an accepted text holds, and the spellings it used for them. */
  lemma ScanTimeFieldsShape(s: string) returns (h: Spelling, mi: Spelling, sec: Spelling)
    requires ScanTimeFields(s).Some?
    ensures var c := ScanTimeFields(s).value;
      Spells(c.hour, h) && h != Blank && Spells(c.minute, mi) && mi != Blank && Spells(c.second, sec) && sec != Blank &&
      c.hour <= 23 && c.minute <= 59 &&
      s == Field(c.hour, h) + (":" + (Field(c.minute, mi) + (":" + (Field(c.second, sec) + c.rest))))
  {
    var hr := ScanHour(s).value;
    h := ScanHourShape(s);
    var r1 := Expect(hr.rest, ':').value;
    ExpectShape(hr.rest, ':');
    var mn := ScanMinute(r1).value;
    mi := ScanMinuteShape(r1);
    var r2 := Expect(mn.rest, ':').value;
    ExpectShape(mn.rest, ':');
    sec := ScanSecondShape(r2);
  }

  /** A text the date-only format accepts is a date-only layout of its result. */
  lemma StrptimeDateShape(s: string) returns (f: Layout)
    requires StrptimeDate(s).Some?
    ensures f.DateOnly? && Fits(StrptimeDate(s).value, f) && s == Render(StrptimeDate(s).value, f)
  {
    var t := StrptimeDate(s).value;
    var p := ScanDateFields(s).value;
    var m, d := ScanDateFieldsShape(s);
    assert t == DateTime(p.year, p.month, p.day, 0, 0, 0);
    assert p.rest == [];
    DateTextAssociates(t, m, d, p.rest);
    f := DateOnly(m, d);
    assert s == DateText(t, m, d) + [];
  }

  /** A text the date-and-time format accepts is a layout with a time of its result. */
  lemma StrptimeDateTimeShape(s: string) returns (f: Layout)
    requires StrptimeDateTime(s).Some?
    ensures f.WithTime? && Fits(StrptimeDateTime(s).value, f) && s == Render(StrptimeDateTime(s).value, f)
  {
    var t := StrptimeDateTime(s).value;
    var p := ScanDateFields(s).value;
    var m, d := ScanDateFieldsShape(s);
    var r := ScanGap(p.rest).value;
    var gap := ScanGapShape(p.rest);
    var c := ScanTimeFields(r).value;
    var h, mi, sec := ScanTimeFieldsShape(r);
    assert c.rest == [];
    assert t == DateTime(p.year, p.month, p.day, c.hour, c.minute, c.second);
    DateTextAssociates(t, m, d, p.rest);
    f := WithTime(m, d, gap, h, mi, sec);
    RenderAssociates(t, m, d, gap, h, mi, sec);
    assert Field(c.second, sec) + [] == Field(c.second, sec);
  }

  /** Every text parse_date accepts is some layout of the instant it returns. */
  lemma ParseDateShape(s: string) returns (f: Layout)
    requires ParseDate(s).Some?
    ensures Fits(ParseDate(s).value, f) && s == Render(ParseDate(s).value, f)
  {
    if StrptimeDate(s).Some? {
      f := StrptimeDateShape(s);
    } else {
      f := StrptimeDateTimeShape(s);
    }
  }

  /**
   * parse_date accepts exactly the layouts of valid instants: a date-only
   * text yields that date at midnight, a date-and-time text yields exactly
   * its fields, and every other text is rejected.
   */
  lemma ParseDateAccepts(s: string, t: Instant)
    ensures ParseDate(s) == Some(t) <==> exists f :: Fits(t, f) && s == Render(t, f)
  {
    if ParseDate(s) == Some(t) {
      var f := ParseDateShape(s);
    }
    if f :| Fits(t, f) && s == Render(t, f) {
      RenderParses(t, f);
    }
  }

  /** `YYYY-MM-DD` yields that date at 00:00:00. */
  lemma ParseDateOnlyText(t: Instant)
    ensures ParseDate(FourDigits(t.year) + "-" + TwoDigits(t.month) + "-" + TwoDigits(t.day)) == Some(StartOfDay(t))
  {
    RenderParses(StartOfDay(t), DateOnly(Padded, Padded));
  }

  /** Round trip: parse_date reads back what `strftime('%Y-%m-%d %H:%M:%S')` writes. */
  lemma TimestampRoundTrip(t: Instant)
    ensures ParseDate(Timestamp(t)) == Some(t)
  {
    var f := WithTime(Padded, Padded, " ", Padded, Padded, Padded);
    assert IsGap(" ");
    assert Timestamp(t) == Render(t, f);
    RenderParses(t, f);
  }

  lemma TwoDigitsInjective(v: nat, w: nat)
    requires v < 100 && w < 100 && TwoDigits(v) == TwoDigits(w)
    ensures v == w
  {
    TwoDigitsValue(v);
    TwoDigitsValue(w);
  }

  lemma FourDigitsInjective(v: nat, w: nat)
    requires v < 10000 && w < 10000 && FourDigits(v) == FourDigits(w)
    ensures v == w
  {
    ScanYearText(v, []);
    ScanYearText(w, []);
    assert FourDigits(v) + [] == FourDigits(w) + [];
  }

  /** The filename prefix is sixteen characters and tells instants apart, so prefix plus name determines both. */
  lemma FilePrefixInjective(a: Instant, b: Instant, x: string, y: string)
    ensures |FilePrefix(a)| == 16
    ensures FilePrefix(a) + x == FilePrefix(b) + y <==> a == b && x == y
  {
    var pa, pb := FilePrefix(a), FilePrefix(b);
    if pa + x == pb + y {
      assert pa == (pa + x)[..16] == pb;
      assert x == (pa + x)[16..] == y;
      assert FourDigits(a.year) == pa[..4] && FourDigits(b.year) == pb[..4];
      FourDigitsInjective(a.year, b.year);
      assert TwoDigits(a.month) == pa[4..6] && TwoDigits(b.month) == pb[4..6];
      TwoDigitsInjective(a.month, b.month);
      assert TwoDigits(a.day) == pa[6..8] && TwoDigits(b.day) == pb[6..8];
      TwoDigitsInjective(a.day, b.day);
      assert TwoDigits(a.hour) == pa[9..11] && TwoDigits(b.hour) == pb[9..11];
      TwoDigitsInjective(a.hour, b.hour);
      assert TwoDigits(a.minute) == pa[11..13] && TwoDigits(b.minute) == pb[11..13];
      TwoDigitsInjective(a.minute, b.minute);
      assert TwoDigits(a.second) == pa[13..15] && TwoDigits(b.second) == pb[13..15];
      TwoDigitsInjective(a.second, b.second);
    }
  }
}
