/**
 * The birthday helpers: `toBirthdayDate`, which turns a raw backend value into a
 * Date or `null`, and `doFormattingOfBirthday`, which renders a Date or a
 * date-like string as `dd/mm/yyyy`, as `dd/mm`, or as the placeholder.
 */
module Birthday {
  import opened Wrappers
  import opened Text
  import opened Js

  /** The time of day appended to every raw date before it is parsed. */
  const NoonSuffix := "T12:00:00"

  /** What the formatter shows for a missing date. */
  const Placeholder := "--/--/----"

  /** `toBirthdayDate(raw)`: `null` for a falsy value or text the engine cannot read as a date, else that Date. */
  function ToBirthdayDate(host: Host, raw: Value): (r: Value)
    ensures !Truthy(raw) ==> r == Null
    ensures r == Null || (r.DateObject? && r.time.Some?)
  {
    if !Truthy(raw) then Null
    else
      match NewDate(host, TemplateText(host, raw) + NoonSuffix)
      case None => Null
      case Some(d) => DateObject(Some(d))
  }

  /**
   * `/^(\d{4})-(\d{2})-(\d{2})$/`. No text has both shapes, so the order in
   * which the formatter tests them does not matter.
   */
  predicate MatchesYmd(s: string): (r: bool)
    ensures r ==> !MatchesDmy(s)
  {
    |s| == 10 && DigitsAt(s, 0, 4) && s[4] == '-' && DigitsAt(s, 5, 2) && s[7] == '-' && DigitsAt(s, 8, 2)
  }

  /**
   * `/^(\d{2})\/(\d{2})\/(\d{4})$/`. A text of this shape is rebuilt by
   * joining its three captured groups with `/`.
   */
  predicate MatchesDmy(s: string): (r: bool)
    ensures r ==> |s| == 10 && s == s[0..2] + "/" + s[3..5] + "/" + s[6..10]
  {
    |s| == 10 && DigitsAt(s, 0, 2) && s[2] == '/' && DigitsAt(s, 3, 2) && s[5] == '/' && DigitsAt(s, 6, 4)
  }

  /** The exception the formatter raises: `d.getDate` is not a function. */
  datatype Error = TypeError

  /** `String(x)` for a number that is an integer or NaN (`None`). */
  function NumberText(x: Option<int>): string {
    match x
    case None => "NaN"
    case Some(n) => IntToString(n)
  }

  /** `String(x).padStart(2, '0')`: a day or month as two digits, NaN as `NaN`. */
  function TwoDigits(x: Option<int>): (r: string)
    ensures x.None? ==> r == "NaN"
    ensures x.Some? && 1 <= x.value <= 99 ==> |r| == 2 && AllDigits(r) && DigitsValue(r) == x.value
  {
    if x.Some? && 1 <= x.value <= 99 then
      PaddedTwoDigitsOf(x.value);
      PadStart(NumberText(x), 2, '0')
    else
      PadStart(NumberText(x), 2, '0')
  }

  /** `getDate()`, `getMonth() + 1` and `getFullYear()`: NaN (`None`) on the Invalid Date. */
  function DayOf(t: Option<Date>): Option<int> {
    match t
    case None => None
    case Some(d) => Some(d.day)
  }

  function MonthOf(t: Option<Date>): Option<int> {
    match t
    case None => None
    case Some(d) => Some(d.month)
  }

  function YearOf(t: Option<Date>): Option<int> {
    match t
    case None => None
    case Some(d) => Some(d.year)
  }

  /** The Date branch of the formatter: `dd/mm`, or `dd/mm/` and the unpadded year. */
  function RenderDate(t: Option<Date>, noYear: bool): (r: string)
    ensures t.None? ==> r == if noYear then "NaN/NaN" else "NaN/NaN/NaN"
    ensures t.Some? ==> |r| == if noYear then 5 else 6 + |IntToString(t.value.year)|
  {
    FieldRanges(t);
    var day := TwoDigits(DayOf(t));
    var month := TwoDigits(MonthOf(t));
    var year := NumberText(YearOf(t));
    assert t.Some? ==> |day| == 2 && |month| == 2 && year == IntToString(t.value.year);
    assert t.None? ==> day == "NaN" && month == "NaN" && year == "NaN";
    NaNPieces();
    if noYear then day + "/" + month else day + "/" + month + "/" + year
  }

  /**
   * The `typeof dateInput === 'string'` block of the formatter: `yyyy-mm-dd`
   * has its fields reordered, `dd/mm/yyyy` is rebuilt from its fields, and any
   * other string falls through (`None`).
   */
  function ReformatString(s: string): (r: Option<string>)
    ensures r.Some? <==> MatchesYmd(s) || MatchesDmy(s)
  {
    if MatchesYmd(s) then Some(s[8..10] + "/" + s[5..7] + "/" + s[0..4])
    else if MatchesDmy(s) then Some(s[0..2] + "/" + s[3..5] + "/" + s[6..10])
    else None
  }

  /**
   * `doFormattingOfBirthday(dateInput, noYear)`. A falsy input gives the
   * placeholder, a string goes through `ReformatString`, a Date is rendered,
   * and anything else reaches `d.getDate()` and throws.
   */
  function FormatBirthday(input: Value, noYear: bool): (r: Result<string, Error>)
    ensures !Truthy(input) ==> r == Ok(Placeholder)
    ensures r.Err? <==> Truthy(input) && !input.DateObject? && !(input.Str? && (MatchesYmd(input.s) || MatchesDmy(input.s)))
  {
    if !Truthy(input) then Ok(Placeholder)
    else
      match input
      case Str(s) =>
        (match ReformatString(s)
         case Some(t) => Ok(t)
         case None => Err(TypeError))
      case DateObject(t) => Ok(RenderDate(t, noYear))
      case _ => Err(TypeError)
  }

  // Normalising

  /**
   * A `yyyy-mm-dd` text naming an existing day becomes that day at noon,
   * whatever the engine.
   */
  lemma IsoDateIsNoon(host: Host, s: string)
    requires MatchesYmd(s)
    requires IsCalendarDate(DigitsValue(s[0..4]), DigitsValue(s[5..7]), DigitsValue(s[8..10]))
    ensures ToBirthdayDate(host, Str(s))
         == DateObject(Some(DateFields(DigitsValue(s[0..4]), DigitsValue(s[5..7]), DigitsValue(s[8..10]), 12, 0, 0)))
  {
    var t := s + NoonSuffix;
    assert t[..10] == s;
    assert t[0..4] == s[0..4] && t[5..7] == s[5..7] && t[8..10] == s[8..10];
    assert t[10..] == NoonSuffix;
    assert t[11..13] == "12" && t[14..16] == "00" && t[17..19] == "00";
    assert IsDateTimeString(t);
    assert DigitsValue("12") == 12 && DigitsValue("00") == 0;
    assert WrittenFields(t) == DateFields(DigitsValue(s[0..4]), DigitsValue(s[5..7]), DigitsValue(s[8..10]), 12, 0, 0);
    assert TemplateText(host, Str(s)) + NoonSuffix == t;
  }

  /**
   * A `yyyy-mm-dd` text whose month is outside 01-12 or whose day is outside
   * 01-31 gives `null`, whatever the engine.
   */
  lemma IsoOutOfRangeIsNull(host: Host, s: string)
    requires MatchesYmd(s)
    requires !(1 <= DigitsValue(s[5..7]) <= 12 && 1 <= DigitsValue(s[8..10]) <= 31)
    ensures ToBirthdayDate(host, Str(s)) == Null
  {
    var t := s + NoonSuffix;
    assert t[5..7] == s[5..7] && t[8..10] == s[8..10];
    assert IsDateTimeString(t);
  }

  // Formatting strings

  /**
   * A `yyyy-mm-dd` string is reordered field by field into `dd/mm/yyyy`: no
   * range check, and `noYear` has no effect.
   */
  lemma YmdReordered(s: string, noYear: bool)
    requires MatchesYmd(s)
    ensures var r := FormatBirthday(Str(s), noYear);
      r.Ok? && MatchesDmy(r.value)
      && r.value[0..2] == s[8..10] && r.value[3..5] == s[5..7] && r.value[6..10] == s[0..4]
  {
    var t := s[8..10] + "/" + s[5..7] + "/" + s[0..4];
    assert t[0..2] == s[8..10] && t[3..5] == s[5..7] && t[6..10] == s[0..4];
  }

  /** A string already shaped `dd/mm/yyyy` comes back unchanged, whatever `noYear`. */
  lemma DmyUnchanged(s: string, noYear: bool)
    requires MatchesDmy(s)
    ensures FormatBirthday(Str(s), noYear) == Ok(s)
  {
    assert s[4] != '-' by { assert s[3..5][1] == s[4]; }
    assert s[0..2] + "/" + s[3..5] + "/" + s[6..10] == s;
  }

  /** Every string the two string branches produce is formatted to itself again. */
  lemma StringBranchIdempotent(s: string, noYear: bool, again: bool)
    requires MatchesYmd(s) || MatchesDmy(s)
    ensures var r := FormatBirthday(Str(s), noYear);
      r.Ok? && FormatBirthday(Str(r.value), again) == r
  {
    if MatchesYmd(s) {
      YmdReordered(s, noYear);
      DmyUnchanged(FormatBirthday(Str(s), noYear).value, again);
    } else {
      DmyUnchanged(s, noYear);
      DmyUnchanged(s, again);
    }
  }

  /** A non-empty string of neither shape is not handled: the call throws. */
  lemma UnmatchedStringThrows(s: string, noYear: bool)
    requires s != "" && !MatchesYmd(s) && !MatchesDmy(s)
    ensures FormatBirthday(Str(s), noYear) == Err(TypeError)
  {
  }

  /** The placeholder is not a shape the formatter accepts back. */
  lemma PlaceholderThrows(noYear: bool)
    ensures FormatBirthday(Str(Placeholder), noYear) == Err(TypeError)
  {
    assert Placeholder[0..4][0] == '-' && Placeholder[0..2][0] == '-';
  }

  // Formatting Dates

  /** A Date object, valid or not, always reaches the Date branch. */
  lemma DateBranch(t: Option<Date>, noYear: bool)
    ensures FormatBirthday(DateObject(t), noYear) == Ok(RenderDate(t, noYear))
  {
    assert Truthy(DateObject(t));
  }

  /** Where the pieces of `a/b` and `a/b/c` sit when `a` and `b` have two characters each. */
  lemma SlashPieces(a: string, b: string, c: string)
    requires |a| == 2 && |b| == 2
    ensures var o := a + "/" + b; |o| == 5 && o[0..2] == a && o[2] == '/' && o[3..5] == b
    ensures var o := a + "/" + b + "/" + c; |o| == 6 + |c| && o[0..2] == a && o[2] == '/' && o[3..5] == b && o[5] == '/' && o[6..] == c
  {
  }

  /** How the Invalid Date's three NaN fields join. */
  lemma NaNPieces()
    ensures "NaN" + "/" + "NaN" == "NaN/NaN"
    ensures "NaN" + "/" + "NaN" + "/" + "NaN" == "NaN/NaN/NaN"
  {
  }

  /** A valid Date's day and month are each one or two digits long. */
  lemma FieldRanges(t: Option<Date>)
    ensures t.Some? ==> 1 <= t.value.day <= 31 && 1 <= t.value.month <= 12
  {
    if t.Some? {
      assert DaysInMonth(t.value.year, t.value.month) <= 31;
    }
  }

  /** `RenderDate` of a valid Date without the year: its day, `/`, its month. */
  lemma RenderedDayMonth(d: Date)
    ensures var o := RenderDate(Some(d), true);
      |o| == 5 && o[0..2] == TwoDigits(Some(d.day)) && o[2] == '/' && o[3..5] == TwoDigits(Some(d.month))
  {
    FieldRanges(Some(d));
    SlashPieces(TwoDigits(Some(d.day)), TwoDigits(Some(d.month)), "");
  }

  /** `RenderDate` of a valid Date with the year: its day, `/`, its month, `/`, its year. */
  lemma RenderedFull(d: Date)
    ensures var o := RenderDate(Some(d), false);
      |o| > 6 && o[0..2] == TwoDigits(Some(d.day)) && o[2] == '/' && o[3..5] == TwoDigits(Some(d.month))
      && o[5] == '/' && o[6..] == IntToString(d.year)
  {
    FieldRanges(Some(d));
    SlashPieces(TwoDigits(Some(d.day)), TwoDigits(Some(d.month)), IntToString(d.year));
  }

  /**
   * Without the year a valid Date renders as five characters: a two-digit
   * day and a two-digit month that read back as its day and month.
   */
  lemma DayMonthRendering(d: Date)
    ensures var r := FormatBirthday(DateObject(Some(d)), true);
      r.Ok? && |r.value| == 5
      && AllDigits(r.value[0..2]) && DigitsValue(r.value[0..2]) == d.day && r.value[2] == '/'
      && AllDigits(r.value[3..5]) && DigitsValue(r.value[3..5]) == d.month
  {
    DateBranch(Some(d), true);
    FieldRanges(Some(d));
    RenderedDayMonth(d);
  }

  /**
   * With the year a valid Date renders as a two-digit day, `/`, a two-digit
   * month, `/`, and a text that reads back as its year.
   */
  lemma FullDateRendering(d: Date)
    ensures var r := FormatBirthday(DateObject(Some(d)), false);
      r.Ok? && |r.value| > 6
      && AllDigits(r.value[0..2]) && DigitsValue(r.value[0..2]) == d.day && r.value[2] == '/'
      && AllDigits(r.value[3..5]) && DigitsValue(r.value[3..5]) == d.month && r.value[5] == '/'
      && r.value[6..] == IntToString(d.year) && ParseInteger(r.value[6..]) == d.year
  {
    DateBranch(Some(d), false);
    FieldRanges(Some(d));
    RenderedFull(d);
    IntToStringRoundTrip(d.year);
  }

  /** A full `dd/mm/yyyy` rendering of a Date with a four-digit year is formatted to itself again. */
  lemma DateRenderingStable(d: Date, again: bool)
    requires 1000 <= d.year <= 9999
    ensures var r := FormatBirthday(DateObject(Some(d)), false);
      r.Ok? && FormatBirthday(Str(r.value), again) == r
  {
    DateBranch(Some(d), false);
    FullRenderingShape(d);
    DmyUnchanged(RenderDate(Some(d), false), again);
  }

  /** With a four-digit year the full rendering has the `dd/mm/yyyy` shape. */
  lemma FullRenderingShape(d: Date)
    requires 1000 <= d.year <= 9999
    ensures MatchesDmy(RenderDate(Some(d), false))
  {
    FieldRanges(Some(d));
    DigitsLength(d.year, 4);
    var day, month, year := TwoDigits(Some(d.day)), TwoDigits(Some(d.month)), NumberText(Some(d.year));
    assert |day| == 2 && AllDigits(day) && |month| == 2 && AllDigits(month);
    assert |year| == 4 && AllDigits(year);
    assert RenderDate(Some(d), false) == day + "/" + month + "/" + year;
    DmyShapeOf(day, month, year);
  }

  /** Two digits, `/`, two digits, `/`, four digits is the `dd/mm/yyyy` shape. */
  lemma DmyShapeOf(a: string, b: string, c: string)
    requires |a| == 2 && |b| == 2 && |c| == 4 && AllDigits(a) && AllDigits(b) && AllDigits(c)
    ensures MatchesDmy(a + "/" + b + "/" + c)
  {
    var o := a + "/" + b + "/" + c;
    assert o[0..2] == a && o[3..5] == b && o[6..10] == c;
  }

  /** The `dd/mm` rendering is not a shape the formatter accepts back. */
  lemma DayMonthRenderingThrows(d: Date, again: bool)
    ensures var r := FormatBirthday(DateObject(Some(d)), true);
      r.Ok? && FormatBirthday(Str(r.value), again) == Err(TypeError)
  {
    DateBranch(Some(d), true);
    RenderedDayMonth(d);
    WrongLengthThrows(RenderDate(Some(d), true), again);
  }

  /** A non-empty string that is not ten characters long matches neither shape, so the formatter throws. */
  lemma WrongLengthThrows(t: string, noYear: bool)
    requires t != "" && |t| != 10
    ensures FormatBirthday(Str(t), noYear) == Err(TypeError)
  {
  }

  /** The Invalid Date renders its fields as NaN. */
  lemma InvalidDateRendering(noYear: bool)
    ensures FormatBirthday(DateObject(None), noYear) == Ok(if noYear then "NaN/NaN" else "NaN/NaN/NaN")
  {
    assert TwoDigits(None) == "NaN";
    assert RenderDate(None, noYear) == if noYear then "NaN/NaN" else "NaN/NaN/NaN";
  }

  // Normalising, then formatting

  /** Whatever the raw value, formatting what `toBirthdayDate` returns never throws. */
  lemma NormalizedNeverThrows(host: Host, raw: Value, noYear: bool)
    ensures var r := FormatBirthday(ToBirthdayDate(host, raw), noYear);
      r.Ok? && (ToBirthdayDate(host, raw) == Null <==> r.value == Placeholder)
  {
    var v := ToBirthdayDate(host, raw);
    if v != Null {
      if noYear {
        DayMonthRendering(v.time.value);
      } else {
        FullDateRendering(v.time.value);
      }
    }
  }

  /** A day or month field with no range check renders back to the same two digits through a Date. */
  lemma TwoDigitsOfField(x: string)
    requires |x| == 2 && AllDigits(x) && DigitsValue(x) >= 1
    ensures TwoDigits(Some(DigitsValue(x))) == x
  {
    PaddedTwoDigits(x);
  }

  /**
   * A `yyyy-mm-dd` birthday with a four-digit year renders the same through
   * `toBirthdayDate` as straight from the string; with `noYear` only the
   * Date route drops the year.
   */
  lemma IsoRoutesAgree(host: Host, s: string)
    requires MatchesYmd(s)
    requires IsCalendarDate(DigitsValue(s[0..4]), DigitsValue(s[5..7]), DigitsValue(s[8..10]))
    requires DigitsValue(s[0..4]) >= 1000
    ensures FormatBirthday(ToBirthdayDate(host, Str(s)), false) == FormatBirthday(Str(s), false)
    ensures FormatBirthday(ToBirthdayDate(host, Str(s)), true) == Ok(s[8..10] + "/" + s[5..7])
    ensures FormatBirthday(Str(s), true) == Ok(s[8..10] + "/" + s[5..7] + "/" + s[0..4])
  {
    IsoDateIsNoon(host, s);
    var d: Date := DateFields(DigitsValue(s[0..4]), DigitsValue(s[5..7]), DigitsValue(s[8..10]), 12, 0, 0);
    DateBranch(Some(d), false);
    DateBranch(Some(d), true);
    RenderedFields(s, d);
    assert ReformatString(s) == Some(s[8..10] + "/" + s[5..7] + "/" + s[0..4]);
  }

  /** A Date read from a `yyyy-mm-dd` text with a four-digit year renders with that text's own digits. */
  lemma RenderedFields(s: string, d: Date)
    requires MatchesYmd(s) && DigitsValue(s[0..4]) >= 1000
    requires d.year == DigitsValue(s[0..4]) && d.month == DigitsValue(s[5..7]) && d.day == DigitsValue(s[8..10])
    ensures RenderDate(Some(d), true) == s[8..10] + "/" + s[5..7]
    ensures RenderDate(Some(d), false) == s[8..10] + "/" + s[5..7] + "/" + s[0..4]
  {
    TwoDigitsOfField(s[8..10]);
    TwoDigitsOfField(s[5..7]);
    CanonicalDigits(s[0..4]);
    assert NumberText(Some(d.year)) == s[0..4];
  }

  /**
   * With a year below 1000 the two routes differ: the Date route writes the
   * year without its leading zeros, so its text is shorter.
   */
  lemma IsoRoutesDisagreeBelowYear1000(host: Host, s: string)
    requires MatchesYmd(s)
    requires IsCalendarDate(DigitsValue(s[0..4]), DigitsValue(s[5..7]), DigitsValue(s[8..10]))
    requires DigitsValue(s[0..4]) < 1000
    ensures var viaDate := FormatBirthday(ToBirthdayDate(host, Str(s)), false);
      viaDate.Ok? && |viaDate.value| < 10 && viaDate != FormatBirthday(Str(s), false)
  {
    IsoDateIsNoon(host, s);
    var d: Date := DateFields(DigitsValue(s[0..4]), DigitsValue(s[5..7]), DigitsValue(s[8..10]), 12, 0, 0);
    DateBranch(Some(d), false);
    RenderedFull(d);
    ShortYear(d.year);
    YmdReordered(s, false);
  }

  /** A year below 1000 is written with at most three digits. */
  lemma ShortYear(y: nat)
    requires y < 1000
    ensures |IntToString(y)| <= 3
  {
    if y < 10 {
      DigitsLength(y, 1);
    } else if y < 100 {
      DigitsLength(y, 2);
    } else {
      DigitsLength(y, 3);
    }
  }

  // Examples of the formatter's behaviour

  lemma YmdExample()
    ensures FormatBirthday(Str("2024-03-05"), false) == Ok("05/03/2024")
  {
    var s := "2024-03-05";
    assert s[0..4] == "2024" && s[5..7] == "03" && s[8..10] == "05";
    assert AllDigits("2024") && AllDigits("03") && AllDigits("05");
    assert MatchesYmd(s);
    assert s[8..10] + "/" + s[5..7] + "/" + s[0..4] == "05/03/2024";
  }

  lemma OutOfRangeExample()
    ensures FormatBirthday(Str("2024-13-99"), true) == Ok("99/13/2024")
  {
    var s := "2024-13-99";
    assert s[0..4] == "2024" && s[5..7] == "13" && s[8..10] == "99";
    assert AllDigits("2024") && AllDigits("13") && AllDigits("99");
    assert MatchesYmd(s);
    assert s[8..10] + "/" + s[5..7] + "/" + s[0..4] == "99/13/2024";
  }

  lemma DmyExample()
    ensures FormatBirthday(Str("05/03/2024"), true) == Ok("05/03/2024")
    ensures FormatBirthday(Str(""), true) == Ok(Placeholder)
  {
    var t := "05/03/2024";
    assert t[0..2] == "05" && t[3..5] == "03" && t[6..10] == "2024";
    assert AllDigits("05") && AllDigits("03") && AllDigits("2024");
    DmyUnchanged(t, true);
  }

  /** 5 March 2024 at noon. */
  function ExampleDate(): (d: Date)
    ensures d == DateFields(2024, 3, 5, 12, 0, 0)
  {
    assert DaysInMonth(2024, 3) == 31;
    DateFields(2024, 3, 5, 12, 0, 0)
  }

  /** A single digit is padded with one `0`. */
  lemma PaddedSingleDigit(n: nat)
    requires n < 10
    ensures TwoDigits(Some(n)) == ['0', DigitChar(n)]
  {
    assert NatToDigits(n) == [DigitChar(n)];
    assert Repeat('0', 1) == "0";
  }

  lemma DateExample()
    ensures FormatBirthday(DateObject(Some(DateFields(2024, 3, 5, 12, 0, 0))), true) == Ok("05/03")
  {
    var d: Date := ExampleDate();
    var day, month := TwoDigits(Some(5)), TwoDigits(Some(3));
    PaddedSingleDigit(5);
    PaddedSingleDigit(3);
    assert DigitChar(5) == '5' && DigitChar(3) == '3';
    assert day + "/" + month == "05/03";
    assert RenderDate(Some(d), true) == day + "/" + month;
    DateBranch(Some(d), true);
  }
}
