/**
 * The slice of JavaScript the birthday helpers and the navigation guard rely on:
 * values and their truthiness, the conversion a template literal applies, and
 * `new Date(text)`. What the language standard leaves to the engine or to the
 * machine's time zone is a `Host` parameter.
 */
module Js {
  import opened Wrappers
  import opened Text

  /**
   * The local-time reading of a Date: `getFullYear()`, `getMonth() + 1`,
   * `getDate()`, `getHours()`, `getMinutes()`, `getSeconds()`.
   */
  datatype DateFields = DateFields(year: int, month: int, day: int, hour: int, minute: int, second: int)

  predicate IsLeapYear(y: int) {
    y % 4 == 0 && (y % 100 != 0 || y % 400 == 0)
  }

  function DaysInMonth(y: int, m: int): int {
    if m == 2 then (if IsLeapYear(y) then 29 else 28)
    else if m == 4 || m == 6 || m == 9 || m == 11 then 30
    else 31
  }

  predicate IsCalendarDate(y: int, m: int, d: int) {
    1 <= m <= 12 && 1 <= d <= DaysInMonth(y, m)
  }

  predicate IsWallClock(h: int, mi: int, s: int) {
    0 <= h <= 23 && 0 <= mi <= 59 && 0 <= s <= 59
  }

  /** A valid Date: its getters always read an existing day and time of day. */
  type Date = f: DateFields | IsTimeOfDate(f)
    witness DateFields(1970, 1, 1, 0, 0, 0)

  /**
   * A JavaScript value. Numbers are integral (`Num`) or NaN; a Date object
   * holds its reading, or `None` when it is the Invalid Date.
   */
  datatype Value =
    | Undefined
    | Null
    | Bool(b: bool)
    | Num(n: int)
    | NaN
    | Str(s: string)
    | PlainObject
    | DateObject(time: Option<Date>)

  /** `!!v`: false exactly for undefined, null, false, 0, NaN and the empty string. */
  predicate Truthy(v: Value) {
    match v
    case Undefined => false
    case Null => false
    case Bool(b) => b
    case Num(n) => n != 0
    case NaN => false
    case Str(s) => s != ""
    case PlainObject => true
    case DateObject(_) => true
  }

  /**
   * What the engine and the machine's time zone decide: how `new Date(text)`
   * reads any text outside the form `YYYY-MM-DDTHH:mm:ss` with existing fields
   * (`None` is the Invalid Date), and `Date.prototype.toString` of a valid Date.
   */
  datatype Host = Host(parse: string -> Option<Date>, dateString: Date -> string)

  /** `${v}`: the text a template literal puts in place of `v`. */
  function TemplateText(host: Host, v: Value): (r: string)
    ensures v.Str? ==> r == v.s
    ensures v.Num? ==> ParseInteger(r) == v.n
  {
    match v
    case Undefined => "undefined"
    case Null => "null"
    case Bool(b) => if b then "true" else "false"
    case Num(n) => IntToStringRoundTrip(n); IntToString(n)
    case NaN => "NaN"
    case Str(s) => s
    case PlainObject => "[object Object]"
    case DateObject(None) => "Invalid Date"
    case DateObject(Some(d)) => host.dateString(d)
  }

  /** The local date-time form `YYYY-MM-DDTHH:mm:ss` of the ECMAScript Date Time String Format. */
  predicate IsDateTimeString(t: string) {
    |t| == 19
    && DigitsAt(t, 0, 4) && t[4] == '-' && DigitsAt(t, 5, 2) && t[7] == '-' && DigitsAt(t, 8, 2)
    && t[10] == 'T' && DigitsAt(t, 11, 2) && t[13] == ':' && DigitsAt(t, 14, 2) && t[16] == ':' && DigitsAt(t, 17, 2)
  }

  /** The six numbers written in a text of the form `YYYY-MM-DDTHH:mm:ss`, unchecked. */
  function WrittenFields(t: string): (f: DateFields)
    requires IsDateTimeString(t)
    ensures f.year >= 0 && f.month >= 0 && f.day >= 0 && f.hour >= 0 && f.minute >= 0 && f.second >= 0
  {
    DateFields(DigitsValue(t[0..4]), DigitsValue(t[5..7]), DigitsValue(t[8..10]),
               DigitsValue(t[11..13]), DigitsValue(t[14..16]), DigitsValue(t[17..19]))
  }

  /**
   * The element ranges the format allows: month 01-12, day 01-31, hour 00-24
   * (24 only as 24:00:00), minute and second 00-59.
   */
  predicate LegalElements(f: DateFields) {
    1 <= f.month <= 12 && 1 <= f.day <= 31 && 0 <= f.minute <= 59 && 0 <= f.second <= 59
    && (0 <= f.hour <= 23 || (f.hour == 24 && f.minute == 0 && f.second == 0))
  }

  /** The fields name an existing day and an existing time of day. */
  predicate IsTimeOfDate(f: DateFields) {
    IsCalendarDate(f.year, f.month, f.day) && IsWallClock(f.hour, f.minute, f.second)
  }

  /**
   * `new Date(text)`, `None` standing for the Invalid Date. A date-time in the
   * standard form is read as local time when its day and time exist, and is the
   * Invalid Date when an element is out of range; a day the month lacks
   * (2023-02-30) and 24:00:00 are left to the host, as is every other text.
   */
  function NewDate(host: Host, text: string): (r: Option<Date>)
    ensures IsDateTimeString(text) && !LegalElements(WrittenFields(text)) ==> r == None
    ensures IsDateTimeString(text) && IsTimeOfDate(WrittenFields(text)) ==> r == Some(WrittenFields(text))
  {
    if !IsDateTimeString(text) then host.parse(text)
    else
      var f := WrittenFields(text);
      if !LegalElements(f) then None
      else if f.hour <= 23 && f.day <= DaysInMonth(f.year, f.month) then Some(f)
      else host.parse(text)
  }

  /** The falsy values are exactly the six the language lists. */
  lemma FalsyValues(v: Value)
    ensures !Truthy(v) <==> v in {Undefined, Null, Bool(false), Num(0), NaN, Str("")}
  {
  }
}
