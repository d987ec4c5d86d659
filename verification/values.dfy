/** The dynamically typed field values a phase record holds, with the two
    Python behaviours the generators depend on: truthiness (`if value:`) and
    conversion to text (`str(value)`, `value.strftime('%d/%m/%Y')`). */
module Values {
  import Text
  import Seqs

  datatype CalendarDate = CalendarDate(year: nat, month: nat, day: nat)

  datatype ClockTime = ClockTime(hour: nat, minute: nat, second: nat, microsecond: nat)

  /** Years 1 to 9999, months 1 to 12, days 1 to 31: every date Python's
      `date` accepts, and some it rejects (such as 31 February). */
  predicate ValidDate(d: CalendarDate) {
    1 <= d.year <= 9999 && 1 <= d.month <= 12 && 1 <= d.day <= 31
  }

  /** The times of day Python's `datetime` accepts. */
  predicate ValidTime(t: ClockTime) {
    t.hour < 24 && t.minute < 60 && t.second < 60 && t.microsecond < 1000000
  }

  /** A record field: a string, an integer, a boolean, a `date`, a
      `datetime`, or `None`. */
  datatype Value =
    | Str(s: string)
    | Int(i: int)
    | Bool(b: bool)
    | Date(date: CalendarDate)
    | DateTime(date: CalendarDate, time: ClockTime)
    | Null

  /** A phase record: a dictionary from field name to value. */
  type Record = map<string, Value>

  /** Python truthiness: empty strings, zero, `False` and `None` are false;
      every date and datetime is true. */
  predicate Truthy(v: Value) {
    match v
    case Str(s) => |s| > 0
    case Int(i) => i != 0
    case Bool(b) => b
    case Date(_) => true
    case DateTime(_, _) => true
    case Null => false
  }

  /** The values that answer `hasattr(value, 'strftime')`. */
  predicate HasStrftime(v: Value) {
    v.Date? || v.DateTime?
  }

  /** `item.get(key, default)`: the stored value when the key is present
      (even a falsy one), otherwise the default. */
  function Get(item: Record, key: string, default: Value): (v: Value)
    ensures key in item ==> v == item[key]
    ensures key !in item ==> v == default
  {
    if key in item then item[key] else default
  }

  /** `str(d)` for a `date`: `YYYY-MM-DD`. */
  function IsoDate(d: CalendarDate): (r: string)
    ensures |r| >= 10
  {
    Text.ZeroPad(d.year, 4) + "-" + Text.ZeroPad(d.month, 2) + "-" + Text.ZeroPad(d.day, 2)
  }

  /** For a valid date, `str(d)` is ten characters: four year digits, two
      month digits and two day digits, separated by dashes, that read back
      as the date. */
  lemma IsoDateReadsBack(d: CalendarDate)
    requires ValidDate(d)
    ensures |IsoDate(d)| == 10 && IsoDate(d)[4] == '-' && IsoDate(d)[7] == '-'
    ensures Text.AllDigits(IsoDate(d)[..4]) && Text.DigitsValue(IsoDate(d)[..4]) == d.year
    ensures Text.AllDigits(IsoDate(d)[5..7]) && Text.DigitsValue(IsoDate(d)[5..7]) == d.month
    ensures Text.AllDigits(IsoDate(d)[8..]) && Text.DigitsValue(IsoDate(d)[8..]) == d.day
  {
    Text.ZeroPadField(d.year, 4);
    Text.ZeroPadField(d.month, 2);
    Text.ZeroPadField(d.day, 2);
    Seqs.ThreeFields(Text.ZeroPad(d.year, 4), '-', Text.ZeroPad(d.month, 2), '-', Text.ZeroPad(d.day, 2));
  }

  /** `d.strftime('%d/%m/%Y')`: day, month and year separated by slashes. */
  function DayMonthYear(d: CalendarDate): (r: string)
    ensures |r| >= 10
  {
    Text.ZeroPad(d.day, 2) + "/" + Text.ZeroPad(d.month, 2) + "/" + Text.ZeroPad(d.year, 4)
  }

  /** For a valid date, `strftime('%d/%m/%Y')` is `DD/MM/YYYY`: ten
      characters whose three digit fields read back as the day, the month and
      the year. */
  lemma DayMonthYearReadsBack(d: CalendarDate)
    requires ValidDate(d)
    ensures |DayMonthYear(d)| == 10 && DayMonthYear(d)[2] == '/' && DayMonthYear(d)[5] == '/'
    ensures Text.AllDigits(DayMonthYear(d)[..2]) && Text.DigitsValue(DayMonthYear(d)[..2]) == d.day
    ensures Text.AllDigits(DayMonthYear(d)[3..5]) && Text.DigitsValue(DayMonthYear(d)[3..5]) == d.month
    ensures Text.AllDigits(DayMonthYear(d)[6..]) && Text.DigitsValue(DayMonthYear(d)[6..]) == d.year
  {
    Text.ZeroPadField(d.year, 4);
    Text.ZeroPadField(d.month, 2);
    Text.ZeroPadField(d.day, 2);
    Seqs.ThreeFields(Text.ZeroPad(d.day, 2), '/', Text.ZeroPad(d.month, 2), '/', Text.ZeroPad(d.year, 4));
  }

  /** `HH:MM:SS`, the part of a time of day `str` always prints. */
  function HourMinuteSecond(t: ClockTime): (r: string)
    ensures |r| >= 8
  {
    Text.ZeroPad(t.hour, 2) + ":" + Text.ZeroPad(t.minute, 2) + ":" + Text.ZeroPad(t.second, 2)
  }

  /** For a valid time, `HH:MM:SS` is eight characters whose three fields
      read back as the hour, the minute and the second. */
  lemma HourMinuteSecondReadsBack(t: ClockTime)
    requires ValidTime(t)
    ensures |HourMinuteSecond(t)| == 8
    ensures HourMinuteSecond(t)[2] == ':' && HourMinuteSecond(t)[5] == ':'
    ensures Text.AllDigits(HourMinuteSecond(t)[..2]) && Text.DigitsValue(HourMinuteSecond(t)[..2]) == t.hour
    ensures Text.AllDigits(HourMinuteSecond(t)[3..5]) && Text.DigitsValue(HourMinuteSecond(t)[3..5]) == t.minute
    ensures Text.AllDigits(HourMinuteSecond(t)[6..]) && Text.DigitsValue(HourMinuteSecond(t)[6..]) == t.second
  {
    Text.ZeroPadField(t.hour, 2);
    Text.ZeroPadField(t.minute, 2);
    Text.ZeroPadField(t.second, 2);
    Seqs.ThreeFields(Text.ZeroPad(t.hour, 2), ':', Text.ZeroPad(t.minute, 2), ':', Text.ZeroPad(t.second, 2));
  }

  /** `str(t)` for the time part of a `datetime`: `HH:MM:SS`, then
      `.ffffff` when the microsecond is not zero. */
  function ClockText(t: ClockTime): (r: string)
    ensures |r| >= 8
  {
    if t.microsecond != 0 then HourMinuteSecond(t) + "." + Text.ZeroPad(t.microsecond, 6)
    else HourMinuteSecond(t)
  }

  /** The time text is `HH:MM:SS`, then, when the microsecond is not zero,
      a dot and the six-digit microsecond field. */
  lemma ClockTextShape(t: ClockTime)
    requires ValidTime(t)
    ensures |ClockText(t)| == if t.microsecond == 0 then 8 else 15
    ensures ClockText(t)[..8] == HourMinuteSecond(t)
    ensures t.microsecond != 0 ==> ClockText(t)[8] == '.' && ClockText(t)[9..] == Text.ZeroPad(t.microsecond, 6)
  {
    var hms := HourMinuteSecond(t);
    assert |hms| == 8 by {
      Text.NatToStringFits(t.hour, 2);
      Text.NatToStringFits(t.minute, 2);
      Text.NatToStringFits(t.second, 2);
    }
    if t.microsecond != 0 {
      var us := Text.ZeroPad(t.microsecond, 6);
      assert |us| == 6 by {
        Text.NatToStringFits(t.microsecond, 6);
      }
      Seqs.TwoFields(hms, '.', us);
    }
  }

  /** For a valid time the text is `HH:MM:SS` alone when the microsecond is
      zero, and otherwise `HH:MM:SS` followed by a dot and six digits that
      read back as the microsecond. */
  lemma ClockTextReadsBack(t: ClockTime)
    requires ValidTime(t)
    ensures |ClockText(t)| == if t.microsecond == 0 then 8 else 15
    ensures ClockText(t)[..8] == HourMinuteSecond(t)
    ensures t.microsecond != 0 ==>
      ClockText(t)[8] == '.'
      && Text.AllDigits(ClockText(t)[9..]) && Text.DigitsValue(ClockText(t)[9..]) == t.microsecond
  {
    ClockTextShape(t);
    if t.microsecond != 0 {
      Text.ZeroPadReadsBack(t.microsecond, 6);
    }
  }

  /** `str(value)`: strings unchanged, integers in decimal, booleans as
      `True`/`False`, dates as `YYYY-MM-DD`, datetimes as the date, a space
      and the time of day, and `None` as `None`. */
  function Show(v: Value): (r: string)
    ensures v.Str? ==> r == v.s
    ensures v.Int? ==> r == Text.IntToString(v.i)
    ensures v.Bool? ==> r == if v.b then "True" else "False"
    ensures v.Date? ==> r == IsoDate(v.date)
    ensures v.DateTime? ==> r == IsoDate(v.date) + " " + ClockText(v.time)
    ensures v.Null? ==> r == "None"
    ensures Truthy(v) ==> |r| > 0
  {
    match v
    case Str(s) => s
    case Int(i) => Text.IntToString(i)
    case Bool(b) => if b then "True" else "False"
    case Date(d) => IsoDate(d)
    case DateTime(d, t) => IsoDate(d) + " " + ClockText(t)
    case Null => "None"
  }
}
