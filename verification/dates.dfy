/** Filing dates: the `DD/MM/YYYY` format (`format='%d/%m/%Y'`) parsed with
    `errors='coerce'`, so a string that is not a calendar date, or lies outside
    the range of a nanosecond pandas Timestamp, becomes null (NaT). */
module Dates {
  import opened Common

  datatype Date = Date(year: int, month: int, day: int)

  /** Gregorian leap-year rule. */
  predicate IsLeapYear(y: int)
  {
    y % 4 == 0 && (y % 100 != 0 || y % 400 == 0)
  }

  function DaysInMonth(y: int, m: int): (n: int)
    requires 1 <= m <= 12
    ensures 28 <= n <= 31
    ensures n == 29 <==> m == 2 && IsLeapYear(y)
  {
    if m == 2 then (if IsLeapYear(y) then 29 else 28)
    else if m == 4 || m == 6 || m == 9 || m == 11 then 30
    else 31
  }

  predicate IsCalendarDate(d: Date)
  {
    1 <= d.month <= 12 && 1 <= d.day <= DaysInMonth(d.year, d.month)
  }

  /** Whole days a `datetime64[ns]` can hold: 1677-09-22 to 2262-04-11
      (the bounds themselves fall at 00:12:43 and 23:47:16). */
  predicate InTimestampRange(d: Date)
  {
    (d.year > 1677 || (d.year == 1677 && (d.month > 9 || (d.month == 9 && d.day >= 22)))) &&
    (d.year < 2262 || (d.year == 2262 && (d.month < 4 || (d.month == 4 && d.day <= 11))))
  }

  predicate ValidDate(d: Date)
  {
    IsCalendarDate(d) && InTimestampRange(d)
  }

  /** `DD/MM/YYYY` with leading zeros. */
  function FormatDate(d: Date): (s: string)
    requires 0 <= d.year < 10000 && 1 <= d.month <= 12 && 1 <= d.day <= 31
    ensures |s| == 10
  {
    PadDigits(d.day, 2) + "/" + PadDigits(d.month, 2) + "/" + PadDigits(d.year, 4)
  }

  /** `DD/MM/YYYY`: two digits, a slash, two digits, a slash, four digits. */
  predicate WellShaped(s: string)
  {
    |s| == 10 && s[2] == '/' && s[5] == '/' &&
    AllDigits(s[..2]) && AllDigits(s[3..5]) && AllDigits(s[6..])
  }

  /** The day, month and year a well-shaped string spells, valid or not. */
  function Fields(s: string): Date
    requires WellShaped(s)
  {
    Date(DigitsValue(s[6..]), DigitsValue(s[3..5]), DigitsValue(s[..2]))
  }

  /** A well-shaped string is the rendering of the fields it spells. */
  lemma FieldsRendering(s: string)
    requires WellShaped(s) && ValidDate(Fields(s))
    ensures FormatDate(Fields(s)) == s
  {
    PadDigitsOfValue(s[..2]);
    PadDigitsOfValue(s[3..5]);
    PadDigitsOfValue(s[6..]);
    assert s == s[..2] + "/" + s[3..5] + "/" + s[6..];
  }

  /** `pd.to_datetime(s, format='%d/%m/%Y', errors='coerce')` on one string:
      the date it denotes, or None (NaT). */
  function ParseDate(s: string): (r: Option<Date>)
    ensures r.Some? ==> ValidDate(r.value) && FormatDate(r.value) == s
  {
    if WellShaped(s) && ValidDate(Fields(s)) then
      FieldsRendering(s);
      Some(Fields(s))
    else None
  }

  /** The rendering of any in-range day, month and year is well shaped and
      spells those fields back. */
  lemma RenderingFields(d: Date)
    requires 0 <= d.year < 10000 && 1 <= d.month <= 12 && 1 <= d.day <= 31
    ensures WellShaped(FormatDate(d)) && Fields(FormatDate(d)) == d
  {
    var s := FormatDate(d);
    assert s[..2] == PadDigits(d.day, 2);
    assert s[3..5] == PadDigits(d.month, 2);
    assert s[6..] == PadDigits(d.year, 4);
  }

  /** Every date pandas can hold is read back from its own rendering; together
      with the ensures of ParseDate, the parser accepts exactly the renderings
      of valid dates. */
  lemma ParseFormatRoundTrip(d: Date)
    requires ValidDate(d)
    ensures ParseDate(FormatDate(d)) == Some(d)
  {
    RenderingFields(d);
  }

  /** A well-shaped rendering of fields that name no holdable day parses to
      null. */
  lemma RenderingOfNonDate(d: Date)
    requires 0 <= d.year < 10000 && 1 <= d.month <= 12 && 1 <= d.day <= 31
    requires !ValidDate(d)
    ensures ParseDate(FormatDate(d)) == None
  {
    RenderingFields(d);
  }

  /** The 31st of February, well formed but not a calendar day, is null. */
  lemma ThirtyFirstOfFebruaryIsNull()
    ensures ParseDate(FormatDate(Date(2024, 2, 31))) == None
  {
    RenderingOfNonDate(Date(2024, 2, 31));
  }

  /** The leap day exists in 2024 ... */
  lemma LeapDay2024()
    ensures ParseDate(FormatDate(Date(2024, 2, 29))) == Some(Date(2024, 2, 29))
  {
    ParseFormatRoundTrip(Date(2024, 2, 29));
  }

  /** ... but not in 1900, a century year not divisible by 400; and years
      outside the range of a nanosecond Timestamp are null too. */
  lemma NoLeapDay1900()
    ensures ParseDate(FormatDate(Date(1900, 2, 29))) == None
    ensures ParseDate(FormatDate(Date(1600, 1, 1))) == None
    ensures ParseDate(FormatDate(Date(2262, 4, 12))) == None
  {
    RenderingOfNonDate(Date(1900, 2, 29));
    RenderingOfNonDate(Date(1600, 1, 1));
    RenderingOfNonDate(Date(2262, 4, 12));
  }
}
