/** The date step of the message formatter: the tracker's `created_at` timestamp, an RFC 3339
    (section 5.6) UTC date-time such as `2024-07-07T20:09:31Z`, read into its fields and written
    back the way a naive date-time displays, `2024-07-07 20:09:31`.

    Two readings live here. `ParseSlashFormat` is the step as written, a parse against the
    format `%Y/%m/%d` into a date-time, which never yields a value. `ParseCreatedAt` is the
    evidently intended one, a fixed-width parse of the timestamp layout, which the rest of the
    model uses. */
module CreatedAt {
  import opened Results
  import opened Strings

  /** A two-digit field: month, day, hour, minute or second. */
  type TwoDigits = n: nat | n < 100

  /** The fields of a date-time. Calendar validity (month 1 to 12, the days of each month) is
      not part of this model; each field is what its digits say. */
  datatype DateTime = DateTime(
    year: nat, month: TwoDigits, day: TwoDigits,
    hour: TwoDigits, minute: TwoDigits, second: TwoDigits)

  /** The fixed-width layout `YYYY-MM-DDTHH:MM:SSZ` of the tracker's timestamps. */
  predicate IsRfc3339Utc(s: string) {
    |s| == 20
    && AllDigits(s[0..4]) && s[4] == '-' && AllDigits(s[5..7]) && s[7] == '-'
    && AllDigits(s[8..10]) && s[10] == 'T'
    && AllDigits(s[11..13]) && s[13] == ':' && AllDigits(s[14..16]) && s[16] == ':'
    && AllDigits(s[17..19]) && s[19] == 'Z'
  }

  /** Reads a timestamp; anything off the layout is refused rather than half read. */
  function ParseCreatedAt(s: string): (r: Option<DateTime>)
    ensures r.Some? <==> IsRfc3339Utc(s)
    ensures r.Some? ==> r.value.year < 10000
  {
    if IsRfc3339Utc(s) then
      Some(DateTime(DigitsValue(s[0..4]), DigitsValue(s[5..7]), DigitsValue(s[8..10]),
                    DigitsValue(s[11..13]), DigitsValue(s[14..16]), DigitsValue(s[17..19])))
    else None
  }

  /** The year as a naive date displays it: four digits, or a `+` and all its digits beyond
      9999. */
  function YearText(year: nat): (r: string)
    ensures year < 10000 ==> |r| == 4 && AllDigits(r) && DigitsValue(r) == year
    ensures year >= 10000 ==> |r| >= 2 && r[0] == '+' && AllDigits(r[1..]) && DigitsValue(r[1..]) == year
  {
    if year < 10000 then PadDecimal(year, 4)
    else
      var t := DecimalText(year);
      assert ("+" + t)[1..] == t;
      "+" + t
  }

  /** How the parsed date-time is written into the message, `YYYY-MM-DD HH:MM:SS`, as a
      naive date-time displays: the fields zero-padded between fixed separators. */
  function RenderDate(d: DateTime): (r: string)
    ensures d.year < 10000 ==> |r| == 19
    ensures d.year < 10000 ==> r[4] == '-' && r[7] == '-' && r[10] == ' ' && r[13] == ':' && r[16] == ':'
  {
    YearText(d.year) + "-" + PadDecimal(d.month, 2) + "-" + PadDecimal(d.day, 2) + " "
    + PadDecimal(d.hour, 2) + ":" + PadDecimal(d.minute, 2) + ":" + PadDecimal(d.second, 2)
  }

  /** The date-time written back in the tracker's layout. */
  function FormatRfc3339(d: DateTime): (s: string)
    requires d.year < 10000
    ensures |s| == 20
  {
    PadDecimal(d.year, 4) + "-" + PadDecimal(d.month, 2) + "-" + PadDecimal(d.day, 2) + "T"
    + PadDecimal(d.hour, 2) + ":" + PadDecimal(d.minute, 2) + ":" + PadDecimal(d.second, 2) + "Z"
  }

  /** The pieces of a timestamp in the layout, as slices. */
  lemma Rfc3339Pieces(s: string)
    requires IsRfc3339Utc(s)
    ensures s == s[0..4] + "-" + s[5..7] + "-" + s[8..10] + "T"
      + s[11..13] + ":" + s[14..16] + ":" + s[17..19] + "Z"
    ensures s[..10] == s[0..4] + "-" + s[5..7] + "-" + s[8..10]
    ensures s[11..19] == s[11..13] + ":" + s[14..16] + ":" + s[17..19]
  {
  }

  /** Reading then displaying a timestamp is a reshaping of its characters: the date part,
      a space for the `T`, the time part, and the `Z` dropped. */
  lemma {:induction false} ReshapeCreatedAt(s: string)
    requires IsRfc3339Utc(s)
    ensures RenderDate(ParseCreatedAt(s).value) == s[..10] + " " + s[11..19]
  {
    PadDecimalOfValue(s[0..4]);
    PadDecimalOfValue(s[5..7]);
    PadDecimalOfValue(s[8..10]);
    PadDecimalOfValue(s[11..13]);
    PadDecimalOfValue(s[14..16]);
    PadDecimalOfValue(s[17..19]);
    Rfc3339Pieces(s);
  }

  /** Reading a timestamp and writing it back gives the same characters. */
  lemma {:induction false} ParseFormatRoundTrip(s: string)
    requires IsRfc3339Utc(s)
    ensures FormatRfc3339(ParseCreatedAt(s).value) == s
  {
    PadDecimalOfValue(s[0..4]);
    PadDecimalOfValue(s[5..7]);
    PadDecimalOfValue(s[8..10]);
    PadDecimalOfValue(s[11..13]);
    PadDecimalOfValue(s[14..16]);
    PadDecimalOfValue(s[17..19]);
    Rfc3339Pieces(s);
  }

  /** Writing a four-digit-year date-time and reading it back gives the same fields. */
  lemma FormatParseRoundTrip(d: DateTime)
    requires d.year < 10000
    ensures ParseCreatedAt(FormatRfc3339(d)) == Some(d)
  {
    var s := FormatRfc3339(d);
    var y := PadDecimal(d.year, 4);
    var mo := PadDecimal(d.month, 2);
    var dd := PadDecimal(d.day, 2);
    var h := PadDecimal(d.hour, 2);
    var mi := PadDecimal(d.minute, 2);
    var se := PadDecimal(d.second, 2);
    assert s == y + "-" + mo + "-" + dd + "T" + h + ":" + mi + ":" + se + "Z";
    assert s[0..4] == y && s[5..7] == mo && s[8..10] == dd;
    assert s[11..13] == h && s[14..16] == mi && s[17..19] == se;
  }

  /** The timestamp of the tracker records in the route tests is in the layout. */
  lemma TestTimestampShape(s: string)
    requires s == "2024-07-07T20:09:31Z"
    ensures IsRfc3339Utc(s)
  {
    forall i | 0 <= i < 20 && i != 4 && i != 7 && i != 10 && i != 13 && i != 16 && i != 19
      ensures IsAsciiDigit(s[i])
    {
      assert i in {0, 1, 2, 3, 5, 6, 8, 9, 11, 12, 14, 15, 17, 18};
    }
  }

  /** That timestamp displays as the tests expect. */
  lemma TestTimestamp(s: string)
    requires s == "2024-07-07T20:09:31Z"
    ensures ParseCreatedAt(s).Some?
    ensures RenderDate(ParseCreatedAt(s).value) == "2024-07-07 20:09:31"
  {
    TestTimestampShape(s);
    ReshapeCreatedAt(s);
  }

  // ---------------------------------------------------------------------------------------
  // The step as written: a format-driven parse in the manner of chrono

  /** Why such a parse fails: a character that is not what the format expects (`Invalid`); the
      input ending inside the format (`TooShort`); input left over after it (`TooLong`); a
      field outside its range or a date not on the calendar (`OutOfRange`); the same field
      read twice with different values (`Impossible`); a field the result needs that the format
      never named (`NotEnough`). */
  datatype ParseError = Invalid | TooShort | TooLong | OutOfRange | Impossible | NotEnough

  /** The numeric fields a format can name. */
  datatype Field = Year | Month | Day | Hour | Minute | Second

  /** One item of a format string: a numeric field or a literal character. */
  datatype FormatItem = Numeric(field: Field) | Literal(c: char)

  /** `%Y/%m/%d` as its items. */
  const SlashFormat: seq<FormatItem> :=
    [Numeric(Year), Literal('/'), Numeric(Month), Literal('/'), Numeric(Day)]

  /** The fields read so far; `None` for a field the format has not named. */
  datatype Parsed = Parsed(
    year: Option<int>, month: Option<int>, day: Option<int>,
    hour: Option<int>, minute: Option<int>, second: Option<int>)

  const NothingParsed := Parsed(None, None, None, None, None, None)

  function Get(p: Parsed, f: Field): Option<int> {
    match f
    case Year => p.year
    case Month => p.month
    case Day => p.day
    case Hour => p.hour
    case Minute => p.minute
    case Second => p.second
  }

  function Put(p: Parsed, f: Field, v: int): (q: Parsed)
    ensures Get(q, f) == Some(v)
    ensures forall g :: g != f ==> Get(q, g) == Get(p, g)
  {
    match f
    case Year => p.(year := Some(v))
    case Month => p.(month := Some(v))
    case Day => p.(day := Some(v))
    case Hour => p.(hour := Some(v))
    case Minute => p.(minute := Some(v))
    case Second => p.(second := Some(v))
  }

  /** The values a field accepts when it is set: a year that fits 32 signed bits, month 1 to
      12, day 1 to 31, hour 0 to 23, minute 0 to 59, second 0 to 60 (a leap second). */
  predicate InRange(f: Field, v: int) {
    match f
    case Year => -0x8000_0000 <= v < 0x8000_0000
    case Month => 1 <= v <= 12
    case Day => 1 <= v <= 31
    case Hour => 0 <= v <= 23
    case Minute => 0 <= v <= 59
    case Second => 0 <= v <= 60
  }

  /** Records a value read for a field: out of range is refused, and a field already read
      must be read again with the same value. */
  function SetField(p: Parsed, f: Field, v: int): (r: Result<Parsed, ParseError>)
    ensures r.Ok? <==> InRange(f, v) && (Get(p, f).None? || Get(p, f) == Some(v))
    ensures r.Ok? ==> Get(r.value, f) == Some(v)
    ensures r.Ok? ==> forall g :: g != f ==> Get(r.value, g) == Get(p, g)
  {
    if !InRange(f, v) then Err(OutOfRange)
    else if Get(p, f).Some? && Get(p, f).value != v then Err(Impossible)
    else Ok(Put(p, f, v))
  }

  /** Rust's `char::is_whitespace`: the characters with the Unicode `White_Space` property. */
  predicate IsWhitespace(c: char) {
    ('\t' <= c <= '\r') || c == ' ' || c == '\U{85}' || c == '\U{A0}' || c == '\U{1680}'
    || ('\U{2000}' <= c <= '\U{200A}') || c == '\U{2028}' || c == '\U{2029}'
    || c == '\U{202F}' || c == '\U{205F}' || c == '\U{3000}'
  }

  /** The input with its leading whitespace removed, as a numeric item skips it. */
  function TrimStart(s: string): (r: string)
    ensures |r| <= |s|
    ensures |r| == 0 || !IsWhitespace(r[0])
    ensures |s| > 0 && !IsWhitespace(s[0]) ==> r == s
  {
    if |s| > 0 && IsWhitespace(s[0]) then TrimStart(s[1..]) else s
  }

  /** What the trim removes is a run of whitespace at the front, and the rest is kept. */
  lemma {:induction false} TrimStartDropsWhitespace(s: string)
    ensures var k := |s| - |TrimStart(s)|;
      TrimStart(s) == s[k..] && forall i :: 0 <= i < k ==> IsWhitespace(s[i])
  {
    if |s| > 0 && IsWhitespace(s[0]) {
      TrimStartDropsWhitespace(s[1..]);
    }
  }

  /** How many decimal digits start `s`, reading at most `max`. */
  function LeadingDigits(s: string, max: nat): (n: nat)
    ensures n <= max && n <= |s| && AllDigits(s[..n])
    ensures n < max && n < |s| ==> !IsAsciiDigit(s[n])
  {
    if max == 0 || |s| == 0 || !IsAsciiDigit(s[0]) then 0
    else
      var n := 1 + LeadingDigits(s[1..], max - 1);
      assert s[..n] == [s[0]] + s[1..][..n - 1];
      n
  }

  /** Reads an unsigned number of one to `max` digits off the front of `s`; the value and the
      rest of the input. */
  function ScanNumber(s: string, max: nat): (r: Result<(int, string), ParseError>)
    ensures |s| == 0 ==> r == Err(TooShort)
    ensures |s| > 0 && (max == 0 || !IsAsciiDigit(s[0])) ==> r == Err(Invalid)
    ensures r.Ok? ==> |s| - max <= |r.value.1| < |s| && r.value.0 >= 0
  {
    if |s| < 1 then Err(TooShort)
    else
      var n := LeadingDigits(s, max);
      if n == 0 then Err(Invalid) else Ok((DigitsValue(s[..n]) as int, s[n..]))
  }

  /** A number read is the value of the digits at the front, and the reading stops only at
      the width, the end of the input or a non-digit. */
  lemma ScanNumberReads(s: string, max: nat)
    ensures ScanNumber(s, max).Ok? ==>
      var n := |s| - |ScanNumber(s, max).value.1|;
      1 <= n <= max && AllDigits(s[..n]) && ScanNumber(s, max).value == (DigitsValue(s[..n]) as int, s[n..])
      && (n == max || n == |s| || !IsAsciiDigit(s[n]))
  {
  }

  /** Reads the digits of one numeric field. A year may carry a sign, and then takes every
      digit that follows; unsigned, it takes at most four. The other fields take at most two. */
  function ScanField(f: Field, s: string): (r: Result<(int, string), ParseError>)
    ensures r.Ok? ==> |r.value.1| < |s|
  {
    if f == Year && |s| > 0 && s[0] == '-' then
      match ScanNumber(s[1..], |s|)
      case Err(e) => Err(e)
      case Ok((v, rest)) => Ok((-v, rest))
    else if f == Year && |s| > 0 && s[0] == '+' then ScanNumber(s[1..], |s|)
    else if f == Year then ScanNumber(s, 4)
    else ScanNumber(s, 2)
  }

  /** Runs one item of a format at the front of the input: a literal must come next; a
      numeric item skips leading whitespace and reads its field. The rest of the input and the
      fields filled so far. */
  function ScanItem(item: FormatItem, s: string, p: Parsed): (r: Result<(string, Parsed), ParseError>)
    ensures r.Ok? ==> |r.value.0| < |s|
    ensures r.Ok? && item.Numeric? ==> forall g :: g != item.field ==> Get(r.value.1, g) == Get(p, g)
    ensures r.Ok? && item.Numeric? ==> Get(r.value.1, item.field).Some?
    ensures r.Ok? ==> forall g :: Get(p, g).Some? ==> Get(r.value.1, g) == Get(p, g)
  {
    match item
    case Literal(c) =>
      if |s| < 1 then Err(TooShort)
      else if s[0] != c then Err(Invalid)
      else Ok((s[1..], p))
    case Numeric(f) =>
      match ScanField(f, TrimStart(s))
      case Err(e) => Err(e)
      case Ok((v, rest)) =>
        match SetField(p, f, v)
        case Err(e) => Err(e)
        case Ok(q) => Ok((rest, q))
  }

  /** Runs the items of a format over the input, filling in `p`; the input must end with the
      format. A successful scan keeps every field already filled and fills every field the
      format names. */
  function ScanItems(items: seq<FormatItem>, s: string, p: Parsed): (r: Result<Parsed, ParseError>)
    ensures r.Ok? ==> forall g :: Get(p, g).Some? ==> Get(r.value, g) == Get(p, g)
    ensures r.Ok? ==> forall g :: Numeric(g) in items ==> Get(r.value, g).Some?
    decreases |items|
  {
    if |items| == 0 then (if |s| == 0 then Ok(p) else Err(TooLong))
    else
      match ScanItem(items[0], s, p)
      case Err(e) => Err(e)
      case Ok((rest, q)) => ScanItems(items[1..], rest, q)
  }

  /** A field the format never names keeps the value it had before the scan. */
  lemma {:induction false} ScanLeavesUnnamed(items: seq<FormatItem>, s: string, p: Parsed, f: Field)
    requires Numeric(f) !in items
    ensures ScanItems(items, s, p).Ok? ==> Get(ScanItems(items, s, p).value, f) == Get(p, f)
    decreases |items|
  {
    if |items| > 0 {
      assert Numeric(f) !in items[1..];
      var r := ScanItem(items[0], s, p);
      if r.Ok? {
        ScanLeavesUnnamed(items[1..], r.value.0, r.value.1, f);
      }
    }
  }

  function DaysInMonth(year: int, month: int): (n: int)
    requires 1 <= month <= 12
    ensures 28 <= n <= 31
  {
    if month == 2 then (if year % 4 == 0 && (year % 100 != 0 || year % 400 == 0) then 29 else 28)
    else if month == 4 || month == 6 || month == 9 || month == 11 then 30
    else 31
  }

  /** A date of the proleptic Gregorian calendar within the years a naive date holds. */
  predicate IsCalendarDate(year: int, month: int, day: int) {
    -262144 <= year <= 262143 && 1 <= month <= 12 && 1 <= day <= DaysInMonth(year, month)
  }

  /** Turns the fields read into a date-time: first the date, which needs year, month and day
      on the calendar; then the time of day, which needs hour and minute (the second defaults to
      zero). */
  function CompleteDateTime(p: Parsed): (r: Result<DateTime, ParseError>)
    ensures p.hour.None? || p.minute.None? ==> r.Err?
    ensures r.Ok? ==> IsCalendarDate(r.value.year, r.value.month, r.value.day)
    ensures r.Ok? ==> p == Parsed(Some(r.value.year), Some(r.value.month), Some(r.value.day),
                                  Some(r.value.hour), Some(r.value.minute), p.second)
  {
    if p.year.None? || p.month.None? || p.day.None? then Err(NotEnough)
    else if !IsCalendarDate(p.year.value, p.month.value, p.day.value) then Err(OutOfRange)
    else if p.hour.None? || p.minute.None? then Err(NotEnough)
    else
      var second := if p.second.Some? then p.second.value else 0;
      if !(0 <= p.hour.value <= 23 && 0 <= p.minute.value <= 59 && 0 <= second <= 60) then
        Err(OutOfRange)
      else if p.year.value < 0 then Err(OutOfRange)
      else
        Ok(DateTime(p.year.value, p.month.value, p.day.value, p.hour.value, p.minute.value,
                    second))
  }

  /** The parse as written: a date-time read with the format `%Y/%m/%d`. The format names no
      hour or minute, so the scan leaves them unset and completing a date-time fails: no input
      yields a value, and an input the scan accepts fails for want of fields or for a date off
      the calendar. */
  function ParseSlashFormat(s: string): (r: Result<DateTime, ParseError>)
    ensures r.Err?
    ensures ScanItems(SlashFormat, s, NothingParsed).Ok? ==> r == Err(NotEnough) || r == Err(OutOfRange)
  {
    match ScanItems(SlashFormat, s, NothingParsed)
    case Err(e) => Err(e)
    case Ok(p) =>
      ScanLeavesUnnamed(SlashFormat, s, NothingParsed, Hour);
      CompleteDateTime(p)
  }

  /** A zero-padded `YYYY/MM/DD` date and nothing else. */
  predicate IsSlashDate(s: string) {
    |s| == 10 && AllDigits(s[0..4]) && s[4] == '/' && AllDigits(s[5..7]) && s[7] == '/'
    && AllDigits(s[8..10])
  }

  /** Reading at most `max` digits where exactly `n` digits come first takes those `n`. */
  lemma ScanNumberExact(s: string, max: nat, n: nat)
    requires 1 <= n <= max && n <= |s| && AllDigits(s[..n])
    requires n == max || n == |s| || !IsAsciiDigit(s[n])
    ensures ScanNumber(s, max) == Ok((DigitsValue(s[..n]) as int, s[n..]))
  {
  }

  /** A numeric item that finds exactly `n` digits (no sign, no leading whitespace) reads
      their value and the scan goes on after them. */
  lemma ScanNumericStep(items: seq<FormatItem>, s: string, p: Parsed, n: nat)
    requires |items| > 0 && items[0].Numeric?
    requires 1 <= n <= |s| && AllDigits(s[..n])
    requires n == |s| || !IsAsciiDigit(s[n])
    requires n <= (if items[0].field == Year then 4 else 2)
    requires SetField(p, items[0].field, DigitsValue(s[..n])).Ok?
    ensures ScanItems(items, s, p)
      == ScanItems(items[1..], s[n..], SetField(p, items[0].field, DigitsValue(s[..n])).value)
  {
    var f := items[0].field;
    var max := if f == Year then 4 else 2;
    assert IsAsciiDigit(s[..n][0]);
    assert TrimStart(s) == s;
    ScanNumberExact(s, max, n);
    assert ScanField(f, s) == Ok((DigitsValue(s[..n]) as int, s[n..]));
    assert ScanItem(items[0], s, p)
      == Ok((s[n..], SetField(p, items[0].field, DigitsValue(s[..n])).value));
  }

  /** The scan stops at the first `/` of a timestamp in the tracker's layout: the year's
      four digits are followed by `-` where the format wants `/`. */
  lemma {:induction false} SlashFormatRejectsRfc3339(s: string)
    requires IsRfc3339Utc(s)
    ensures ParseSlashFormat(s) == Err(Invalid)
  {
    assert s[..4] == s[0..4];
    ScanNumericStep(SlashFormat, s, NothingParsed, 4);
    assert s[4..][0] == '-';
  }

  /** A literal that comes next in the input is passed over. */
  lemma ScanLiteralStep(items: seq<FormatItem>, s: string, p: Parsed)
    requires |items| > 0 && items[0].Literal? && |s| > 0 && s[0] == items[0].c
    ensures ScanItems(items, s, p) == ScanItems(items[1..], s[1..], p)
  {
  }

  /** A numeric field of two digits followed by `/`: read, and the `/` passed over. */
  lemma TwoDigitsThenSlash(items: seq<FormatItem>, t: string, p: Parsed)
    requires |items| >= 2 && items[0].Numeric? && items[0].field != Year
    requires items[1] == Literal('/')
    requires |t| >= 3 && AllDigits(t[..2]) && t[2] == '/'
    requires SetField(p, items[0].field, DigitsValue(t[..2])).Ok?
    ensures ScanItems(items, t, p)
      == ScanItems(items[2..], t[3..], SetField(p, items[0].field, DigitsValue(t[..2])).value)
  {
    ScanNumericStep(items, t, p, 2);
    ScanLiteralStep(items[1..], t[2..], SetField(p, items[0].field, DigitsValue(t[..2])).value);
    assert t[2..][1..] == t[3..];
    assert items[1..][1..] == items[2..];
  }

  /** The year and the `/` after it. */
  lemma SlashYearStep(s: string)
    requires IsSlashDate(s) && -262144 <= DigitsValue(s[0..4])
    ensures ScanItems(SlashFormat, s, NothingParsed)
      == ScanItems(SlashFormat[2..], s[5..], NothingParsed.(year := Some(DigitsValue(s[0..4]))))
  {
    assert s[..4] == s[0..4];
    ScanNumericStep(SlashFormat, s, NothingParsed, 4);
    ScanLiteralStep(SlashFormat[1..], s[4..], NothingParsed.(year := Some(DigitsValue(s[0..4]))));
    assert s[4..][1..] == s[5..];
    assert SlashFormat[1..][1..] == SlashFormat[2..];
  }

  /** The month and the `/` after it. */
  lemma SlashMonthStep(t: string, p: Parsed)
    requires |t| == 5 && AllDigits(t[0..2]) && t[2] == '/' && p.month.None?
    requires 1 <= DigitsValue(t[0..2]) <= 12
    ensures ScanItems(SlashFormat[2..], t, p)
      == ScanItems(SlashFormat[4..], t[3..], p.(month := Some(DigitsValue(t[0..2]))))
  {
    assert t[..2] == t[0..2];
    TwoDigitsThenSlash(SlashFormat[2..], t, p);
    assert SlashFormat[2..][2..] == SlashFormat[4..];
  }

  /** The day, and the end of the input. */
  lemma SlashDayStep(t: string, p: Parsed)
    requires |t| == 2 && AllDigits(t) && p.day.None? && 1 <= DigitsValue(t) <= 31
    ensures ScanItems(SlashFormat[4..], t, p) == Ok(p.(day := Some(DigitsValue(t))))
  {
    assert t[..2] == t;
    ScanNumericStep(SlashFormat[4..], t, p, 2);
  }

  /** A `YYYY/MM/DD` date on the calendar is read in full, and then fails for want of a time
      of day. */
  lemma {:induction false} SlashDateLacksTime(s: string)
    requires IsSlashDate(s)
    requires IsCalendarDate(DigitsValue(s[0..4]), DigitsValue(s[5..7]), DigitsValue(s[8..10]))
    ensures ScanItems(SlashFormat, s, NothingParsed).Ok?
    ensures ParseSlashFormat(s) == Err(NotEnough)
  {
    var p1 := NothingParsed.(year := Some(DigitsValue(s[0..4])));
    var p2 := p1.(month := Some(DigitsValue(s[5..7])));
    var p3 := p2.(day := Some(DigitsValue(s[8..10])));
    SlashYearStep(s);
    assert s[5..][0..2] == s[5..7] && s[5..][3..] == s[8..];
    SlashMonthStep(s[5..], p1);
    assert s[8..] == s[8..10];
    SlashDayStep(s[8..], p2);
    assert ScanItems(SlashFormat, s, NothingParsed) == Ok(p3);
    assert CompleteDateTime(p3) == Err(NotEnough);
  }

  /** Every timestamp in the tracker's layout is refused by the parse as written. */
  lemma TestTimestampAsWritten(s: string)
    requires s == "2024-07-07T20:09:31Z"
    ensures ParseSlashFormat(s) == Err(Invalid)
    ensures ParseCreatedAt(s).Some?
  {
    TestTimestamp(s);
    SlashFormatRejectsRfc3339(s);
  }

  lemma TwoDigitsValue(t: string)
    requires |t| == 2 && AllDigits(t)
    ensures DigitsValue(t) == 10 * DigitValue(t[0]) + DigitValue(t[1])
  {
    assert t[..1][..0] == [];
  }

  /** Even the date the format describes is refused: `2024/07/07` is read in full and then
      lacks a time of day. */
  lemma SlashDateExample(s: string)
    requires s == "2024/07/07"
    ensures ParseSlashFormat(s) == Err(NotEnough)
  {
    assert AllDigits(s[0..4]) && AllDigits(s[5..7]) && AllDigits(s[8..10]);
    TwoDigitsValue(s[5..7]);
    TwoDigitsValue(s[8..10]);
    assert DigitsValue(s[5..7]) == 7 && DigitsValue(s[8..10]) == 7;
    assert -262144 <= DigitsValue(s[0..4]) < 10000;
    SlashDateLacksTime(s);
  }
}
