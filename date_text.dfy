/**
 * The text form of dates in the REST API. Every date field of the employee
 * and appointment serializers is written as `dd.mm.yyyy` (strftime format
 * `%d.%m.%Y`) and read from either `dd.mm.yyyy` or `yyyy-mm-dd` (strptime
 * formats `%d.%m.%Y` and `%Y-%m-%d`, tried in that order).
 */
module DateText {
  import opened Wrappers
  import opened Text
  import opened Dates

  predicate IsDigit(c: char)
  {
    '0' <= c <= '9'
  }

  predicate AllDigits(s: string)
  {
    forall i :: 0 <= i < |s| ==> IsDigit(s[i])
  }

  function DigitValue(c: char): (v: int)
    requires IsDigit(c)
    ensures 0 <= v <= 9
  {
    c as int - '0' as int
  }

  function DigitChar(n: int): (c: char)
    requires 0 <= n <= 9
    ensures IsDigit(c) && DigitValue(c) == n
  {
    ('0' as int + n) as char
  }

  function Pow10(n: nat): (p: nat)
    ensures p >= 1
  {
    if n == 0 then 1 else 10 * Pow10(n - 1)
  }

  /** The number a string of decimal digits denotes: below ten to the power of its length. */
  function DecimalValue(s: string): (v: nat)
    requires AllDigits(s)
    ensures v < Pow10(|s|)
  {
    if s == [] then 0 else 10 * DecimalValue(s[..|s| - 1]) + DigitValue(s[|s| - 1])
  }

  /** Appending a digit multiplies by ten and adds it. */
  lemma DecimalAppend(s: string, c: char)
    requires AllDigits(s) && IsDigit(c)
    ensures AllDigits(s + [c]) && DecimalValue(s + [c]) == 10 * DecimalValue(s) + DigitValue(c)
  {
    assert (s + [c])[..|s|] == s;
  }

  /** Two digits, zero-padded. */
  function TwoDigits(n: int): (s: string)
    requires 0 <= n <= 99
    ensures |s| == 2 && AllDigits(s) && DecimalValue(s) == n
  {
    var a, b := DigitChar(n / 10), DigitChar(n % 10);
    DecimalAppend([], a);
    assert [] + [a] == [a];
    DecimalAppend([a], b);
    assert [a] + [b] == [a, b];
    [a, b]
  }

  /** Four digits, zero-padded. */
  function FourDigits(n: int): (s: string)
    requires 0 <= n <= 9999
    ensures |s| == 4 && AllDigits(s) && DecimalValue(s) == n
  {
    var hi, lo := TwoDigits(n / 100), TwoDigits(n % 100);
    DecimalAppend(hi, lo[0]);
    DecimalAppend(hi + [lo[0]], lo[1]);
    assert hi + [lo[0]] + [lo[1]] == hi + lo;
    assert DecimalValue(lo) == 10 * DigitValue(lo[0]) + DigitValue(lo[1]) by {
      assert lo[..1] == [lo[0]] && [lo[0]][..0] == [];
    }
    hi + lo
  }

  /** A two-character digit string is the zero-padded text of its value. */
  lemma TwoDigitsExact(t: string)
    requires |t| == 2 && AllDigits(t)
    ensures DecimalValue(t) <= 99 && t == TwoDigits(DecimalValue(t))
  {
    assert t[..1] == [t[0]] && [t[0]][..0] == [];
    assert DecimalValue(t) == 10 * DigitValue(t[0]) + DigitValue(t[1]);
  }

  /** A four-character digit string is the zero-padded text of its value. */
  lemma FourDigitsExact(t: string)
    requires |t| == 4 && AllDigits(t)
    ensures DecimalValue(t) <= 9999 && t == FourDigits(DecimalValue(t))
  {
    var hi, lo := t[..2], t[2..];
    TwoDigitsExact(hi);
    TwoDigitsExact(lo);
    var n, h, l := DecimalValue(t), DecimalValue(hi), DecimalValue(lo);
    assert n == 100 * h + l by {
      assert t[..3] == hi + [t[2]] && t[..3][..2] == hi;
      assert lo[..1] == [t[2]] && [t[2]][..0] == [];
      assert l == 10 * DigitValue(t[2]) + DigitValue(t[3]);
      assert DecimalValue(t[..3]) == 10 * h + DigitValue(t[2]);
    }
    assert n / 100 == h && n % 100 == l;
    assert t == hi + lo;
  }

  /** `t` spells day `v` as `%d` accepts it: two digits, or one digit alone or after a space below ten. */
  predicate DaySpelling(t: string, v: int)
  {
    1 <= v <= 31 && (t == TwoDigits(v) || (v <= 9 && (t == [DigitChar(v)] || t == [' ', DigitChar(v)])))
  }

  /** `t` spells month `v` as `%m` accepts it: two digits, or one digit below ten. */
  predicate MonthSpelling(t: string, v: int)
  {
    1 <= v <= 12 && (t == TwoDigits(v) || (v <= 9 && t == [DigitChar(v)]))
  }

  /** `t` spells year `v` as `%Y` accepts it: exactly four digits. */
  predicate YearSpelling(t: string, v: int)
  {
    0 <= v <= 9999 && t == FourDigits(v)
  }

  /**
   * strptime `%d`, whose pattern is `3[01]|[12]\d|0[1-9]|[1-9]| [1-9]`: a
   * day from 1 to 31 written with two digits, or a day below ten written
   * with one digit, alone or after a space.
   */
  function DayField(t: string): (r: Option<int>)
    ensures r.Some? ==> DaySpelling(t, r.value)
    ensures forall v :: DaySpelling(t, v) ==> r == Some(v)
  {
    if |t| == 1 && IsDigit(t[0]) && t[0] != '0' then Some(DigitValue(t[0]))
    else if |t| == 2 && t[0] == ' ' && IsDigit(t[1]) && t[1] != '0' then Some(DigitValue(t[1]))
    else if |t| == 2 && AllDigits(t) && 1 <= DecimalValue(t) <= 31 then
      TwoDigitsExact(t);
      Some(DecimalValue(t))
    else None
  }

  /**
   * strptime `%m`, whose pattern is `1[0-2]|0[1-9]|[1-9]`: a month from 1 to
   * 12 written with two digits, or a month below ten written with one.
   */
  function MonthField(t: string): (r: Option<int>)
    ensures r.Some? ==> MonthSpelling(t, r.value)
    ensures forall v :: MonthSpelling(t, v) ==> r == Some(v)
  {
    if |t| == 1 && IsDigit(t[0]) && t[0] != '0' then Some(DigitValue(t[0]))
    else if |t| == 2 && AllDigits(t) && 1 <= DecimalValue(t) <= 12 then
      TwoDigitsExact(t);
      Some(DecimalValue(t))
    else None
  }

  /** strptime `%Y`, whose pattern is exactly four digits: any year up to 9999, zero-padded. */
  function YearField(t: string): (r: Option<int>)
    ensures r.Some? ==> YearSpelling(t, r.value)
    ensures forall v :: YearSpelling(t, v) ==> r == Some(v)
  {
    if |t| == 4 && AllDigits(t) then
      FourDigitsExact(t);
      Some(DecimalValue(t))
    else None
  }

  /** `datetime.date(y, m, d)`, which refuses days that do not exist and years outside 1 to 9999. */
  function MakeDate(y: int, m: int, d: int): (r: Option<Date>)
    ensures r.Some? <==> ValidDate(Date(y, m, d)) && InPythonRange(Date(y, m, d))
    ensures r.Some? ==> r.value == Date(y, m, d)
  {
    var date := Date(y, m, d);
    if ValidDate(date) && InPythonRange(date) then Some(date) else None
  }

  /** strptime with `%d.%m.%Y`. */
  function ParseDotted(s: string): Option<Date>
  {
    var parts := Split(s, '.');
    if |parts| != 3 then None
    else match (DayField(parts[0]), MonthField(parts[1]), YearField(parts[2]))
      case (Some(d), Some(m), Some(y)) => MakeDate(y, m, d)
      case _ => None
  }

  /** strptime with `%Y-%m-%d`. */
  function ParseIso(s: string): Option<Date>
  {
    var parts := Split(s, '-');
    if |parts| != 3 then None
    else match (YearField(parts[0]), MonthField(parts[1]), DayField(parts[2]))
      case (Some(y), Some(m), Some(d)) => MakeDate(y, m, d)
      case _ => None
  }

  /** The accepted input formats, tried in order; `None` is "Date has wrong format". */
  function Parse(s: string): (r: Option<Date>)
    ensures r.Some? ==> ValidDate(r.value) && InPythonRange(r.value)
  {
    var dotted := ParseDotted(s);
    if dotted.Some? then dotted else ParseIso(s)
  }

  /** strftime with `%d.%m.%Y`. */
  function Format(d: Date): (s: string)
    requires ValidDate(d) && InPythonRange(d)
    ensures |s| == 10 && s[2] == '.' && s[5] == '.'
    ensures AllDigits(s[..2]) && DecimalValue(s[..2]) == d.day
    ensures AllDigits(s[3..5]) && DecimalValue(s[3..5]) == d.month
    ensures AllDigits(s[6..]) && DecimalValue(s[6..]) == d.year
  {
    TwoDigits(d.day) + "." + TwoDigits(d.month) + "." + FourDigits(d.year)
  }

  /** The `yyyy-mm-dd` text the second input format reads. */
  function IsoText(d: Date): (s: string)
    requires ValidDate(d) && InPythonRange(d)
    ensures |s| == 10 && s[4] == '-' && s[7] == '-'
    ensures AllDigits(s[..4]) && DecimalValue(s[..4]) == d.year
    ensures AllDigits(s[5..7]) && DecimalValue(s[5..7]) == d.month
    ensures AllDigits(s[8..]) && DecimalValue(s[8..]) == d.day
  {
    var year, month, day := FourDigits(d.year), TwoDigits(d.month), TwoDigits(d.day);
    var s := year + "-" + month + "-" + day;
    assert s[..4] == year && s[5..7] == month && s[8..] == day;
    s
  }

  lemma DigitsHaveNo(s: string, c: char)
    requires AllDigits(s) && !IsDigit(c)
    ensures c !in s
  {
  }

  /** Splitting `a c b c e` on `c`, where none of the three pieces holds `c`. */
  lemma SplitThree(a: string, b: string, e: string, c: char)
    requires c !in a && c !in b && c !in e
    ensures Split(a + [c] + b + [c] + e, c) == [a, b, e]
  {
    assert a + [c] + b + [c] + e == a + [c] + (b + [c] + e);
    SplitAfterPiece(a, c, b + [c] + e);
    SplitAfterPiece(b, c, e);
    SplitNoSeparator(e, c);
  }

  /** Every date the API prints is read back as the same date. */
  lemma FormatParseRoundTrip(d: Date)
    requires ValidDate(d) && InPythonRange(d)
    ensures Parse(Format(d)) == Some(d)
  {
    var day, month, year := TwoDigits(d.day), TwoDigits(d.month), FourDigits(d.year);
    DigitsHaveNo(day, '.');
    DigitsHaveNo(month, '.');
    DigitsHaveNo(year, '.');
    SplitThree(day, month, year, '.');
  }

  /** Every date written as `yyyy-mm-dd` is read as that date. */
  lemma IsoParseRoundTrip(d: Date)
    requires ValidDate(d) && InPythonRange(d)
    ensures Parse(IsoText(d)) == Some(d)
  {
    var year, month, day := FourDigits(d.year), TwoDigits(d.month), TwoDigits(d.day);
    var s := IsoText(d);
    IsoTextReads(d);
    DigitsHaveNo(year, '.');
    DigitsHaveNo(month, '.');
    DigitsHaveNo(day, '.');
    assert '.' !in s by {
      assert s == year + ['-'] + month + ['-'] + day;
    }
    SplitNoSeparator(s, '.');
    assert ParseDotted(s) == None;
  }

  /** The second input format alone reads `yyyy-mm-dd` back. */
  lemma IsoTextReads(d: Date)
    requires ValidDate(d) && InPythonRange(d)
    ensures ParseIso(IsoText(d)) == Some(d)
  {
    var year, month, day := FourDigits(d.year), TwoDigits(d.month), TwoDigits(d.day);
    DigitsHaveNo(year, '-');
    DigitsHaveNo(month, '-');
    DigitsHaveNo(day, '-');
    SplitThree(year, month, day, '-');
  }

  /** An accepted `%d` field is digits and at most a space, so it holds no separator. */
  lemma DayFieldHasNoSeparator(t: string)
    requires DayField(t).Some?
    ensures '.' !in t && '-' !in t
  {
    if |t| == 2 && t[0] == ' ' {
      assert t == [' ', t[1]];
    } else {
      assert AllDigits(t);
      DigitsHaveNo(t, '.');
      DigitsHaveNo(t, '-');
    }
  }

  /** An accepted `%m` field is digits, so it holds no separator. */
  lemma MonthFieldHasNoSeparator(t: string)
    requires MonthField(t).Some?
    ensures '.' !in t && '-' !in t
  {
    assert AllDigits(t);
    DigitsHaveNo(t, '.');
    DigitsHaveNo(t, '-');
  }

  /** An accepted `%Y` field is digits, so it holds no separator. */
  lemma YearFieldHasNoSeparator(t: string)
    requires YearField(t).Some?
    ensures '.' !in t && '-' !in t
  {
    DigitsHaveNo(t, '.');
    DigitsHaveNo(t, '-');
  }

  /** `s` is laid out as `%d.%m.%Y` with fields that read as the parts of `d`. */
  ghost predicate DottedReads(s: string, d: Date)
  {
    exists a, b, c :: s == a + "." + b + "." + c
      && DayField(a) == Some(d.day) && MonthField(b) == Some(d.month) && YearField(c) == Some(d.year)
  }

  /** `s` is laid out as `%Y-%m-%d` with fields that read as the parts of `d`. */
  ghost predicate IsoReads(s: string, d: Date)
  {
    exists a, b, c :: s == a + "-" + b + "-" + c
      && YearField(a) == Some(d.year) && MonthField(b) == Some(d.month) && DayField(c) == Some(d.day)
  }

  lemma DottedLayoutParses(a: string, b: string, c: string, d: Date)
    requires DayField(a) == Some(d.day) && MonthField(b) == Some(d.month) && YearField(c) == Some(d.year)
    requires ValidDate(d) && InPythonRange(d)
    ensures Parse(a + "." + b + "." + c) == Some(d)
  {
    DayFieldHasNoSeparator(a);
    MonthFieldHasNoSeparator(b);
    YearFieldHasNoSeparator(c);
    SplitThree(a, b, c, '.');
    assert a + "." + b + "." + c == a + ['.'] + b + ['.'] + c;
  }

  lemma IsoLayoutParses(a: string, b: string, c: string, d: Date)
    requires YearField(a) == Some(d.year) && MonthField(b) == Some(d.month) && DayField(c) == Some(d.day)
    requires ValidDate(d) && InPythonRange(d)
    ensures Parse(a + "-" + b + "-" + c) == Some(d)
  {
    YearFieldHasNoSeparator(a);
    MonthFieldHasNoSeparator(b);
    DayFieldHasNoSeparator(c);
    var s := a + "-" + b + "-" + c;
    assert s == a + ['-'] + b + ['-'] + c;
    SplitThree(a, b, c, '-');
    assert '.' !in s;
    SplitNoSeparator(s, '.');
    assert ParseDotted(s) == None;
  }

  /** Three pieces split off a text glue back into it. */
  lemma JoinThree(s: string, sep: char)
    requires |Split(s, sep)| == 3
    ensures var p := Split(s, sep); s == p[0] + [sep] + p[1] + [sep] + p[2]
  {
    var p := Split(s, sep);
    JoinSplit(s, sep);
    assert JoinWith(p, sep) == p[0] + [sep] + JoinWith(p[1..], sep);
    assert JoinWith(p[1..], sep) == p[1] + [sep] + p[2];
  }

  lemma ParsedHasLayout(s: string, d: Date)
    requires Parse(s) == Some(d)
    ensures DottedReads(s, d) || IsoReads(s, d)
  {
    if ParseDotted(s).Some? {
      var p := Split(s, '.');
      JoinThree(s, '.');
      assert s == p[0] + "." + p[1] + "." + p[2];
      assert DayField(p[0]) == Some(d.day) && MonthField(p[1]) == Some(d.month) && YearField(p[2]) == Some(d.year);
    } else {
      var p := Split(s, '-');
      JoinThree(s, '-');
      assert s == p[0] + "-" + p[1] + "-" + p[2];
      assert YearField(p[0]) == Some(d.year) && MonthField(p[1]) == Some(d.month) && DayField(p[2]) == Some(d.day);
    }
  }

  /**
   * The dates a text is read as: `Parse` reads `s` as `d` exactly when `d`
   * is a real date in Python's range and `s` is `d` in one of the two input
   * formats, each field in a spelling its strptime directive accepts.
   */
  lemma ParseExactly(s: string, d: Date)
    ensures Parse(s) == Some(d) <==> ValidDate(d) && InPythonRange(d) && (DottedReads(s, d) || IsoReads(s, d))
  {
    if Parse(s) == Some(d) {
      ParsedHasLayout(s, d);
    } else if ValidDate(d) && InPythonRange(d) {
      if DottedReads(s, d) {
        var a, b, c :| s == a + "." + b + "." + c
          && DayField(a) == Some(d.day) && MonthField(b) == Some(d.month) && YearField(c) == Some(d.year);
        DottedLayoutParses(a, b, c, d);
      } else if IsoReads(s, d) {
        var a, b, c :| s == a + "-" + b + "-" + c
          && YearField(a) == Some(d.year) && MonthField(b) == Some(d.month) && DayField(c) == Some(d.day);
        IsoLayoutParses(a, b, c, d);
      }
    }
  }

  /** One-digit day and month fields are accepted, as in `1.5.2020`. */
  lemma ParseOneDigitFields(d: Date)
    requires ValidDate(d) && InPythonRange(d) && d.day <= 9 && d.month <= 9
    ensures Parse([DigitChar(d.day)] + "." + [DigitChar(d.month)] + "." + FourDigits(d.year)) == Some(d)
  {
    DigitsHaveNo(FourDigits(d.year), '.');
    SplitThree([DigitChar(d.day)], [DigitChar(d.month)], FourDigits(d.year), '.');
  }

  /** A day may be padded with a space instead of a zero, as in `2020-05- 1`. */
  lemma ParseSpacePaddedDay(d: Date)
    requires ValidDate(d) && InPythonRange(d) && d.day <= 9
    ensures Parse(FourDigits(d.year) + "-" + TwoDigits(d.month) + "-" + [' ', DigitChar(d.day)]) == Some(d)
  {
    var year, month, day := FourDigits(d.year), TwoDigits(d.month), [' ', DigitChar(d.day)];
    var s := year + "-" + month + "-" + day;
    DigitsHaveNo(year, '-');
    DigitsHaveNo(month, '-');
    DigitsHaveNo(year, '.');
    DigitsHaveNo(month, '.');
    assert '.' !in s by {
      assert s == year + ['-'] + month + ['-'] + day;
    }
    SplitNoSeparator(s, '.');
    SplitThree(year, month, day, '-');
  }

  /** A year below 1000 is read when written with four digits, as in `01.01.0999`. */
  lemma ParseFourDigitShortYear()
    ensures Parse("01.01.0999") == Some(Date(999, 1, 1))
  {
    assert "0999" == FourDigits(999) && "01" == TwoDigits(1);
    assert Format(Date(999, 1, 1)) == "01.01.0999";
    FormatParseRoundTrip(Date(999, 1, 1));
  }

  /** A day the month does not have, such as `29.02.2023`, is refused. */
  lemma ParseRefusesMissingDay(y: int, m: int, day: int)
    requires 1 <= y <= 9999 && 1 <= m <= 12 && DaysInMonth(y, m) < day <= 31
    ensures Parse(TwoDigits(day) + "." + TwoDigits(m) + "." + FourDigits(y)) == None
  {
    var s := TwoDigits(day) + "." + TwoDigits(m) + "." + FourDigits(y);
    DigitsHaveNo(TwoDigits(day), '.');
    DigitsHaveNo(TwoDigits(m), '.');
    DigitsHaveNo(FourDigits(y), '.');
    DigitsHaveNo(TwoDigits(day), '-');
    DigitsHaveNo(TwoDigits(m), '-');
    DigitsHaveNo(FourDigits(y), '-');
    SplitThree(TwoDigits(day), TwoDigits(m), FourDigits(y), '.');
    assert '-' !in s by {
      assert s == TwoDigits(day) + ['.'] + TwoDigits(m) + ['.'] + FourDigits(y);
    }
    SplitNoSeparator(s, '-');
  }

  /** Year `0000` matches four digits but is not a Python year. */
  lemma ParseRefusesYearZero(m: int, day: int)
    requires 1 <= m <= 12 && 1 <= day <= 31
    ensures Parse(FourDigits(0) + "-" + TwoDigits(m) + "-" + TwoDigits(day)) == None
  {
    var year, month, dd := FourDigits(0), TwoDigits(m), TwoDigits(day);
    var s := year + "-" + month + "-" + dd;
    DigitsHaveNo(year, '-');
    DigitsHaveNo(month, '-');
    DigitsHaveNo(dd, '-');
    DigitsHaveNo(year, '.');
    DigitsHaveNo(month, '.');
    DigitsHaveNo(dd, '.');
    assert '.' !in s by {
      assert s == year + ['-'] + month + ['-'] + dd;
    }
    SplitNoSeparator(s, '.');
    SplitThree(year, month, dd, '-');
  }

  /** What a request carries for one field. */
  datatype FieldValue = Absent | Null | Text(text: string)

  /** The serializer's refusals for a date field. */
  datatype FieldError = Required | NullNotAllowed | WrongFormat

  /** A required, non-nullable date field: `date_of_birth`, `date_of_entry`, an appointment's `date`. */
  function RequiredDate(f: FieldValue): (r: Result<Date, FieldError>)
    ensures f.Absent? ==> r == Err(Required)
    ensures f.Null? ==> r == Err(NullNotAllowed)
    ensures f.Text? ==> (r.Ok? <==> Parse(f.text).Some?)
    ensures r.Ok? ==> f.Text? && Parse(f.text) == Some(r.value)
  {
    match f
    case Absent => Err(Required)
    case Null => Err(NullNotAllowed)
    case Text(s) => if Parse(s).Some? then Ok(Parse(s).value) else Err(WrongFormat)
  }

  /** An optional, nullable date field: `date_of_exit`, `next_reminder`. */
  function OptionalDate(f: FieldValue): (r: Result<Option<Date>, FieldError>)
    ensures !f.Text? ==> r == Ok(None)
    ensures f.Text? ==> (r.Ok? <==> Parse(f.text).Some?)
    ensures r.Ok? && r.value.Some? ==> f.Text? && Parse(f.text) == r.value
  {
    match f
    case Text(s) => if Parse(s).Some? then Ok(Parse(s)) else Err(WrongFormat)
    case _ => Ok(None)
  }
}
