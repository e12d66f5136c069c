/**
 * The appointments calendar of the web front end: the displayed year, the
 * query window it asks the backend for, the twelve month columns the
 * fetched appointments are sorted into, and the employee label shown on
 * each appointment.
 */
module CalendarView {
  import opened Wrappers
  import opened Text
  import opened Dates
  import opened DateText

  /** What the front end receives for one appointment; `date` is the `dd.mm.yyyy` text. */
  datatype AppointmentView = AppointmentView(id: int, date: string, employee: int, note: string)

  /** What the front end receives for one employee. */
  datatype EmployeeView = EmployeeView(id: int, firstName: string, lastName: string)

  // ---------------------------------------------------------------------
  // `String(n)` for the year and the query window
  // ---------------------------------------------------------------------

  /** The decimal digits of `n` without leading zeros, as `String(n)` writes a non-negative integer. */
  function NaturalText(n: nat): (s: string)
    ensures |s| >= 1 && AllDigits(s) && DecimalValue(s) == n
    ensures n < 10 <==> |s| == 1
    ensures s[0] == '0' <==> n == 0
  {
    if n < 10 then
      assert DecimalValue([DigitChar(n)]) == n by {
        assert [DigitChar(n)][..0] == [];
      }
      [DigitChar(n)]
    else
      var high := NaturalText(n / 10);
      var s := high + [DigitChar(n % 10)];
      DecimalAppend(high, DigitChar(n % 10));
      assert s[0] == high[0];
      s
  }

  /** `String(n)` for any integer: a minus sign before a negative number. */
  function NumberText(n: int): (s: string)
    ensures n >= 0 ==> s == NaturalText(n)
    ensures n < 0 ==> s == "-" + NaturalText(-n)
  {
    if n >= 0 then NaturalText(n) else "-" + NaturalText(-n)
  }

  /** Years 1000 to 9999 print with four digits, exactly as the backend writes them. */
  lemma NaturalTextOfFourDigitYear(n: int)
    requires 1000 <= n <= 9999
    ensures NaturalText(n) == FourDigits(n)
  {
    var s := NaturalText(n);
    var a := n / 10;
    var b := a / 10;
    var c := b / 10;
    assert 1 <= c < 10 && 10 <= b < 100 && 100 <= a < 1000;
    assert |NaturalText(b)| == |NaturalText(c)| + 1 == 2;
    assert |NaturalText(a)| == |NaturalText(b)| + 1 == 3;
    assert |s| == |NaturalText(a)| + 1 == 4;
    FourDigitsExact(s);
  }

  /** Years below 1000 print with fewer than four digits. */
  lemma NaturalTextOfShortYear(n: nat)
    requires n < 1000
    ensures |NaturalText(n)| < 4
  {
    if n >= 10 {
      NaturalTextOfShortYear(n / 10);
    }
  }

  /** The `min_date` / `max_date` pair the calendar asks the backend for. */
  datatype YearQuery = YearQuery(minDate: string, maxDate: string)

  /**
   * `String(anio) + '-01-01'` and `String(anio) + '-12-31'`: the same year
   * text before both, the decimal digits of `anio` with a minus sign for a
   * negative year.
   */
  function QueryFor(anio: int): (q: YearQuery)
    ensures |q.minDate| == |q.maxDate| >= 7
    ensures q.minDate[|q.minDate| - 6..] == "-01-01" && q.maxDate[|q.maxDate| - 6..] == "-12-31"
    ensures q.minDate[..|q.minDate| - 6] == q.maxDate[..|q.maxDate| - 6]
    ensures anio >= 0 ==> AllDigits(q.minDate[..|q.minDate| - 6]) && DecimalValue(q.minDate[..|q.minDate| - 6]) == anio
    ensures anio < 0 ==> q.minDate[0] == '-' && AllDigits(q.minDate[1..|q.minDate| - 6]) && DecimalValue(q.minDate[1..|q.minDate| - 6]) == -anio
  {
    var y := NumberText(anio);
    var q := YearQuery(y + "-01-01", y + "-12-31");
    assert q.minDate[..|y|] == y && q.maxDate[..|y|] == y;
    assert q.minDate[|y|..] == "-01-01" && q.maxDate[|y|..] == "-12-31";
    assert anio < 0 ==> q.minDate[1..|y|] == NaturalText(-anio);
    q
  }

  /**
   * For a four-digit year the window reads as the first and the last day
   * of that year, and a date lies in it exactly when it is in that year.
   */
  lemma QueryForYear(anio: int, d: Date)
    requires 1000 <= anio <= 9999
    ensures ParseIso(QueryFor(anio).minDate) == Some(Date(anio, 1, 1))
    ensures ParseIso(QueryFor(anio).maxDate) == Some(Date(anio, 12, 31))
    ensures ValidDate(d) ==> (DateLe(Date(anio, 1, 1), d) && DateLe(d, Date(anio, 12, 31)) <==> d.year == anio)
  {
    NaturalTextOfFourDigitYear(anio);
    var y := FourDigits(anio);
    var q := QueryFor(anio);
    assert NumberText(anio) == y;
    assert q.minDate == y + "-01-01" && q.maxDate == y + "-12-31";
    assert q.minDate == IsoText(Date(anio, 1, 1)) by {
      assert "01" == TwoDigits(1);
      assert y + "-01-01" == y + "-" + TwoDigits(1) + "-" + TwoDigits(1);
    }
    assert q.maxDate == IsoText(Date(anio, 12, 31)) by {
      assert "12" == TwoDigits(12) && "31" == TwoDigits(31);
      assert y + "-12-31" == y + "-" + TwoDigits(12) + "-" + TwoDigits(31);
    }
    IsoTextReads(Date(anio, 1, 1));
    IsoTextReads(Date(anio, 12, 31));
  }

  /** For a year below 1000 the window's start has a short year field, which `%Y-%m-%d` refuses. */
  lemma QueryForShortYear(anio: nat)
    requires anio < 1000
    ensures ParseIso(QueryFor(anio).minDate) == None
  {
    var t := NaturalText(anio);
    NaturalTextOfShortYear(anio);
    DigitsHaveNo(t, '-');
    assert QueryFor(anio).minDate == t + ['-'] + "01" + ['-'] + "01";
    SplitThree(t, "01", "01", '-');
  }

  // ---------------------------------------------------------------------
  // `Number.parseInt(text, 10)` and the month of a `dd.mm.yyyy` text
  // ---------------------------------------------------------------------

  /** ECMAScript white space and line terminators, which `parseInt` skips at the start. */
  predicate IsJsSpace(c: char)
  {
    c as int in {9, 10, 11, 12, 13, 32, 160, 5760, 8192, 8193, 8194, 8195, 8196, 8197, 8198, 8199, 8200,
                 8201, 8202, 8232, 8233, 8239, 8287, 12288, 65279}
  }

  /** The text after the leading white space. */
  function TrimStart(s: string): (t: string)
    ensures |t| <= |s| && t == s[|s| - |t|..]
    ensures t == [] || !IsJsSpace(t[0])
    ensures forall i :: 0 <= i < |s| - |t| ==> IsJsSpace(s[i])
  {
    if s != [] && IsJsSpace(s[0]) then TrimStart(s[1..]) else s
  }

  /** How many decimal digits `s` starts with. */
  function LeadingDigits(s: string): (k: nat)
    ensures k <= |s| && AllDigits(s[..k])
    ensures k < |s| ==> !IsDigit(s[k])
  {
    if s != [] && IsDigit(s[0]) then
      var k := 1 + LeadingDigits(s[1..]);
      assert s[..k] == [s[0]] + s[1..][..k - 1];
      k
    else 0
  }

  /**
   * What `parseInt` reads once the white space is gone: an optional sign,
   * then the longest run of digits; `None` when no digit comes.
   */
  function ReadSigned(t: string): (r: Option<int>)
    ensures r.Some? <==> (t != [] && IsDigit(t[0])) || (|t| >= 2 && (t[0] == '-' || t[0] == '+') && IsDigit(t[1]))
    ensures r.Some? && r.value < 0 ==> t[0] == '-'
  {
    var negative := t != [] && t[0] == '-';
    var body := if t != [] && (t[0] == '-' || t[0] == '+') then t[1..] else t;
    var k := LeadingDigits(body);
    if k == 0 then None
    else
      var v: int := DecimalValue(body[..k]);
      Some(if negative then -v else v)
  }

  /**
   * `Number.parseInt(s, 10)`: leading white space, an optional sign, then
   * the longest run of digits; `None` is `NaN`, when there is no digit.
   */
  function ParseInt(s: string): (r: Option<int>)
    ensures var t := TrimStart(s);
            r.Some? <==> (t != [] && IsDigit(t[0])) || (|t| >= 2 && (t[0] == '-' || t[0] == '+') && IsDigit(t[1]))
    ensures r.Some? && r.value < 0 ==> TrimStart(s)[0] == '-'
  {
    ReadSigned(TrimStart(s))
  }

  /** A string of digits is read as its decimal value. */
  lemma ParseIntOfDigits(s: string)
    requires s != [] && AllDigits(s)
    ensures ParseInt(s) == Some(DecimalValue(s))
  {
    ParseIntStopsAtNonDigit(s, []);
    assert s + [] == s;
  }

  /** Digits stop at the first non-digit: `parseInt` of `"07abc"` is 7. */
  lemma ParseIntStopsAtNonDigit(s: string, rest: string)
    requires s != [] && AllDigits(s) && (rest == [] || !IsDigit(rest[0]))
    ensures ParseInt(s + rest) == Some(DecimalValue(s))
  {
    var t := s + rest;
    assert TrimStart(t) == t;
    LeadingDigitsOfPrefix(s, rest);
    assert t[..|s|] == s;
  }

  /** Leading white space is dropped up to the first character that is not white space. */
  lemma {:induction false} TrimStartAfterSpace(w: string, x: string)
    requires forall i :: 0 <= i < |w| ==> IsJsSpace(w[i])
    requires x == [] || !IsJsSpace(x[0])
    ensures TrimStart(w + x) == x
  {
    if w != [] {
      assert (w + x)[0] == w[0] && (w + x)[1..] == w[1..] + x;
      TrimStartAfterSpace(w[1..], x);
    } else {
      assert w + x == x;
    }
  }

  /** `parseInt` reads the same number after leading white space. */
  lemma ParseIntAfterSpace(w: string, x: string)
    requires forall i :: 0 <= i < |w| ==> IsJsSpace(w[i])
    requires x == [] || !IsJsSpace(x[0])
    ensures ParseInt(w + x) == ParseInt(x) == ReadSigned(x)
  {
    TrimStartAfterSpace(w, x);
    assert TrimStart(x) == x;
    assert TrimStart(w + x) == TrimStart(x);
  }

  /** A sign before the digits: `"+7"` is 7 and `"-7x"` is -7. */
  lemma ReadAfterSign(sign: char, s: string, rest: string)
    requires sign == '+' || sign == '-'
    requires s != [] && AllDigits(s) && (rest == [] || !IsDigit(rest[0]))
    ensures ReadSigned([sign] + s + rest) == Some(if sign == '-' then -(DecimalValue(s) as int) else DecimalValue(s))
  {
    var t := [sign] + s + rest;
    assert t[0] == sign && t[1..] == s + rest;
    assert LeadingDigits(t[1..]) == |s| && t[1..][..|s|] == s by {
      LeadingDigitsOfPrefix(s, rest);
    }
  }

  lemma Regroup(w: string, s: string, rest: string)
    ensures w + s + rest == w + (s + rest)
    ensures w + "+" + s + rest == w + (['+'] + s + rest)
    ensures w + "-" + s + rest == w + (['-'] + s + rest)
  {
  }

  /** A minus sign after the white space negates the digits. */
  lemma ParseIntNegative(w: string, s: string, rest: string)
    requires forall i :: 0 <= i < |w| ==> IsJsSpace(w[i])
    requires s != [] && AllDigits(s) && (rest == [] || !IsDigit(rest[0]))
    ensures ParseInt(w + "-" + s + rest) == Some(-(DecimalValue(s) as int))
  {
    var x := ['-'] + s + rest;
    Regroup(w, s, rest);
    ParseIntAfterSpace(w, x);
    ReadAfterSign('-', s, rest);
    assert ParseInt(w + x) == Some(-(DecimalValue(s) as int));
  }

  /** A plus sign after the white space, or none, leaves the digits' value. */
  lemma ParseIntNonNegative(w: string, s: string, rest: string)
    requires forall i :: 0 <= i < |w| ==> IsJsSpace(w[i])
    requires s != [] && AllDigits(s) && (rest == [] || !IsDigit(rest[0]))
    ensures ParseInt(w + s + rest) == Some(DecimalValue(s))
    ensures ParseInt(w + "+" + s + rest) == Some(DecimalValue(s))
  {
    Regroup(w, s, rest);
    assert ParseInt(w + s + rest) == Some(DecimalValue(s)) by {
      ParseIntStopsAtNonDigit(s, rest);
      ParseIntAfterSpace(w, s + rest);
    }
    var x := ['+'] + s + rest;
    ParseIntAfterSpace(w, x);
    ReadAfterSign('+', s, rest);
  }

  /**
   * `parseInt` skips leading white space, reads an optional sign and then
   * the digits up to the first non-digit: `" 7"`, `"+7"` and `"07abc"` are
   * 7, and a tab before `-7` gives -7.
   */
  lemma ParseIntSigned(w: string, s: string, rest: string)
    requires forall i :: 0 <= i < |w| ==> IsJsSpace(w[i])
    requires s != [] && AllDigits(s) && (rest == [] || !IsDigit(rest[0]))
    ensures ParseInt(w + s + rest) == Some(DecimalValue(s))
    ensures ParseInt(w + "+" + s + rest) == Some(DecimalValue(s))
    ensures ParseInt(w + "-" + s + rest) == Some(-(DecimalValue(s) as int))
  {
    ParseIntNonNegative(w, s, rest);
    ParseIntNegative(w, s, rest);
  }

  lemma {:induction false} LeadingDigitsOfPrefix(s: string, rest: string)
    requires AllDigits(s) && (rest == [] || !IsDigit(rest[0]))
    ensures LeadingDigits(s + rest) == |s|
  {
    if s != [] {
      assert (s + rest)[1..] == s[1..] + rest;
      LeadingDigitsOfPrefix(s[1..], rest);
    } else {
      assert s + rest == rest;
    }
  }

  /**
   * The column an appointment goes into: its month, read from the second
   * `.`-separated field, minus one; `None` when that is not a month from
   * 1 to 12, where indexing the columns gives `undefined` and `push`
   * throws a `TypeError`.
   */
  function MonthColumn(date: string): (r: Option<int>)
    ensures r.Some? ==> 0 <= r.value < 12
  {
    var parts := Split(date, '.');
    if |parts| < 2 then None
    else
      var month := ParseInt(parts[1]);
      if month.Some? && 1 <= month.value <= 12 then Some(month.value - 1) else None
  }

  /** A date written by the backend goes into the column of its month. */
  lemma MonthColumnOfFormat(d: Date)
    requires ValidDate(d) && InPythonRange(d)
    ensures MonthColumn(Format(d)) == Some(d.month - 1)
  {
    var day, month, year := TwoDigits(d.day), TwoDigits(d.month), FourDigits(d.year);
    DigitsHaveNo(day, '.');
    DigitsHaveNo(month, '.');
    DigitsHaveNo(year, '.');
    SplitThree(day, month, year, '.');
    var f := Format(d);
    assert f == day + ['.'] + month + ['.'] + year;
    var parts := Split(f, '.');
    assert parts == [day, month, year];
    ParseIntOfDigits(month);
    assert ParseInt(parts[1]) == Some(d.month);
  }

  // ---------------------------------------------------------------------
  // The twelve month columns
  // ---------------------------------------------------------------------

  /** The appointments of column `b`, in the order they were fetched. */
  function Column(items: seq<AppointmentView>, b: int): (c: seq<AppointmentView>)
    ensures |c| <= |items|
  {
    if items == [] then []
    else
      var last := items[|items| - 1];
      var rest := Column(items[..|items| - 1], b);
      if MonthColumn(last.date) == Some(b) then rest + [last] else rest
  }

  /** Column `b` holds exactly the fetched appointments whose month column is `b`. */
  lemma {:induction false} ColumnMembers(items: seq<AppointmentView>, b: int, x: AppointmentView)
    ensures x in Column(items, b) <==> x in items && MonthColumn(x.date) == Some(b)
  {
    if items != [] {
      var init, last := items[..|items| - 1], items[|items| - 1];
      assert items == init + [last];
      ColumnMembers(init, b, x);
    }
  }

  /** The twelve columns the fetched appointments make. */
  function Columns(items: seq<AppointmentView>): (cs: seq<seq<AppointmentView>>)
    ensures |cs| == 12
    ensures forall b :: 0 <= b < 12 ==> cs[b] == Column(items, b)
  {
    seq(12, b requires 0 <= b < 12 => Column(items, b))
  }

  /** How many of the appointments are laid out before the first one without a month column. */
  function Placed(items: seq<AppointmentView>): (k: nat)
    ensures k <= |items|
  {
    if items == [] || MonthColumn(items[0].date).None? then 0 else 1 + Placed(items[1..])
  }

  /** Every appointment before `Placed` has a month column. */
  lemma {:induction false} PlacedBefore(items: seq<AppointmentView>, i: nat)
    requires i < Placed(items)
    ensures MonthColumn(items[i].date).Some?
  {
    if i > 0 {
      PlacedBefore(items[1..], i - 1);
      assert items[1..][i - 1] == items[i];
    }
  }

  /** The appointment at `Placed`, if any, has no month column. */
  lemma {:induction false} PlacedStops(items: seq<AppointmentView>)
    requires Placed(items) < |items|
    ensures MonthColumn(items[Placed(items)].date).None?
  {
    if MonthColumn(items[0].date).Some? {
      PlacedStops(items[1..]);
      assert items[1..][Placed(items[1..])] == items[Placed(items)];
    }
  }

  /** Up to `Placed`, the appointment at `i` decides whether laying out stops there. */
  lemma PlacedAt(items: seq<AppointmentView>, i: nat)
    requires i <= Placed(items) && i < |items|
    ensures MonthColumn(items[i].date).None? <==> Placed(items) == i
  {
    if i < Placed(items) {
      PlacedBefore(items, i);
    } else {
      PlacedStops(items);
    }
  }

  /** The columns of one more fetched appointment, as the loop builds them. */
  lemma ColumnsOfPrefix(items: seq<AppointmentView>, i: nat)
    requires i < |items| && MonthColumn(items[i].date).Some?
    ensures Columns(items[..i + 1]) ==
              Columns(items[..i])[MonthColumn(items[i].date).value := Columns(items[..i])[MonthColumn(items[i].date).value] + [items[i]]]
  {
    assert items[..i + 1] == items[..i] + [items[i]];
    ColumnsStep(items[..i], items[i]);
  }

  /** Total number of entries over all columns. */
  function TotalSize(cs: seq<seq<AppointmentView>>): nat
  {
    if cs == [] then 0 else |cs[0]| + TotalSize(cs[1..])
  }

  /** Appending one entry to one column adds one to the total. */
  lemma {:induction false} TotalSizeAppend(cs: seq<seq<AppointmentView>>, b: int, x: AppointmentView)
    requires 0 <= b < |cs|
    ensures TotalSize(cs[b := cs[b] + [x]]) == TotalSize(cs) + 1
  {
    if b > 0 {
      assert cs[b := cs[b] + [x]][1..] == cs[1..][b - 1 := cs[1..][b - 1] + [x]];
      TotalSizeAppend(cs[1..], b - 1, x);
    }
  }

  /** One more fetched appointment lands at the end of its own column and nowhere else. */
  lemma ColumnsStep(items: seq<AppointmentView>, x: AppointmentView)
    requires MonthColumn(x.date).Some?
    ensures Columns(items + [x]) ==
              Columns(items)[MonthColumn(x.date).value := Columns(items)[MonthColumn(x.date).value] + [x]]
  {
    assert (items + [x])[..|items|] == items;
  }

  /**
   * When every appointment has a month column, the columns hold exactly
   * as many entries as were fetched: each lands in exactly one column.
   */
  lemma {:induction false} ColumnsSizeSum(items: seq<AppointmentView>)
    requires forall i :: 0 <= i < |items| ==> MonthColumn(items[i].date).Some?
    ensures TotalSize(Columns(items)) == |items|
  {
    if items == [] {
      ColumnsOfNothing();
    } else {
      var init, x := items[..|items| - 1], items[|items| - 1];
      assert items == init + [x];
      assert forall i :: 0 <= i < |init| ==> init[i] == items[i];
      ColumnsSizeSum(init);
      ColumnsSizeStep(init, x);
    }
  }

  /** Before anything is fetched the columns are empty. */
  lemma ColumnsOfNothing()
    ensures TotalSize(Columns([])) == 0
  {
    var empty := Columns([]);
    assert forall b :: 0 <= b < 12 ==> empty[b] == [];
    TotalSizeOfEmpty(empty);
  }

  /** One more appointment with a month column adds one entry in total. */
  lemma ColumnsSizeStep(init: seq<AppointmentView>, x: AppointmentView)
    requires MonthColumn(x.date).Some?
    ensures TotalSize(Columns(init + [x])) == TotalSize(Columns(init)) + 1
  {
    ColumnsStep(init, x);
    TotalSizeAppend(Columns(init), MonthColumn(x.date).value, x);
  }

  lemma {:induction false} TotalSizeOfEmpty(cs: seq<seq<AppointmentView>>)
    requires forall b :: 0 <= b < |cs| ==> cs[b] == []
    ensures TotalSize(cs) == 0
  {
    if cs != [] {
      TotalSizeOfEmpty(cs[1..]);
    }
  }

  // ---------------------------------------------------------------------
  // The component
  // ---------------------------------------------------------------------

  /** The label shown after an appointment: `"| " + last_name + ", " + first_name`. */
  function NameLabel(e: EmployeeView): (s: string)
    ensures |s| == |e.lastName| + |e.firstName| + 4 && s[..2] == "| "
    ensures s[2..2 + |e.lastName|] == e.lastName
    ensures s[2 + |e.lastName|..4 + |e.lastName|] == ", "
    ensures s[4 + |e.lastName|..] == e.firstName
  {
    "| " + e.lastName + ", " + e.firstName
  }

  /** The position of the first employee with `id`, as `Array.prototype.find` searches. */
  function FirstWithId(staff: seq<EmployeeView>, id: int): (r: Option<nat>)
    ensures r.None? <==> forall i :: 0 <= i < |staff| ==> staff[i].id != id
    ensures r.Some? ==> r.value < |staff| && staff[r.value].id == id
    ensures r.Some? ==> forall i :: 0 <= i < r.value ==> staff[i].id != id
  {
    if staff == [] then None
    else if staff[0].id == id then Some(0)
    else
      var r := FirstWithId(staff[1..], id);
      assert forall i :: 1 <= i < |staff| ==> staff[i] == staff[1..][i - 1];
      if r.None? then None else Some(r.value + 1)
  }

  class AppointmentsComponent {
    /** The displayed year. */
    var anio: int
    /** `displayedAppointmentsPerMonth`. */
    var columns: seq<seq<AppointmentView>>
    /** The employee list; `None` until the first fetch has answered. */
    var employees: Option<seq<EmployeeView>>

    /** The component as created, in the year the clock gives. */
    constructor (year: int)
      ensures anio == year && columns == seq(12, _ => []) && employees == None
    {
      anio := year;
      columns := seq(12, _ => []);
      employees := None;
    }

    /** `inc`: the next year, and the query for it. */
    method Inc() returns (q: YearQuery)
      modifies this`anio
      ensures anio == old(anio) + 1 && q == QueryFor(anio)
    {
      anio := anio + 1;
      q := QueryFor(anio);
    }

    /** `dec`: the previous year, and the query for it. */
    method Dec() returns (q: YearQuery)
      modifies this`anio
      ensures anio == old(anio) - 1 && q == QueryFor(anio)
    {
      anio := anio - 1;
      q := QueryFor(anio);
    }

    /**
     * The callback of `updateDisplayedColumns` once both lists have
     * arrived: stores the employees, starts twelve empty columns and
     * appends each appointment to its month's column. An appointment
     * without a month column throws; the columns then keep what was laid
     * out before it, and `complete` is false.
     */
    method OnFetched(fetched: seq<AppointmentView>, staff: seq<EmployeeView>) returns (complete: bool)
      modifies this`columns, this`employees
      ensures employees == Some(staff)
      ensures columns == Columns(fetched[..Placed(fetched)])
      ensures complete <==> Placed(fetched) == |fetched|
    {
      employees := Some(staff);
      columns := [];
      for b := 0 to 12
        invariant columns == seq(b, _ => []) && employees == Some(staff)
      {
        columns := columns + [[]];
      }
      assert columns == Columns([]);
      var i := 0;
      while i < |fetched|
        invariant 0 <= i <= Placed(fetched)
        invariant columns == Columns(fetched[..i]) && employees == Some(staff)
      {
        var column := MonthColumn(fetched[i].date);
        PlacedAt(fetched, i);
        if column.None? {
          return false;
        }
        ColumnsOfPrefix(fetched, i);
        columns := columns[column.value := columns[column.value] + [fetched[i]]];
        i := i + 1;
      }
      complete := true;
    }

    /**
     * `getEmployeeNameById`: the label of the first employee with that id;
     * `None` where it throws a `TypeError` (no employee list yet,
     * or no employee with that id).
     */
    function EmployeeNameById(id: int): (r: Option<string>)
      reads this
      ensures r.Some? <==> employees.Some? && exists i :: 0 <= i < |employees.value| && employees.value[i].id == id
      ensures r.Some? ==> r.value == NameLabel(employees.value[FirstWithId(employees.value, id).value])
    {
      match employees
      case None => None
      case Some(staff) =>
        var found := FirstWithId(staff, id);
        if found.None? then None else Some(NameLabel(staff[found.value]))
    }
  }

  /** After a complete refresh the columns hold every fetched appointment exactly once. */
  lemma RefreshPlacesAll(fetched: seq<AppointmentView>)
    requires Placed(fetched) == |fetched|
    ensures TotalSize(Columns(fetched)) == |fetched|
    ensures forall x, b :: x in fetched && 0 <= b < 12 ==>
              (x in Columns(fetched)[b] <==> MonthColumn(x.date) == Some(b))
  {
    forall i | 0 <= i < |fetched|
      ensures MonthColumn(fetched[i].date).Some?
    {
      PlacedBefore(fetched, i);
    }
    ColumnsSizeSum(fetched);
    forall x, b | x in fetched && 0 <= b < 12
      ensures x in Columns(fetched)[b] <==> MonthColumn(x.date) == Some(b)
    {
      ColumnMembers(fetched, b, x);
    }
  }
}
