/** The earnings calendar's date arithmetic and row selection
    (src/components/EarningsCalendar.js:15-70): the rows sorted by date, the
    distinct dates, the parsing of "YYYY-MM-DD" strings into local dates,
    the Monday-to-Sunday week and the calendar month around the selected
    date, and the rows of the selected range with their holdings and
    popular subsets. Dates are day ordinals (see Dates); a range from local
    midnight of its first day to 23:59:59.999 of its last day holds a local
    midnight exactly when its day lies between the two days. */
module EarningsCalendar {
  import opened Common
  import opened Sorting
  import opened Dates

  datatype EarningsRow = EarningsRow(date: string, symbol: string, company: string)

  const PopularSymbols: seq<string> := ["AAPL", "MSFT", "GOOGL", "TSLA", "AMZN", "NVDA"]

  predicate DateLe(a: EarningsRow, b: EarningsRow)
  {
    StrLe(a.date, b.date)
  }

  /** `allRows`: a copy of the rows sorted by date string, stably. */
  function AllRows(rows: seq<EarningsRow>): (r: seq<EarningsRow>)
    ensures multiset(r) == multiset(rows)
    ensures forall i, j :: 0 <= i < j < |r| ==> StrLe(r[i].date, r[j].date)
    ensures KeepsTiesInOrder(r, rows, DateLe)
  {
    StrLeIsTotalPreorder();
    assert TotalPreorder(DateLe);
    SortSorted(rows, DateLe);
    SortStable(rows, DateLe);
    Sort(rows, DateLe)
  }

  lemma TiedIsSameDate(x: EarningsRow, y: EarningsRow)
    ensures DateLe(x, y) && DateLe(y, x) <==> y.date == x.date
  {
    if DateLe(x, y) && DateLe(y, x) {
      StrLeAntisymmetric(x.date, y.date);
    }
    StrLeReflexive(x.date);
  }

  /** Rows sharing a date keep their listed order (AAPL before MSFT on
      2025-08-18). */
  lemma SameDateKeepsOrder(rows: seq<EarningsRow>, x: EarningsRow)
    ensures Filter(AllRows(rows), (y: EarningsRow) => y.date == x.date) == Filter(rows, (y: EarningsRow) => y.date == x.date)
  {
    var tied := TiedWith(DateLe, x);
    assert Filter(AllRows(rows), tied) == Filter(rows, tied);
    forall y ensures tied(y) == (y.date == x.date) {
      TiedIsSameDate(x, y);
    }
    FilterAgree(AllRows(rows), tied, (y: EarningsRow) => y.date == x.date);
    FilterAgree(rows, tied, (y: EarningsRow) => y.date == x.date);
  }

  function RowDates(rows: seq<EarningsRow>): (r: seq<string>)
    ensures |r| == |rows|
    ensures forall i :: 0 <= i < |r| ==> r[i] == rows[i].date
  {
    seq(|rows|, i requires 0 <= i < |rows| => rows[i].date)
  }

  /** `dates`: the distinct row dates in ascending order. */
  function CalendarDates(all: seq<EarningsRow>): (r: seq<string>)
    ensures forall d :: d in r <==> exists i :: 0 <= i < |all| && all[i].date == d
    ensures forall i, j :: 0 <= i < j < |r| ==> StrLt(r[i], r[j])
  {
    var dates := RowDates(all);
    assert forall d :: d in dates <==> exists i :: 0 <= i < |all| && all[i].date == d by {
      forall d | exists i :: 0 <= i < |all| && all[i].date == d ensures d in dates {
        var i :| 0 <= i < |all| && all[i].date == d;
        assert dates[i] == d;
      }
    }
    SortedNames(Distinct(dates))
  }

  /** The initial selection, `dates[0] || null`; the empty string stands for
      no selection. */
  function InitialSelection(dates: seq<string>): (s: string)
    ensures dates == [] ==> s == ""
    ensures dates != [] ==> s == dates[0]
  {
    if dates == [] then "" else dates[0]
  }

  // ---------------------------------------------------------------------
  // Parsing "YYYY-MM-DD"
  // ---------------------------------------------------------------------

  /** `s.split(sep)`: the pieces between separators, an empty piece where
      two separators meet or at either end. */
  function Split(s: string, sep: char): (r: seq<string>)
    ensures |r| >= 1
    ensures forall i :: 0 <= i < |r| ==> sep !in r[i]
  {
    if s == [] then [""]
    else
      var rest := Split(s[1..], sep);
      if s[0] == sep then [""] + rest
      else [[s[0]] + rest[0]] + rest[1..]
  }

  /** `parts.join(sep)`. */
  function Join(parts: seq<string>, sep: char): string
    requires |parts| >= 1
  {
    if |parts| == 1 then parts[0] else parts[0] + [sep] + Join(parts[1..], sep)
  }

  /** Joining the pieces with the separator gives back the string. */
  lemma {:induction false} JoinSplit(s: string, sep: char)
    ensures Join(Split(s, sep), sep) == s
  {
    if s != [] {
      JoinSplit(s[1..], sep);
      var rest := Split(s[1..], sep);
      if s[0] == sep {
        assert ([""] + rest)[1..] == rest;
      } else {
        var r := [[s[0]] + rest[0]] + rest[1..];
        if |rest| > 1 {
          assert r[1..] == rest[1..];
        }
      }
    }
  }

  /** Splitting pieces free of the separator after joining them gives back
      the pieces. */
  lemma {:induction false} SplitJoin(parts: seq<string>, sep: char)
    requires |parts| >= 1
    requires forall i :: 0 <= i < |parts| ==> sep !in parts[i]
    ensures Split(Join(parts, sep), sep) == parts
    decreases |parts|, |parts[0]|
  {
    var p := parts[0];
    if p == [] {
      if |parts| > 1 {
        SplitJoin(parts[1..], sep);
        assert Join(parts, sep) == [sep] + Join(parts[1..], sep);
        assert Join(parts, sep)[1..] == Join(parts[1..], sep);
        assert [""] + parts[1..] == parts;
      }
    } else {
      var shorter := [p[1..]] + parts[1..];
      assert shorter[1..] == parts[1..];
      assert forall i :: 0 <= i < |shorter| ==> sep !in shorter[i] by {
        assert forall c :: c in p[1..] ==> c in p;
      }
      SplitJoin(shorter, sep);
      assert Join(parts, sep) == [p[0]] + Join(shorter, sep) by {
        if |parts| == 1 {
          assert p == [p[0]] + p[1..];
        } else {
          assert p + [sep] + Join(parts[1..], sep) == [p[0]] + (p[1..] + [sep] + Join(parts[1..], sep));
        }
      }
      assert Join(parts, sep)[1..] == Join(shorter, sep);
      assert p[0] != sep;
      assert p == [p[0]] + p[1..];
      assert [[p[0]] + p[1..]] + parts[1..] == parts;
    }
  }

  predicate IsDigit(c: char)
  {
    '0' as int <= c as int <= '9' as int
  }

  function DecimalValue(s: string): (n: nat)
    requires forall i :: 0 <= i < |s| ==> IsDigit(s[i])
  {
    if s == [] then 0
    else
      assert IsDigit(s[|s| - 1]);
      10 * DecimalValue(s[..|s| - 1]) + (s[|s| - 1] as int - '0' as int)
  }

  /** `Number(s)` on strings of decimal digits, the empty string reading as
      zero; any other string is NaN (None). */
  function JsNumber(s: string): (r: Option<nat>)
    ensures r.Some? <==> forall i :: 0 <= i < |s| ==> IsDigit(s[i])
    ensures s == "" ==> r == Some(0)
  {
    if forall i :: 0 <= i < |s| ==> IsDigit(s[i]) then Some(DecimalValue(s)) else None
  }

  /** Leading zeros do not change the value. */
  lemma {:induction false} LeadingZero(s: string)
    requires forall i :: 0 <= i < |s| ==> IsDigit(s[i])
    ensures DecimalValue("0" + s) == DecimalValue(s)
  {
    if s != [] {
      var t := "0" + s;
      assert t[..|t| - 1] == "0" + s[..|s| - 1];
      LeadingZero(s[..|s| - 1]);
    }
  }

  /** Day number `day` of month `m` of year `y`, counted on from the
      month's first day: the calendar date JavaScript's `Date` rolls an
      out-of-range day number over to. */
  function RollDays(y: int, m: int, day: int): (r: Date)
    requires 1 <= m <= 12
    ensures ValidDate(r)
    ensures Ordinal(r) == DayNumber(y, m, day)
    decreases if day >= 1 then 0 else 1, if day >= 1 then day else -day
  {
    if day < 1 then
      var py := if m == 1 then y - 1 else y;
      var pm := if m == 1 then 12 else m - 1;
      RollBack(y, m, day);
      RollDays(py, pm, day + DaysInMonth(py, pm))
    else if day > DaysInMonth(y, m) then
      RollForward(y, m, day);
      var ny := if m == 12 then y + 1 else y;
      var nm := if m == 12 then 1 else m + 1;
      RollDays(ny, nm, day - DaysInMonth(y, m))
    else Date(y, m, day)
  }

  /** Day `day` of month `m` is day `day + n` of the previous month, whose
      length is `n`. */
  lemma RollBack(y: int, m: int, day: int)
    requires 1 <= m <= 12
    ensures var py := if m == 1 then y - 1 else y;
      var pm := if m == 1 then 12 else m - 1;
      DayNumber(py, pm, day + DaysInMonth(py, pm)) == DayNumber(y, m, day)
  {
    var py := if m == 1 then y - 1 else y;
    var pm := if m == 1 then 12 else m - 1;
    NextMonthStart(py, pm);
  }

  /** Day `day` of month `m`, whose length is `n`, is day `day - n` of the
      next month. */
  lemma RollForward(y: int, m: int, day: int)
    requires 1 <= m <= 12
    ensures var ny := if m == 12 then y + 1 else y;
      var nm := if m == 12 then 1 else m + 1;
      DayNumber(ny, nm, day - DaysInMonth(y, m)) == DayNumber(y, m, day)
  {
    NextMonthStart(y, m);
  }

  /** The calendar date `new Date(y, monthIndex, day)` falls on, before the
      time-value range is checked (that check is `InTimeRange`). */
  function LocalDate(y: int, monthIndex: int, day: int): (r: Date)
    ensures ValidDate(r)
    ensures Ordinal(r) == JsLocalDay(y, monthIndex, day)
  {
    RollDays(FullYear(y) + monthIndex / 12, monthIndex % 12 + 1, day)
  }

  /** A valid date outside the two-digit years is its own `new Date`. */
  lemma LocalDateOfValid(d: Date)
    requires ValidDate(d) && !(0 <= d.year <= 99)
    ensures LocalDate(d.year, d.month - 1, d.day) == d
  {
    assert (d.month - 1) / 12 == 0 && (d.month - 1) % 12 + 1 == d.month;
  }

  /** The piece at `i`, or None (`undefined`) past the end. */
  function Piece(parts: seq<string>, i: nat): (r: Option<string>)
    ensures i < |parts| ==> r == Some(parts[i])
    ensures i >= |parts| ==> r.None?
  {
    if i < |parts| then Some(parts[i]) else None
  }

  function NumberOf(piece: Option<string>): Option<nat>
  {
    if piece.Some? then JsNumber(piece.value) else None
  }

  /** ECMAScript's TimeClip: a time value more than 8.64e15 ms, that is
      10^8 days, from the epoch makes an Invalid Date. */
  const MaxDays: int := 100_000_000

  predicate InTimeRange(day: int)
  {
    -MaxDays <= day <= MaxDays
  }

  /** The numbers `s.split('-').map(Number)` gives for year, month and
      day, or None when one of the first three pieces is missing (read as
      `undefined`, whose Number is NaN) or is not a number. */
  function YmdFields(s: string): (r: Option<(nat, nat, nat)>)
    ensures r.Some? <==>
      var parts := Split(s, '-');
      |parts| >= 3 && JsNumber(parts[0]).Some? && JsNumber(parts[1]).Some? && JsNumber(parts[2]).Some?
    ensures r.Some? ==>
      var parts := Split(s, '-');
      r.value == (JsNumber(parts[0]).value, JsNumber(parts[1]).value, JsNumber(parts[2]).value)
  {
    var parts := Split(s, '-');
    var y := NumberOf(Piece(parts, 0));
    var m := NumberOf(Piece(parts, 1));
    var dd := NumberOf(Piece(parts, 2));
    if y.Some? && m.Some? && dd.Some? then Some((y.value, m.value, dd.value)) else None
  }

  /** The local day `new Date(y, m - 1, dd)` names lies in the time-value
      range. */
  predicate FieldsInTimeRange(f: (nat, nat, nat))
  {
    InTimeRange(JsLocalDay(f.0, f.1 - 1, f.2))
  }

  /** `parseYMD(s)`: the local date `new Date(y, m - 1, dd)` of the first
      three '-'-separated numbers, or None (an Invalid Date) when those
      numbers are missing or the date lies outside the time-value range. */
  function ParseYmd(s: string): (r: Option<Date>)
    ensures r.Some? ==> ValidDate(r.value) && InTimeRange(Ordinal(r.value))
    ensures r.Some? <==> YmdFields(s).Some? && FieldsInTimeRange(YmdFields(s).value)
    ensures r.Some? ==>
      Ordinal(r.value) == JsLocalDay(YmdFields(s).value.0, YmdFields(s).value.1 - 1, YmdFields(s).value.2)
  {
    var fields := YmdFields(s);
    if fields.Some? && FieldsInTimeRange(fields.value)
    then Some(LocalDate(fields.value.0, fields.value.1 - 1, fields.value.2))
    else None
  }

  /** The source's own date strings parse to the dates they spell. */
  lemma ParsesMockDate()
    ensures ParseYmd("2025-08-18") == Some(Date(2025, 8, 18))
  {
    MockFields();
    MockOrdinal();
    LocalDateOfValid(Date(2025, 8, 18));
    assert FieldsInTimeRange((2025, 8, 18));
  }

  lemma MockFields()
    ensures YmdFields("2025-08-18") == Some((2025, 8, 18))
  {
    MockPieces();
    MockNumbers();
  }

  lemma MockOrdinal()
    ensures Ordinal(Date(2025, 8, 18)) == 20318
  {
    assert Leaps(2024) == 506 - 20 + 5;
    assert Leaps(1969) == 492 - 19 + 4;
  }

  lemma MockPieces()
    ensures Split("2025-08-18", '-') == ["2025", "08", "18"]
  {
    var parts := ["2025", "08", "18"];
    assert Join(parts, '-') == "2025-08-18";
    SplitJoin(parts, '-');
  }

  lemma MockNumbers()
    ensures JsNumber("2025") == Some(2025)
    ensures JsNumber("08") == Some(8)
    ensures JsNumber("18") == Some(18)
  {
    assert DecimalValue("2") == 2;
    assert "20"[..1] == "2" && DecimalValue("20") == 20;
    assert "202"[..2] == "20" && DecimalValue("202") == 202;
    assert "2025"[..3] == "202" && DecimalValue("2025") == 2025;
    assert DecimalValue("0") == 0 && "08"[..1] == "0" && DecimalValue("08") == 8;
    assert DecimalValue("1") == 1 && "18"[..1] == "1" && DecimalValue("18") == 18;
  }

  // ---------------------------------------------------------------------
  // Weeks and months
  // ---------------------------------------------------------------------

  /** `startOfWeekMon(d)`: back to the Monday of the week, a Sunday counting
      as the week's last day. */
  function StartOfWeekMon(n: int): (r: int)
    ensures Weekday(r) == 1
    ensures 0 <= n - r <= 6
    ensures Weekday(n) == 0 ==> r == n - 6
    ensures Weekday(n) >= 1 ==> n - r == Weekday(n) - 1
  {
    var day := Weekday(n);
    var diff := if day == 0 then -6 else 1 - day;
    WeekdayShift(n, diff);
    n + diff
  }

  lemma WeekdayShift(n: int, diff: int)
    requires diff == (if Weekday(n) == 0 then -6 else 1 - Weekday(n))
    ensures Weekday(n + diff) == 1
  {
  }

  /** `endOfWeekMon(d)`: the Sunday six days after that Monday. */
  function EndOfWeekMon(n: int): (r: int)
    ensures r == StartOfWeekMon(n) + 6
    ensures Weekday(r) == 0
    ensures 0 <= r - n <= 6
  {
    WeekdayOfSunday(StartOfWeekMon(n));
    StartOfWeekMon(n) + 6
  }

  lemma WeekdayOfSunday(monday: int)
    requires Weekday(monday) == 1
    ensures Weekday(monday + 6) == 0
  {
  }

  /** Two Mondays less than a week apart are the same day. */
  lemma MondaysCoincide(a: int, b: int)
    requires Weekday(a) == 1 && Weekday(b) == 1 && -6 <= a - b <= 6
    ensures a == b
  {
  }

  /** A day lies in the week of the anchor exactly when both weeks start on
      the same Monday. */
  lemma {:induction false} SameWeek(anchor: int, n: int)
    ensures StartOfWeekMon(anchor) <= n <= EndOfWeekMon(anchor) <==> StartOfWeekMon(n) == StartOfWeekMon(anchor)
  {
    var a := StartOfWeekMon(anchor);
    var b := StartOfWeekMon(n);
    if a <= n <= a + 6 {
      MondaysCoincide(a, b);
    }
  }

  /** `startOfMonth(d)`: day 1 of the date's month. */
  function StartOfMonth(d: Date): (r: int)
    requires ValidDate(d)
    ensures r == DayNumber(FullYear(d.year), d.month, 1)
  {
    MonthBounds(d.year, d.month);
    JsLocalDay(d.year, d.month - 1, 1)
  }

  /** `endOfMonth(d)`: day 0 of the next month, the month's last day. */
  function EndOfMonth(d: Date): (r: int)
    requires ValidDate(d)
    ensures r == StartOfMonth(d) + DaysInMonth(FullYear(d.year), d.month) - 1
  {
    MonthBounds(d.year, d.month);
    JsLocalDay(d.year, d.month, 0)
  }

  /** A valid date lies between the first and the last day of its month. */
  lemma WithinMonth(d: Date)
    requires ValidDate(d)
    ensures DayNumber(d.year, d.month, 1) <= Ordinal(d) <= DayNumber(d.year, d.month, 1) + DaysInMonth(d.year, d.month) - 1
  {
  }

  /** Months counted from year 0: a date's month number. */
  function MonthCount(y: int, m: int): int
  {
    12 * y + m - 1
  }

  /** Later months start later, by at least the length of the earlier
      month. */
  lemma {:induction false} MonthsAscend(y1: int, m1: int, y2: int, m2: int)
    requires 1 <= m1 <= 12 && 1 <= m2 <= 12
    requires MonthCount(y1, m1) < MonthCount(y2, m2)
    ensures DayNumber(y1, m1, 1) + DaysInMonth(y1, m1) <= DayNumber(y2, m2, 1)
    decreases MonthCount(y2, m2) - MonthCount(y1, m1)
  {
    NextMonthStart(y1, m1);
    var ny := if m1 == 12 then y1 + 1 else y1;
    var nm := if m1 == 12 then 1 else m1 + 1;
    if MonthCount(ny, nm) < MonthCount(y2, m2) {
      MonthsAscend(ny, nm, y2, m2);
    } else {
      assert ny == y2 && nm == m2;
    }
  }

  /** A day lies in the month of the anchor exactly when it has the anchor's
      year and month (for years JavaScript does not read as 19yy). */
  lemma SameMonth(anchor: Date, d: Date)
    requires ValidDate(anchor) && ValidDate(d) && !(0 <= anchor.year <= 99)
    ensures StartOfMonth(anchor) <= Ordinal(d) <= EndOfMonth(anchor) <==>
      d.year == anchor.year && d.month == anchor.month
  {
    var first := StartOfMonth(anchor);
    var last := EndOfMonth(anchor);
    assert FullYear(anchor.year) == anchor.year;
    assert first == DayNumber(anchor.year, anchor.month, 1);
    assert last == first + DaysInMonth(anchor.year, anchor.month) - 1;
    WithinMonth(d);
    if MonthCount(d.year, d.month) < MonthCount(anchor.year, anchor.month) {
      MonthsAscend(d.year, d.month, anchor.year, anchor.month);
      assert Ordinal(d) < first;
    } else if MonthCount(anchor.year, anchor.month) < MonthCount(d.year, d.month) {
      MonthsAscend(anchor.year, anchor.month, d.year, d.month);
      assert last < Ordinal(d);
    } else {
      assert d.year == anchor.year && d.month == anchor.month;
    }
  }

  // ---------------------------------------------------------------------
  // The selected range and its rows
  // ---------------------------------------------------------------------

  datatype View = DayView | WeekView | MonthView

  /** The range around the selected date: none without a selection, an
      invalid one (every comparison false) when the selection does not
      parse, otherwise the first and last day. */
  datatype Range = NoSelection | InvalidRange | Days(first: int, last: int)

  function RangeFor(selected: string, view: View): (r: Range)
    ensures selected == "" <==> r.NoSelection?
    ensures selected != "" && ParseYmd(selected).None? <==> r.InvalidRange?
    ensures r.Days? ==> r.first <= r.last
    ensures r.Days? && view == DayView ==> r.first == r.last == Ordinal(ParseYmd(selected).value)
    ensures r.Days? && view == WeekView ==>
      var a := Ordinal(ParseYmd(selected).value);
      Weekday(r.first) == 1 && r.last == r.first + 6 && r.first <= a <= r.last
    ensures r.Days? && view == MonthView && !(0 <= ParseYmd(selected).value.year <= 99) ==>
      var a := ParseYmd(selected).value;
      r.first == DayNumber(a.year, a.month, 1) && r.last == r.first + DaysInMonth(a.year, a.month) - 1
  {
    if selected == "" then NoSelection
    else match ParseYmd(selected)
      case None => InvalidRange
      case Some(anchor) =>
        match view
        case DayView => Days(Ordinal(anchor), Ordinal(anchor))
        case WeekView => Days(StartOfWeekMon(Ordinal(anchor)), EndOfWeekMon(Ordinal(anchor)))
        case MonthView => Days(StartOfMonth(anchor), EndOfMonth(anchor))
  }

  predicate InRange(range: Range, row: EarningsRow)
  {
    range.Days? && ParseYmd(row.date).Some? &&
    range.first <= Ordinal(ParseYmd(row.date).value) <= range.last
  }

  /** `rows`: the sorted rows whose parsed date lies in the range, in
      order; none without a valid range. */
  function RangeRows(all: seq<EarningsRow>, range: Range): (r: seq<EarningsRow>)
    ensures !range.Days? ==> r == []
    ensures forall row :: row in r <==> row in all && InRange(range, row)
    ensures Subsequence(r, all)
    ensures forall row :: multiset(r)[row] == if InRange(range, row) then multiset(all)[row] else 0
  {
    var keep := (row: EarningsRow) => InRange(range, row);
    assert forall row :: keep(row) == InRange(range, row);
    FilterCount(all, keep);
    FilterMember(all, keep);
    FilterIsSubsequence(all, keep);
    NoneInRange(all, range);
    Filter(all, keep)
  }

  lemma NoneInRange(all: seq<EarningsRow>, range: Range)
    ensures !range.Days? ==> Filter(all, (row: EarningsRow) => InRange(range, row)) == []
  {
    if !range.Days? {
      FilterNoneKept(all, (row: EarningsRow) => InRange(range, row));
    }
  }

  /** A row is shown for a range of days exactly when its date parses to
      a day inside it. */
  lemma RowsInDays(all: seq<EarningsRow>, range: Range, row: EarningsRow, first: int, last: int)
    requires range == Days(first, last)
    ensures row in RangeRows(all, range) <==>
      row in all && ParseYmd(row.date).Some? && first <= Ordinal(ParseYmd(row.date).value) <= last
  {
  }

  /** Day view: exactly the rows dated the selected day. */
  lemma DayViewRows(all: seq<EarningsRow>, selected: string, row: EarningsRow)
    ensures selected != "" && ParseYmd(selected).Some? ==>
      (row in RangeRows(all, RangeFor(selected, DayView)) <==>
       row in all && ParseYmd(row.date) == ParseYmd(selected))
  {
    if selected != "" && ParseYmd(selected).Some? {
      var a := ParseYmd(selected).value;
      var range := RangeFor(selected, DayView);
      assert range == Days(Ordinal(a), Ordinal(a));
      RowsInDays(all, range, row, Ordinal(a), Ordinal(a));
      var pd := ParseYmd(row.date);
      assert ParseYmd(selected) == Some(a);
      if pd.Some? {
        var day := Ordinal(pd.value);
        OrdinalInjective(pd.value, a);
        assert Ordinal(a) <= day <= Ordinal(a) <==> pd.value == a;
        assert pd == Some(a) <==> pd.value == a;
      } else {
        assert pd != Some(a);
      }
    }
  }

  /** Two valid dates have the same ordinal exactly when they are the same
      date. */
  lemma OrdinalInjective(a: Date, b: Date)
    ensures ValidDate(a) && ValidDate(b) ==> (Ordinal(a) == Ordinal(b) <==> a == b)
  {
    if ValidDate(a) && ValidDate(b) && Ordinal(a) == Ordinal(b) {
      WithinMonth(a);
      WithinMonth(b);
      if MonthCount(a.year, a.month) < MonthCount(b.year, b.month) {
        MonthsAscend(a.year, a.month, b.year, b.month);
      } else if MonthCount(b.year, b.month) < MonthCount(a.year, a.month) {
        MonthsAscend(b.year, b.month, a.year, a.month);
      } else {
        MonthCountInjective(a.year, a.month, b.year, b.month);
      }
    }
  }

  lemma MonthCountInjective(y1: int, m1: int, y2: int, m2: int)
    requires 1 <= m1 <= 12 && 1 <= m2 <= 12 && MonthCount(y1, m1) == MonthCount(y2, m2)
    ensures y1 == y2 && m1 == m2
  {
  }

  /** Week view: exactly the rows of the Monday-to-Sunday week of the
      selected day. */
  lemma WeekViewRows(all: seq<EarningsRow>, selected: string, row: EarningsRow)
    ensures selected != "" && ParseYmd(selected).Some? ==>
      (row in RangeRows(all, RangeFor(selected, WeekView)) <==>
       row in all && ParseYmd(row.date).Some? &&
       StartOfWeekMon(Ordinal(ParseYmd(row.date).value)) == StartOfWeekMon(Ordinal(ParseYmd(selected).value)))
  {
    if selected != "" && ParseYmd(selected).Some? {
      var anchor := ParseYmd(selected).value;
      var range := RangeFor(selected, WeekView);
      assert range == Days(StartOfWeekMon(Ordinal(anchor)), EndOfWeekMon(Ordinal(anchor)));
      RowsInDays(all, range, row, StartOfWeekMon(Ordinal(anchor)), EndOfWeekMon(Ordinal(anchor)));
      var pd := ParseYmd(row.date);
      if pd.Some? {
        SameWeek(Ordinal(anchor), Ordinal(pd.value));
      }
    }
  }

  /** Month view: exactly the rows of the selected day's calendar month. */
  lemma MonthViewRows(all: seq<EarningsRow>, selected: string, row: EarningsRow)
    ensures selected != "" && ParseYmd(selected).Some? && !(0 <= ParseYmd(selected).value.year <= 99) ==>
      (row in RangeRows(all, RangeFor(selected, MonthView)) <==>
       row in all && ParseYmd(row.date).Some? &&
       ParseYmd(row.date).value.year == ParseYmd(selected).value.year &&
       ParseYmd(row.date).value.month == ParseYmd(selected).value.month)
  {
    if selected != "" && ParseYmd(selected).Some? && !(0 <= ParseYmd(selected).value.year <= 99) {
      var anchor := ParseYmd(selected).value;
      MonthRange(selected, anchor);
      MonthRowsOf(all, RangeFor(selected, MonthView), anchor, row);
    }
  }

  lemma MonthRange(selected: string, anchor: Date)
    requires selected != "" && ParseYmd(selected) == Some(anchor)
    ensures ValidDate(anchor)
    ensures RangeFor(selected, MonthView) == Days(StartOfMonth(anchor), EndOfMonth(anchor))
  {
  }

  /** The rows of the days of the anchor's month are those dated in its
      year and month. */
  lemma MonthRowsOf(all: seq<EarningsRow>, range: Range, anchor: Date, row: EarningsRow)
    requires ValidDate(anchor) && !(0 <= anchor.year <= 99)
    requires range == Days(StartOfMonth(anchor), EndOfMonth(anchor))
    ensures row in RangeRows(all, range) <==>
      row in all && ParseYmd(row.date).Some? &&
      ParseYmd(row.date).value.year == anchor.year && ParseYmd(row.date).value.month == anchor.month
  {
    RowsInDays(all, range, row, StartOfMonth(anchor), EndOfMonth(anchor));
    var pd := ParseYmd(row.date);
    if pd.Some? {
      SameMonth(anchor, pd.value);
    }
  }

  /** `holdingRows` and `popularRows`: the rows whose symbol is in the set,
      in order. */
  function RowsFor(rows: seq<EarningsRow>, symbols: seq<string>): (r: seq<EarningsRow>)
    ensures forall row :: row in r <==> row in rows && row.symbol in symbols
    ensures Subsequence(r, rows)
    ensures forall row :: multiset(r)[row] == if row.symbol in symbols then multiset(rows)[row] else 0
  {
    var keep := (row: EarningsRow) => row.symbol in symbols;
    FilterCount(rows, keep);
    FilterMember(rows, keep);
    FilterIsSubsequence(rows, keep);
    Filter(rows, keep)
  }

  /** The holdings and popular subsets of the rows. */
  function HoldingRows(rows: seq<EarningsRow>, holdings: seq<string>): (r: seq<EarningsRow>)
    ensures forall row :: row in r <==> row in rows && row.symbol in holdings
    ensures Subsequence(r, rows)
    ensures forall row :: multiset(r)[row] == if row.symbol in holdings then multiset(rows)[row] else 0
  {
    RowsFor(rows, holdings)
  }

  function PopularRows(rows: seq<EarningsRow>): (r: seq<EarningsRow>)
    ensures forall row :: row in r <==> row in rows && row.symbol in PopularSymbols
    ensures Subsequence(r, rows)
    ensures forall row :: multiset(r)[row] == if row.symbol in PopularSymbols then multiset(rows)[row] else 0
  {
    RowsFor(rows, PopularSymbols)
  }
}
