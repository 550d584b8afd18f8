/** The guard dashboard's month filter and month drop-down
    (visitor_portal/visitors/views.py, `dashboard`). A filter "YYYY-MM"
    narrows both visit lists to visits started in that calendar month; a
    malformed filter is ignored. MonthFilter is that intended behaviour;
    MonthFilterAsWritten adds the OverflowError the view does not catch. */
module Dashboard {
  import opened Wrappers
  import opened Text

  // ---------------------------------------------------------------- str.split

  /** str.split(sep) with a one-character separator: never empty, and the
      parts hold no separator. */
  function Split(s: string, sep: char): (parts: seq<string>)
    ensures |parts| >= 1
    ensures forall i :: 0 <= i < |parts| ==> sep !in parts[i]
  {
    if s == [] then [""]
    else
      var rest := Split(s[1..], sep);
      if s[0] == sep then [""] + rest else [[s[0]] + rest[0]] + rest[1..]
  }

  /** sep.join(parts). */
  function Join(parts: seq<string>, sep: char): string
    requires |parts| >= 1
  {
    if |parts| == 1 then parts[0] else parts[0] + [sep] + Join(parts[1..], sep)
  }

  /** Splitting loses nothing: joining the parts gives the input back. */
  lemma {:induction false} SplitJoin(s: string, sep: char)
    ensures Join(Split(s, sep), sep) == s
  {
    if s != [] {
      var rest := Split(s[1..], sep);
      SplitJoin(s[1..], sep);
      if s[0] == sep {
        assert Split(s, sep)[1..] == rest;
      } else {
        var parts := Split(s, sep);
        if |rest| == 1 {
          assert parts == [[s[0]] + rest[0]];
        } else {
          assert parts[1..] == rest[1..];
          assert Join(rest, sep) == rest[0] + [sep] + Join(rest[1..], sep);
        }
      }
    }
  }

  lemma {:induction false} SplitWithoutSep(a: string, sep: char)
    requires sep !in a
    ensures Split(a, sep) == [a]
  {
    if a != [] {
      SplitWithoutSep(a[1..], sep);
      assert [a[0]] + a[1..] == a;
    }
  }

  /** A text with exactly one separator splits into its two sides. */
  lemma {:induction false} SplitAround(a: string, b: string, sep: char)
    requires sep !in a && sep !in b
    ensures Split(a + [sep] + b, sep) == [a, b]
  {
    if a == [] {
      assert a + [sep] + b == [sep] + b;
      assert ([sep] + b)[1..] == b;
      SplitWithoutSep(b, sep);
    } else {
      var s := a + [sep] + b;
      assert s[1..] == a[1..] + [sep] + b;
      SplitAround(a[1..], b, sep);
      assert [a[0]] + a[1..] == a;
    }
  }

  // ---------------------------------------------------------------- int()

  /** A run of decimal digits in which single underscores may separate digits,
      as int() accepts it. */
  predicate DigitGroups(s: string) {
    && s != []
    && IsDigit(s[0]) && IsDigit(s[|s| - 1])
    && (forall i :: 0 <= i < |s| ==> IsDigit(s[i]) || s[i] == '_')
    && (forall i :: 0 <= i < |s| - 1 ==> !(s[i] == '_' && s[i + 1] == '_'))
  }

  function UnsignedValue(s: string): (r: Option<nat>)
    ensures r.Some? <==> DigitGroups(s)
  {
    if DigitGroups(s) then Some(DigitsValue(Digits(s))) else None
  }

  /** int(text) in base 10 on ASCII digits: surrounding whitespace, one
      optional sign, underscores between digits; None for the ValueError. */
  function ParseInt(text: string): (r: Option<int>)
    ensures r.Some? ==> Strip(text) != []
  {
    var s := Strip(text);
    if s == [] then None
    else if s[0] == '-' then
      match UnsignedValue(s[1..])
      case None => None
      case Some(n) => Some(-(n as int))
    else if s[0] == '+' then
      match UnsignedValue(s[1..])
      case None => None
      case Some(n) => Some(n)
    else
      match UnsignedValue(s)
      case None => None
      case Some(n) => Some(n)
  }

  /** int() reads back what str() writes, with or without leading zeros. */
  lemma ParseNatToString(n: nat)
    ensures ParseInt(NatToString(n)) == Some(n)
  {
    var s := NatToString(n);
    AllDigitsStrip(s);
    DigitsOfDigits(s);
    NatToStringRoundTrip(n);
    assert IsDigit(s[0]);
  }

  lemma ParseZeroPadded(n: nat)
    ensures ParseInt("0" + NatToString(n)) == Some(n)
  {
    var t := NatToString(n);
    var s := "0" + t;
    assert AllDigits(s) by {
      assert forall i :: 1 <= i < |s| ==> s[i] == t[i - 1];
    }
    AllDigitsStrip(s);
    DigitsOfDigits(s);
    ZeroPrefixValue(t);
    NatToStringRoundTrip(n);
  }

  // ---------------------------------------------------------------- the window

  /** A naive datetime, to the second: `second` counts from midnight. */
  datatype Instant = Instant(year: int, month: int, day: int, second: int)

  predicate ValidInstant(t: Instant) {
    1 <= t.month <= 12 && 1 <= t.day <= 31 && 0 <= t.second < 86400
  }

  /** datetime ordering: by date, then by time of day. */
  predicate Before(a: Instant, b: Instant) {
    || a.year < b.year
    || (a.year == b.year && a.month < b.month)
    || (a.year == b.year && a.month == b.month && a.day < b.day)
    || (a.year == b.year && a.month == b.month && a.day == b.day && a.second < b.second)
  }

  predicate NotBefore(a: Instant, b: Instant) {
    !Before(a, b)
  }

  /** The half-open range [start, end) that started_at__gte / __lt select. */
  datatype Window = Window(start: Instant, end: Instant)

  predicate InWindow(w: Window, t: Instant) {
    NotBefore(t, w.start) && Before(t, w.end)
  }

  /** datetime(year, month, 1) accepts years 1..9999 and months 1..12. */
  predicate ValidFirstOfMonth(year: int, month: int) {
    1 <= year <= 9999 && 1 <= month <= 12
  }

  function FirstOf(year: int, month: int): Instant {
    Instant(year, month, 1, 0)
  }

  /** The month's window: from its first day to the first day of the next
      month, December rolling over into January of the next year. None when
      either datetime cannot be built. */
  function MonthWindow(year: int, month: int): (w: Option<Window>)
    ensures w.Some? <==> ValidFirstOfMonth(year, month) && (month == 12 ==> year + 1 <= 9999)
    ensures w.Some? ==> w.value.start == FirstOf(year, month)
    ensures w.Some? && month < 12 ==> w.value.end == FirstOf(year, month + 1)
    ensures w.Some? && month == 12 ==> w.value.end == FirstOf(year + 1, 1)
  {
    if !ValidFirstOfMonth(year, month) then None
    else if month == 12 then
      if ValidFirstOfMonth(year + 1, 1) then Some(Window(FirstOf(year, month), FirstOf(year + 1, 1))) else None
    else Some(Window(FirstOf(year, month), FirstOf(year, month + 1)))
  }

  /** The window holds exactly the instants of that calendar month. */
  lemma WindowSelectsMonth(year: int, month: int, t: Instant)
    requires MonthWindow(year, month).Some?
    requires ValidInstant(t)
    ensures InWindow(MonthWindow(year, month).value, t) <==> t.year == year && t.month == month
  {
  }

  /** `year, month = map(int, filter.split('-'))`: exactly two parts, both integers. */
  function ParseYearMonth(filter: string): (r: Option<(int, int)>)
    ensures var p := Split(filter, '-');
      r.Some? <==> |p| == 2 && ParseInt(p[0]).Some? && ParseInt(p[1]).Some?
    ensures var p := Split(filter, '-');
      r.Some? ==> r.value == (ParseInt(p[0]).value, ParseInt(p[1]).value)
  {
    var parts := Split(filter, '-');
    if |parts| != 2 then None
    else
      match (ParseInt(parts[0]), ParseInt(parts[1]))
      case (Some(y), Some(m)) => Some((y, m))
      case _ => None
  }

  /** The window the raw `month` query parameter selects; None when there is
      no filter or it is malformed (the ValueError is swallowed). */
  function MonthFilter(raw: string): (w: Option<Window>)
    ensures var p := ParseYearMonth(Strip(raw));
      w.Some? <==> p.Some? && MonthWindow(p.value.0, p.value.1).Some?
    ensures var p := ParseYearMonth(Strip(raw));
      w.Some? ==> w == MonthWindow(p.value.0, p.value.1)
  {
    var filter := Strip(raw);
    if filter == [] then None
    else
      match ParseYearMonth(filter)
      case None => None
      case Some((y, m)) => MonthWindow(y, m)
  }

  /** int() only sees the stripped text. */
  lemma ParseIntSameStrip(x: string, y: string)
    requires Strip(x) == Strip(y)
    ensures ParseInt(x) == ParseInt(y)
  {
  }

  lemma ParseYearMonthAround(l: string, r: string)
    requires '-' !in l && '-' !in r
    ensures ParseYearMonth(l + "-" + r) ==
      if ParseInt(l).Some? && ParseInt(r).Some? then Some((ParseInt(l).value, ParseInt(r).value)) else None
  {
    assert l + "-" + r == l + ['-'] + r;
    SplitAround(l, r, '-');
  }

  /** For two dash-free sides, the stripped filter parses to their two
      `int()` values, or to nothing when either side is not an integer. */
  lemma FilterAround(a: string, b: string)
    requires '-' !in a && '-' !in b
    ensures ParseYearMonth(Strip(a + "-" + b)) ==
      if ParseInt(a).Some? && ParseInt(b).Some? then Some((ParseInt(a).value, ParseInt(b).value)) else None
  {
    var l, r := TrimLeft(a), TrimRight(b);
    assert a + "-" + b == a + ['-'] + b;
    StripAround(a, '-', b);
    assert Strip(a + "-" + b) == l + "-" + r;
    TrimLeftShape(a);
    TrimRightShape(b);
    assert '-' !in l && '-' !in r;
    ParseYearMonthAround(l, r);
    StripTrimLeft(a);
    StripTrimRight(b);
    ParseIntSameStrip(l, a);
    ParseIntSameStrip(r, b);
  }

  /** Every spelling int() accepts on either side of the dash selects its
      month: surrounding blanks, a sign, leading zeros and underscores are
      all allowed, and the filter is ignored exactly when a side is not an
      integer or the month's window cannot be built. */
  lemma MonthFilterSpelling(a: string, b: string)
    requires '-' !in a && '-' !in b
    ensures MonthFilter(a + "-" + b) ==
      if ParseInt(a).Some? && ParseInt(b).Some? then MonthWindow(ParseInt(a).value, ParseInt(b).value) else None
  {
    FilterAround(a, b);
  }

  // ---------------------------------------------------------------- as written

  /** CPython's datetime constructor converts year, month and day to a C int. */
  const IntMin: int := -0x8000_0000
  const IntMax: int := 0x7FFF_FFFF

  predicate FitsCInt(n: int) {
    IntMin <= n <= IntMax
  }

  /** An exception the dashboard view does not catch: the request fails. */
  datatype Crash = OverflowError

  /** The month filter as views.py runs it: `datetime(year, month, 1)` raises
      OverflowError, which the `except (ValueError, IndexError)` does not
      catch, when year or month does not fit a C int; every other failure
      is a caught ValueError and the filter is ignored. */
  function MonthFilterAsWritten(raw: string): (r: Result<Option<Window>, Crash>)
    ensures var p := ParseYearMonth(Strip(raw));
      r.Failure? <==> p.Some? && !(FitsCInt(p.value.0) && FitsCInt(p.value.1))
    ensures r.Success? ==> r.value == MonthFilter(raw)
  {
    var filter := Strip(raw);
    if filter == [] then Success(None)
    else
      match ParseYearMonth(filter)
      case None => Success(None)
      case Some((y, m)) =>
        if !FitsCInt(y) || !FitsCInt(m) then Failure(OverflowError) else Success(MonthWindow(y, m))
  }

  /** As written, two integer sides of which one does not fit a C int (as in
      `2024-99999999999`) crash the dashboard, where the filter with the
      intended behaviour ignores them. */
  lemma OverflowCrashes(a: string, b: string)
    requires '-' !in a && '-' !in b
    requires ParseInt(a).Some? && ParseInt(b).Some?
    requires !FitsCInt(ParseInt(a).value) || !FitsCInt(ParseInt(b).value)
    ensures MonthFilterAsWritten(a + "-" + b) == Failure(OverflowError)
    ensures MonthFilter(a + "-" + b) == None
  {
    FilterAround(a, b);
  }

  // ---------------------------------------------------------------- the drop-down

  /** calendar.month_name[1..12] in the default English locale. */
  const MonthNames: seq<string> := ["January", "February", "March", "April", "May", "June",
    "July", "August", "September", "October", "November", "December"]

  /** A month with two digits, as f"{month:02d}" writes it for 0..99. */
  function Pad2(m: nat): (r: string)
    ensures AllDigits(r) && r != []
    ensures DigitsValue(r) == m
    ensures m < 100 ==> |r| == 2
  {
    NatToStringRoundTrip(m);
    if m < 10 then
      ZeroPrefixValue(NatToString(m));
      "0" + NatToString(m)
    else
      assert Pow10(1) == 10 && Pow10(2) == 100;
      if m < 100 then NatToStringLength(m, 2); NatToString(m) else NatToString(m)
  }

  lemma DigitsHaveNoDash(s: string)
    requires AllDigits(s)
    ensures '-' !in s
  {
  }

  /** f"{year}-{month:02d}". */
  function MonthValue(year: int, month: nat): string {
    IntToString(year) + "-" + Pad2(month)
  }

  /** For a year of the calendar the value has one dash, between the year's
      digits and the month's two digits. */
  lemma MonthValueSplit(year: nat, month: nat)
    ensures Split(MonthValue(year, month), '-') == [NatToString(year), Pad2(month)]
  {
    var y, p := NatToString(year), Pad2(month);
    DigitsHaveNoDash(y);
    DigitsHaveNoDash(p);
    assert MonthValue(year, month) == y + ['-'] + p;
    SplitAround(y, p, '-');
  }

  datatype MonthOption = MonthOption(value: string, text: string)

  /** One drop-down entry: the value to filter by and the "Month YYYY" label. */
  function MonthEntry(year: int, month: nat): MonthOption
    requires 1 <= month <= 12
  {
    MonthOption(MonthValue(year, month), MonthNames[month - 1] + " " + IntToString(year))
  }

  /** The value of a drop-down entry parses back to its own year and month. */
  lemma {:induction false} MonthValueParses(year: nat, month: nat)
    ensures ParseYearMonth(MonthValue(year, month)) == Some((year as int, month as int))
  {
    MonthValueSplit(year, month);
    ParseNatToString(year);
    if month < 10 {
      ParseZeroPadded(month);
    } else {
      ParseNatToString(month);
    }
  }

  /** Selecting an entry of the drop-down filters by exactly that month's
      window (for December 9999 there is none, and the filter is ignored). */
  lemma MonthValueSelects(year: nat, month: nat)
    requires 1 <= month <= 12
    ensures MonthFilter(MonthValue(year, month)) == MonthWindow(year, month)
  {
    MonthValueParses(year, month);
    var y, p := NatToString(year), Pad2(month);
    var v := MonthValue(year, month);
    assert v == y + "-" + p;
    assert v[0] == y[0] && IsDigit(y[0]);
    assert v[|v| - 1] == p[|p| - 1] && IsDigit(p[|p| - 1]);
    StripUnchanged(v);
    assert Strip(v) == v;
    assert ParseYearMonth(Strip(v)) == Some((year as int, month as int));
  }

  /** December rolls over into January of the next year; December 9999
      has no next year, and its filter is ignored. */
  lemma DecemberRollsOver()
    ensures MonthFilter(MonthValue(2024, 12)) == Some(Window(FirstOf(2024, 12), FirstOf(2025, 1)))
    ensures MonthFilter(MonthValue(9999, 12)) == None
  {
    MonthValueSelects(2024, 12);
    MonthValueSelects(9999, 12);
  }

  /** A filter without the dash is ignored. */
  lemma YearAloneIgnored(year: nat)
    ensures MonthFilter(NatToString(year)) == None
  {
    var y := NatToString(year);
    DigitsHaveNoDash(y);
    AllDigitsStrip(y);
    SplitWithoutSep(y, '-');
  }

  /** Different years or months never share a drop-down value. */
  lemma MonthValueInjective(y1: nat, m1: nat, y2: nat, m2: nat)
    requires MonthValue(y1, m1) == MonthValue(y2, m2)
    ensures y1 == y2 && m1 == m2
  {
    MonthValueParses(y1, m1);
    MonthValueParses(y2, m2);
  }

  lemma DivMod12(k: int, j: int)
    requires 0 <= j < 12
    ensures (12 * k + j) / 12 == k && (12 * k + j) % 12 == j
  {
  }

  /** The twelve entries of one year, January first. */
  function YearEntries(year: int): (es: seq<MonthOption>)
    ensures |es| == 12
  {
    seq(12, j requires 0 <= j < 12 => MonthEntry(year, j + 1))
  }

  lemma PrefixSnoc<T>(s: seq<T>, n: nat)
    requires 1 <= n <= |s|
    ensures s[..n] == s[..n - 1] + [s[n - 1]]
  {
  }

  /** The inner loop of available_months: one year's twelve entries appended. */
  method AppendMonths(before: seq<MonthOption>, year: int) returns (months: seq<MonthOption>)
    ensures months == before + YearEntries(year)
  {
    months := before;
    for month := 1 to 13
      invariant months == before + YearEntries(year)[..month - 1]
    {
      PrefixSnoc(YearEntries(year), month);
      months := months + [MonthEntry(year, month)];
    }
    assert YearEntries(year)[..12] == YearEntries(year);
  }

  /** Last year's entries followed by this year's: entry i is month i % 12 + 1
      of year i / 12 counted from last year. */
  lemma TwoYears(currentYear: int)
    ensures var months := YearEntries(currentYear - 1) + YearEntries(currentYear);
      |months| == 24 && forall i :: 0 <= i < 24 ==> months[i] == MonthEntry(currentYear - 1 + i / 12, i % 12 + 1)
  {
    var months := YearEntries(currentYear - 1) + YearEntries(currentYear);
    forall i | 0 <= i < 24
      ensures months[i] == MonthEntry(currentYear - 1 + i / 12, i % 12 + 1)
    {
      if i < 12 {
        DivMod12(0, i);
        assert months[i] == YearEntries(currentYear - 1)[i];
      } else {
        DivMod12(1, i - 12);
        assert months[i] == YearEntries(currentYear)[i - 12];
      }
    }
  }

  /** available_months: the twelve months of last year, then of this year. */
  method AvailableMonths(currentYear: int) returns (months: seq<MonthOption>)
    ensures |months| == 24
    ensures forall i :: 0 <= i < 24 ==> months[i] == MonthEntry(currentYear - 1 + i / 12, i % 12 + 1)
  {
    months := [];
    for year := currentYear - 1 to currentYear + 1
      invariant months == if year == currentYear - 1 then [] else if year == currentYear then YearEntries(currentYear - 1)
        else YearEntries(currentYear - 1) + YearEntries(currentYear)
    {
      months := AppendMonths(months, year);
    }
    TwoYears(currentYear);
  }

  /** The drop-down lists 24 distinct months, last January first. */
  lemma AvailableMonthsDistinct(currentYear: nat, i: nat, j: nat)
    requires 1 <= currentYear
    requires i < j < 24
    ensures MonthEntry(currentYear - 1 + i / 12, i % 12 + 1).value != MonthEntry(currentYear - 1 + j / 12, j % 12 + 1).value
  {
    var yi, yj := currentYear - 1 + i / 12, currentYear - 1 + j / 12;
    assert i == 12 * (i / 12) + i % 12;
    assert j == 12 * (j / 12) + j % 12;
    if MonthValue(yi, i % 12 + 1) == MonthValue(yj, j % 12 + 1) {
      MonthValueInjective(yi, i % 12 + 1, yj, j % 12 + 1);
    }
  }

  lemma MarchLabel()
    ensures MonthEntry(2025, 3) == MonthOption("2025-03", "March 2025")
  {
  }
}
