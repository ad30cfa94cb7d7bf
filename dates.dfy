/** Calendar dates as the crawler reads them ("dd/mm/yyyy" on the site) and
    writes them ("yyyy-mm-dd" in the database), and the four date parsers the
    importers and transforms use. */
module Dates {
  import opened Common

  datatype Date = Date(year: int, month: int, day: int)

  predicate IsLeap(y: int) {
    y % 4 == 0 && (y % 100 != 0 || y % 400 == 0)
  }

  function DaysInMonth(y: int, m: int): (n: int)
    requires 1 <= m <= 12
    ensures 28 <= n <= 31
  {
    if m == 2 then (if IsLeap(y) then 29 else 28)
    else if m == 4 || m == 6 || m == 9 || m == 11 then 30
    else 31
  }

  /** A date Python's `datetime.date` accepts. */
  predicate ValidDate(d: Date) {
    1 <= d.year <= 9999 && 1 <= d.month <= 12 && 1 <= d.day <= DaysInMonth(d.year, d.month)
  }

  predicate DateLt(a: Date, b: Date) {
    a.year < b.year
    || (a.year == b.year && a.month < b.month)
    || (a.year == b.year && a.month == b.month && a.day < b.day)
  }

  // ---------------------------------------------------------------------------
  // Decimal digits

  function DigitVal(c: char): (n: int)
    requires IsDigit(c)
    ensures 0 <= n <= 9
  {
    c as int - '0' as int
  }

  function Digit(n: int): (c: char)
    requires 0 <= n <= 9
    ensures IsDigit(c) && DigitVal(c) == n
  {
    ('0' as int + n) as char
  }

  function Pow10(k: nat): (p: int)
    ensures p >= 1
  {
    if k == 0 then 1 else 10 * Pow10(k - 1)
  }

  /** The value of a string of ASCII digits. */
  function DigitsVal(s: string): (n: int)
    requires AllDigits(s)
    ensures 0 <= n < Pow10(|s|)
  {
    if s == [] then 0 else DigitsVal(s[..|s| - 1]) * 10 + DigitVal(s[|s| - 1])
  }

  lemma {:induction false} DigitsValTwo(s: string)
    requires |s| == 2 && AllDigits(s)
    ensures DigitsVal(s) == DigitVal(s[0]) * 10 + DigitVal(s[1])
  {
    assert s[..1][..0] == [];
  }

  function Pad2(n: int): (s: string)
    requires 0 <= n <= 99
    ensures |s| == 2 && AllDigits(s) && DigitsVal(s) == n
  {
    var s := [Digit(n / 10), Digit(n % 10)];
    DigitsValTwo(s);
    s
  }

  function Pad4(n: int): (s: string)
    requires 0 <= n <= 9999
    ensures |s| == 4 && AllDigits(s) && DigitsVal(s) == n
  {
    var s := Pad2(n / 100) + Pad2(n % 100);
    assert s[..3] == Pad2(n / 100) + [s[2]];
    assert s[..3][..2] == Pad2(n / 100);
    assert s[..2] == Pad2(n / 100);
    s
  }

  /** `strftime("%Y-%m-%d")`. */
  function Iso(d: Date): (s: string)
    requires ValidDate(d)
    ensures |s| == 10 && s[4] == '-' && s[7] == '-'
  {
    Pad4(d.year) + "-" + Pad2(d.month) + "-" + Pad2(d.day)
  }

  /** The site's own spelling, "dd/mm/yyyy". */
  function Dmy(d: Date): (s: string)
    requires ValidDate(d)
    ensures |s| == 10 && s[2] == '/' && s[5] == '/'
  {
    Pad2(d.day) + "/" + Pad2(d.month) + "/" + Pad4(d.year)
  }

  // ---------------------------------------------------------------------------
  // `datetime.strptime(s, "%d/%m/%Y")`

  /** `%d`: "1".."9", "01".."31" or a blank followed by a digit 1..9. */
  function DayToken(t: string): (r: Option<int>)
    ensures r.Some? ==> 1 <= r.value <= 31
  {
    if |t| == 1 && '1' <= t[0] <= '9' then Some(DigitVal(t[0]))
    else if |t| == 2 && t[0] == ' ' && '1' <= t[1] <= '9' then Some(DigitVal(t[1]))
    else if |t| == 2 && IsDigit(t[0]) && IsDigit(t[1])
            && 1 <= DigitVal(t[0]) * 10 + DigitVal(t[1]) <= 31
    then Some(DigitVal(t[0]) * 10 + DigitVal(t[1]))
    else None
  }

  /** `%m`: "1".."9" or "01".."12". */
  function MonthToken(t: string): (r: Option<int>)
    ensures r.Some? ==> 1 <= r.value <= 12
  {
    if |t| == 1 && '1' <= t[0] <= '9' then Some(DigitVal(t[0]))
    else if |t| == 2 && IsDigit(t[0]) && IsDigit(t[1])
            && 1 <= DigitVal(t[0]) * 10 + DigitVal(t[1]) <= 12
    then Some(DigitVal(t[0]) * 10 + DigitVal(t[1]))
    else None
  }

  /** `%Y`: exactly four digits. */
  function YearToken(t: string): (r: Option<int>)
    ensures r.Some? ==> 0 <= r.value <= 9999
  {
    if |t| == 4 && AllDigits(t) then Some(DigitsVal(t)) else None
  }

  /** Parses "dd/mm/yyyy"; `None` where Python raises `ValueError`
      (a malformed field, a day past the end of the month, year 0). */
  function Strptime(s: string): (r: Option<Date>)
    ensures r.Some? ==> ValidDate(r.value)
  {
    var parts := Split(s, '/');
    if |parts| != 3 then None
    else
      match (DayToken(parts[0]), MonthToken(parts[1]), YearToken(parts[2]))
      case (Some(d), Some(m), Some(y)) =>
        if 1 <= y && d <= DaysInMonth(y, m) then Some(Date(y, m, d)) else None
      case _ => None
  }

  lemma {:induction false} SplitPrefix(a: string, sep: char, rest: string)
    requires sep !in a
    ensures Split(a + [sep] + rest, sep) == [a] + Split(rest, sep)
  {
    if a == [] {
      assert a + [sep] + rest == [sep] + rest;
      assert ([sep] + rest)[1..] == rest;
    } else {
      assert (a + [sep] + rest)[1..] == a[1..] + [sep] + rest;
      SplitPrefix(a[1..], sep, rest);
      assert [a[0]] + a[1..] == a;
    }
  }

  /** Reading back what the site prints gives the same date. */
  lemma StrptimeDmy(d: Date)
    requires ValidDate(d)
    ensures Strptime(Dmy(d)) == Some(d)
  {
    var a, b, c := Pad2(d.day), Pad2(d.month), Pad4(d.year);
    assert Dmy(d) == a + ['/'] + (b + ['/'] + c);
    SplitPrefix(a, '/', b + ['/'] + c);
    SplitPrefix(b, '/', c);
    SplitNone(c, '/');
    assert Split(Dmy(d), '/') == [a, b, c];
    DayTokenPad2(d.day);
    MonthTokenPad2(d.month);
  }

  lemma DayTokenPad2(x: int)
    requires 1 <= x <= 31
    ensures DayToken(Pad2(x)) == Some(x)
  {
    DigitsValTwo(Pad2(x));
  }

  lemma MonthTokenPad2(x: int)
    requires 1 <= x <= 12
    ensures MonthToken(Pad2(x)) == Some(x)
  {
    DigitsValTwo(Pad2(x));
  }

  // ---------------------------------------------------------------------------
  // The ISO spelling orders like the calendar

  lemma DigitOrder(x: int, y: int)
    requires 0 <= x <= 9 && 0 <= y <= 9
    ensures StrLt([Digit(x)], [Digit(y)]) <==> x < y
  {
    assert [Digit(x)][1..] == [];
  }

  lemma Pad2Order(x: int, y: int)
    requires 0 <= x <= 99 && 0 <= y <= 99
    ensures StrLt(Pad2(x), Pad2(y)) <==> x < y
  {
    StrLtConcat([Digit(x / 10)], [Digit(y / 10)], [Digit(x % 10)], [Digit(y % 10)]);
    DigitOrder(x / 10, y / 10);
    DigitOrder(x % 10, y % 10);
  }

  lemma Pad4Order(x: int, y: int)
    requires 0 <= x <= 9999 && 0 <= y <= 9999
    ensures StrLt(Pad4(x), Pad4(y)) <==> x < y
  {
    StrLtConcat(Pad2(x / 100), Pad2(y / 100), Pad2(x % 100), Pad2(y % 100));
    Pad2Order(x / 100, y / 100);
    Pad2Order(x % 100, y % 100);
  }

  /** Comparing two stored "yyyy-mm-dd" strings, as the importers do, is
      comparing the dates. */
  lemma IsoOrder(a: Date, b: Date)
    requires ValidDate(a) && ValidDate(b)
    ensures StrLt(Iso(a), Iso(b)) <==> DateLt(a, b)
  {
    var ra := "-" + Pad2(a.month) + "-" + Pad2(a.day);
    var rb := "-" + Pad2(b.month) + "-" + Pad2(b.day);
    assert Iso(a) == Pad4(a.year) + ra;
    assert Iso(b) == Pad4(b.year) + rb;
    StrLtConcat(Pad4(a.year), Pad4(b.year), ra, rb);
    Pad4Order(a.year, b.year);
    assert Pad4(a.year) == Pad4(b.year) <==> a.year == b.year;
    MonthDayOrder(a.month, a.day, b.month, b.day);
  }

  /** The "-mm-dd" tail orders by month, then day. */
  lemma MonthDayOrder(m: int, d: int, m': int, d': int)
    requires 0 <= m <= 99 && 0 <= d <= 99 && 0 <= m' <= 99 && 0 <= d' <= 99
    ensures StrLt("-" + Pad2(m) + "-" + Pad2(d), "-" + Pad2(m') + "-" + Pad2(d')) <==>
              m < m' || (m == m' && d < d')
  {
    var sa := Pad2(m) + ("-" + Pad2(d));
    var sb := Pad2(m') + ("-" + Pad2(d'));
    assert "-" + Pad2(m) + "-" + Pad2(d) == "-" + sa;
    assert "-" + Pad2(m') + "-" + Pad2(d') == "-" + sb;
    StrLtConcat("-", "-", sa, sb);
    StrLtIrreflexive("-");
    StrLtConcat(Pad2(m), Pad2(m'), "-" + Pad2(d), "-" + Pad2(d'));
    Pad2Order(m, m');
    assert Pad2(m) == Pad2(m') <==> m == m';
    StrLtConcat("-", "-", Pad2(d), Pad2(d'));
    Pad2Order(d, d');
  }

  // ---------------------------------------------------------------------------
  // The parsers

  /** `parse_date` of the v2 importer: an empty value gives `None`, a value
      already shaped like "yyyy-mm-dd" (ten characters, '-' fifth) is kept
      as it is, anything else goes through `strptime("%d/%m/%Y")`. */
  function ParseDateV2(s: Option<string>): (r: Option<string>)
    ensures !Truthy(s) ==> r.None?
    ensures r.Some? ==> |r.value| == 10 && r.value[4] == '-'
    ensures Truthy(s) && |s.value| == 10 && s.value[4] == '-' ==> r == s
    ensures Truthy(s) && !(|s.value| == 10 && s.value[4] == '-') ==>
              (r.Some? <==> Strptime(s.value).Some?)
              && (r.Some? ==> r.value == Iso(Strptime(s.value).value))
  {
    if !Truthy(s) then None
    else if |s.value| == 10 && s.value[4] == '-' then s
    else
      match Strptime(s.value)
      case Some(d) => Some(Iso(d))
      case None => None
  }

  /** Parsing a parsed date changes nothing. */
  lemma ParseDateV2Idempotent(s: Option<string>)
    ensures ParseDateV2(ParseDateV2(s)) == ParseDateV2(s)
  {
  }

  /** The v2 parser on the site's spelling gives the ISO spelling. */
  lemma ParseDateV2Dmy(d: Date)
    requires ValidDate(d)
    ensures ParseDateV2(Some(Dmy(d))) == Some(Iso(d))
  {
    StrptimeDmy(d);
  }

  /** `parse_date` of the link upserter: `strptime` only. */
  function ParseDateStrict(s: string): (r: Option<string>)
    ensures s == "" ==> r.None?
    ensures s != "" ==> (r.Some? <==> Strptime(s).Some?)
    ensures r.Some? ==> exists d :: ValidDate(d) && Strptime(s) == Some(d) && r.value == Iso(d)
  {
    if s == "" then None
    else
      match Strptime(s)
      case Some(d) => Some(Iso(d))
      case None => None
  }

  /** `parse_date` of the transforms: split on '/' and reorder the three
      parts, with no check that they are numbers. */
  function ParseDateSplit(s: Option<string>): (r: Option<string>)
    ensures !Truthy(s) || s.value == "Dữ liệu đang cập nhật" ==> r.None?
    ensures Truthy(s) && s.value != "Dữ liệu đang cập nhật" ==>
              var parts := Split(s.value, '/');
              (r.Some? <==> |parts| == 3)
              && (r.Some? ==> r.value == parts[2] + "-" + parts[1] + "-" + parts[0])
    ensures r.Some? ==> CountChar(s.value, '/') == 2
  {
    if !Truthy(s) || s.value == "Dữ liệu đang cập nhật" then None
    else
      var parts := Split(s.value, '/');
      if |parts| == 3 then Some(parts[2] + "-" + parts[1] + "-" + parts[0]) else None
  }

  /** On zero-padded site dates the splitting parser agrees with `strptime`. */
  lemma ParseDateSplitDmy(d: Date)
    requires ValidDate(d)
    ensures ParseDateSplit(Some(Dmy(d))) == Some(Iso(d))
  {
    var a, b, c := Pad2(d.day), Pad2(d.month), Pad4(d.year);
    assert Dmy(d) == a + ['/'] + (b + ['/'] + c);
    SplitPrefix(a, '/', b + ['/'] + c);
    SplitPrefix(b, '/', c);
    SplitNone(c, '/');
    assert Dmy(d) != "Dữ liệu đang cập nhật" by {
      assert Dmy(d)[2] == '/';
    }
  }
}
