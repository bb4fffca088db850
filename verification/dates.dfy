/** Calendar dates as Python's `datetime.date` sees them: the proleptic
    Gregorian calendar, `date + timedelta(days=n)`, and the text forms the
    views read (`YYYY-MM-DD`, month and day possibly unpadded) and the
    templates write (`YYYY-MM-DD`, zero padded). */
module Dates {
  import opened Wrappers
  import opened Text

  datatype Date = Date(year: int, month: int, day: int)

  predicate LeapYear(y: int) {
    (y % 4 == 0 && y % 100 != 0) || y % 400 == 0
  }

  function DaysInMonth(y: int, m: int): int {
    if m == 2 then (if LeapYear(y) then 29 else 28)
    else if m == 4 || m == 6 || m == 9 || m == 11 then 30
    else 31
  }

  /** A real calendar day. */
  predicate Valid(d: Date) {
    1 <= d.month <= 12 && 1 <= d.day <= DaysInMonth(d.year, d.month)
  }

  /** The years `datetime.date` can represent. */
  predicate InPythonRange(d: Date) {
    1 <= d.year <= 9999
  }

  /** Calendar order (`a < b` on Python dates). */
  predicate Before(a: Date, b: Date) {
    || a.year < b.year
    || (a.year == b.year && (a.month < b.month || (a.month == b.month && a.day < b.day)))
  }

  predicate NotAfter(a: Date, b: Date) {
    a == b || Before(a, b)
  }

  /** An integer measure that grows with the calendar order. */
  function Rank(d: Date): int {
    d.year * 384 + d.month * 32 + d.day
  }

  lemma RankOrder(a: Date, b: Date)
    requires Valid(a) && Valid(b)
    ensures Before(a, b) <==> Rank(a) < Rank(b)
  {
  }

  /** The day after `d`. */
  function Next(d: Date): (r: Date)
    requires Valid(d)
    ensures Valid(r) && Before(d, r)
  {
    if d.day < DaysInMonth(d.year, d.month) then Date(d.year, d.month, d.day + 1)
    else if d.month < 12 then Date(d.year, d.month + 1, 1)
    else Date(d.year + 1, 1, 1)
  }

  /** No valid date lies strictly between a day and the next. */
  lemma NextIsImmediate(d: Date, e: Date)
    requires Valid(d) && Valid(e) && Before(d, e)
    ensures NotAfter(Next(d), e)
  {
  }

  /** `d + timedelta(days=n)`. Years past 9999 are not refused here. */
  function AddDays(d: Date, n: nat): (r: Date)
    requires Valid(d)
    ensures Valid(r)
    ensures n > 0 ==> Before(d, r)
  {
    if n == 0 then d else Next(AddDays(d, n - 1))
  }

  lemma {:induction false} AddDaysOrdered(d: Date, i: nat, j: nat)
    requires Valid(d) && i < j
    ensures Before(AddDays(d, i), AddDays(d, j))
  {
    if j == i + 1 {
    } else {
      AddDaysOrdered(d, i, j - 1);
      RankOrder(AddDays(d, i), AddDays(d, j - 1));
      RankOrder(AddDays(d, j - 1), AddDays(d, j));
      RankOrder(AddDays(d, i), AddDays(d, j));
    }
  }

  function Pow10(w: nat): nat {
    if w == 0 then 1 else 10 * Pow10(w - 1)
  }

  /** `n` written with exactly `w` digits, zero padded. */
  function Padded(n: nat, w: nat): (s: string)
    requires n < Pow10(w)
    ensures |s| == w
    ensures forall i :: 0 <= i < |s| ==> IsDigit(s[i])
    ensures RunValue(s) == n
  {
    if w == 0 then ""
    else
      var s := Padded(n / 10, w - 1) + [DigitChar(n % 10)];
      assert s[..|s| - 1] == Padded(n / 10, w - 1);
      s
  }

  /** `s` is `n` written with exactly `w` digits. */
  predicate Field(s: string, w: nat, n: int) {
    |s| == w && AllDigits(s) && RunValue(s) == n
  }

  lemma PaddedField(n: nat, w: nat)
    requires n < Pow10(w)
    ensures Field(Padded(n, w), w, n)
  {
  }

  /** A date read from text, as Django's `parse_date` reads it: four year
      digits, then one or two month digits and one or two day digits, joined
      by `-`. With `strict`, month and day need exactly two digits, as the
      date form of `datetime.fromisoformat` needs. Text that does not name a real date in
      years 1..9999 is refused. */
  function ParseDate(s: string, strict: bool): (r: Option<Date>)
    ensures r.Some? ==> Valid(r.value) && InPythonRange(r.value)
  {
    var parts := Split(s, '-');
    if |parts| != 3 then None
    else
      var y, m, d := parts[0], parts[1], parts[2];
      if !(|y| == 4 && AllDigits(y) && AllDigits(m) && AllDigits(d)) then None
      else if strict && !(|m| == 2 && |d| == 2) then None
      else if !(1 <= |m| <= 2 && 1 <= |d| <= 2) then None
      else
        var date := Date(RunValue(y), RunValue(m), RunValue(d));
        if Valid(date) && InPythonRange(date) then Some(date) else None
  }

  /** The `Y-m-d` rendering the templates use. */
  function FormatDate(d: Date): string
    requires Valid(d) && InPythonRange(d)
  {
    FieldsFit(d);
    DateText(Padded(d.year, 4), Padded(d.month, 2), Padded(d.day, 2))
  }

  /** The fields of a representable date fit their widths. */
  lemma FieldsFit(d: Date)
    requires Valid(d) && InPythonRange(d)
    ensures d.year < Pow10(4) && d.month < Pow10(2) && d.day < Pow10(2)
  {
    assert Pow10(2) == 100 && Pow10(4) == 10000;
  }

  /** Year, month and day fields joined by `-`. */
  function DateText(y: string, m: string, dd: string): string {
    y + "-" + m + "-" + dd
  }

  /** Digit runs joined by `-` split back into the runs. */
  lemma SplitDateText(y: string, m: string, dd: string)
    requires AllDigits(y) && AllDigits(m) && AllDigits(dd)
    ensures Split(DateText(y, m, dd), '-') == [y, m, dd]
  {
    assert forall i :: 0 <= i < |y| ==> y[i] != '-';
    assert forall i :: 0 <= i < |m| ==> m[i] != '-';
    assert forall i :: 0 <= i < |dd| ==> dd[i] != '-';
    assert Join([m, dd], '-') == m + ['-'] + dd;
    assert Join([y, m, dd], '-') == DateText(y, m, dd);
    SplitJoin([y, m, dd], '-');
  }

  /** Text splitting into a four-digit year and two-digit month and day
      reads as that date when it is a real one. */
  lemma ParseDateOfParts(s: string, y: string, m: string, dd: string, strict: bool)
    requires Split(s, '-') == [y, m, dd]
    requires |y| == 4 && |m| == 2 && |dd| == 2 && AllDigits(y) && AllDigits(m) && AllDigits(dd)
    requires Valid(Date(RunValue(y), RunValue(m), RunValue(dd)))
    requires InPythonRange(Date(RunValue(y), RunValue(m), RunValue(dd)))
    ensures ParseDate(s, strict) == Some(Date(RunValue(y), RunValue(m), RunValue(dd)))
  {
  }

  /** Padded fields of a real date, joined, read back as the date. */
  lemma ParseDateText(y: string, m: string, dd: string, d: Date, strict: bool)
    requires Valid(d) && InPythonRange(d)
    requires Field(y, 4, d.year) && Field(m, 2, d.month) && Field(dd, 2, d.day)
    ensures ParseDate(DateText(y, m, dd), strict) == Some(d)
  {
    SplitDateText(y, m, dd);
    ParseDateOfParts(DateText(y, m, dd), y, m, dd, strict);
  }

  /** The rendering is the three padded fields joined. */
  lemma FormatFields(d: Date) returns (y: string, m: string, dd: string)
    requires Valid(d) && InPythonRange(d)
    ensures FormatDate(d) == DateText(y, m, dd)
    ensures Field(y, 4, d.year) && Field(m, 2, d.month) && Field(dd, 2, d.day)
  {
    FieldsFit(d);
    y, m, dd := Padded(d.year, 4), Padded(d.month, 2), Padded(d.day, 2);
    PaddedField(d.year, 4);
    PaddedField(d.month, 2);
    PaddedField(d.day, 2);
  }

  /** Reading back a rendered date gives the date, in both readings. */
  lemma ParseFormatDate(d: Date, strict: bool)
    requires Valid(d) && InPythonRange(d)
    ensures ParseDate(FormatDate(d), strict) == Some(d)
  {
    var y, m, dd := FormatFields(d);
    ParseDateText(y, m, dd, d, strict);
  }
}
