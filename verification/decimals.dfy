/** Hour amounts. `TimeEntry.hours` is a `DecimalField(max_digits=5,
    decimal_places=2)`, so the model keeps hours as whole hundredths and reads
    hour text as exact decimals with at most two fractional digits. */
module Decimals {
  import opened Wrappers
  import opened Text
  import opened Dates

  /** The largest magnitude five digits with two decimals can hold: 999.99. */
  const MaxHundredths: int := 99999

  /** Whether the column can store the amount; a larger one makes the write fail. */
  predicate FitsHoursColumn(h: int) {
    -MaxHundredths <= h <= MaxHundredths
  }

  /** The value of up to two fractional digits, in hundredths. */
  function FractionValue(f: string): nat
    requires AllDigits(f) && |f| <= 2
  {
    if |f| == 0 then 0
    else if |f| == 1 then DigitValue(f[0]) * 10
    else DigitValue(f[0]) * 10 + DigitValue(f[1])
  }

  /** Unsigned decimal text: digits with an optional `.`, at least one digit
      overall and at most two after the point. */
  function ParseMagnitude(body: string): Option<nat> {
    var parts := Split(body, '.');
    if |parts| > 2 then None
    else
      var ip := parts[0];
      var fp := if |parts| == 2 then parts[1] else "";
      if AllDigits(ip) && AllDigits(fp) && |ip| + |fp| >= 1 && |fp| <= 2
      then Some(RunValue(ip) * 100 + FractionValue(fp))
      else None
  }

  /** `float(text)` for decimal text: surrounding whitespace, an optional
      sign and an unsigned decimal. Text with more than two fractional
      digits, an exponent, underscores, `inf` or `nan` is refused by the
      model. */
  function ParseHours(text: string): Option<int> {
    var t := Strip(text);
    var signed := |t| > 0 && (t[0] == '-' || t[0] == '+');
    match ParseMagnitude(if signed then t[1..] else t)
    case None => None
    case Some(m) =>
      var v: int := m;
      Some(if signed && t[0] == '-' then -v else v)
  }

  /** `[-]<integer part>.<fraction>`. */
  function DecimalText(negative: bool, ip: string, fp: string): string {
    if negative then "-" + (ip + "." + fp) else ip + "." + fp
  }

  /** The parts of well-formed decimal text: a digit run, then one or two
      fractional digits. */
  predicate DecimalParts(ip: string, fp: string) {
    |ip| >= 1 && AllDigits(ip) && AllDigits(fp) && 1 <= |fp| <= 2
  }

  /** The hundredths the parts stand for. */
  function PartsValue(ip: string, fp: string): nat
    requires DecimalParts(ip, fp)
  {
    RunValue(ip) * 100 + FractionValue(fp)
  }

  /** Renders hundredths as `[-]<int>.<two digits>`, the way a decimal hour amount prints. */
  function FormatHours(h: int): string {
    var m: nat := if h < 0 then -h else h;
    DecimalText(h < 0, NatToString(m / 100), Padded(m % 100, 2))
  }

  /** Two fractional digits are worth their run value. */
  lemma FractionOfTwo(f: string)
    requires |f| == 2 && AllDigits(f)
    ensures FractionValue(f) == RunValue(f)
  {
    assert f[..1][..0] == [];
    assert RunValue(f[..1]) == DigitValue(f[0]);
    assert f[..|f| - 1] == f[..1];
    assert RunValue(f) == RunValue(f[..1]) * 10 + DigitValue(f[1]);
  }

  /** A rendered amount is well-formed decimal text worth its magnitude. */
  lemma FormatHoursParts(h: int)
    ensures var m: nat := if h < 0 then -h else h;
      var ip, fp := NatToString(m / 100), Padded(m % 100, 2);
      DecimalParts(ip, fp) && PartsValue(ip, fp) == m
  {
    var m: nat := if h < 0 then -h else h;
    FractionOfTwo(Padded(m % 100, 2));
  }

  /** Text with one point splits there into its two digit runs. */
  lemma SplitAtPoint(ip: string, fp: string)
    requires AllDigits(ip) && AllDigits(fp)
    ensures Split(ip + "." + fp, '.') == [ip, fp]
  {
    assert forall i :: 0 <= i < |ip| ==> ip[i] != '.';
    assert forall i :: 0 <= i < |fp| ==> fp[i] != '.';
    assert Join([ip, fp], '.') == ip + "." + fp;
    SplitJoin([ip, fp], '.');
  }

  /** Text splitting into an integer part and at most two fractional digits
      reads as their value. */
  lemma MagnitudeOfParts(body: string, ip: string, fp: string)
    requires Split(body, '.') == [ip, fp]
    requires AllDigits(ip) && AllDigits(fp) && |ip| >= 1 && |fp| <= 2
    ensures ParseMagnitude(body) == Some(RunValue(ip) * 100 + FractionValue(fp))
  {
  }

  /** Unsigned text without surrounding whitespace reads as its magnitude. */
  lemma ParseHoursOfPlain(body: string, m: nat)
    requires |body| > 0 && IsDigit(body[0]) && IsDigit(body[|body| - 1])
    requires ParseMagnitude(body) == Some(m)
    ensures ParseHours(body) == Some(m)
  {
    assert !IsSpace(body[0]) && !IsSpace(body[|body| - 1]);
    StripKeepsUnpadded(body);
    var t := Strip(body);
    assert t == body;
    assert !(t[0] == '-' || t[0] == '+');
  }

  /** A minus before such text negates it. */
  lemma ParseHoursOfNegated(body: string, m: nat)
    requires |body| > 0 && IsDigit(body[|body| - 1])
    requires ParseMagnitude(body) == Some(m)
    ensures ParseHours("-" + body) == Some(-(m as int))
  {
    var s := "-" + body;
    assert s[|s| - 1] == body[|body| - 1];
    assert !IsSpace(s[0]) && !IsSpace(s[|s| - 1]);
    StripKeepsUnpadded(s);
    var t := Strip(s);
    assert t == s && t[0] == '-';
    assert t[1..] == body;
  }

  /** Digits, a point and one or two digits read as their exact value. */
  lemma MagnitudeOfDecimal(ip: string, fp: string)
    requires DecimalParts(ip, fp)
    ensures ParseMagnitude(ip + "." + fp) == Some(PartsValue(ip, fp))
  {
    SplitAtPoint(ip, fp);
    MagnitudeOfParts(ip + "." + fp, ip, fp);
  }

  /** Unsigned decimal text reads as its magnitude. */
  lemma ParseUnsignedDecimal(ip: string, fp: string, m: nat)
    requires DecimalParts(ip, fp) && ParseMagnitude(ip + "." + fp) == Some(m)
    ensures ParseHours(ip + "." + fp) == Some(m)
  {
    var body := ip + "." + fp;
    assert body[0] == ip[0] && body[|body| - 1] == fp[|fp| - 1];
    ParseHoursOfPlain(body, m);
  }

  /** Decimal text after a minus reads as its magnitude negated. */
  lemma ParseNegatedDecimal(ip: string, fp: string, m: nat)
    requires DecimalParts(ip, fp) && ParseMagnitude(ip + "." + fp) == Some(m)
    ensures ParseHours("-" + (ip + "." + fp)) == Some(-(m as int))
  {
    var body := ip + "." + fp;
    assert body[|body| - 1] == fp[|fp| - 1];
    ParseHoursOfNegated(body, m);
  }

  /** Well-formed decimal text reads as its magnitude, negated after a minus. */
  lemma ParseDecimalText(negative: bool, ip: string, fp: string, m: nat)
    requires DecimalParts(ip, fp) && ParseMagnitude(ip + "." + fp) == Some(m)
    ensures ParseHours(DecimalText(negative, ip, fp)) == Some(if negative then -(m as int) else m)
  {
    if negative {
      ParseNegatedDecimal(ip, fp, m);
    } else {
      ParseUnsignedDecimal(ip, fp, m);
    }
  }

  /** The digits of a rendered amount read as its magnitude. */
  lemma FormattedMagnitude(h: int)
    ensures var m: nat := if h < 0 then -h else h;
      var ip, fp := NatToString(m / 100), Padded(m % 100, 2);
      DecimalParts(ip, fp) && ParseMagnitude(ip + "." + fp) == Some(m)
  {
    var m: nat := if h < 0 then -h else h;
    FormatHoursParts(h);
    MagnitudeOfDecimal(NatToString(m / 100), Padded(m % 100, 2));
  }

  /** Reading back a rendered amount gives the amount. */
  lemma ParseFormatHours(h: int)
    ensures ParseHours(FormatHours(h)) == Some(h)
  {
    var m: nat := if h < 0 then -h else h;
    FormattedMagnitude(h);
    ParseDecimalText(h < 0, NatToString(m / 100), Padded(m % 100, 2), m);
  }
}
