/** The string handling the views rely on, with Python's semantics:
    `str.strip()`, `str.split(sep)`, `str.replace`, `str.startswith` and
    `int(text)`, plus the decimal rendering of integers used when the
    templates build form keys and when a ticket is shown as `#<n> - <title>`.
    Whitespace is the ASCII whitespace set Python recognises; other Unicode
    whitespace and non-ASCII digits are outside the model. */
module Text {
  import opened Wrappers

  predicate IsSpace(c: char) {
    c == ' ' || ('\t' <= c <= '\r') || ('\U{1C}' <= c <= '\U{1F}')
  }

  predicate IsDigit(c: char) {
    '0' <= c <= '9'
  }

  predicate AllDigits(s: string) {
    forall i :: 0 <= i < |s| ==> IsDigit(s[i])
  }

  function DigitValue(c: char): nat
    requires IsDigit(c)
  {
    (c as int) - ('0' as int)
  }

  function DigitChar(n: nat): (c: char)
    requires n < 10
    ensures IsDigit(c) && DigitValue(c) == n
  {
    ((('0' as int) + n) as char)
  }

  /** Drops leading whitespace. */
  function TrimLeft(s: string): (r: string)
    ensures |r| <= |s| && r == s[|s| - |r|..]
    ensures forall i :: 0 <= i < |s| - |r| ==> IsSpace(s[i])
    ensures |r| > 0 ==> !IsSpace(r[0])
  {
    if |s| > 0 && IsSpace(s[0]) then TrimLeft(s[1..]) else s
  }

  /** Drops trailing whitespace. */
  function TrimRight(s: string): (r: string)
    ensures |r| <= |s| && r == s[..|r|]
    ensures forall i :: |r| <= i < |s| ==> IsSpace(s[i])
    ensures |r| > 0 ==> !IsSpace(r[|r| - 1])
  {
    if |s| > 0 && IsSpace(s[|s| - 1]) then TrimRight(s[..|s| - 1]) else s
  }

  /** Python's `s.strip()`. */
  function Strip(s: string): string {
    TrimRight(TrimLeft(s))
  }

  lemma StripKeepsUnpadded(s: string)
    requires |s| > 0 && !IsSpace(s[0]) && !IsSpace(s[|s| - 1])
    ensures Strip(s) == s
  {
  }

  /** Stripping removes whitespace only: any other character is in the
      stripped text exactly when it is in the text. */
  lemma StripKeepsNonSpace(s: string, c: char)
    requires !IsSpace(c)
    ensures c in Strip(s) <==> c in s
  {
    var l := TrimLeft(s);
    var r := TrimRight(l);
    if c in s {
      var i :| 0 <= i < |s| && s[i] == c;
      assert l[i - (|s| - |l|)] == c;
      assert r[i - (|s| - |l|)] == c;
    }
    if c in r {
      var j :| 0 <= j < |r| && r[j] == c;
      assert s[j + (|s| - |l|)] == c;
    }
  }

  /** Python's `s.startswith(prefix)`. */
  predicate StartsWith(s: string, prefix: string) {
    |prefix| <= |s| && s[..|prefix|] == prefix
  }

  /** Python's `s.replace(a, b)` for one-character `a` and `b`. */
  function ReplaceChar(s: string, a: char, b: char): (r: string)
    ensures |r| == |s|
    ensures forall i :: 0 <= i < |s| ==> r[i] == (if s[i] == a then b else s[i])
  {
    if |s| == 0 then "" else [if s[0] == a then b else s[0]] + ReplaceChar(s[1..], a, b)
  }

  /** `ReplaceChar` is fixed by what it does at each position. */
  lemma ReplaceCharPointwise(s: string, a: char, b: char, t: string)
    requires |t| == |s| && forall i :: 0 <= i < |s| ==> t[i] == (if s[i] == a then b else s[i])
    ensures ReplaceChar(s, a, b) == t
  {
  }

  /** Replacing around one character touches only that character when the
      text on either side does not hold it. */
  lemma ReplaceAround(x: string, c: char, y: string, a: char, b: char)
    requires a !in x && a !in y
    ensures ReplaceChar(x + [c] + y, a, b) == x + [if c == a then b else c] + y
  {
    var s, t := x + [c] + y, x + [if c == a then b else c] + y;
    forall i | 0 <= i < |s|
      ensures t[i] == (if s[i] == a then b else s[i])
    {
      if i < |x| {
        assert s[i] == x[i] && t[i] == x[i];
      } else if i > |x| {
        assert s[i] == y[i - |x| - 1] && t[i] == y[i - |x| - 1];
      }
    }
    ReplaceCharPointwise(s, a, b, t);
  }

  /** Text without the character is left alone. */
  lemma ReplaceCharAbsent(x: string, a: char, b: char)
    requires a !in x
    ensures ReplaceChar(x, a, b) == x
  {
    var r := ReplaceChar(x, a, b);
    assert forall i :: 0 <= i < |x| ==> r[i] == x[i];
  }

  /** Python's `s.split(sep)`: the pieces between separators, empty pieces
      included, so there is always one piece more than there are separators. */
  function Split(s: string, sep: char): (parts: seq<string>)
    ensures |parts| >= 1
    ensures forall i :: 0 <= i < |parts| ==> sep !in parts[i]
  {
    if |s| == 0 then [""]
    else
      var rest := Split(s[1..], sep);
      if s[0] == sep then [""] + rest else [[s[0]] + rest[0]] + rest[1..]
  }

  /** `sep.join(parts)`, the inverse of `Split`. */
  function Join(parts: seq<string>, sep: char): string {
    if |parts| == 0 then ""
    else if |parts| == 1 then parts[0]
    else parts[0] + [sep] + Join(parts[1..], sep)
  }

  lemma {:induction false} SplitWithoutSeparator(s: string, sep: char)
    requires sep !in s
    ensures Split(s, sep) == [s]
  {
    if |s| > 0 {
      SplitWithoutSeparator(s[1..], sep);
      assert [s[0]] + s[1..] == s;
    }
  }

  lemma {:induction false} SplitAfterPiece(p: string, sep: char, tail: string)
    requires sep !in p
    ensures Split(p + [sep] + tail, sep) == [p] + Split(tail, sep)
  {
    if |p| == 0 {
      assert p + [sep] + tail == [sep] + tail;
      assert ([sep] + tail)[1..] == tail;
    } else {
      var s := p + [sep] + tail;
      assert s[1..] == p[1..] + [sep] + tail;
      SplitAfterPiece(p[1..], sep, tail);
      assert [p[0]] + p[1..] == p;
    }
  }

  /** Splitting a joined list gives the pieces back when no piece holds the separator. */
  lemma {:induction false} SplitJoin(parts: seq<string>, sep: char)
    requires |parts| >= 1
    requires forall i :: 0 <= i < |parts| ==> sep !in parts[i]
    ensures Split(Join(parts, sep), sep) == parts
  {
    if |parts| == 1 {
      SplitWithoutSeparator(parts[0], sep);
    } else {
      SplitJoin(parts[1..], sep);
      SplitAfterPiece(parts[0], sep, Join(parts[1..], sep));
      assert [parts[0]] + parts[1..] == parts;
    }
  }

  /** A run of digits as `int()` accepts it: digits with single underscores
      between them (PEP 515). */
  predicate DigitRun(s: string) {
    && |s| >= 1 && IsDigit(s[0]) && IsDigit(s[|s| - 1])
    && (forall i :: 0 <= i < |s| ==> IsDigit(s[i]) || s[i] == '_')
    && (forall i :: 0 <= i < |s| - 1 ==> s[i] == '_' ==> s[i + 1] != '_')
  }

  /** The number a run of digits denotes; underscores carry no value. */
  function RunValue(s: string): nat
    requires forall i :: 0 <= i < |s| ==> IsDigit(s[i]) || s[i] == '_'
  {
    if |s| == 0 then 0
    else if s[|s| - 1] == '_' then RunValue(s[..|s| - 1])
    else RunValue(s[..|s| - 1]) * 10 + DigitValue(s[|s| - 1])
  }

  /** Python's `int(text)` in base 10: surrounding whitespace, an optional
      sign and a digit run; anything else raises, which is `None` here. */
  function ParseInt(text: string): Option<int> {
    var t := Strip(text);
    if |t| > 0 && (t[0] == '+' || t[0] == '-') then
      if DigitRun(t[1..]) then
        var v: int := RunValue(t[1..]);
        Some(if t[0] == '-' then -v else v)
      else None
    else if DigitRun(t) then Some(RunValue(t))
    else None
  }

  /** The decimal digits of `n`, most significant first, without padding. */
  function NatToString(n: nat): (s: string)
    ensures |s| >= 1
    ensures forall i :: 0 <= i < |s| ==> IsDigit(s[i])
    ensures RunValue(s) == n
  {
    if n < 10 then [DigitChar(n)]
    else
      var s := NatToString(n / 10) + [DigitChar(n % 10)];
      assert s[..|s| - 1] == NatToString(n / 10);
      s
  }

  /** Python's `str(n)` for an integer. */
  function IntToString(n: int): string {
    if n < 0 then "-" + NatToString(-n) else NatToString(n)
  }

  lemma DigitsAreARun(s: string)
    requires |s| >= 1 && forall i :: 0 <= i < |s| ==> IsDigit(s[i])
    ensures DigitRun(s)
  {
  }

  /** `int(str(n)) == n`: the rendering of an integer parses back to it. */
  lemma ParseIntOfString(n: int)
    ensures ParseInt(IntToString(n)) == Some(n)
  {
    var s := IntToString(n);
    if n < 0 {
      var d := NatToString(-n);
      DigitsAreARun(d);
      assert s[1..] == d;
      StripKeepsUnpadded(s);
    } else {
      DigitsAreARun(s);
      StripKeepsUnpadded(s);
    }
  }

  /** Ids rendered into form keys never contain the key separator. */
  lemma IntToStringHasNoUnderscore(n: int)
    ensures '_' !in IntToString(n)
  {
    var d := NatToString(if n < 0 then -n else n);
    assert forall i :: 0 <= i < |d| ==> d[i] != '_';
    if n < 0 {
      assert IntToString(n) == "-" + d;
    }
  }
}
