/** Reading the weekly grid's form fields (`save_grid`, first step): every
    field named `hours_{project}_{task}_{activity}_{date}` becomes one cell,
    grouped by (project, task, activity) and keyed by the date text, the
    later of two fields for the same cell winning. */
module GridKeys {
  import opened Wrappers
  import opened Text
  import opened Dates
  import opened Decimals
  import opened Assoc

  /** The group a cell belongs to. The project id is required; task and activity may be null. */
  datatype GroupKey = GroupKey(project: int, task: Option<int>, activity: Option<int>)

  /** One decoded field: its group, the date as written, the hours in hundredths. */
  datatype Cell = Cell(group: GroupKey, dateText: string, hours: int)

  const KeyPrefix: string := "hours_"

  /** A task or activity part: blank or `None` is null, anything else goes
      through `int()`; the outer `None` is an `int()` that raises. */
  function OptionalId(raw: string): (r: Option<Option<int>>)
    ensures raw == "" || raw == "None" ==> r == Some(None)
    ensures raw != "" && raw != "None" ==> (r.Some? <==> ParseInt(raw).Some?)
    ensures r.Some? && r.value.Some? ==> ParseInt(raw) == r.value
  {
    if raw == "" || raw == "None" then Some(None)
    else match ParseInt(raw)
      case None => None
      case Some(n) => Some(Some(n))
  }

  /** A field's value: decimal commas become points, surrounding whitespace
      is dropped, a blank value is zero, anything else must parse. */
  function CellHours(value: string): (r: Option<int>)
    ensures Strip(ReplaceChar(value, ',', '.')) == "" ==> r == Some(0)
    ensures Strip(ReplaceChar(value, ',', '.')) != "" ==> r == ParseHours(Strip(ReplaceChar(value, ',', '.')))
  {
    var v := Strip(ReplaceChar(value, ',', '.'));
    if v == "" then Some(0) else ParseHours(v)
  }

  /** One posted field. A field that is not a grid cell, has fewer than five
      parts, or whose ids or value do not parse yields nothing; parts after
      the fifth are ignored. */
  function DecodeField(key: string, value: string): (r: Option<Cell>)
    ensures !StartsWith(key, KeyPrefix) ==> r == None
    ensures |Split(key, '_')| < 5 ==> r == None
    ensures CellHours(value) == None ==> r == None
    ensures r.Some? ==>
      var parts := Split(key, '_');
      && ParseInt(parts[1]) == Some(r.value.group.project)
      && OptionalId(parts[2]) == Some(r.value.group.task)
      && OptionalId(parts[3]) == Some(r.value.group.activity)
      && r.value.dateText == parts[4]
      && CellHours(value) == Some(r.value.hours)
  {
    if !StartsWith(key, KeyPrefix) then None
    else
      var parts := Split(key, '_');
      if |parts| < 5 then None
      else match (ParseInt(parts[1]), OptionalId(parts[2]), OptionalId(parts[3]), CellHours(value))
        case (Some(p), Some(t), Some(a), Some(h)) => Some(Cell(GroupKey(p, t, a), parts[4], h))
        case _ => None
  }

  /** How the detail page writes an optional id into a key: blank when null. */
  function IdText(id: Option<int>): string {
    match id
    case None => ""
    case Some(n) => IntToString(n)
  }

  /** The field name the detail page gives the cell of `g` on `dateText`. */
  function EncodeKey(g: GroupKey, dateText: string): string {
    KeyPrefix + IntToString(g.project) + "_" + IdText(g.task) + "_" + IdText(g.activity) + "_" + dateText
  }

  lemma IntTextIsNotNull(n: int)
    ensures IntToString(n) != "" && IntToString(n) != "None"
    ensures OptionalId(IntToString(n)) == Some(Some(n))
  {
    ParseIntOfString(n);
    var s := IntToString(n);
    assert s[0] == '-' || IsDigit(s[0]);
  }

  lemma IdTextDecodes(id: Option<int>)
    ensures OptionalId(IdText(id)) == Some(id)
    ensures '_' !in IdText(id)
  {
    if id.Some? {
      IntTextIsNotNull(id.value);
      IntToStringHasNoUnderscore(id.value);
    }
  }

  /** Every character of decimal text is a digit, the point or a leading minus. */
  lemma DecimalTextChars(negative: bool, ip: string, fp: string)
    requires DecimalParts(ip, fp)
    ensures var s := DecimalText(negative, ip, fp);
      && |s| == (if negative then 1 else 0) + |ip| + 1 + |fp|
      && (forall i :: 0 <= i < |s| ==> IsDigit(s[i]) || s[i] == '.' || (i == 0 && s[i] == '-'))
      && IsDigit(s[|s| - 1]) && (IsDigit(s[0]) || s[0] == '-')
  {
    var s := DecimalText(negative, ip, fp);
    var sign := if negative then "-" else "";
    assert s == sign + ip + "." + fp;
    forall i | 0 <= i < |s|
      ensures IsDigit(s[i]) || s[i] == '.' || (i == 0 && s[i] == '-')
    {
      if i < |sign| {
        assert s[i] == '-';
      } else if i < |sign| + |ip| {
        assert s[i] == ip[i - |sign|];
      } else if i > |sign| + |ip| {
        assert s[i] == fp[i - |sign| - |ip| - 1];
      }
    }
    assert s[|s| - 1] == fp[|fp| - 1];
    assert !negative ==> s[0] == ip[0];
  }

  /** Every character of a rendered amount is a digit, a point or a leading minus. */
  lemma HoursTextChars(h: int)
    ensures forall i :: 0 <= i < |FormatHours(h)| ==>
      IsDigit(FormatHours(h)[i]) || FormatHours(h)[i] == '.' || (i == 0 && FormatHours(h)[i] == '-')
    ensures |FormatHours(h)| >= 4 && IsDigit(FormatHours(h)[|FormatHours(h)| - 1])
    ensures IsDigit(FormatHours(h)[0]) || FormatHours(h)[0] == '-'
  {
    var m: nat := if h < 0 then -h else h;
    FormatHoursParts(h);
    DecimalTextChars(h < 0, NatToString(m / 100), Padded(m % 100, 2));
  }

  /** Text of digits, points and a leading minus is left alone by the
      comma replacement and by `strip()`. */
  lemma PlainTextIsKept(s: string)
    requires |s| > 0 && IsDigit(s[|s| - 1]) && (IsDigit(s[0]) || s[0] == '-')
    requires forall i :: 0 <= i < |s| ==> IsDigit(s[i]) || s[i] == '.' || s[i] == '-'
    ensures Strip(s) == s
    ensures ReplaceChar(s, ',', '.') == s
  {
    StripKeepsUnpadded(s);
    var t := ReplaceChar(s, ',', '.');
    assert forall i :: 0 <= i < |s| ==> t[i] == s[i];
  }

  /** Rendered hours are plain: no comma, no surrounding whitespace, not blank. */
  lemma HoursTextIsPlain(h: int)
    ensures FormatHours(h) != ""
    ensures Strip(FormatHours(h)) == FormatHours(h)
    ensures ReplaceChar(FormatHours(h), ',', '.') == FormatHours(h)
  {
    HoursTextChars(h);
    PlainTextIsKept(FormatHours(h));
  }

  /** Decoding reads the five parts of the key and the value, nothing else. */
  lemma DecodeFromParts(key: string, value: string, p: string, t: string, a: string, dateText: string, c: Cell)
    requires StartsWith(key, KeyPrefix)
    requires Split(key, '_') == ["hours", p, t, a, dateText]
    requires ParseInt(p) == Some(c.group.project)
    requires OptionalId(t) == Some(c.group.task) && OptionalId(a) == Some(c.group.activity)
    requires c.dateText == dateText && CellHours(value) == Some(c.hours)
    ensures DecodeField(key, value) == Some(c)
  {
  }

  /** The key is the `_`-join of its five parts. */
  lemma {:induction false} EncodeKeyJoins(g: GroupKey, dateText: string)
    ensures EncodeKey(g, dateText) == Join(["hours", IntToString(g.project), IdText(g.task), IdText(g.activity), dateText], '_')
    ensures StartsWith(EncodeKey(g, dateText), KeyPrefix)
  {
    var p, t, a := IntToString(g.project), IdText(g.task), IdText(g.activity);
    var pieces := ["hours", p, t, a, dateText];
    assert Join(pieces[4..], '_') == dateText;
    assert Join(pieces[3..], '_') == a + "_" + dateText;
    assert Join(pieces[2..], '_') == t + "_" + a + "_" + dateText;
    var rest := p + "_" + t + "_" + a + "_" + dateText;
    assert Join(pieces[1..], '_') == rest;
    assert KeyPrefix == "hours" + ['_'];
    assert EncodeKey(g, dateText) == KeyPrefix + rest;
    assert Join(pieces, '_') == pieces[0] + ['_'] + Join(pieces[1..], '_');
    var key := EncodeKey(g, dateText);
    assert key[..|KeyPrefix|] == KeyPrefix;
  }

  /** The key splits into its five parts. */
  lemma EncodeKeySplits(g: GroupKey, dateText: string)
    requires '_' !in dateText
    ensures StartsWith(EncodeKey(g, dateText), KeyPrefix)
    ensures Split(EncodeKey(g, dateText), '_') == ["hours", IntToString(g.project), IdText(g.task), IdText(g.activity), dateText]
  {
    var pieces := ["hours", IntToString(g.project), IdText(g.task), IdText(g.activity), dateText];
    IntToStringHasNoUnderscore(g.project);
    IdTextDecodes(g.task);
    IdTextDecodes(g.activity);
    EncodeKeyJoins(g, dateText);
    assert forall i :: 0 <= i < |pieces| ==> '_' !in pieces[i];
    SplitJoin(pieces, '_');
  }

  /** A rendered amount reads back as its hours. */
  lemma CellHoursOfRendered(h: int)
    ensures CellHours(FormatHours(h)) == Some(h)
  {
    HoursTextIsPlain(h);
    ParseFormatHours(h);
  }

  /** The key the page builds decodes back to its group and date, and a
      rendered amount reads back as itself. */
  lemma DecodeEncode(g: GroupKey, dateText: string, h: int)
    requires '_' !in dateText
    ensures DecodeField(EncodeKey(g, dateText), FormatHours(h)) == Some(Cell(g, dateText, h))
  {
    EncodeKeySplits(g, dateText);
    ParseIntOfString(g.project);
    IdTextDecodes(g.task);
    IdTextDecodes(g.activity);
    CellHoursOfRendered(h);
    DecodeFromParts(EncodeKey(g, dateText), FormatHours(h), IntToString(g.project), IdText(g.task),
      IdText(g.activity), dateText, Cell(g, dateText, h));
  }

  /** A cell left blank on the page decodes as zero hours. */
  lemma DecodeEncodeBlank(g: GroupKey, dateText: string)
    requires '_' !in dateText
    ensures DecodeField(EncodeKey(g, dateText), "") == Some(Cell(g, dateText, 0))
  {
    EncodeKeySplits(g, dateText);
    ParseIntOfString(g.project);
    IdTextDecodes(g.task);
    IdTextDecodes(g.activity);
    assert ReplaceChar("", ',', '.') == "";
    DecodeFromParts(EncodeKey(g, dateText), "", IntToString(g.project), IdText(g.task),
      IdText(g.activity), dateText, Cell(g, dateText, 0));
  }

  /** Decimal commas are accepted: a comma between two runs without commas
      reads exactly as a point there would, e.g. "7,5" as "7.5". */
  lemma DecimalCommaAccepted(x: string, y: string)
    requires ',' !in x && ',' !in y
    ensures CellHours(x + [','] + y) == CellHours(x + ['.'] + y)
  {
    ReplaceAround(x, ',', y, ',', '.');
    ReplaceAround(x, '.', y, ',', '.');
  }

  /** Unpadded text without a comma reads as its hour text (with
      `Decimals.ParseDecimalText`, "7.5" is seven and a half hours). */
  lemma CellHoursOfPlain(value: string, m: int)
    requires ',' !in value && |value| > 0 && !IsSpace(value[0]) && !IsSpace(value[|value| - 1])
    requires ParseHours(value) == Some(m)
    ensures CellHours(value) == Some(m)
  {
    ReplaceCharAbsent(value, ',', '.');
    StripKeepsUnpadded(value);
  }

  // ---------------------------------------------------------------------
  // Grouping

  /** `grid_data`: for each group, in the order groups first appeared, the
      hours per date text, in the order date texts first appeared. */
  type GridData = seq<(GroupKey, seq<(string, int)>)>

  /** Distinct group keys, and distinct date texts within each group. */
  predicate WellFormed(grid: GridData) {
    DistinctKeys(grid) && forall i :: 0 <= i < |grid| ==> DistinctKeys(grid[i].1)
  }

  /** The hours the grid holds for a group and a date text. */
  function Lookup(grid: GridData, g: GroupKey, dateText: string): Option<int> {
    match Get(grid, g)
    case None => None
    case Some(cells) => Get(cells, dateText)
  }

  lemma CellsOfWellFormed(grid: GridData, g: GroupKey)
    requires WellFormed(grid)
    ensures DistinctKeys(Get(grid, g).GetOr([]))
  {
    if Get(grid, g).Some? {
      GetSome(grid, g);
    }
  }

  /** `grid_data[group][dateText] = hours`. */
  function Record(grid: GridData, c: Cell): (r: GridData)
    requires WellFormed(grid)
    ensures WellFormed(r)
    ensures |r| >= |grid|
    ensures forall g, d :: Lookup(r, g, d) == if g == c.group && d == c.dateText then Some(c.hours) else Lookup(grid, g, d)
    ensures forall i :: 0 <= i < |grid| ==> r[i].0 == grid[i].0
  {
    var prior := Get(grid, c.group);
    CellsOfWellFormed(grid, c.group);
    var cells := Put(prior.GetOr([]), c.dateText, c.hours);
    PutElements(grid, c.group, cells);
    Put(grid, c.group, cells)
  }

  /** The posted fields as `request.POST.items()` yields them: each field
      name once. */
  type PostedFields = f: seq<(string, string)> | DistinctKeys(f)

  /** Reads every posted field in order, skipping those that do not decode. */
  function Collect(fields: PostedFields): (r: GridData)
    ensures WellFormed(r)
  {
    if |fields| == 0 then []
    else
      DistinctKeysPrefix(fields, |fields| - 1);
      var before := Collect(fields[..|fields| - 1]);
      var (key, value) := fields[|fields| - 1];
      match DecodeField(key, value)
      case None => before
      case Some(c) => Record(before, c)
  }

  /** Reference reading of the form: the hours of the last field that
      decodes to the group and date text, if any. */
  function LastDecoded(fields: seq<(string, string)>, g: GroupKey, dateText: string): Option<int> {
    if |fields| == 0 then None
    else
      var (key, value) := fields[|fields| - 1];
      match DecodeField(key, value)
      case Some(c) =>
        if c.group == g && c.dateText == dateText then Some(c.hours)
        else LastDecoded(fields[..|fields| - 1], g, dateText)
      case None => LastDecoded(fields[..|fields| - 1], g, dateText)
  }

  /** The grouped form holds, for each group and date text, exactly the last
      decoded value: malformed fields are skipped and later fields win. */
  lemma {:induction false} CollectKeepsLastWrite(fields: PostedFields, g: GroupKey, dateText: string)
    ensures Lookup(Collect(fields), g, dateText) == LastDecoded(fields, g, dateText)
  {
    if |fields| > 0 {
      DistinctKeysPrefix(fields, |fields| - 1);
      CollectKeepsLastWrite(fields[..|fields| - 1], g, dateText);
    }
  }
}
