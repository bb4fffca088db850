/** The weekly grid page (`TimesheetDetailView` in apps/timesheet/views.py):
    which sheets and entries a viewer gets, the days of the week, and the
    rows of hours with their totals. Amounts are hundredths of an hour. */
module GridView {
  import opened Wrappers
  import opened Dates
  import opened Accounts
  import opened Projects
  import opened Timesheets
  import opened Lifecycle
  import opened Reconciler
  import opened GridKeys
  import opened Assoc
  import opened Sequences

  const ViewTimesheet: string := "timesheet.view_timesheet"

  /** The permissions that open every sheet on this page. */
  predicate SeesAllSheets(u: User) {
    HasPerm(u, ViewTimesheet) || HasPerm(u, ChangeTimesheet) || u.isSuperuser
  }

  /** `get_timesheet()`: a MANAGER without those permissions reaches the
      sheets holding an entry of a project they manage, and their own; other
      users without them reach only their own. */
  predicate DetailVisible(entries: seq<TimeEntry>, c: Catalog, ts: Timesheet, u: User) {
    if ManagerRole(u) && !SeesAllSheets(u) then HasScope(entries, c, ts, u.id) || IsOwner(u, ts)
    else if !SeesAllSheets(u) then IsOwner(u, ts)
    else true
  }

  /** Whether the page hides the entries of projects the viewer does not manage. */
  predicate Restricted(ts: Timesheet, u: User) {
    ManagerRole(u) && !SeesAllSheets(u) && !IsOwner(u, ts)
  }

  /** `get_queryset()`: the sheet's entries in store order, cut down to the
      projects the viewer manages when the page is restricted. */
  function ShownEntries(entries: seq<TimeEntry>, c: Catalog, ts: Timesheet, u: User): (r: seq<TimeEntry>)
    ensures forall e :: e in r <==>
      e in entries && e.sheet == Some(ts.id) && (Restricted(ts, u) ==> ManagerOf(c, e.project) == Some(u.id))
  {
    if |entries| == 0 then []
    else
      var rest := ShownEntries(entries[..|entries| - 1], c, ts, u);
      var e := entries[|entries| - 1];
      if e.sheet == Some(ts.id) && (Restricted(ts, u) ==> ManagerOf(c, e.project) == Some(u.id)) then rest + [e] else rest
  }

  /** The page shows each entry it keeps as often as the store holds it. */
  lemma {:induction false} ShownEntriesCounts(entries: seq<TimeEntry>, c: Catalog, ts: Timesheet, u: User)
    ensures forall e ::
      multiset(ShownEntries(entries, c, ts, u))[e] ==
        (if e.sheet == Some(ts.id) && (Restricted(ts, u) ==> ManagerOf(c, e.project) == Some(u.id)) then multiset(entries)[e] else 0)
  {
    if |entries| > 0 {
      var init, e := entries[..|entries| - 1], entries[|entries| - 1];
      ShownEntriesCounts(init, c, ts, u);
      assert entries == init + [e];
    }
  }

  /** The page shows the entries in store order. */
  lemma {:induction false} ShownEntriesInOrder(entries: seq<TimeEntry>, c: Catalog, ts: Timesheet, u: User)
    ensures Subsequence(ShownEntries(entries, c, ts, u), entries)
  {
    if |entries| > 0 {
      var init, e := entries[..|entries| - 1], entries[|entries| - 1];
      var rest := ShownEntries(init, c, ts, u);
      ShownEntriesInOrder(init, c, ts, u);
      assert entries == init + [e];
      if e.sheet == Some(ts.id) && (Restricted(ts, u) ==> ManagerOf(c, e.project) == Some(u.id)) {
        SubsequenceSnocBoth(rest, init, e);
      } else {
        SubsequenceSnoc(rest, init, e);
      }
    }
  }

  /** The owner and anyone the page does not restrict see every entry of the sheet. */
  lemma {:induction false} UnrestrictedSeesSheet(entries: seq<TimeEntry>, c: Catalog, ts: Timesheet, u: User)
    requires !Restricted(ts, u)
    ensures ShownEntries(entries, c, ts, u) == EntriesOf(entries, ts.id)
  {
    if |entries| > 0 {
      UnrestrictedSeesSheet(entries[..|entries| - 1], c, ts, u);
    }
  }

  /** A restricted viewer reaches the page only through their scope, and
      then sees at least one entry. */
  lemma RestrictedSeesScope(entries: seq<TimeEntry>, c: Catalog, ts: Timesheet, u: User)
    requires Restricted(ts, u) && DetailVisible(entries, c, ts, u)
    ensures ShownEntries(entries, c, ts, u) != []
  {
    var i :| 0 <= i < |entries| && entries[i].sheet == Some(ts.id) && ManagerOf(c, entries[i].project) == Some(u.id);
    assert entries[i] in ShownEntries(entries, c, ts, u);
  }

  // ---------------------------------------------------------------------
  // Days

  /** Each step of the day loop moves closer to the last day. */
  lemma NextCloser(cur: Date, end: Date)
    requires Valid(cur) && Valid(end) && NotAfter(cur, end)
    ensures 0 <= Rank(end) - Rank(cur)
    ensures Rank(end) - Rank(Next(cur)) < Rank(end) - Rank(cur)
  {
    RankOrder(cur, Next(cur));
    RankOrder(cur, end);
  }

  /** Once past the last day, every later day is past it too. */
  lemma BeyondEnd(start: Date, end: Date, k: nat, n: nat)
    requires Valid(start) && Valid(end) && !NotAfter(AddDays(start, k), end) && k <= n
    ensures !NotAfter(AddDays(start, n), end)
  {
    if k < n {
      AddDaysOrdered(start, k, n);
      RankOrder(AddDays(start, k), AddDays(start, n));
      RankOrder(AddDays(start, k), end);
      RankOrder(AddDays(start, n), end);
      RankOrder(end, AddDays(start, k));
    }
  }

  /** A sheet ending six days after its start spans seven days. */
  lemma WeekOfSeven(start: Date, end: Date, k: nat)
    requires Valid(start) && end == AddDays(start, 6)
    requires !NotAfter(AddDays(start, k), end)
    requires forall i: nat :: i < k ==> NotAfter(AddDays(start, i), end)
    ensures k == 7
  {
    if k < 7 {
      BeyondEnd(start, end, k, 6);
      assert false;
    } else if k > 7 {
      assert NotAfter(AddDays(start, 7), end);
      AddDaysOrdered(start, 6, 7);
      assert false;
    }
  }

  /** The days from `start` to `end`, both included, one after the other:
      exactly the days `start + n` that do not pass `end`. */
  method WeekDays(start: Date, end: Date) returns (days: seq<Date>)
    requires Valid(start) && Valid(end)
    ensures forall i :: 0 <= i < |days| ==> days[i] == AddDays(start, i) && NotAfter(days[i], end)
    ensures forall n: nat :: n >= |days| ==> !NotAfter(AddDays(start, n), end)
    ensures end == AddDays(start, 6) ==> |days| == 7
  {
    days := [];
    var cur := start;
    while NotAfter(cur, end)
      invariant Valid(cur) && cur == AddDays(start, |days|)
      invariant forall i :: 0 <= i < |days| ==> days[i] == AddDays(start, i) && NotAfter(days[i], end)
      decreases Rank(end) - Rank(cur)
    {
      NextCloser(cur, end);
      days := days + [cur];
      cur := Next(cur);
    }
    forall n: nat | n >= |days|
      ensures !NotAfter(AddDays(start, n), end)
    {
      BeyondEnd(start, end, |days|, n);
    }
    if end == AddDays(start, 6) {
      WeekOfSeven(start, end, |days|);
    }
  }

  // ---------------------------------------------------------------------
  // Rows

  /** The rows of the page: one per (project, task, activity), in the order
      the rows first appear among the shown entries. */
  function RowKeys(shown: seq<TimeEntry>): (r: seq<RowKey>)
    ensures forall i, j :: 0 <= i < j < |r| ==> r[i] != r[j]
    ensures forall k :: k in r <==> exists e :: e in shown && RowOf(e) == k
  {
    if |shown| == 0 then []
    else
      var rest := RowKeys(shown[..|shown| - 1]);
      var e := shown[|shown| - 1];
      assert forall x :: x in shown <==> x in shown[..|shown| - 1] || x == e;
      if RowOf(e) in rest then rest else rest + [RowOf(e)]
  }

  /** The hours a row shows for a day: those of the last shown entry of that
      row and day, since each later entry overwrites the earlier one. */
  function CellHours(shown: seq<TimeEntry>, key: RowKey, d: Date): (r: Option<int>)
    ensures r.Some? ==> exists e :: e in shown && RowOf(e) == key && e.date == d && e.hours == r.value
    ensures r.None? <==> forall e :: e in shown ==> !(RowOf(e) == key && e.date == d)
  {
    if |shown| == 0 then None
    else
      var e := shown[|shown| - 1];
      assert forall x :: x in shown <==> x in shown[..|shown| - 1] || x == e;
      if RowOf(e) == key && e.date == d then Some(e.hours) else CellHours(shown[..|shown| - 1], key, d)
  }

  /** One row of the page: a cell per day, blank when the amount is zero or
      missing, and the row total. */
  datatype GridRow = GridRow(key: RowKey, cells: seq<Option<int>>, total: int)

  /** What a cell displays: nothing for zero. */
  function Display(h: int): (r: Option<int>)
    ensures r.None? <==> h == 0
    ensures r.Some? ==> r.value == h
  {
    if h == 0 then None else Some(h)
  }

  function SumCells(cells: seq<Option<int>>): int {
    if |cells| == 0 then 0 else SumCells(cells[..|cells| - 1]) + cells[|cells| - 1].GetOr(0)
  }

  function BuildRow(shown: seq<TimeEntry>, key: RowKey, days: seq<Date>): (row: GridRow)
    ensures row.key == key && |row.cells| == |days|
    ensures forall i :: 0 <= i < |days| ==> row.cells[i] == Display(CellHours(shown, key, days[i]).GetOr(0))
    ensures row.total == SumCells(row.cells)
  {
    if |days| == 0 then GridRow(key, [], 0)
    else
      var prev := BuildRow(shown, key, days[..|days| - 1]);
      var cell := Display(CellHours(shown, key, days[|days| - 1]).GetOr(0));
      var cells := prev.cells + [cell];
      assert cells[..|cells| - 1] == prev.cells;
      GridRow(key, cells, prev.total + cell.GetOr(0))
  }

  /** The grid: one row per row key, in first-appearance order. */
  function BuildGrid(shown: seq<TimeEntry>, days: seq<Date>): (rows: seq<GridRow>)
    ensures |rows| == |RowKeys(shown)|
    ensures forall i :: 0 <= i < |rows| ==> rows[i] == BuildRow(shown, RowKeys(shown)[i], days)
  {
    var keys := RowKeys(shown);
    seq(|keys|, i requires 0 <= i < |keys| => BuildRow(shown, keys[i], days))
  }

  /** The total of the whole sheet: the sum of the row totals. */
  function GrandTotal(rows: seq<GridRow>): int {
    if |rows| == 0 then 0 else GrandTotal(rows[..|rows| - 1]) + rows[|rows| - 1].total
  }

  // ---------------------------------------------------------------------
  // The page after a save

  /** The hours of the last entry of slot `s` in the store. */
  function LastInSlot(x: seq<TimeEntry>, s: Slot): Option<int> {
    var m := Matching(x, s);
    if m == [] then None else Some(m[|m| - 1].hours)
  }

  /** On the sheet's full list, a cell shows the last entry of its slot. */
  lemma {:induction false} CellHoursOfSheet(x: seq<TimeEntry>, id: int, key: RowKey, d: Date)
    ensures CellHours(EntriesOf(x, id), key, d) == LastInSlot(x, Slot(Some(id), key, d))
  {
    if |x| > 0 {
      var init, e := x[..|x| - 1], x[|x| - 1];
      CellHoursOfSheet(init, id, key, d);
      var s := Slot(Some(id), key, d);
      if e.sheet == Some(id) {
        assert EntriesOf(x, id) == EntriesOf(init, id) + [e];
        CellHoursSnoc(EntriesOf(init, id), e, key, d);
        if SlotOf(e) == s {
          var m := Matching(init, s) + [e];
          assert Matching(x, s) == m && m[|m| - 1] == e;
        } else {
          assert Matching(x, s) == Matching(init, s);
        }
      } else {
        assert EntriesOf(x, id) == EntriesOf(init, id);
        assert Matching(x, s) == Matching(init, s);
      }
    }
  }

  /** A cell reads the last entry first. */
  lemma CellHoursSnoc(shown: seq<TimeEntry>, e: TimeEntry, key: RowKey, d: Date)
    ensures CellHours(shown + [e], key, d) == if RowOf(e) == key && e.date == d then Some(e.hours) else CellHours(shown, key, d)
  {
    var l := shown + [e];
    assert l[..|l| - 1] == shown;
  }

  /** Once the grid is saved, every cell given an amount the column can hold
      shows that amount, the last one given, to anyone who sees the whole sheet. */
  lemma SavedCellShows(entries: seq<TimeEntry>, ts: Timesheet, allowed: set<int>, grid: DatedGrid,
                       policy: AnchorPolicy, k: int, d: Date, c: Catalog, viewer: User)
    requires DistinctKeys(grid) && 0 <= k < |grid| && grid[k].0.project in allowed
    requires SaveGrid(entries, ts, allowed, grid, policy).Success?
    requires LastWrite(grid[k].1, d).Some?
    requires !Restricted(ts, viewer)
    ensures var r := SaveGrid(entries, ts, allowed, grid, policy).value;
      var g := grid[k].0;
      CellHours(ShownEntries(r, c, ts, viewer), RowKey(Some(g.project), g.task, g.activity), d) == LastWrite(grid[k].1, d)
  {
    var r := SaveGrid(entries, ts, allowed, grid, policy).value;
    var g := grid[k].0;
    SaveGridLands(entries, ts, allowed, grid, policy);
    LastWriteDateOccurs(grid[k].1, d);
    assert CellLanded(r, ts.id, g, grid[k].1, d);
    UnrestrictedSeesSheet(r, c, ts, viewer);
    CellHoursOfSheet(r, ts.id, RowKey(Some(g.project), g.task, g.activity), d);
  }
}
