/** Writing the weekly grid back to the entry store (`save_grid`, second
    step), and the `add_row` / `delete_row` actions. Each cell is one
    (timesheet, project, task, activity, date) slot; since the schema allows
    several entries in one slot, a write first cuts the slot down to the
    entry `.first()` returns (the first in store order) and then updates or
    creates it. */
module Reconciler {
  import opened Wrappers
  import opened Text
  import opened Dates
  import opened Decimals
  import opened Timesheets
  import opened GridKeys
  import opened Assoc
  import opened Sequences

  // ---------------------------------------------------------------------
  // One cell

  /** The store with every entry of slot `s` but the first removed. */
  function KeepFirst(entries: seq<TimeEntry>, s: Slot): (r: seq<TimeEntry>)
    ensures Matching(r, s) == if Matching(entries, s) == [] then [] else [Matching(entries, s)[0]]
    ensures Outside(r, {s}) == Outside(entries, {s})
  {
    if |entries| == 0 then []
    else
      var init, e := entries[..|entries| - 1], entries[|entries| - 1];
      var rest := KeepFirst(init, s);
      if SlotOf(e) == s && Matching(init, s) != [] then rest
      else
        var r := rest + [e];
        assert r[..|r| - 1] == rest;
        r
  }

  /** The duplicate clean-up: when a slot holds more than one entry, all but the first are deleted. */
  function Dedup(entries: seq<TimeEntry>, s: Slot): (r: seq<TimeEntry>)
    ensures Matching(r, s) == if Matching(entries, s) == [] then [] else [Matching(entries, s)[0]]
    ensures Outside(r, {s}) == Outside(entries, {s})
  {
    if |Matching(entries, s)| > 1 then KeepFirst(entries, s) else entries
  }

  /** Every entry of slot `s` with its hours set to `h`, the store otherwise unchanged. */
  function SetHours(entries: seq<TimeEntry>, s: Slot, h: int): (r: seq<TimeEntry>)
    ensures |Matching(r, s)| == |Matching(entries, s)|
    ensures forall i :: 0 <= i < |Matching(r, s)| ==> Matching(r, s)[i] == Matching(entries, s)[i].(hours := h)
    ensures Outside(r, {s}) == Outside(entries, {s})
  {
    if |entries| == 0 then []
    else
      var init, e := entries[..|entries| - 1], entries[|entries| - 1];
      var e' := if SlotOf(e) == s then e.(hours := h) else e;
      var rest := SetHours(init, s, h);
      var r := rest + [e'];
      assert r[..|r| - 1] == rest;
      if SlotOf(e) == s then
        assert Matching(r, s) == Matching(rest, s) + [e'];
        assert Matching(entries, s) == Matching(init, s) + [e];
        assert Outside(r, {s}) == Outside(rest, {s});
        assert Outside(entries, {s}) == Outside(init, {s});
        r
      else
        assert Matching(r, s) == Matching(rest, s);
        assert Matching(entries, s) == Matching(init, s);
        assert Outside(r, {s}) == Outside(rest, {s}) + [e];
        assert Outside(entries, {s}) == Outside(init, {s}) + [e];
        r
  }

  /** `update_or_create(slot, defaults={'hours': h})` on a slot holding at most one entry. */
  function Upsert(entries: seq<TimeEntry>, s: Slot, h: int): (r: seq<TimeEntry>)
    requires |Matching(entries, s)| <= 1
    ensures |Matching(r, s)| == 1 && Matching(r, s)[0].hours == h
    ensures Matching(entries, s) != [] ==> Matching(r, s)[0] == Matching(entries, s)[0].(hours := h)
    ensures Outside(r, {s}) == Outside(entries, {s})
  {
    if Matching(entries, s) == [] then
      var r := entries + [NewEntry(s, h)];
      assert r[..|r| - 1] == entries;
      r
    else SetHours(entries, s, h)
  }

  /** One cell of the form: clean up duplicates, then store the hours. An
      amount the column cannot hold makes the store fail, which the view
      catches, so only the clean-up remains. */
  function WriteCell(entries: seq<TimeEntry>, s: Slot, h: int): (r: seq<TimeEntry>)
    ensures Outside(r, {s}) == Outside(entries, {s})
    ensures FitsHoursColumn(h) ==> |Matching(r, s)| == 1 && Matching(r, s)[0].hours == h
    ensures !FitsHoursColumn(h) ==> Matching(r, s) == if Matching(entries, s) == [] then [] else [Matching(entries, s)[0]]
  {
    var cleaned := Dedup(entries, s);
    if FitsHoursColumn(h) then Upsert(cleaned, s, h) else cleaned
  }

  // ---------------------------------------------------------------------
  // The anchor

  /** Why a request stops with an uncaught error (a 500); inside the grid
      save's atomic block everything rolls back. */
  datatype Crash =
    | DuplicateAnchor   // get_or_create found several anchors (MultipleObjectsReturned)
    | BadDate           // a date text the date column refuses (ValidationError)
    | IdNotInteger      // a row action's id text `int()` refuses (ValueError)

  /** How the anchor entry is ensured: `get_or_create`, as written, or
      "create when absent", as intended. */
  datatype AnchorPolicy = GetOrCreate | CreateIfMissing

  /** Makes sure slot `s` holds an entry, creating a 0-hour one when it holds
      none. Under `get_or_create` a slot holding two or more entries is an
      error. An existing anchor is never modified. */
  function EnsureAnchor(entries: seq<TimeEntry>, s: Slot, policy: AnchorPolicy): (r: Result<seq<TimeEntry>, Crash>)
    ensures r.Failure? <==> policy == GetOrCreate && |Matching(entries, s)| >= 2
    ensures r.Success? && Matching(entries, s) != [] ==> r.value == entries
    ensures r.Success? && Matching(entries, s) == [] ==> Matching(r.value, s) == [NewEntry(s, 0)]
    ensures r.Success? ==> Outside(r.value, {s}) == Outside(entries, {s}) && Matching(r.value, s) != []
  {
    var n := |Matching(entries, s)|;
    if n == 0 then
      var r := entries + [NewEntry(s, 0)];
      assert r[..|r| - 1] == entries;
      Success(r)
    else if n >= 2 && policy == GetOrCreate then Failure(DuplicateAnchor)
    else Success(entries)
  }

  // ---------------------------------------------------------------------
  // One group

  /** The slot of a grid cell. */
  function CellSlot(sheet: int, g: GroupKey, d: Date): Slot {
    Slot(Some(sheet), RowKey(Some(g.project), g.task, g.activity), d)
  }

  /** The anchor of a group: its cell on the sheet's start date. */
  function AnchorSlot(ts: Timesheet, g: GroupKey): Slot {
    CellSlot(ts.id, g, ts.startDate)
  }

  /** A group's cells with each date text read the way the date column
      reads it; `None` marks a text the column refuses. */
  type DatedCells = seq<(Option<Date>, int)>

  function Dated(cells: seq<(string, int)>): (r: DatedCells)
    ensures |r| == |cells|
    ensures forall i :: 0 <= i < |cells| ==> r[i] == (ParseDate(cells[i].0, false), cells[i].1)
  {
    if |cells| == 0 then [] else Dated(cells[..|cells| - 1]) + [(ParseDate(cells[|cells| - 1].0, false), cells[|cells| - 1].1)]
  }

  predicate AllDatesParse(cells: DatedCells) {
    forall i :: 0 <= i < |cells| ==> cells[i].0.Some?
  }

  /** The dates the cells name. */
  function CellDates(cells: DatedCells): set<Date> {
    if |cells| == 0 then {}
    else
      var rest := CellDates(cells[..|cells| - 1]);
      match cells[|cells| - 1].0
      case Some(d) => rest + {d}
      case None => rest
  }

  function CellSlots(sheet: int, g: GroupKey, cells: DatedCells): set<Slot> {
    set d | d in CellDates(cells) :: CellSlot(sheet, g, d)
  }

  /** The last amount the column can hold that the cells give date `d`. */
  function LastWrite(cells: DatedCells, d: Date): Option<int> {
    if |cells| == 0 then None
    else
      var (date, h) := cells[|cells| - 1];
      if date == Some(d) && FitsHoursColumn(h) then Some(h)
      else LastWrite(cells[..|cells| - 1], d)
  }

  /** The cells of a group, written one after the other; a date the column
      refuses stops the whole save. */
  function WriteCells(entries: seq<TimeEntry>, sheet: int, g: GroupKey, cells: DatedCells)
    : Result<seq<TimeEntry>, Crash>
  {
    if |cells| == 0 then Success(entries)
    else
      var prev := WriteCells(entries, sheet, g, cells[..|cells| - 1]);
      var (date, h) := cells[|cells| - 1];
      if prev.Failure? || date.None? then Failure(BadDate)
      else Success(WriteCell(prev.value, CellSlot(sheet, g, date.value), h))
  }

  /** The writes fail exactly when some date does not parse. */
  lemma {:induction false} WriteCellsFails(entries: seq<TimeEntry>, sheet: int, g: GroupKey, cells: DatedCells)
    ensures WriteCells(entries, sheet, g, cells).Failure? <==> !AllDatesParse(cells)
  {
    if |cells| > 0 {
      var init := cells[..|cells| - 1];
      WriteCellsFails(entries, sheet, g, init);
      WriteCellsStep(entries, sheet, g, cells);
      AllDatesParseSnoc(cells);
    }
  }

  /** The cells all parse exactly when the earlier ones do and the last does. */
  lemma AllDatesParseSnoc(cells: DatedCells)
    requires |cells| > 0
    ensures AllDatesParse(cells) <==> AllDatesParse(cells[..|cells| - 1]) && cells[|cells| - 1].0.Some?
  {
    var init := cells[..|cells| - 1];
    assert forall i :: 0 <= i < |init| ==> init[i] == cells[i];
  }

  /** One more cell fails the writes exactly when the earlier cells did or
      its own date does not parse. */
  lemma WriteCellsStep(entries: seq<TimeEntry>, sheet: int, g: GroupKey, cells: DatedCells)
    requires |cells| > 0
    ensures WriteCells(entries, sheet, g, cells).Failure? <==>
      WriteCells(entries, sheet, g, cells[..|cells| - 1]).Failure? || cells[|cells| - 1].0.None?
  {
  }

  /** After the writes, slot `d` holds at most one entry, and exactly one,
      with the last amount written, when some amount could be stored. */
  predicate CellLanded(r: seq<TimeEntry>, sheet: int, g: GroupKey, cells: DatedCells, d: Date) {
    var m := Matching(r, CellSlot(sheet, g, d));
    |m| <= 1 && (LastWrite(cells, d).Some? ==> |m| == 1 && m[0].hours == LastWrite(cells, d).value)
  }

  predicate Landed(r: seq<TimeEntry>, sheet: int, g: GroupKey, cells: DatedCells) {
    forall d :: d in CellDates(cells) ==> CellLanded(r, sheet, g, cells, d)
  }

  lemma CellSlotInjective(sheet: int, g: GroupKey, d: Date, g': GroupKey, d': Date)
    ensures CellSlot(sheet, g, d) == CellSlot(sheet, g', d') <==> g == g' && d == d'
  {
  }

  /** The writes of a group change nothing outside its cells, land every
      cell, and never empty a slot. */
  lemma {:induction false} WriteCellsSpec(entries: seq<TimeEntry>, sheet: int, g: GroupKey, cells: DatedCells)
    requires WriteCells(entries, sheet, g, cells).Success?
    ensures var r := WriteCells(entries, sheet, g, cells).value;
      && Outside(r, CellSlots(sheet, g, cells)) == Outside(entries, CellSlots(sheet, g, cells))
      && Landed(r, sheet, g, cells)
      && (forall s :: Matching(entries, s) != [] ==> Matching(r, s) != [])
  {
    if |cells| > 0 {
      var init := cells[..|cells| - 1];
      var (date, h) := cells[|cells| - 1];
      WriteCellsSpec(entries, sheet, g, init);
      var prev := WriteCells(entries, sheet, g, init).value;
      var d0 := date.value;
      var s0 := CellSlot(sheet, g, d0);
      var r := WriteCell(prev, s0, h);
      assert WriteCells(entries, sheet, g, cells) == Success(r);
      assert CellDates(cells) == CellDates(init) + {d0};
      assert CellSlots(sheet, g, cells) == CellSlots(sheet, g, init) + {s0};
      OutsideWiden(r, prev, {s0}, CellSlots(sheet, g, cells));
      OutsideWiden(prev, entries, CellSlots(sheet, g, init), CellSlots(sheet, g, cells));
      WriteCellLandsLast(prev, sheet, g, cells);
      forall s | Matching(entries, s) != []
        ensures Matching(r, s) != []
      {
        WriteCellKeepsSlots(prev, s0, h, s);
      }
    }
  }

  /** Writing the last cell keeps every earlier cell landed and lands its own. */
  lemma WriteCellLandsLast(prev: seq<TimeEntry>, sheet: int, g: GroupKey, cells: DatedCells)
    requires |cells| > 0 && cells[|cells| - 1].0.Some?
    requires Landed(prev, sheet, g, cells[..|cells| - 1])
    ensures Landed(WriteCell(prev, CellSlot(sheet, g, cells[|cells| - 1].0.value), cells[|cells| - 1].1), sheet, g, cells)
  {
    var init := cells[..|cells| - 1];
    var (date, h) := cells[|cells| - 1];
    var d0 := date.value;
    var s0 := CellSlot(sheet, g, d0);
    var r := WriteCell(prev, s0, h);
    assert CellDates(cells) == CellDates(init) + {d0};
    forall d | d in CellDates(cells)
      ensures CellLanded(r, sheet, g, cells, d)
    {
      if d != d0 {
        CellSlotInjective(sheet, g, d, g, d0);
        SameOutsideSameMatching(r, prev, {s0}, CellSlot(sheet, g, d));
        assert LastWrite(cells, d) == LastWrite(init, d);
        assert CellLanded(prev, sheet, g, init, d);
      } else if !FitsHoursColumn(h) {
        assert LastWrite(cells, d) == LastWrite(init, d);
        if LastWrite(init, d).Some? {
          LastWriteDateOccurs(init, d);
          assert CellLanded(prev, sheet, g, init, d);
        }
      }
    }
  }

  /** Writing a cell never empties a slot. */
  lemma WriteCellKeepsSlots(prev: seq<TimeEntry>, s0: Slot, h: int, s: Slot)
    requires Matching(prev, s) != []
    ensures Matching(WriteCell(prev, s0, h), s) != []
  {
    if s != s0 {
      SameOutsideSameMatching(WriteCell(prev, s0, h), prev, {s0}, s);
    }
  }

  lemma {:induction false} LastWriteDateOccurs(cells: DatedCells, d: Date)
    requires LastWrite(cells, d).Some?
    ensures d in CellDates(cells)
  {
    var (date, h) := cells[|cells| - 1];
    if !(date == Some(d) && FitsHoursColumn(h)) {
      LastWriteDateOccurs(cells[..|cells| - 1], d);
    }
  }

  // ---------------------------------------------------------------------
  // The whole grid

  /** One group of the form: skipped when its project is not one the actor
      may log time against; otherwise the anchor is ensured first, so that
      the row survives even when every amount is zero, and then the cells
      are written. */
  function SaveGroup(entries: seq<TimeEntry>, ts: Timesheet, allowed: set<int>, g: GroupKey, cells: DatedCells,
                     policy: AnchorPolicy): Result<seq<TimeEntry>, Crash>
  {
    if g.project !in allowed then Success(entries)
    else
      var anchored := EnsureAnchor(entries, AnchorSlot(ts, g), policy);
      if anchored.Failure? then Failure(anchored.error)
      else WriteCells(anchored.value, ts.id, g, cells)
  }

  /** The slots a group may change. */
  function GroupSlots(ts: Timesheet, allowed: set<int>, g: GroupKey, cells: DatedCells): set<Slot> {
    if g.project in allowed then {AnchorSlot(ts, g)} + CellSlots(ts.id, g, cells) else {}
  }

  /** Every slot of the group's row on this sheet. */
  predicate OfGroup(s: Slot, sheet: int, g: GroupKey) {
    s.sheet == Some(sheet) && s.row == RowKey(Some(g.project), g.task, g.activity)
  }

  lemma GroupSlotsOfGroup(ts: Timesheet, allowed: set<int>, g: GroupKey, cells: DatedCells, s: Slot)
    requires s in GroupSlots(ts, allowed, g, cells)
    ensures OfGroup(s, ts.id, g)
  {
  }

  /** The group's save changes nothing outside its slots, lands every cell,
      leaves the anchor in place, and never empties a slot. */
  lemma SaveGroupSpec(entries: seq<TimeEntry>, ts: Timesheet, allowed: set<int>, g: GroupKey, cells: DatedCells,
                      policy: AnchorPolicy)
    requires SaveGroup(entries, ts, allowed, g, cells, policy).Success?
    ensures var r := SaveGroup(entries, ts, allowed, g, cells, policy).value;
      && Outside(r, GroupSlots(ts, allowed, g, cells)) == Outside(entries, GroupSlots(ts, allowed, g, cells))
      && (g.project in allowed ==> Landed(r, ts.id, g, cells) && Matching(r, AnchorSlot(ts, g)) != [])
      && (forall s :: Matching(entries, s) != [] ==> Matching(r, s) != [])
  {
    if g.project in allowed {
      var a := AnchorSlot(ts, g);
      var anchored := EnsureAnchor(entries, a, policy).value;
      WriteCellsSpec(anchored, ts.id, g, cells);
      var slots := GroupSlots(ts, allowed, g, cells);
      OutsideWiden(anchored, entries, {a}, slots);
      OutsideWiden(SaveGroup(entries, ts, allowed, g, cells, policy).value, anchored, CellSlots(ts.id, g, cells), slots);
      forall s | Matching(entries, s) != []
        ensures Matching(anchored, s) != []
      {
        if s != a {
          SameOutsideSameMatching(anchored, entries, {a}, s);
        }
      }
    }
  }

  /** Whether `get_or_create` and "create when absent" agree: they do
      whenever the former does not stop the save. */
  lemma EnsureAnchorPolicies(entries: seq<TimeEntry>, s: Slot)
    requires EnsureAnchor(entries, s, GetOrCreate).Success?
    ensures EnsureAnchor(entries, s, GetOrCreate) == EnsureAnchor(entries, s, CreateIfMissing)
  {
  }

  /** The collected form with every date text read once, group by group. */
  type DatedGrid = seq<(GroupKey, DatedCells)>

  function DateGrid(grid: GridData): (r: DatedGrid)
    ensures |r| == |grid|
    ensures forall i :: 0 <= i < |grid| ==> r[i] == (grid[i].0, Dated(grid[i].1))
  {
    if |grid| == 0 then [] else DateGrid(grid[..|grid| - 1]) + [(grid[|grid| - 1].0, Dated(grid[|grid| - 1].1))]
  }

  /** `save_grid`: every group of the form in order; any crash rolls the
      whole save back, so a failure leaves the store as it was. */
  function SaveGrid(entries: seq<TimeEntry>, ts: Timesheet, allowed: set<int>, grid: DatedGrid, policy: AnchorPolicy)
    : Result<seq<TimeEntry>, Crash>
  {
    if |grid| == 0 then Success(entries)
    else
      var prev := SaveGrid(entries, ts, allowed, grid[..|grid| - 1], policy);
      if prev.Failure? then prev
      else SaveGroup(prev.value, ts, allowed, grid[|grid| - 1].0, grid[|grid| - 1].1, policy)
  }

  /** The grid save stops only on a duplicate anchor or on a date the
      column refuses. */
  lemma {:induction false} SaveGridCrashKinds(entries: seq<TimeEntry>, ts: Timesheet, allowed: set<int>, grid: DatedGrid,
                                              policy: AnchorPolicy)
    ensures SaveGrid(entries, ts, allowed, grid, policy).Failure? ==>
      SaveGrid(entries, ts, allowed, grid, policy).error in {DuplicateAnchor, BadDate}
  {
    if |grid| > 0 {
      SaveGridCrashKinds(entries, ts, allowed, grid[..|grid| - 1], policy);
    }
  }

  /** The slots the whole grid may change. */
  function GridSlots(ts: Timesheet, allowed: set<int>, grid: DatedGrid): set<Slot> {
    if |grid| == 0 then {}
    else GridSlots(ts, allowed, grid[..|grid| - 1]) + GroupSlots(ts, allowed, grid[|grid| - 1].0, grid[|grid| - 1].1)
  }

  /** A group with a date its column refuses, among the allowed ones. */
  predicate HasBadDate(allowed: set<int>, grid: DatedGrid) {
    exists i :: 0 <= i < |grid| && grid[i].0.project in allowed && !AllDatesParse(grid[i].1)
  }

  /** With anchors created only when absent, the save fails exactly when an
      allowed group carries a date its column refuses. */
  lemma {:induction false} SaveGridFails(entries: seq<TimeEntry>, ts: Timesheet, allowed: set<int>, grid: DatedGrid)
    ensures SaveGrid(entries, ts, allowed, grid, CreateIfMissing).Failure? <==> HasBadDate(allowed, grid)
  {
    if |grid| > 0 {
      var init, g, cells := grid[..|grid| - 1], grid[|grid| - 1].0, grid[|grid| - 1].1;
      SaveGridFails(entries, ts, allowed, init);
      var prev := SaveGrid(entries, ts, allowed, init, CreateIfMissing);
      if prev.Success? {
        WriteCellsFails(EnsureAnchor(prev.value, AnchorSlot(ts, g), CreateIfMissing).value, ts.id, g, cells);
      }
      HasBadDateSnoc(allowed, grid);
    }
  }

  /** A grid has a bad date exactly when its earlier groups do or its last
      group is allowed and carries one. */
  lemma HasBadDateSnoc(allowed: set<int>, grid: DatedGrid)
    requires |grid| > 0
    ensures HasBadDate(allowed, grid) <==>
      HasBadDate(allowed, grid[..|grid| - 1]) || (grid[|grid| - 1].0.project in allowed && !AllDatesParse(grid[|grid| - 1].1))
  {
    var init := grid[..|grid| - 1];
    assert forall i :: 0 <= i < |init| ==> init[i] == grid[i];
  }

  /** `get_or_create`, when it does not stop the save, stores exactly what
      "create when absent" stores. */
  lemma {:induction false} SaveGridPolicies(entries: seq<TimeEntry>, ts: Timesheet, allowed: set<int>, grid: DatedGrid)
    requires SaveGrid(entries, ts, allowed, grid, GetOrCreate).Success?
    ensures SaveGrid(entries, ts, allowed, grid, GetOrCreate) == SaveGrid(entries, ts, allowed, grid, CreateIfMissing)
  {
    if |grid| > 0 {
      var init, g, cells := grid[..|grid| - 1], grid[|grid| - 1].0, grid[|grid| - 1].1;
      SaveGridPolicies(entries, ts, allowed, init);
      var prev := SaveGrid(entries, ts, allowed, init, GetOrCreate).value;
      if g.project in allowed {
        EnsureAnchorPolicies(prev, AnchorSlot(ts, g));
      }
    }
  }

  /** A successful save changes nothing outside the slots of the allowed
      groups and never empties a slot. */
  lemma {:induction false} SaveGridFrame(entries: seq<TimeEntry>, ts: Timesheet, allowed: set<int>, grid: DatedGrid,
                                         policy: AnchorPolicy)
    requires SaveGrid(entries, ts, allowed, grid, policy).Success?
    ensures var r := SaveGrid(entries, ts, allowed, grid, policy).value;
      && Outside(r, GridSlots(ts, allowed, grid)) == Outside(entries, GridSlots(ts, allowed, grid))
      && (forall s :: Matching(entries, s) != [] ==> Matching(r, s) != [])
  {
    if |grid| > 0 {
      var init, g, cells := grid[..|grid| - 1], grid[|grid| - 1].0, grid[|grid| - 1].1;
      SaveGridFrame(entries, ts, allowed, init, policy);
      var prev := SaveGrid(entries, ts, allowed, init, policy).value;
      var r := SaveGroup(prev, ts, allowed, g, cells, policy).value;
      SaveGroupSpec(prev, ts, allowed, g, cells, policy);
      var all := GridSlots(ts, allowed, grid);
      OutsideWiden(r, prev, GroupSlots(ts, allowed, g, cells), all);
      OutsideWiden(prev, entries, GridSlots(ts, allowed, init), all);
    }
  }

  /** After a successful save every allowed group has its anchor and every
      one of its cells landed. */
  lemma {:induction false} SaveGridLands(entries: seq<TimeEntry>, ts: Timesheet, allowed: set<int>, grid: DatedGrid,
                                         policy: AnchorPolicy)
    requires DistinctKeys(grid)
    requires SaveGrid(entries, ts, allowed, grid, policy).Success?
    ensures var r := SaveGrid(entries, ts, allowed, grid, policy).value;
      forall i :: 0 <= i < |grid| && grid[i].0.project in allowed ==>
        Landed(r, ts.id, grid[i].0, grid[i].1) && Matching(r, AnchorSlot(ts, grid[i].0)) != []
  {
    if |grid| > 0 {
      var init, g, cells := grid[..|grid| - 1], grid[|grid| - 1].0, grid[|grid| - 1].1;
      assert forall i :: 0 <= i < |init| ==> init[i] == grid[i];
      SaveGridLands(entries, ts, allowed, init, policy);
      var prev := SaveGrid(entries, ts, allowed, init, policy).value;
      var r := SaveGroup(prev, ts, allowed, g, cells, policy).value;
      SaveGroupSpec(prev, ts, allowed, g, cells, policy);
      forall i | 0 <= i < |grid| && grid[i].0.project in allowed
        ensures Landed(r, ts.id, grid[i].0, grid[i].1) && Matching(r, AnchorSlot(ts, grid[i].0)) != []
      {
        if i < |init| {
          GroupUntouched(prev, r, ts, allowed, grid[i].0, grid[i].1, g, cells);
        }
      }
    }
  }

  /** The save of group `g` leaves another group's anchor and landed cells as they were. */
  lemma GroupUntouched(prev: seq<TimeEntry>, r: seq<TimeEntry>, ts: Timesheet, allowed: set<int>,
                       h: GroupKey, hcells: DatedCells, g: GroupKey, cells: DatedCells)
    requires h != g
    requires Outside(r, GroupSlots(ts, allowed, g, cells)) == Outside(prev, GroupSlots(ts, allowed, g, cells))
    requires Landed(prev, ts.id, h, hcells) && Matching(prev, AnchorSlot(ts, h)) != []
    ensures Landed(r, ts.id, h, hcells) && Matching(r, AnchorSlot(ts, h)) != []
  {
    var last := GroupSlots(ts, allowed, g, cells);
    forall d
      ensures CellSlot(ts.id, h, d) !in last
    {
      if CellSlot(ts.id, h, d) in last {
        GroupSlotsOfGroup(ts, allowed, g, cells, CellSlot(ts.id, h, d));
      }
    }
    SameOutsideSameMatching(r, prev, last, AnchorSlot(ts, h));
    forall d | d in CellDates(hcells)
      ensures CellLanded(r, ts.id, h, hcells, d)
    {
      SameOutsideSameMatching(r, prev, last, CellSlot(ts.id, h, d));
    }
  }

  /** An anchor slot lies outside every other group's slots. */
  lemma {:induction false} GridSlotsOfGroups(ts: Timesheet, allowed: set<int>, grid: DatedGrid, g: GroupKey)
    requires forall i :: 0 <= i < |grid| ==> grid[i].0 != g
    ensures AnchorSlot(ts, g) !in GridSlots(ts, allowed, grid)
  {
    if |grid| > 0 {
      var init := grid[..|grid| - 1];
      assert forall i :: 0 <= i < |init| ==> init[i] == grid[i];
      GridSlotsOfGroups(ts, allowed, init, g);
      if AnchorSlot(ts, g) in GroupSlots(ts, allowed, grid[|grid| - 1].0, grid[|grid| - 1].1) {
        GroupSlotsOfGroup(ts, allowed, grid[|grid| - 1].0, grid[|grid| - 1].1, AnchorSlot(ts, g));
      }
    }
  }

  /** As written, the save stops with `MultipleObjectsReturned` as soon as
      an allowed group's anchor slot already holds two entries. */
  lemma {:induction false} DuplicateAnchorCrashes(entries: seq<TimeEntry>, ts: Timesheet, allowed: set<int>,
                                                  grid: DatedGrid, k: int)
    requires DistinctKeys(grid)
    requires 0 <= k < |grid| && grid[k].0.project in allowed
    requires |Matching(entries, AnchorSlot(ts, grid[k].0))| >= 2
    ensures SaveGrid(entries, ts, allowed, grid, GetOrCreate).Failure?
  {
    var init, g := grid[..|grid| - 1], grid[|grid| - 1].0;
    assert forall i :: 0 <= i < |init| ==> init[i] == grid[i];
    if k < |init| {
      DuplicateAnchorCrashes(entries, ts, allowed, init, k);
    } else if SaveGrid(entries, ts, allowed, init, GetOrCreate).Success? {
      var prev := SaveGrid(entries, ts, allowed, init, GetOrCreate).value;
      SaveGridFrame(entries, ts, allowed, init, GetOrCreate);
      GridSlotsOfGroups(ts, allowed, init, g);
      SameOutsideSameMatching(prev, entries, GridSlots(ts, allowed, init), AnchorSlot(ts, g));
    }
  }

  // ---------------------------------------------------------------------
  // Adding and deleting rows

  /** Why a row action leaves the store as it was. */
  datatype RowError =
    | NotEditable        // the sheet is neither a draft nor rejected
    | ProjectNotAllowed  // the project is not one the actor may log time against
    | BadId              // an id text `int()` refuses (ValueError, the request fails)

  /** The value a foreign-key column stores for a posted text: an absent or
      empty text stores NULL; anything else must be an integer. */
  function StoredId(text: Option<string>): (r: Result<Option<int>, RowError>)
    ensures text.None? || text == Some("") ==> r == Success(None)
    ensures text.Some? && text != Some("") ==>
      (r.Success? <==> ParseInt(text.value).Some?) && (r.Success? ==> r.value == ParseInt(text.value))
    ensures r.Failure? ==> r.error == BadId
  {
    match text
    case None => Success(None)
    case Some(t) =>
      if t == "" then Success(None)
      else
        match ParseInt(t)
        case None => Failure(BadId)
        case Some(v) => Success(Some(v))
  }

  /** The value a foreign-key filter compares with: an absent text asks for
      NULL; a present one, even empty, must be an integer. */
  function FilterId(text: Option<string>): (r: Result<Option<int>, RowError>)
    ensures text.None? ==> r == Success(None)
    ensures text.Some? ==> (r.Success? <==> ParseInt(text.value).Some?) && (r.Success? ==> r.value == ParseInt(text.value))
    ensures r.Failure? ==> r.error == BadId
  {
    match text
    case None => Success(None)
    case Some(t) =>
      match ParseInt(t)
      case None => Failure(BadId)
      case Some(v) => Success(Some(v))
  }

  /** `add_row`: a 0-hour entry on the sheet's start date so that the row
      shows. The project is checked only when its text is not empty; an
      empty task text is no task. */
  function AddRow(entries: seq<TimeEntry>, ts: Timesheet, allowed: set<int>,
                  project: Option<string>, task: Option<string>, activity: Option<string>)
    : (r: Result<seq<TimeEntry>, RowError>)
    ensures !Editable(ts.status) ==> r == Failure(NotEditable)
    ensures r.Success? ==> exists row :: r.value == entries + [NewEntry(Slot(Some(ts.id), row, ts.startDate), 0)]
    ensures r.Success? ==> StoredId(project).Success? && StoredId(task).Success? && StoredId(activity).Success?
    ensures r.Success? ==> var e := r.value[|entries|];
      && e.project == StoredId(project).value && e.task == StoredId(task).value && e.activity == StoredId(activity).value
      && (e.project.Some? ==> e.project.value in allowed)
    ensures r == Failure(ProjectNotAllowed) <==>
      Editable(ts.status) && StoredId(project).Success? && StoredId(project).value.Some?
        && StoredId(project).value.value !in allowed
    ensures r.Success? <==>
      && Editable(ts.status)
      && StoredId(project).Success? && StoredId(task).Success? && StoredId(activity).Success?
      && !(StoredId(project).value.Some? && StoredId(project).value.value !in allowed)
  {
    if !Editable(ts.status) then Failure(NotEditable)
    else
      var p := StoredId(project);
      if p.Failure? then Failure(BadId)
      else if p.value.Some? && p.value.value !in allowed then Failure(ProjectNotAllowed)
      else
        var t := StoredId(task);
        var a := StoredId(activity);
        if t.Failure? || a.Failure? then Failure(BadId)
        else Success(entries + [NewEntry(Slot(Some(ts.id), RowKey(p.value, t.value, a.value), ts.startDate), 0)])
  }

  /** The store without the sheet's entries in row `key`. */
  function DropRow(entries: seq<TimeEntry>, sheet: int, key: RowKey): (r: seq<TimeEntry>)
    ensures forall e :: e in r <==> e in entries && !(e.sheet == Some(sheet) && RowOf(e) == key)
    ensures |r| <= |entries|
  {
    if |entries| == 0 then []
    else
      var rest := DropRow(entries[..|entries| - 1], sheet, key);
      var e := entries[|entries| - 1];
      if e.sheet == Some(sheet) && RowOf(e) == key then rest else rest + [e]
  }

  /** Every entry outside the row stays as often as the store holds it. */
  lemma {:induction false} DropRowCounts(entries: seq<TimeEntry>, sheet: int, key: RowKey)
    ensures forall e ::
      multiset(DropRow(entries, sheet, key))[e] == (if e.sheet == Some(sheet) && RowOf(e) == key then 0 else multiset(entries)[e])
  {
    if |entries| > 0 {
      var init, e := entries[..|entries| - 1], entries[|entries| - 1];
      DropRowCounts(init, sheet, key);
      assert entries == init + [e];
    }
  }

  /** The entries that stay keep their order. */
  lemma {:induction false} DropRowInOrder(entries: seq<TimeEntry>, sheet: int, key: RowKey)
    ensures Subsequence(DropRow(entries, sheet, key), entries)
  {
    if |entries| > 0 {
      var init, e := entries[..|entries| - 1], entries[|entries| - 1];
      var rest := DropRow(init, sheet, key);
      DropRowInOrder(init, sheet, key);
      assert entries == init + [e];
      if e.sheet == Some(sheet) && RowOf(e) == key {
        SubsequenceSnoc(rest, init, e);
      } else {
        SubsequenceSnocBoth(rest, init, e);
      }
    }
  }

  /** `delete_row`: removes every entry of the row on this sheet. An empty
      project or activity text makes the filter refuse; an empty task text
      is no task. */
  function DeleteRow(entries: seq<TimeEntry>, ts: Timesheet,
                     project: Option<string>, task: Option<string>, activity: Option<string>)
    : (r: Result<seq<TimeEntry>, RowError>)
    ensures !Editable(ts.status) ==> r == Failure(NotEditable)
    ensures r.Success? ==> FilterId(project).Success? && StoredId(task).Success? && FilterId(activity).Success?
    ensures r.Success? ==> r.value == DropRow(entries, ts.id, RowKey(FilterId(project).value, StoredId(task).value, FilterId(activity).value))
    ensures Editable(ts.status) && project == Some("") ==> r == Failure(BadId)
    ensures Editable(ts.status) && activity == Some("") ==> r == Failure(BadId)
    ensures r.Success? <==>
      Editable(ts.status) && FilterId(project).Success? && StoredId(task).Success? && FilterId(activity).Success?
  {
    if !Editable(ts.status) then Failure(NotEditable)
    else
      var p := FilterId(project);
      var t := StoredId(task);
      var a := FilterId(activity);
      if p.Failure? || t.Failure? || a.Failure? then Failure(BadId)
      else Success(DropRow(entries, ts.id, RowKey(p.value, t.value, a.value)))
  }

  /** Adding a row twice and then saving it crashes under `get_or_create`,
      while creating the anchor only when absent saves the row. */
  lemma AddRowTwiceThenSave(entries: seq<TimeEntry>, ts: Timesheet, allowed: set<int>, p: int, cells: DatedCells)
    requires Editable(ts.status) && p in allowed && AllDatesParse(cells)
    ensures var g := GroupKey(p, None, None);
      var once := AddRow(entries, ts, allowed, Some(IntToString(p)), None, None);
      && once.Success?
      && var twice := AddRow(once.value, ts, allowed, Some(IntToString(p)), None, None);
      && twice.Success?
      && SaveGrid(twice.value, ts, allowed, [(g, cells)], GetOrCreate) == Failure(DuplicateAnchor)
      && SaveGrid(twice.value, ts, allowed, [(g, cells)], CreateIfMissing).Success?
  {
    var g := GroupKey(p, None, None);
    var a := AnchorSlot(ts, g);
    ParseIntOfString(p);
    var once := AddRow(entries, ts, allowed, Some(IntToString(p)), None, None).value;
    var twice := AddRow(once, ts, allowed, Some(IntToString(p)), None, None).value;
    var e := NewEntry(a, 0);
    assert once == entries + [e];
    assert twice == once + [e];
    MatchingAppend(entries, [e], a);
    MatchingAppend(once, [e], a);
    assert |Matching(twice, a)| >= 2;
    var grid: DatedGrid := [(g, cells)];
    assert grid[..0] == [];
    WriteCellsFails(EnsureAnchor(twice, a, CreateIfMissing).value, ts.id, g, cells);
  }

  /** Deleting a row just added takes the store back to what deleting it
      would have left before the add. */
  lemma AddThenDelete(entries: seq<TimeEntry>, ts: Timesheet, allowed: set<int>, project: string, task: Option<string>,
                      activity: string)
    requires project != "" && activity != ""
    requires AddRow(entries, ts, allowed, Some(project), task, Some(activity)).Success?
    ensures DeleteRow(AddRow(entries, ts, allowed, Some(project), task, Some(activity)).value, ts, Some(project), task, Some(activity))
         == DeleteRow(entries, ts, Some(project), task, Some(activity))
  {
    var added := AddRow(entries, ts, allowed, Some(project), task, Some(activity)).value;
    var key := RowKey(FilterId(Some(project)).value, StoredId(task).value, FilterId(Some(activity)).value);
    var e := added[|entries|];
    assert added == entries + [e];
    assert added[..|added| - 1] == entries;
  }

  /** The store's entries of sheet `other`, unchanged by removing slots of sheet `sheet`. */
  lemma {:induction false} EntriesOfOutside(x: seq<TimeEntry>, ss: set<Slot>, sheet: int, other: int)
    requires other != sheet && forall s :: s in ss ==> s.sheet == Some(sheet)
    ensures EntriesOf(Outside(x, ss), other) == EntriesOf(x, other)
  {
    if |x| > 0 {
      var init, e := x[..|x| - 1], x[|x| - 1];
      EntriesOfOutside(init, ss, sheet, other);
      if SlotOf(e) !in ss {
        var o := Outside(init, ss) + [e];
        assert o[..|o| - 1] == Outside(init, ss);
      }
    }
  }

  lemma {:induction false} GridSlotsOfSheet(ts: Timesheet, allowed: set<int>, grid: DatedGrid, s: Slot)
    requires s in GridSlots(ts, allowed, grid)
    ensures s.sheet == Some(ts.id)
  {
    if s !in GroupSlots(ts, allowed, grid[|grid| - 1].0, grid[|grid| - 1].1) {
      GridSlotsOfSheet(ts, allowed, grid[..|grid| - 1], s);
    }
  }

  /** Saving one sheet's grid leaves every other sheet's entries as they were. */
  lemma SaveGridOtherSheets(entries: seq<TimeEntry>, ts: Timesheet, allowed: set<int>, grid: DatedGrid,
                            policy: AnchorPolicy, other: int)
    requires other != ts.id
    requires SaveGrid(entries, ts, allowed, grid, policy).Success?
    ensures EntriesOf(SaveGrid(entries, ts, allowed, grid, policy).value, other) == EntriesOf(entries, other)
  {
    var r := SaveGrid(entries, ts, allowed, grid, policy).value;
    var ss := GridSlots(ts, allowed, grid);
    forall s | s in ss
      ensures s.sheet == Some(ts.id)
    {
      GridSlotsOfSheet(ts, allowed, grid, s);
    }
    SaveGridFrame(entries, ts, allowed, grid, policy);
    EntriesOfOutside(r, ss, ts.id, other);
    EntriesOfOutside(entries, ss, ts.id, other);
  }

  /** Deleting a row of one sheet leaves every other sheet's entries as they were. */
  lemma {:induction false} DropRowOtherSheets(entries: seq<TimeEntry>, sheet: int, key: RowKey, other: int)
    requires other != sheet
    ensures EntriesOf(DropRow(entries, sheet, key), other) == EntriesOf(entries, other)
  {
    if |entries| > 0 {
      var init, e := entries[..|entries| - 1], entries[|entries| - 1];
      DropRowOtherSheets(init, sheet, key, other);
      if !(e.sheet == Some(sheet) && RowOf(e) == key) {
        var d := DropRow(init, sheet, key) + [e];
        assert d[..|d| - 1] == DropRow(init, sheet, key);
      }
    }
  }

  /** Reading the dates keeps the groups, so a collected form gives distinct groups. */
  lemma DateGridKeys(grid: GridData)
    requires WellFormed(grid)
    ensures DistinctKeys(DateGrid(grid))
    ensures forall i :: 0 <= i < |grid| ==> DateGrid(grid)[i].0 == grid[i].0
  {
  }

  /** The whole `save_grid` action on the posted fields. */
  function SaveForm(entries: seq<TimeEntry>, ts: Timesheet, allowed: set<int>, fields: PostedFields,
                    policy: AnchorPolicy): Result<seq<TimeEntry>, Crash>
  {
    SaveGrid(entries, ts, allowed, DateGrid(Collect(fields)), policy)
  }

  /** A posted form saves every allowed group it names, with its anchor. */
  lemma SaveFormLands(entries: seq<TimeEntry>, ts: Timesheet, allowed: set<int>, fields: PostedFields,
                      policy: AnchorPolicy, g: GroupKey)
    requires SaveForm(entries, ts, allowed, fields, policy).Success?
    requires g.project in allowed && Get(Collect(fields), g).Some?
    ensures var r := SaveForm(entries, ts, allowed, fields, policy).value;
      Landed(r, ts.id, g, Dated(Get(Collect(fields), g).value)) && Matching(r, AnchorSlot(ts, g)) != []
  {
    var grid := Collect(fields);
    DateGridKeys(grid);
    SaveGridLands(entries, ts, allowed, DateGrid(grid), policy);
    GetSome(grid, g);
  }
}
