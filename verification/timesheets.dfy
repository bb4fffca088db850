/** Weekly timesheets and their time entries (apps/timesheet/models.py), the
    creation form's month rule (apps/timesheet/forms.py) and creation itself
    (`TimesheetCreateView.form_valid`). The entry table is a sequence: the
    schema declares no uniqueness on (timesheet, project, task, activity,
    date), so duplicate cells are representable, and sequence order stands
    for the order in which the database returns rows. */
module Timesheets {
  import opened Wrappers
  import opened Dates
  import opened Accounts
  import opened Sequences

  datatype Status = Draft | Submitted | PartiallyApproved | Approved | Rejected

  /** The grid may be edited only in these states. */
  predicate Editable(s: Status) {
    s == Draft || s == Rejected
  }

  /** One user's week. `approvedBy` is nullable, `partialApprovers` is a set
      of user ids and `rejectionReason` may be blank. */
  datatype Timesheet = Timesheet(
    id: int,
    user: int,
    startDate: Date,
    endDate: Date,
    status: Status,
    approvedBy: Option<int>,
    partialApprovers: set<int>,
    rejectionReason: string)

  /** One logged amount. Every reference is nullable; `hours` is in hundredths. */
  datatype TimeEntry = TimeEntry(
    sheet: Option<int>,
    project: Option<int>,
    task: Option<int>,
    activity: Option<int>,
    date: Date,
    hours: int,
    description: string)

  /** A grid row: the (project, task, activity) an entry is logged against. */
  datatype RowKey = RowKey(project: Option<int>, task: Option<int>, activity: Option<int>)

  /** The tuple (timesheet, project, task, activity, date) of one grid cell. */
  datatype Slot = Slot(sheet: Option<int>, row: RowKey, date: Date)

  function RowOf(e: TimeEntry): RowKey {
    RowKey(e.project, e.task, e.activity)
  }

  function SlotOf(e: TimeEntry): Slot {
    Slot(e.sheet, RowOf(e), e.date)
  }

  /** A fresh entry for a slot, with a blank description. */
  function NewEntry(s: Slot, hours: int): (e: TimeEntry)
    ensures SlotOf(e) == s && e.hours == hours
  {
    TimeEntry(s.sheet, s.row.project, s.row.task, s.row.activity, s.date, hours, "")
  }

  /** `timesheet.entries`: the entries whose timesheet is `id`, in store order. */
  function EntriesOf(entries: seq<TimeEntry>, id: int): (r: seq<TimeEntry>)
    ensures |r| <= |entries|
    ensures forall e :: e in r <==> e in entries && e.sheet == Some(id)
  {
    if |entries| == 0 then []
    else
      var rest := EntriesOf(entries[..|entries| - 1], id);
      var e := entries[|entries| - 1];
      if e.sheet == Some(id) then rest + [e] else rest
  }

  /** `EntriesOf` keeps exactly the sheet's entries: in store order, each as
      often as the store holds it. */
  lemma {:induction false} EntriesOfExact(entries: seq<TimeEntry>, id: int)
    ensures forall e :: multiset(EntriesOf(entries, id))[e] == if e.sheet == Some(id) then multiset(entries)[e] else 0
    ensures Subsequence(EntriesOf(entries, id), entries)
  {
    if |entries| > 0 {
      var init, e := entries[..|entries| - 1], entries[|entries| - 1];
      EntriesOfExact(init, id);
      assert entries == init + [e];
      if e.sheet == Some(id) {
        SubsequenceSnocBoth(EntriesOf(init, id), init, e);
      } else {
        SubsequenceSnoc(EntriesOf(init, id), init, e);
      }
    }
  }

  /** The entries that sit in `s`, in store order. */
  function Matching(entries: seq<TimeEntry>, s: Slot): (r: seq<TimeEntry>)
    ensures |r| <= |entries|
    ensures forall e :: e in r ==> SlotOf(e) == s && e in entries
  {
    if |entries| == 0 then []
    else
      var rest := Matching(entries[..|entries| - 1], s);
      var e := entries[|entries| - 1];
      if SlotOf(e) == s then rest + [e] else rest
  }

  /** The entries outside the slots `ss`, in store order. */
  function Outside(entries: seq<TimeEntry>, ss: set<Slot>): (r: seq<TimeEntry>)
    ensures |r| <= |entries|
    ensures forall e :: e in r ==> SlotOf(e) !in ss && e in entries
  {
    if |entries| == 0 then []
    else
      var rest := Outside(entries[..|entries| - 1], ss);
      var e := entries[|entries| - 1];
      if SlotOf(e) !in ss then rest + [e] else rest
  }

  lemma {:induction false} MatchingAppend(a: seq<TimeEntry>, b: seq<TimeEntry>, s: Slot)
    ensures Matching(a + b, s) == Matching(a, s) + Matching(b, s)
  {
    if |b| > 0 {
      MatchingAppend(a, b[..|b| - 1], s);
      assert (a + b)[..|a + b| - 1] == a + b[..|b| - 1];
    } else {
      assert a + b == a;
    }
  }

  lemma {:induction false} OutsideAppend(a: seq<TimeEntry>, b: seq<TimeEntry>, ss: set<Slot>)
    ensures Outside(a + b, ss) == Outside(a, ss) + Outside(b, ss)
  {
    if |b| > 0 {
      OutsideAppend(a, b[..|b| - 1], ss);
      assert (a + b)[..|a + b| - 1] == a + b[..|b| - 1];
    } else {
      assert a + b == a;
    }
  }

  /** `Matching` keeps exactly the entries in the slot: in store order, each
      as often as the store holds it. */
  lemma {:induction false} MatchingExact(entries: seq<TimeEntry>, s: Slot)
    ensures forall e :: e in entries && SlotOf(e) == s ==> e in Matching(entries, s)
    ensures forall e :: multiset(Matching(entries, s))[e] == if SlotOf(e) == s then multiset(entries)[e] else 0
    ensures Subsequence(Matching(entries, s), entries)
  {
    if |entries| > 0 {
      var init, e := entries[..|entries| - 1], entries[|entries| - 1];
      MatchingExact(init, s);
      assert entries == init + [e];
      if SlotOf(e) == s {
        SubsequenceSnocBoth(Matching(init, s), init, e);
      } else {
        SubsequenceSnoc(Matching(init, s), init, e);
      }
    }
  }

  /** `Outside` keeps exactly the entries outside the slots: in store
      order, each as often as the store holds it. */
  lemma {:induction false} OutsideExact(entries: seq<TimeEntry>, ss: set<Slot>)
    ensures forall e :: e in entries && SlotOf(e) !in ss ==> e in Outside(entries, ss)
    ensures forall e :: multiset(Outside(entries, ss))[e] == if SlotOf(e) !in ss then multiset(entries)[e] else 0
    ensures Subsequence(Outside(entries, ss), entries)
  {
    if |entries| > 0 {
      var init, e := entries[..|entries| - 1], entries[|entries| - 1];
      OutsideExact(init, ss);
      assert entries == init + [e];
      if SlotOf(e) !in ss {
        SubsequenceSnocBoth(Outside(init, ss), init, e);
      } else {
        SubsequenceSnoc(Outside(init, ss), init, e);
      }
    }
  }

  /** Looking through a larger exclusion only removes more. */
  lemma {:induction false} OutsideNested(x: seq<TimeEntry>, a: set<Slot>, b: set<Slot>)
    requires a <= b
    ensures Outside(Outside(x, a), b) == Outside(x, b)
  {
    if |x| > 0 {
      var init, e := x[..|x| - 1], x[|x| - 1];
      OutsideNested(init, a, b);
      if SlotOf(e) !in a {
        OutsideAppend(Outside(init, a), [e], b);
      }
    }
  }

  /** Two stores that agree outside `a` agree outside every superset of `a`. */
  lemma OutsideWiden(x: seq<TimeEntry>, y: seq<TimeEntry>, a: set<Slot>, b: set<Slot>)
    requires a <= b && Outside(x, a) == Outside(y, a)
    ensures Outside(x, b) == Outside(y, b)
  {
    OutsideNested(x, a, b);
    OutsideNested(y, a, b);
  }

  /** Excluding other slots does not change what sits in `s`. */
  lemma {:induction false} MatchingOutside(x: seq<TimeEntry>, ss: set<Slot>, s: Slot)
    requires s !in ss
    ensures Matching(Outside(x, ss), s) == Matching(x, s)
  {
    if |x| > 0 {
      var init, e := x[..|x| - 1], x[|x| - 1];
      MatchingOutside(init, ss, s);
      if SlotOf(e) !in ss {
        MatchingAppend(Outside(init, ss), [e], s);
      }
    }
  }

  /** Two stores that agree outside `ss` hold the same entries in every slot not in `ss`. */
  lemma SameOutsideSameMatching(x: seq<TimeEntry>, y: seq<TimeEntry>, ss: set<Slot>, s: Slot)
    requires s !in ss && Outside(x, ss) == Outside(y, ss)
    ensures Matching(x, s) == Matching(y, s)
  {
    MatchingOutside(x, ss, s);
    MatchingOutside(y, ss, s);
  }

  function SumHours(entries: seq<TimeEntry>): int {
    if |entries| == 0 then 0 else SumHours(entries[..|entries| - 1]) + entries[|entries| - 1].hours
  }

  /** `timesheet.entries.aggregate(total=Sum('hours'))['total'] or 0`. */
  function TotalHours(entries: seq<TimeEntry>, id: int): int {
    SumHours(EntriesOf(entries, id))
  }

  // ---------------------------------------------------------------------
  // Creation

  datatype FormError =
    | StartDateRequired   // the model field is required, so the form refuses an empty date
    | PastMonth           // clean_start_date
    | DuplicateWeek       // IntegrityError on unique_together (user, start_date)

  /** Whether `d` lies in a month before the one holding `today`. */
  predicate InEarlierMonth(d: Date, today: Date) {
    d.year < today.year || (d.year == today.year && d.month < today.month)
  }

  /** `TimesheetForm.clean_start_date`: refuses a start date in an earlier
      month than `today`'s and otherwise returns the value unchanged; an
      empty value skips the check. */
  function CleanStartDate(start: Option<Date>, today: Date): (r: Result<Option<Date>, FormError>)
    ensures start.None? ==> r == Success(None)
    ensures start.Some? ==> (r.Failure? <==> InEarlierMonth(start.value, today))
    ensures r.Success? ==> r.value == start
    ensures r.Failure? ==> r.error == PastMonth
  {
    if start.Some? && InEarlierMonth(start.value, today) then Failure(PastMonth) else Success(start)
  }

  /** At most one timesheet per (user, start_date). */
  predicate UniqueWeeks(sheets: seq<Timesheet>) {
    forall i, j :: 0 <= i < j < |sheets| ==>
      !(sheets[i].user == sheets[j].user && sheets[i].startDate == sheets[j].startDate)
  }

  predicate UniqueIds(sheets: seq<Timesheet>) {
    forall i, j :: 0 <= i < j < |sheets| ==> sheets[i].id != sheets[j].id
  }

  /** The id the next row receives: one more than every id in use. */
  function NextSheetId(sheets: seq<Timesheet>): (r: int)
    ensures forall i :: 0 <= i < |sheets| ==> sheets[i].id < r
  {
    if |sheets| == 0 then 1
    else
      var rest := NextSheetId(sheets[..|sheets| - 1]);
      var last := sheets[|sheets| - 1].id;
      if last + 1 > rest then last + 1 else rest
  }

  /** The sheet `form_valid` saves: the owner is the requesting user, the
      week ends six days after it starts and the status starts as DRAFT. */
  function NewSheet(id: int, owner: int, start: Date): (t: Timesheet)
    requires Valid(start)
    ensures t.id == id && t.user == owner && t.startDate == start && t.status == Draft
    ensures t.endDate == AddDays(start, 6)
    ensures t.approvedBy == None && t.partialApprovers == {} && t.rejectionReason == ""
  {
    Timesheet(id, owner, start, AddDays(start, 6), Draft, None, {}, "")
  }

  /** Creating a timesheet from the form: the date is required, may not lie
      in an earlier month, and may not repeat a week the user already has;
      any refusal saves nothing. The form exposes only the start date, so
      the owner, end date and status never come from input. */
  function CreateTimesheet(sheets: seq<Timesheet>, owner: User, start: Option<Date>, today: Date)
    : (r: Result<seq<Timesheet>, FormError>)
    requires start.Some? ==> Valid(start.value)
    ensures r.Failure? <==>
      || start.None?
      || InEarlierMonth(start.value, today)
      || exists i :: 0 <= i < |sheets| && sheets[i].user == owner.id && sheets[i].startDate == start.value
    ensures r.Success? ==> |r.value| == |sheets| + 1 && r.value[..|sheets|] == sheets
    ensures r.Success? ==>
      var t := r.value[|sheets|];
      t.user == owner.id && t.startDate == start.value && t.endDate == AddDays(start.value, 6)
      && t.status == Draft && t.approvedBy == None && t.partialApprovers == {} && t.rejectionReason == ""
    ensures r.Success? ==> (UniqueWeeks(sheets) ==> UniqueWeeks(r.value)) && (UniqueIds(sheets) ==> UniqueIds(r.value))
  {
    if start.None? then Failure(StartDateRequired)
    else
      var cleaned :- CleanStartDate(start, today);
      var d := start.value;
      if exists i :: 0 <= i < |sheets| && sheets[i].user == owner.id && sheets[i].startDate == d
      then Failure(DuplicateWeek)
      else
        var t := NewSheet(NextSheetId(sheets), owner.id, d);
        var r := sheets + [t];
        assert r[..|sheets|] == sheets;
        Success(r)
  }
}
