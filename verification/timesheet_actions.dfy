/** The action endpoint `TimesheetActionView.post` over a whole store: the
    sheet lookup through the view's queryset, the operate guard, and the
    dispatch to the approval transitions and the grid edits; plus the
    owner-only deletion of a sheet with its entries. Any outcome other than
    `Applied` leaves the store as it was. */
module TimesheetActions {
  import opened Wrappers
  import opened Accounts
  import opened Projects
  import opened Timesheets
  import opened Lifecycle
  import opened Reconciler
  import opened Sequences
  import opened Text

  /** The rows the actions read and write. */
  datatype Db = Db(sheets: seq<Timesheet>, entries: seq<TimeEntry>, catalog: Catalog)

  /** The posted `action` with its parameters; `OtherAction` is any other value,
      or none. */
  datatype Action =
    | SubmitSheet
    | ApproveSheet
    | RejectSheet(reason: Option<string>)
    | CancelSheet
    | AddRowOf(project: Option<string>, task: Option<string>, activity: Option<string>)
    | DeleteRowOf(project: Option<string>, task: Option<string>, activity: Option<string>)
    | SaveGridOf(fields: GridKeys.PostedFields)
    | OtherAction

  datatype Outcome =
    | Applied
    | NoAction                // an unknown action: straight back to the page
    | NotFound                // the sheet is outside the actor's queryset (404)
    | Denied                  // the operate guard sent the actor back to the list
    | Refused(why: Refusal)   // a transition refused, with a message
    | RowRefused(e: RowError) // a row action refused or failed
    | Crashed(c: Crash)       // the grid save failed and was rolled back

  /** `get_queryset()` of the action view: a MANAGER without the change
      permission reaches the sheets holding an entry of a project they
      manage, and their own; other unprivileged users only their own. */
  predicate ActionVisible(entries: seq<TimeEntry>, c: Catalog, ts: Timesheet, u: User) {
    if ManagerRole(u) && !Privileged(u) then HasScope(entries, c, ts, u.id) || IsOwner(u, ts)
    else if !Privileged(u) then IsOwner(u, ts)
    else true
  }

  /** The queryset already implies the operate guard, so the guard never
      turns away an actor who found the sheet. */
  lemma VisibleMayOperate(entries: seq<TimeEntry>, c: Catalog, ts: Timesheet, u: User)
    requires ActionVisible(entries, c, ts, u)
    ensures MayOperate(entries, c, ts, u)
  {
  }

  /** The position of the sheet with primary key `id`. */
  function FindSheet(sheets: seq<Timesheet>, id: int): (r: Option<nat>)
    ensures r.Some? ==> r.value < |sheets| && sheets[r.value].id == id
    ensures r.None? ==> forall i :: 0 <= i < |sheets| ==> sheets[i].id != id
  {
    if |sheets| == 0 then None
    else if sheets[0].id == id then Some(0)
    else
      match FindSheet(sheets[1..], id)
      case None => None
      case Some(i) => Some(i + 1)
  }

  /** A transition's result written back to the sheet at `i`. */
  function Transition(db: Db, i: nat, r: Result<Timesheet, Refusal>): (out: (Db, Outcome))
    requires i < |db.sheets|
    ensures r.Failure? ==> out == (db, Refused(r.error))
    ensures r.Success? ==> out == (db.(sheets := db.sheets[i := r.value]), Applied)
  {
    match r
    case Failure(why) => (db, Refused(why))
    case Success(t) => (db.(sheets := db.sheets[i := t]), Applied)
  }

  /** A row action's result written back to the entry store. An id text
      `int()` refuses raises `ValueError` out of the view, a 500 that
      writes nothing; the other refusals redirect with a message. */
  function EntryEdit(db: Db, r: Result<seq<TimeEntry>, RowError>): (out: (Db, Outcome))
    ensures r.Failure? ==> out.0 == db
    ensures out.1 == Applied <==> r.Success?
    ensures r.Success? ==> out.0 == db.(entries := r.value)
    ensures out.1 == Crashed(IdNotInteger) <==> r == Failure(BadId)
    ensures out.1.RowRefused? ==> out.1.e != BadId
  {
    match r
    case Failure(BadId) => (db, Crashed(IdNotInteger))
    case Failure(e) => (db, RowRefused(e))
    case Success(x) => (db.(entries := x), Applied)
  }

  /** `post(request, pk)` by `actor`, with the grid save ensuring anchors
      under `policy`: `GetOrCreate` as written, `CreateIfMissing` as
      corrected. A sheet outside the actor's queryset is a 404, the operate
      guard never turns away an actor who found the sheet, and an unknown
      action changes nothing. */
  function Post(db: Db, id: int, actor: User, action: Action, policy: AnchorPolicy): (out: (Db, Outcome))
    ensures out.1 != Applied ==> out.0 == db
    ensures FindSheet(db.sheets, id).None? ==> out.1 == NotFound
    ensures FindSheet(db.sheets, id).Some? ==>
      (out.1 == NotFound <==> !ActionVisible(db.entries, db.catalog, db.sheets[FindSheet(db.sheets, id).value], actor))
    ensures out.1 != Denied
    ensures out.1 == NoAction <==> out.1 != NotFound && action == OtherAction
    ensures out.1.Crashed? ==> GridEdit(action)
    ensures out.1 == Crashed(IdNotInteger) ==> action.AddRowOf? || action.DeleteRowOf?
    ensures out.1.RowRefused? ==> out.1.e != BadId
  {
    match FindSheet(db.sheets, id)
    case None => (db, NotFound)
    case Some(i) =>
      var ts := db.sheets[i];
      if !ActionVisible(db.entries, db.catalog, ts, actor) then (db, NotFound)
      else if !MayOperate(db.entries, db.catalog, ts, actor) then (db, Denied)
      else
        var allowed := AssignableProjects(db.catalog, actor);
        match action
        case SubmitSheet => Transition(db, i, Submit(ts, db.entries))
        case ApproveSheet => Transition(db, i, Approve(ts, db.entries, db.catalog, actor))
        case RejectSheet(reason) => Transition(db, i, Reject(ts, db.entries, db.catalog, actor, reason))
        case CancelSheet => Transition(db, i, Cancel(ts, actor))
        case AddRowOf(p, t, a) => EntryEdit(db, AddRow(db.entries, ts, allowed, p, t, a))
        case DeleteRowOf(p, t, a) => EntryEdit(db, DeleteRow(db.entries, ts, p, t, a))
        case SaveGridOf(fields) =>
          if !Editable(ts.status) then (db, RowRefused(NotEditable))
          else
            SaveGridCrashKinds(db.entries, ts, allowed, DateGrid(GridKeys.Collect(fields)), policy);
            var saved := SaveForm(db.entries, ts, allowed, fields, policy);
            if saved.Failure? then (db, Crashed(saved.error)) else (db.(entries := saved.value), Applied)
        case OtherAction => (db, NoAction)
  }

  /** Whether the action edits the grid rather than the sheet. */
  predicate GridEdit(a: Action) {
    a.AddRowOf? || a.DeleteRowOf? || a.SaveGridOf?
  }

  /** A non-numeric project id posted to `add_row` on an editable sheet the
      actor reaches is a 500 from `int(project_id)`, and nothing is written. */
  lemma NonNumericProjectCrashes(db: Db, i: nat, actor: User, p: string, t: Option<string>, a: Option<string>,
                                 policy: AnchorPolicy)
    requires i < |db.sheets| && UniqueIds(db.sheets)
    requires ActionVisible(db.entries, db.catalog, db.sheets[i], actor) && Editable(db.sheets[i].status)
    requires p != "" && ParseInt(p).None?
    ensures Post(db, db.sheets[i].id, actor, AddRowOf(Some(p), t, a), policy) == (db, Crashed(IdNotInteger))
  {
    var ts := db.sheets[i];
    assert FindSheet(db.sheets, ts.id) == Some(i);
    VisibleMayOperate(db.entries, db.catalog, ts, actor);
    assert StoredId(Some(p)) == Failure(BadId);
    assert AddRow(db.entries, ts, AssignableProjects(db.catalog, actor), Some(p), t, a) == Failure(BadId);
  }

  /** A sheet that is neither a draft nor rejected keeps its entries. */
  lemma LockedGridIsKept(db: Db, id: int, actor: User, action: Action, policy: AnchorPolicy)
    requires GridEdit(action)
    requires forall i :: 0 <= i < |db.sheets| && db.sheets[i].id == id ==> !Editable(db.sheets[i].status)
    ensures Post(db, id, actor, action, policy).0 == db
  {
  }

  /** The grid edits never touch the sheet rows; the transitions change only
      the sheet acted on, and never its id, owner or week. */
  lemma PostKeepsSheets(db: Db, id: int, actor: User, action: Action, policy: AnchorPolicy)
    ensures var out := Post(db, id, actor, action, policy).0;
      && |out.sheets| == |db.sheets| && out.catalog == db.catalog
      && (forall j :: 0 <= j < |db.sheets| ==> SameWeek(db.sheets[j], out.sheets[j]))
      && (forall j :: 0 <= j < |db.sheets| && db.sheets[j].id != id ==> out.sheets[j] == db.sheets[j])
      && (GridEdit(action) ==> out.sheets == db.sheets)
  {
  }

  /** Any action keeps sheet ids and weeks unique. */
  lemma PostKeepsUniqueness(db: Db, id: int, actor: User, action: Action, policy: AnchorPolicy)
    requires UniqueIds(db.sheets) && UniqueWeeks(db.sheets)
    ensures UniqueIds(Post(db, id, actor, action, policy).0.sheets) && UniqueWeeks(Post(db, id, actor, action, policy).0.sheets)
  {
    PostKeepsSheets(db, id, actor, action, policy);
  }

  /** Adding a row touches only the entries of its own sheet. */
  lemma {:induction false} AppendOtherSheet(entries: seq<TimeEntry>, e: TimeEntry, other: int)
    requires e.sheet != Some(other)
    ensures EntriesOf(entries + [e], other) == EntriesOf(entries, other)
  {
    assert (entries + [e])[..|entries|] == entries;
  }

  /** Whatever the action, the entries of every other sheet are unchanged. */
  lemma PostKeepsOtherEntries(db: Db, id: int, actor: User, action: Action, policy: AnchorPolicy, other: int)
    requires other != id
    ensures EntriesOf(Post(db, id, actor, action, policy).0.entries, other) == EntriesOf(db.entries, other)
  {
    var found := FindSheet(db.sheets, id);
    if found.Some? {
      var ts := db.sheets[found.value];
      var allowed := AssignableProjects(db.catalog, actor);
      if ActionVisible(db.entries, db.catalog, ts, actor) && MayOperate(db.entries, db.catalog, ts, actor) {
        match action
        case AddRowOf(p, t, a) =>
          var r := AddRow(db.entries, ts, allowed, p, t, a);
          if r.Success? {
            AppendOtherSheet(db.entries, r.value[|db.entries|], other);
            assert r.value == db.entries + [r.value[|db.entries|]];
          }
        case DeleteRowOf(p, t, a) =>
          if DeleteRow(db.entries, ts, p, t, a).Success? {
            var key := RowKey(FilterId(p).value, StoredId(t).value, FilterId(a).value);
            DropRowOtherSheets(db.entries, ts.id, key, other);
          }
        case SaveGridOf(fields) =>
          if Editable(ts.status) && SaveForm(db.entries, ts, allowed, fields, policy).Success? {
            SaveGridOtherSheets(db.entries, ts, allowed, DateGrid(GridKeys.Collect(fields)), policy, other);
          }
        case _ =>
      }
    }
  }

  /** Whenever the detail page offers approval, the approve action applies. */
  lemma OfferedApprovalApplies(db: Db, i: nat, actor: User, policy: AnchorPolicy)
    requires i < |db.sheets| && UniqueIds(db.sheets)
    requires ActionVisible(db.entries, db.catalog, db.sheets[i], actor)
    requires CanApprove(db.entries, db.catalog, db.sheets[i], actor)
    ensures Post(db, db.sheets[i].id, actor, ApproveSheet, policy).1 == Applied
  {
    CanApproveThenApproves(db.entries, db.catalog, db.sheets[i], actor);
  }

  // ---------------------------------------------------------------------
  // Deleting a sheet

  /** The store without the entries of sheet `id`. */
  function DropSheetEntries(entries: seq<TimeEntry>, id: int): (r: seq<TimeEntry>)
    ensures forall e :: e in r <==> e in entries && e.sheet != Some(id)
  {
    if |entries| == 0 then []
    else
      var rest := DropSheetEntries(entries[..|entries| - 1], id);
      var e := entries[|entries| - 1];
      if e.sheet == Some(id) then rest else rest + [e]
  }

  /** Every entry of another sheet stays as often as the store holds it. */
  lemma {:induction false} DropSheetEntriesCounts(entries: seq<TimeEntry>, id: int)
    ensures forall e :: multiset(DropSheetEntries(entries, id))[e] == if e.sheet == Some(id) then 0 else multiset(entries)[e]
  {
    if |entries| > 0 {
      var init, e := entries[..|entries| - 1], entries[|entries| - 1];
      DropSheetEntriesCounts(init, id);
      assert entries == init + [e];
    }
  }

  /** The entries that stay keep their order. */
  lemma {:induction false} DropSheetEntriesInOrder(entries: seq<TimeEntry>, id: int)
    ensures Subsequence(DropSheetEntries(entries, id), entries)
  {
    if |entries| > 0 {
      var init, e := entries[..|entries| - 1], entries[|entries| - 1];
      var rest := DropSheetEntries(init, id);
      DropSheetEntriesInOrder(init, id);
      assert entries == init + [e];
      if e.sheet == Some(id) {
        SubsequenceSnoc(rest, init, e);
      } else {
        SubsequenceSnocBoth(rest, init, e);
      }
    }
  }

  /** `TimesheetDeleteView`: only the owner reaches the sheet; deleting it
      removes its entries too. */
  function DeleteSheet(db: Db, id: int, actor: User): (out: (Db, Outcome))
    requires UniqueIds(db.sheets)
    ensures out.1 != Applied ==> out.0 == db
    ensures out.1 == Applied <==> exists i :: 0 <= i < |db.sheets| && db.sheets[i].id == id && IsOwner(actor, db.sheets[i])
    ensures out.1 == Applied ==>
      && (forall t :: t in out.0.sheets <==> t in db.sheets && t.id != id)
      && (forall e :: e in out.0.entries <==> e in db.entries && e.sheet != Some(id))
  {
    match FindSheet(db.sheets, id)
    case None => (db, NotFound)
    case Some(i) =>
      if !IsOwner(actor, db.sheets[i]) then (db, NotFound)
      else
        var sheets := db.sheets[..i] + db.sheets[i + 1..];
        assert forall t :: t in sheets <==> t in db.sheets && t.id != id by {
          forall t
            ensures t in sheets <==> t in db.sheets && t.id != id
          {
            if t in sheets {
              var j :| 0 <= j < |sheets| && sheets[j] == t;
              if j < i {
                assert t == db.sheets[j];
              } else {
                assert t == db.sheets[j + 1];
              }
            }
            if t in db.sheets && t.id != id {
              var j :| 0 <= j < |db.sheets| && db.sheets[j] == t;
              if j < i {
                assert sheets[j] == t;
              } else {
                assert sheets[j - 1] == t;
              }
            }
          }
        }
        (db.(sheets := sheets, entries := DropSheetEntries(db.entries, id)), Applied)
  }
}
