/** Issues (tasks) of a project: the quick-create form and the status update
    of apps/projects/views.py, and the data step of migration 0009 that
    copies the single colleague into the colleagues set. The `Issue` model
    itself is not part of this model; its type, status and priority choices
    are a parameter. */
module Issues {
  import opened Wrappers
  import opened Text
  import opened Dates
  import opened Accounts
  import opened Projects

  /** The choices of the `Issue` model and the three values the quick form
      falls back on: the TASK type, the TODO status and MEDIUM priority. */
  datatype IssueChoices = IssueChoices(
    types: set<string>,
    statuses: set<string>,
    priorities: set<string>,
    task: string,
    todo: string,
    medium: string)

  /** The fields of the quick-create POST, each absent or a string. */
  datatype QuickForm = QuickForm(
    title: Option<string>,
    description: Option<string>,
    project: Option<string>,
    assignedTo: Option<string>,
    taskType: Option<string>,
    status: Option<string>,
    priority: Option<string>,
    dueDate: Option<string>,
    startDate: Option<string>)

  /** The problems the form reports, one per message it can show. */
  datatype FormError =
    | MissingTitle
    | MissingProject
    | UnknownProject
    | BadType
    | BadStatus
    | BadPriority
    | BadStartDate
    | BadDueDate

  /** An issue as the quick form writes it. */
  datatype Issue = Issue(
    project: int,
    title: string,
    description: string,
    startDate: Option<Date>,
    dueDate: Option<Date>,
    issueType: string,
    createdBy: int,
    status: string,
    priority: string,
    assignedTo: Option<int>)

  /** How a quick-create request ends: an issue written, the form shown
      again with its errors, or a `ValueError` from a primary key that is not
      a number. A crash after the insert keeps the inserted issue, since the
      request does not run in one transaction. */
  datatype QuickOutcome =
    | Created(issue: Issue)
    | Rejected(errors: seq<FormError>)
    | Crashed(kept: Option<Issue>)

  /** Python truthiness of a POST value: present and not empty. */
  predicate Truthy(v: Option<string>) {
    v.Some? && v.value != ""
  }

  /** `request.POST.get(name) or default`. */
  function OrDefault(v: Option<string>, default: string): string {
    if Truthy(v) then v.value else default
  }

  /** The title as the view reads it: missing counts as empty, then stripped. */
  function TitleOf(form: QuickForm): string {
    Strip(form.title.GetOr(""))
  }

  /** `Project.objects.filter(pk=project_id)` raises on a value `int()` refuses. */
  predicate ProjectCrashes(form: QuickForm) {
    Truthy(form.project) && ParseInt(form.project.value).None?
  }

  /** `User.objects.filter(pk=assigned_id)` raises likewise. */
  predicate AssigneeCrashes(form: QuickForm) {
    Truthy(form.assignedTo) && ParseInt(form.assignedTo.value).None?
  }

  /** A date field as the view reads it: skipped when empty, otherwise read
      with `datetime.fromisoformat(raw).date()`, of which the strict date
      reader takes the plain date form only. */
  function DateField(v: Option<string>): Option<Option<Date>> {
    if !Truthy(v) then Some(None)
    else match ParseDate(v.value, true)
      case Some(d) => Some(Some(d))
      case None => None
  }

  /** Where each error sits in the message: the order the view checks the fields. */
  function Position(e: FormError): nat {
    match e
    case MissingTitle => 0
    case MissingProject => 1
    case UnknownProject => 2
    case BadType => 3
    case BadStatus => 4
    case BadPriority => 5
    case BadStartDate => 6
    case BadDueDate => 7
  }

  /** An error list in message order, each error at most once. */
  ghost predicate InOrder(errors: seq<FormError>) {
    forall i, j :: 0 <= i < j < |errors| ==> Position(errors[i]) < Position(errors[j])
  }

  /** Two lists in order, the first wholly before the second, join in order. */
  lemma ConcatInOrder(a: seq<FormError>, b: seq<FormError>)
    requires InOrder(a) && InOrder(b)
    requires forall x, y :: x in a && y in b ==> Position(x) < Position(y)
    ensures InOrder(a + b)
  {
    forall i, j | 0 <= i < j < |a + b|
      ensures Position((a + b)[i]) < Position((a + b)[j])
    {
      if j < |a| {
      } else if i >= |a| {
        assert (a + b)[i] == b[i - |a|] && (a + b)[j] == b[j - |a|];
      } else {
        assert (a + b)[i] in a && (a + b)[j] in b;
      }
    }
  }

  /** The error at a position of the message. */
  function ErrorAt(k: nat): (e: FormError)
    requires k < 8
    ensures Position(e) == k
  {
    [MissingTitle, MissingProject, UnknownProject, BadType, BadStatus, BadPriority, BadStartDate, BadDueDate][k]
  }

  /** The errors whose checks fail, in order: `failed[k]` says whether the
      check at position `k` failed. */
  function Collect(failed: seq<bool>): (r: seq<FormError>)
    requires |failed| <= 8
    ensures forall e :: e in r <==> Position(e) < |failed| && failed[Position(e)]
    ensures forall e :: e in r ==> Position(e) < |failed|
    ensures InOrder(r)
  {
    if |failed| == 0 then []
    else
      var k := |failed| - 1;
      var init := Collect(failed[..k]);
      var last := if failed[k] then [ErrorAt(k)] else [];
      ConcatInOrder(init, last);
      init + last
  }

  /** The errors of the eight checks, given whether each failed. */
  function Errors(title: bool, project: bool, unknown: bool, kind: bool, status: bool, priority: bool, start: bool, due: bool): (r: seq<FormError>)
    ensures MissingTitle in r <==> title
    ensures MissingProject in r <==> project
    ensures UnknownProject in r <==> unknown
    ensures BadType in r <==> kind
    ensures BadStatus in r <==> status
    ensures BadPriority in r <==> priority
    ensures BadStartDate in r <==> start
    ensures BadDueDate in r <==> due
    ensures InOrder(r)
  {
    var failed := [title, project, unknown, kind, status, priority, start, due];
    assert Position(BadDueDate) == 7;
    Collect(failed)
  }

  /** The errors the view collects, for a form whose project key does not
      crash the lookup: every check runs, none stops the others. */
  function QuickErrors(form: QuickForm, c: Catalog, ch: IssueChoices): (r: seq<FormError>)
    ensures MissingTitle in r <==> TitleOf(form) == ""
    ensures MissingProject in r <==> !Truthy(form.project)
    ensures UnknownProject in r <==>
      Truthy(form.project) && ParseInt(form.project.value).Some? && ParseInt(form.project.value).value !in c
    ensures BadType in r <==> OrDefault(form.taskType, ch.task) !in ch.types
    ensures BadStatus in r <==> OrDefault(form.status, ch.todo) !in ch.statuses
    ensures BadPriority in r <==> OrDefault(form.priority, ch.medium) !in ch.priorities
    ensures BadStartDate in r <==> DateField(form.startDate).None?
    ensures BadDueDate in r <==> DateField(form.dueDate).None?
    ensures InOrder(r)
  {
    var id := if Truthy(form.project) then ParseInt(form.project.value) else None;
    Errors(
      TitleOf(form) == "",
      !Truthy(form.project),
      id.Some? && id.value !in c,
      OrDefault(form.taskType, ch.task) !in ch.types,
      OrDefault(form.status, ch.todo) !in ch.statuses,
      OrDefault(form.priority, ch.medium) !in ch.priorities,
      DateField(form.startDate).None?,
      DateField(form.dueDate).None?)
  }

  /** What makes a form acceptable, field by field: a title, a project that
      exists, a type, status and priority among the choices (after the
      fallbacks), and each date empty or a date. */
  ghost predicate Acceptable(form: QuickForm, c: Catalog, ch: IssueChoices) {
    && TitleOf(form) != ""
    && Truthy(form.project)
    && ParseInt(form.project.value).Some?
    && ParseInt(form.project.value).value in c
    && OrDefault(form.taskType, ch.task) in ch.types
    && OrDefault(form.status, ch.todo) in ch.statuses
    && OrDefault(form.priority, ch.medium) in ch.priorities
    && DateField(form.startDate).Some?
    && DateField(form.dueDate).Some?
  }

  /** The issue a request writes, if any. */
  function Written(o: QuickOutcome): Option<Issue> {
    match o
    case Created(i) => Some(i)
    case Rejected(_) => None
    case Crashed(kept) => kept
  }

  /** The assignee the view sets after the insert: the posted id when it
      names an existing user, else none. */
  function AssigneeOf(form: QuickForm, users: set<int>): (r: Option<int>)
    ensures r.Some? ==> r.value in users && Truthy(form.assignedTo) && ParseInt(form.assignedTo.value) == r
    ensures r.None? && Truthy(form.assignedTo) && ParseInt(form.assignedTo.value).Some? ==>
      ParseInt(form.assignedTo.value).value !in users
  {
    if !Truthy(form.assignedTo) then None
    else match ParseInt(form.assignedTo.value)
      case Some(u) => if u in users then Some(u) else None
      case None => None
  }

  /** The collected errors and the field-by-field reading agree: a form
      whose project key does not crash shows no error exactly when it is
      acceptable. */
  lemma AcceptableIffNoErrors(form: QuickForm, c: Catalog, ch: IssueChoices)
    requires !ProjectCrashes(form)
    ensures |QuickErrors(form, c, ch)| == 0 <==> Acceptable(form, c, ch)
  {
    var errors := QuickErrors(form, c, ch);
    if |errors| == 0 {
      assert MissingTitle !in errors && MissingProject !in errors && UnknownProject !in errors;
      assert BadType !in errors && BadStatus !in errors && BadPriority !in errors;
      assert BadStartDate !in errors && BadDueDate !in errors;
    } else if Acceptable(form, c, ch) {
      assert errors[0] in errors;
      match errors[0]
      case MissingTitle =>
      case MissingProject =>
      case UnknownProject =>
      case BadType =>
      case BadStatus =>
      case BadPriority =>
      case BadStartDate =>
      case BadDueDate =>
    }
  }

  /** The row `Issue.objects.create` inserts for an acceptable form: the
      project it names, the stripped title and description, the fallbacks
      applied, the dates read, the actor as creator and no assignee yet. */
  function Inserted(form: QuickForm, c: Catalog, actor: int, ch: IssueChoices): (i: Issue)
    requires Acceptable(form, c, ch)
    ensures ParseInt(form.project.value) == Some(i.project) && i.project in c
    ensures i.title == TitleOf(form) && i.title != ""
    ensures i.description == Strip(form.description.GetOr(""))
    ensures i.issueType == OrDefault(form.taskType, ch.task) && i.issueType in ch.types
    ensures i.status == OrDefault(form.status, ch.todo) && i.status in ch.statuses
    ensures i.priority == OrDefault(form.priority, ch.medium) && i.priority in ch.priorities
    ensures Some(i.startDate) == DateField(form.startDate) && Some(i.dueDate) == DateField(form.dueDate)
    ensures i.createdBy == actor && i.assignedTo.None?
  {
    Issue(
      ParseInt(form.project.value).value,
      TitleOf(form),
      Strip(form.description.GetOr("")),
      DateField(form.startDate).value,
      DateField(form.dueDate).value,
      OrDefault(form.taskType, ch.task),
      actor,
      OrDefault(form.status, ch.todo),
      OrDefault(form.priority, ch.medium),
      None)
  }

  /** `QuickTaskCreateView.post`: the lookup of a non-numeric project crashes
      before anything is written; any collected error writes nothing and
      shows every error; an acceptable form inserts its issue and then sets
      the assignee when the posted id names a user, while a non-numeric
      assignee crashes after the insert, leaving the issue unassigned. */
  function QuickCreate(form: QuickForm, c: Catalog, users: set<int>, actor: int, ch: IssueChoices): (r: QuickOutcome)
    ensures ProjectCrashes(form) ==> r == Crashed(None)
    ensures r.Rejected? ==> r.errors == QuickErrors(form, c, ch) && |r.errors| > 0
  {
    if ProjectCrashes(form) then Crashed(None)
    else
      var errors := QuickErrors(form, c, ch);
      AcceptableIffNoErrors(form, c, ch);
      if |errors| > 0 then Rejected(errors)
      else if AssigneeCrashes(form) then Crashed(Some(Inserted(form, c, actor, ch)))
      else Created(Inserted(form, c, actor, ch).(assignedTo := AssigneeOf(form, users)))
  }

  /** A form is turned away exactly when its project key reads and some
      check fails. */
  lemma QuickCreateRejects(form: QuickForm, c: Catalog, users: set<int>, actor: int, ch: IssueChoices)
    ensures QuickCreate(form, c, users, actor, ch).Rejected? <==> !ProjectCrashes(form) && !Acceptable(form, c, ch)
  {
    if !ProjectCrashes(form) {
      AcceptableIffNoErrors(form, c, ch);
    }
  }

  /** An issue is written exactly for an acceptable form: the inserted row,
      then assigned to the posted user when that id names one; the request
      crashes after the insert exactly when the assignee id is not a number. */
  lemma QuickCreateWrites(form: QuickForm, c: Catalog, users: set<int>, actor: int, ch: IssueChoices)
    ensures var r := QuickCreate(form, c, users, actor, ch);
      Written(r).Some? <==> Acceptable(form, c, ch)
    ensures var r := QuickCreate(form, c, users, actor, ch);
      Written(r).Some? ==>
        && Written(r).value == Inserted(form, c, actor, ch).(assignedTo := AssigneeOf(form, users))
        && (r.Crashed? <==> AssigneeCrashes(form))
  {
    if !ProjectCrashes(form) {
      AcceptableIffNoErrors(form, c, ch);
    } else {
      assert !Acceptable(form, c, ch);
    }
  }

  /** Every failing check is reported at once, in field order: a form with
      no title and a bad priority reports both. */
  lemma ErrorsCollected(form: QuickForm, c: Catalog, ch: IssueChoices, users: set<int>, actor: int)
    requires !ProjectCrashes(form) && TitleOf(form) == ""
    requires OrDefault(form.priority, ch.medium) !in ch.priorities
    ensures var r := QuickCreate(form, c, users, actor, ch);
      r.Rejected? && MissingTitle in r.errors && BadPriority in r.errors
      && r.errors[0] == MissingTitle
  {
    var errors := QuickErrors(form, c, ch);
    assert MissingTitle in errors;
  }

  /** An unknown assignee is dropped without an error: the issue is still
      written, unassigned. */
  lemma UnknownAssigneeIgnored(form: QuickForm, c: Catalog, users: set<int>, actor: int, ch: IssueChoices)
    requires Acceptable(form, c, ch)
    requires Truthy(form.assignedTo) && ParseInt(form.assignedTo.value).Some?
    requires ParseInt(form.assignedTo.value).value !in users
    ensures var r := QuickCreate(form, c, users, actor, ch);
      r.Created? && r.issue.assignedTo.None?
  {
    QuickCreateWrites(form, c, users, actor, ch);
  }

  // ---------------------------------------------------------------------
  // TaskUpdateView

  /** An issue row as the status update sees it. */
  datatype IssueRow = IssueRow(project: int, issueType: string, status: string)

  /** `TaskUpdateView.get_queryset`: tasks only; a superuser or holder of
      `change_project` reaches every task; a client those of external
      projects where they are the client or on the team; anyone else those
      of projects they are involved in. */
  predicate TaskReachable(c: Catalog, row: IssueRow, u: User, ch: IssueChoices) {
    && row.issueType == ch.task
    && row.project in c
    && var p := c[row.project];
       if u.isSuperuser || HasPerm(u, "projects.change_project") then true
       else if IsClient(u) then p.externalAccess && (p.client == Some(u.id) || u.id in p.team)
       else Involves(p, u.id)
  }

  /** A task the update view reaches belongs to a project the user can see. */
  lemma ReachableTaskIsVisible(c: Catalog, row: IssueRow, u: User, ch: IssueChoices)
    requires TaskReachable(c, row, u, ch)
    ensures row.project in VisibleProjects(c, u)
  {
  }

  /** The global permissions under which the update view reads every task. */
  predicate ReachesAllTasks(u: User) {
    u.isSuperuser || HasPerm(u, "projects.change_project")
  }

  /** The rows `TaskUpdateView.get_queryset().filter(pk=id)` yields: one for
      a global permission, otherwise one per passing row of the join of the
      task's project with its team. */
  function TaskRows(rows: map<int, IssueRow>, id: int, u: User, c: Catalog, ch: IssueChoices): nat {
    if !(id in rows && rows[id].issueType == ch.task && rows[id].project in c) then 0
    else if ReachesAllTasks(u) then 1
    else JoinedRows(c[rows[id].project], u)
  }

  /** Whether the task query, read under `policy`, finds task `id` more than
      once: as for projects, through the task's project and its team. */
  predicate TaskRepeats(rows: map<int, IssueRow>, id: int, u: User, c: Catalog, ch: IssueChoices, policy: JoinPolicy) {
    && policy == KeepDuplicates && id in rows && rows[id].issueType == ch.task && rows[id].project in c
    && !ReachesAllTasks(u) && PassesWholeTeam(c[rows[id].project], u) && |c[rows[id].project].team| >= 2
  }

  /** `self.get_object()` in `TaskUpdateView.post`: a 404 exactly for a task
      out of reach, and a 500 exactly when the query repeats the task. */
  function TaskLookup(rows: map<int, IssueRow>, id: int, u: User, c: Catalog, ch: IssueChoices, policy: JoinPolicy)
    : (r: Fetch)
    ensures r == NoRow <==> !(id in rows && TaskReachable(c, rows[id], u, ch))
    ensures r == ManyRows <==> TaskRepeats(rows, id, u, c, ch, policy)
  {
    if !(id in rows && rows[id].issueType == ch.task && rows[id].project in c) then NoRow
    else
      JoinedRowsFound(c[rows[id].project], u);
      JoinedRowsRepeat(c[rows[id].project], u);
      FetchOf(TaskRows(rows, id, u, c, ch), policy)
  }

  /** `TaskUpdateView.post` with the task query read under `policy`: a 404
      when the task is out of reach, a 500 when the query finds it more than
      once; otherwise the rows afterwards, where the task takes the posted
      status when it is one of the choices and is unchanged otherwise. */
  function UpdateStatus(rows: map<int, IssueRow>, id: int, u: User, posted: Option<string>, c: Catalog,
                        ch: IssueChoices, policy: JoinPolicy): (r: Result<map<int, IssueRow>, LookupError>)
    ensures r == Failure(NoSuchObject) <==> !(id in rows && TaskReachable(c, rows[id], u, ch))
    ensures r == Failure(MultipleObjects) <==> TaskRepeats(rows, id, u, c, ch, policy)
    ensures r.Success? ==> r.value.Keys == rows.Keys
    ensures r.Success? ==> forall k :: k in rows && k != id ==> r.value[k] == rows[k]
    ensures r.Success? ==> r.value[id].project == rows[id].project && r.value[id].issueType == rows[id].issueType
    ensures r.Success? && posted.Some? && posted.value in ch.statuses ==> r.value[id].status == posted.value
    ensures r.Success? && !(posted.Some? && posted.value in ch.statuses) ==> r.value == rows
  {
    match TaskLookup(rows, id, u, c, ch, policy)
    case NoRow => Failure(NoSuchObject)
    case ManyRows => Failure(MultipleObjects)
    case OneRow =>
      if posted.Some? && posted.value in ch.statuses then Success(rows[id := rows[id].(status := posted.value)])
      else Success(rows)
  }

  /** As written, the manager of a project whose team has two members, with
      no global permission, cannot move its tasks: the lookup finds the task
      twice and the request is a 500 that changes nothing. With the distinct
      query the status is applied. */
  lemma TeamOfTwoStatusCrash(rows: map<int, IssueRow>, id: int, u: User, s: string, c: Catalog, ch: IssueChoices)
    requires id in rows && rows[id].issueType == ch.task && rows[id].project in c
    requires !ReachesAllTasks(u) && !IsClient(u)
    requires c[rows[id].project].manager == Some(u.id) && |c[rows[id].project].team| == 2
    requires s in ch.statuses
    ensures UpdateStatus(rows, id, u, Some(s), c, ch, KeepDuplicates) == Failure(MultipleObjects)
    ensures UpdateStatus(rows, id, u, Some(s), c, ch, Distinct).Success?
    ensures UpdateStatus(rows, id, u, Some(s), c, ch, Distinct).value[id].status == s
  {
  }

  /** With the distinct query the update never crashes: it goes through
      exactly for a reachable task. */
  lemma DistinctUpdateReachesTask(rows: map<int, IssueRow>, id: int, u: User, posted: Option<string>, c: Catalog,
                                  ch: IssueChoices)
    ensures UpdateStatus(rows, id, u, posted, c, ch, Distinct).Success? <==> id in rows && TaskReachable(c, rows[id], u, ch)
  {
  }

  /** Posting the same status twice is posting it once. */
  lemma UpdateStatusIdempotent(rows: map<int, IssueRow>, id: int, u: User, posted: Option<string>, c: Catalog,
                               ch: IssueChoices, policy: JoinPolicy)
    requires UpdateStatus(rows, id, u, posted, c, ch, policy).Success?
    ensures var once := UpdateStatus(rows, id, u, posted, c, ch, policy).value;
      UpdateStatus(once, id, u, posted, c, ch, policy) == Success(once)
  {
    var once := UpdateStatus(rows, id, u, posted, c, ch, policy).value;
    assert once[id].project == rows[id].project && once[id].issueType == rows[id].issueType;
    if posted.Some? && posted.value in ch.statuses {
      assert once[id := once[id].(status := posted.value)] == once;
    }
  }

  // ---------------------------------------------------------------------
  // Migration 0009: colleague into colleagues

  /** The two colleague columns of an issue during the migration. */
  datatype ColleagueRow = ColleagueRow(colleague: Option<int>, colleagues: set<int>)

  /** `copy_colleague_to_colleagues` for one issue: a set colleague (a
      truthy id, so neither NULL nor 0) is added to the set. */
  function CopyColleague(row: ColleagueRow): ColleagueRow {
    if row.colleague.Some? && row.colleague.value != 0 then row.(colleagues := row.colleagues + {row.colleague.value})
    else row
  }

  /** `copy_colleague_to_colleagues`: every issue keeps its colleagues and
      gains its single colleague when one is set; nothing else changes. */
  function CopyColleagues(issues: map<int, ColleagueRow>): (r: map<int, ColleagueRow>)
    ensures r.Keys == issues.Keys
    ensures forall id :: id in issues ==> r[id].colleague == issues[id].colleague
    ensures forall id :: id in issues ==> issues[id].colleagues <= r[id].colleagues
    ensures forall id, u :: id in issues ==>
      (u in r[id].colleagues <==> u in issues[id].colleagues || (issues[id].colleague == Some(u) && u != 0))
  {
    map id | id in issues :: CopyColleague(issues[id])
  }

  /** An issue whose colleague is set has that colleague in the set afterwards. */
  lemma ColleagueCopied(issues: map<int, ColleagueRow>, id: int)
    requires id in issues && issues[id].colleague.Some? && issues[id].colleague.value != 0
    ensures issues[id].colleague.value in CopyColleagues(issues)[id].colleagues
  {
  }

  /** An issue without a colleague is left as it was. */
  lemma NullColleagueUnaffected(issues: map<int, ColleagueRow>, id: int)
    requires id in issues && issues[id].colleague.None?
    ensures CopyColleagues(issues)[id] == issues[id]
  {
  }

  /** Running the copy twice is running it once. */
  lemma CopyColleaguesIdempotent(issues: map<int, ColleagueRow>)
    ensures CopyColleagues(CopyColleagues(issues)) == CopyColleagues(issues)
  {
    var once := CopyColleagues(issues);
    var twice := CopyColleagues(once);
    forall id | id in issues
      ensures twice[id] == once[id]
    {
      assert twice[id].colleagues == once[id].colleagues;
    }
  }

  /** The schema step that follows the copy: the single column goes and
      each issue keeps only its set. */
  function DropColleague(issues: map<int, ColleagueRow>): (r: map<int, set<int>>)
    ensures r.Keys == issues.Keys
    ensures forall id :: id in issues ==> r[id] == issues[id].colleagues
  {
    map id | id in issues :: issues[id].colleagues
  }

  /** After the whole migration no colleague is lost: each issue's former
      single colleague is among its colleagues. */
  lemma MigrationKeepsColleague(issues: map<int, ColleagueRow>, id: int)
    requires id in issues && issues[id].colleague.Some? && issues[id].colleague.value != 0
    ensures issues[id].colleague.value in DropColleague(CopyColleagues(issues))[id]
  {
  }
}
