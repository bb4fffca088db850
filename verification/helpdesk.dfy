/** The helpdesk (apps/helpdesk): tickets, who may list, open and edit them,
    the comment thread each reader sees, and the two project fields of the
    ticket form. Every view first requires the `core.access_helpdesk`
    permission. Listing order (`-created_at`, `created_at`) is the order
    of the given sequences. */
module Helpdesk {
  import opened Wrappers
  import opened Text
  import opened Accounts
  import Projects
  import PublicIds
  import opened Sequences

  datatype Priority = Low | Medium | High | Critical
  datatype Status = Open | InProgress | Resolved | Closed

  /** The defaults a new ticket takes. */
  const DefaultPriority: Priority := Medium
  const DefaultStatus: Status := Open

  /** The stored code of a priority. */
  function PriorityCode(p: Priority): string {
    match p
    case Low => "LOW"
    case Medium => "MEDIUM"
    case High => "HIGH"
    case Critical => "CRITICAL"
  }

  /** The priority a stored code names, if any. */
  function ParsePriority(code: string): (r: Option<Priority>)
    ensures forall p :: r == Some(p) <==> PriorityCode(p) == code
  {
    if code == "LOW" then Some(Low)
    else if code == "MEDIUM" then Some(Medium)
    else if code == "HIGH" then Some(High)
    else if code == "CRITICAL" then Some(Critical)
    else None
  }

  /** The stored code of a status. */
  function StatusCode(s: Status): string {
    match s
    case Open => "OPEN"
    case InProgress => "IN_PROGRESS"
    case Resolved => "RESOLVED"
    case Closed => "CLOSED"
  }

  /** The status a stored code names, if any. */
  function ParseStatus(code: string): (r: Option<Status>)
    ensures forall s :: r == Some(s) <==> StatusCode(s) == code
  {
    if code == "OPEN" then Some(Open)
    else if code == "IN_PROGRESS" then Some(InProgress)
    else if code == "RESOLVED" then Some(Resolved)
    else if code == "CLOSED" then Some(Closed)
    else None
  }

  /** The fields the rules read. Users and projects are ids. */
  datatype Ticket = Ticket(
    id: int,
    publicId: Option<nat>,
    title: string,
    createdBy: int,
    assignedTo: Option<int>,
    project: Option<int>,
    priority: Priority,
    status: Status)

  /** `self.public_id or self.id`: a missing or zero public number falls back to the key. */
  function ShownNumber(t: Ticket): int {
    if t.publicId.Some? && t.publicId.value != 0 then t.publicId.value else t.id
  }

  /** `Ticket.__str__`: `#<number> - <title>`. The text between `#` and the
      last ` - ` before the title reads back as the shown number. */
  function Label(t: Ticket): (r: string)
    ensures |r| >= |t.title| + 4 && r[0] == '#'
    ensures r[|r| - |t.title| - 3..] == " - " + t.title
    ensures ParseInt(r[1..|r| - |t.title| - 3]) == Some(ShownNumber(t))
  {
    var digits := IntToString(ShownNumber(t));
    var tail := " - " + t.title;
    var r := ['#'] + digits + tail;
    assert r[1..|r| - |tail|] == digits;
    assert r[|r| - |tail|..] == tail;
    LabelNumber(ShownNumber(t), r[1..|r| - |tail|]);
    r
  }

  lemma LabelNumber(n: int, digits: string)
    requires digits == IntToString(n)
    ensures ParseInt(digits) == Some(n)
  {
    ParseIntOfString(n);
  }

  // ---------------------------------------------------------------------
  // Who sees and edits what

  const HelpdeskPerm: string := "core.access_helpdesk"

  /** `HelpdeskAccessMixin`: without the permission every view answers 403. */
  predicate MayUseHelpdesk(u: User) {
    HasPerm(u, HelpdeskPerm)
  }

  /** The list and detail querysets: a client sees the tickets they opened,
      a collaborator those they opened or are assigned, anyone else all. */
  predicate CanView(u: User, t: Ticket) {
    if IsClient(u) then t.createdBy == u.id
    else if IsCollaborator(u) then t.createdBy == u.id || t.assignedTo == Some(u.id)
    else true
  }

  /** The edit queryset: superusers, staff and managers edit every ticket,
      anyone else the tickets they opened. */
  predicate CanEdit(u: User, t: Ticket) {
    u.isSuperuser || u.isStaff || IsManager(u) || t.createdBy == u.id
  }

  /** The tickets `u` may see, in order. */
  function Visible(tickets: seq<Ticket>, u: User): (r: seq<Ticket>)
    ensures |r| <= |tickets|
    ensures forall t :: multiset(r)[t] == if CanView(u, t) then multiset(tickets)[t] else 0
    ensures Subsequence(r, tickets)
  {
    if |tickets| == 0 then []
    else
      var rest := Visible(tickets[1..], u);
      assert tickets == [tickets[0]] + tickets[1..];
      if CanView(u, tickets[0]) then
        assert ([tickets[0]] + rest)[1..] == rest;
        [tickets[0]] + rest
      else
        SubsequenceCons(rest, tickets[0], tickets[1..]);
        rest
  }

  /** `TicketListView`: 403 (`None`) without the permission, else the
      tickets the user may see. */
  function TicketList(tickets: seq<Ticket>, u: User): (r: Option<seq<Ticket>>)
    ensures r.None? <==> !MayUseHelpdesk(u)
    ensures r.Some? ==> forall t :: t in r.value <==> t in tickets && CanView(u, t)
  {
    if !MayUseHelpdesk(u) then None else Some(Visible(tickets, u))
  }

  /** Primary keys are unique. */
  predicate UniqueIds(tickets: seq<Ticket>) {
    forall i, j :: 0 <= i < j < |tickets| ==> tickets[i].id != tickets[j].id
  }

  datatype Lookup = Forbidden | NotFound | Found(ticket: Ticket)

  /** `get_object()` on a queryset restricted by `allowed`: the ticket with
      key `pk` if it passes, else 404. */
  function Find(tickets: seq<Ticket>, pk: int, allowed: Ticket -> bool): (r: Lookup)
    ensures r.Found? || r == NotFound
    ensures r.Found? ==> r.ticket in tickets && r.ticket.id == pk && allowed(r.ticket)
    ensures r == NotFound ==> forall t :: t in tickets && t.id == pk ==> !allowed(t)
  {
    if |tickets| == 0 then NotFound
    else if tickets[0].id == pk && allowed(tickets[0]) then Found(tickets[0])
    else
      var r := Find(tickets[1..], pk, allowed);
      assert tickets == [tickets[0]] + tickets[1..];
      r
  }

  /** `TicketDetailView.get_object()`. */
  function DetailLookup(tickets: seq<Ticket>, u: User, pk: int): (r: Lookup)
    ensures r == Forbidden <==> !MayUseHelpdesk(u)
    ensures r.Found? ==> r.ticket in tickets && r.ticket.id == pk && CanView(u, r.ticket)
    ensures r == NotFound <==> MayUseHelpdesk(u) && forall t :: t in tickets && t.id == pk ==> !CanView(u, t)
  {
    if !MayUseHelpdesk(u) then Forbidden else Find(tickets, pk, t => CanView(u, t))
  }

  /** `TicketUpdateView.get_object()`. */
  function EditLookup(tickets: seq<Ticket>, u: User, pk: int): (r: Lookup)
    ensures r == Forbidden <==> !MayUseHelpdesk(u)
    ensures r.Found? ==> r.ticket in tickets && r.ticket.id == pk && CanEdit(u, r.ticket)
    ensures r == NotFound <==> MayUseHelpdesk(u) && forall t :: t in tickets && t.id == pk ==> !CanEdit(u, t)
  {
    if !MayUseHelpdesk(u) then Forbidden else Find(tickets, pk, t => CanEdit(u, t))
  }

  /** The detail page opens exactly the tickets the list shows. */
  lemma DetailAgreesWithList(tickets: seq<Ticket>, u: User, t: Ticket)
    requires UniqueIds(tickets) && t in tickets
    ensures DetailLookup(tickets, u, t.id).Found? <==>
      TicketList(tickets, u).Some? && t in TicketList(tickets, u).value
    ensures DetailLookup(tickets, u, t.id).Found? ==> DetailLookup(tickets, u, t.id).ticket == t
  {
    var r := DetailLookup(tickets, u, t.id);
    if r.Found? {
      var i :| 0 <= i < |tickets| && tickets[i] == r.ticket;
      var j :| 0 <= j < |tickets| && tickets[j] == t;
      assert i == j;
    }
  }

  /** Whoever opened a ticket may see it and edit it, whatever their role. */
  lemma CreatorSeesAndEdits(u: User, t: Ticket)
    requires t.createdBy == u.id
    ensures CanView(u, t) && CanEdit(u, t)
  {
  }

  /** A client sees only the tickets they opened, even a superuser client,
      because the list reads the role alone; yet a superuser client may
      edit every ticket. */
  lemma ClientViewsOwnOnly(u: User, t: Ticket)
    requires IsClient(u) && t.createdBy != u.id
    ensures !CanView(u, t)
    ensures u.isSuperuser ==> CanEdit(u, t)
  {
  }

  /** A plain collaborator assigned a ticket someone else opened sees it but
      may not edit it. */
  lemma AssigneeViewsButCannotEdit(u: User, t: Ticket)
    requires IsCollaborator(u) && !u.isSuperuser && !u.isStaff
    requires t.assignedTo == Some(u.id) && t.createdBy != u.id
    ensures CanView(u, t) && !CanEdit(u, t)
  {
  }

  // ---------------------------------------------------------------------
  // Comments

  datatype Comment = Comment(ticket: int, author: int, content: string, isInternal: bool)

  /** Managers (superusers included) read internal comments; everyone else
      reads only the public ones. */
  predicate ReadsInternal(u: User) {
    IsManager(u) || u.isSuperuser
  }

  /** The `comments` of a ticket's detail page for reader `u`, in order. */
  function Thread(comments: seq<Comment>, ticket: int, u: User): (r: seq<Comment>)
    ensures forall c ::
      multiset(r)[c] == (if c.ticket == ticket && (ReadsInternal(u) || !c.isInternal) then multiset(comments)[c] else 0)
    ensures Subsequence(r, comments)
  {
    if |comments| == 0 then []
    else
      var c := comments[0];
      var rest := Thread(comments[1..], ticket, u);
      assert comments == [c] + comments[1..];
      if c.ticket == ticket && (ReadsInternal(u) || !c.isInternal) then
        assert ([c] + rest)[1..] == rest;
        [c] + rest
      else
        SubsequenceCons(rest, c, comments[1..]);
        rest
  }

  datatype CommentPost = PostLookup(failed: Lookup) | Rerender | Posted(comment: Comment)

  /** `TicketDetailView.post`: the ticket is looked up as for the detail
      page; a comment whose stripped content is empty, or holds a NUL
      character (the null-character validator every form `CharField`
      carries), re-renders the page; otherwise the comment is saved on the
      ticket under the poster, public whenever the poster is a client. */
  function PostComment(tickets: seq<Ticket>, u: User, pk: int, content: string, internal: bool): (r: CommentPost)
    ensures r.PostLookup? <==> !DetailLookup(tickets, u, pk).Found?
    ensures r.PostLookup? ==> r.failed == DetailLookup(tickets, u, pk)
    ensures r == Rerender <==> DetailLookup(tickets, u, pk).Found? && (Strip(content) == "" || '\0' in content)
    ensures r.Posted? ==> r.comment.ticket == pk && r.comment.author == u.id
    ensures r.Posted? ==> r.comment.content == Strip(content) && r.comment.content != ""
    ensures r.Posted? ==> '\0' !in r.comment.content
    ensures r.Posted? ==> (r.comment.isInternal <==> internal && !IsClient(u))
  {
    var found := DetailLookup(tickets, u, pk);
    if !found.Found? then PostLookup(found)
    else if Strip(content) == "" || '\0' in content then Rerender
    else
      StripKeepsNonSpace(content, '\0');
      Posted(Comment(found.ticket.id, u.id, Strip(content), internal && !IsClient(u)))
  }

  /** A client's comment is public: every reader of the ticket's thread sees it. */
  lemma ClientCommentIsPublic(tickets: seq<Ticket>, u: User, pk: int, content: string, internal: bool,
                              comments: seq<Comment>, reader: User)
    requires IsClient(u) && PostComment(tickets, u, pk, content, internal).Posted?
    ensures PostComment(tickets, u, pk, content, internal).comment in
      Thread(comments + [PostComment(tickets, u, pk, content, internal).comment], pk, reader)
  {
    var c := PostComment(tickets, u, pk, content, internal).comment;
    assert c in comments + [c];
  }

  /** A collaborator may post an internal comment but, not being a
      manager, does not see it in the thread afterwards. */
  lemma InternalCommentHiddenFromItsAuthor(tickets: seq<Ticket>, u: User, pk: int, content: string,
                                           comments: seq<Comment>)
    requires IsCollaborator(u) && !u.isSuperuser
    requires PostComment(tickets, u, pk, content, true).Posted?
    ensures PostComment(tickets, u, pk, content, true).comment.isInternal
    ensures PostComment(tickets, u, pk, content, true).comment
      !in Thread(comments + [PostComment(tickets, u, pk, content, true).comment], pk, u)
  {
  }

  // ---------------------------------------------------------------------
  // Creating and editing

  /** The tickets as the public-number steps see them. */
  function RowsOf(tickets: seq<Ticket>): (r: seq<PublicIds.Row>)
    ensures |r| == |tickets|
    ensures forall i {:trigger r[i]} :: 0 <= i < |tickets| ==> r[i] == PublicIds.Row(tickets[i].id, tickets[i].publicId)
  {
    if |tickets| == 0 then []
    else RowsOf(tickets[..|tickets| - 1]) + [PublicIds.Row(tickets[|tickets| - 1].id, tickets[|tickets| - 1].publicId)]
  }

  /** The number `save()` hands a ticket without one exceeds every number in use. */
  lemma NextNumberIsFresh(tickets: seq<Ticket>)
    ensures forall x :: x in tickets && x.publicId.Some? ==>
      x.publicId.value < PublicIds.NumberOnSave(RowsOf(tickets), None)
  {
    var rows := RowsOf(tickets);
    forall x | x in tickets && x.publicId.Some?
      ensures x.publicId.value < PublicIds.NumberOnSave(rows, None)
    {
      var i :| 0 <= i < |tickets| && tickets[i] == x;
      assert rows[i].publicId == x.publicId;
    }
  }

  /** No two tickets share a public number. */
  predicate UniqueNumbers(tickets: seq<Ticket>) {
    forall i, j :: 0 <= i < j < |tickets| && tickets[i].publicId.Some? ==> tickets[i].publicId != tickets[j].publicId
  }

  /** `TicketCreateView.form_valid` then `Ticket.save()`: the new ticket is
      opened by the requester, takes the next public number, and starts
      OPEN, since the form has no status field. */
  function CreateTicket(tickets: seq<Ticket>, id: int, u: User, title: string, priority: Priority,
                        project: int, assignee: Option<int>): (t: Ticket)
    ensures t.id == id && t.createdBy == u.id && t.status == DefaultStatus
    ensures t.title == title && t.priority == priority && t.project == Some(project) && t.assignedTo == assignee
    ensures t.publicId.Some? && t.publicId.value >= 1
    ensures forall x :: x in tickets && x.publicId.Some? ==> x.publicId.value < t.publicId.value
  {
    NextNumberIsFresh(tickets);
    Ticket(id, Some(PublicIds.NumberOnSave(RowsOf(tickets), None)), title, u.id, assignee, Some(project), priority, DefaultStatus)
  }

  /** `TicketUpdateView.form_valid` then `Ticket.save()`: the form's fields
      change; the key, the author and the status never do. A ticket that
      already has a public number keeps it, and one stored without a number
      (a row written without `save()`) takes the next one on this edit. */
  function UpdateTicket(tickets: seq<Ticket>, t: Ticket, title: string, priority: Priority, project: int,
                        assignee: Option<int>): (r: Ticket)
    ensures r.id == t.id && r.createdBy == t.createdBy && r.status == t.status
    ensures r.title == title && r.priority == priority && r.project == Some(project) && r.assignedTo == assignee
    ensures t.publicId.Some? ==> r.publicId == t.publicId
    ensures t.publicId.None? ==>
      && r.publicId.Some? && r.publicId.value >= 1
      && forall x :: x in tickets && x.publicId.Some? ==> x.publicId.value < r.publicId.value
  {
    NextNumberIsFresh(tickets);
    t.(publicId := Some(PublicIds.NumberOnSave(RowsOf(tickets), t.publicId)),
       title := title, priority := priority, project := Some(project), assignedTo := assignee)
  }

  /** Opening a ticket keeps public numbers unique. */
  lemma CreateKeepsNumbersUnique(tickets: seq<Ticket>, id: int, u: User, title: string, priority: Priority,
                                 project: int, assignee: Option<int>)
    requires UniqueNumbers(tickets)
    ensures UniqueNumbers(tickets + [CreateTicket(tickets, id, u, title, priority, project, assignee)])
  {
    var t := CreateTicket(tickets, id, u, title, priority, project, assignee);
    var r := tickets + [t];
    forall i, j | 0 <= i < j < |r| && r[i].publicId.Some?
      ensures r[i].publicId != r[j].publicId
    {
      if j == |tickets| {
        assert r[i] in tickets;
      }
    }
  }

  /** Editing a ticket in place keeps public numbers unique, whether or not
      the edit numbers it. */
  lemma EditKeepsNumbersUnique(tickets: seq<Ticket>, k: int, title: string, priority: Priority,
                               project: int, assignee: Option<int>)
    requires UniqueNumbers(tickets) && 0 <= k < |tickets|
    ensures UniqueNumbers(tickets[k := UpdateTicket(tickets, tickets[k], title, priority, project, assignee)])
  {
    var t := UpdateTicket(tickets, tickets[k], title, priority, project, assignee);
    var r := tickets[k := t];
    forall i, j | 0 <= i < j < |r| && r[i].publicId.Some?
      ensures r[i].publicId != r[j].publicId
    {
      if tickets[k].publicId.None? {
        if i == k {
          assert r[j] in tickets;
        } else if j == k {
          assert r[i] in tickets;
        }
      }
    }
  }

  /** No helpdesk form moves a ticket's status: editing any number of times
      keeps the one it was opened with. */
  lemma StatusStaysOpen(tickets: seq<Ticket>, id: int, u: User, title: string, priority: Priority,
                        project: int, assignee: Option<int>,
                        title2: string, priority2: Priority, project2: int, assignee2: Option<int>)
    ensures var t := CreateTicket(tickets, id, u, title, priority, project, assignee);
      UpdateTicket(tickets + [t], t, title2, priority2, project2, assignee2).status == Open
  {
  }

  // ---------------------------------------------------------------------
  // The ticket form's project and assignee

  /** The project field's choices: projects in progress. */
  function ProjectChoices(c: Projects.Catalog): (r: set<int>)
    ensures forall id :: id in r <==> id in c && c[id].status == Projects.InProgress
  {
    set id | id in c && c[id].status == Projects.InProgress
  }

  /** Whether a raw form value is set (`self.data.get(...)` truthy). */
  predicate Given(raw: Option<string>) {
    raw.Some? && raw.value != ""
  }

  /** The project whose members the assignee may be: the posted one when
      given, else the instance's (a saved project id is never 0). */
  function ProjectToLookUp(rawProject: Option<string>, instanceProject: Option<int>): Option<Option<int>>
  {
    if Given(rawProject) then
      match ParseInt(rawProject.value)
      case None => None
      case Some(id) => Some(Some(id))
    else if instanceProject.Some? && instanceProject.value != 0 then Some(instanceProject)
    else Some(None)
  }

  datatype FormInit = InitCrash | Init(assignees: set<int>)

  /** `TicketForm.__init__`: the assignee choices are the members of the
      project looked up, none when there is no project or it does not
      exist; a posted project that is not a number makes the lookup raise. */
  function TicketFormInit(c: Projects.Catalog, rawProject: Option<string>, instanceProject: Option<int>): (r: FormInit)
    ensures r == InitCrash <==> Given(rawProject) && ParseInt(rawProject.value).None?
    ensures r.Init? ==> forall uid :: uid in r.assignees <==>
      var p := ProjectToLookUp(rawProject, instanceProject).value;
      p.Some? && p.value in c && Projects.Involves(c[p.value], uid)
  {
    match ProjectToLookUp(rawProject, instanceProject)
    case None => InitCrash
    case Some(None) => Init({})
    case Some(Some(id)) => if id in c then Init(Projects.Members(c[id])) else Init({})
  }

  /** The project field's `clean`: required, and one of the choices. */
  function CleanProject(c: Projects.Catalog, rawProject: Option<string>): (r: Option<int>)
    ensures forall id :: r == Some(id) <==>
      rawProject.Some? && ParseInt(rawProject.value) == Some(id) && id in ProjectChoices(c)
  {
    if !Given(rawProject) then None
    else
      match ParseInt(rawProject.value)
      case None => None
      case Some(id) => if id in ProjectChoices(c) then Some(id) else None
  }

  /** Every offered project, posted back as its rendered key, is accepted. */
  lemma OfferedProjectAccepted(c: Projects.Catalog, id: int)
    requires id in ProjectChoices(c)
    ensures CleanProject(c, Some(IntToString(id))) == Some(id)
  {
    ParseIntOfString(id);
  }

  /** A ticket's project is one its members may log time against: the form
      offers only projects in progress. */
  lemma ChoiceIsAssignableToMembers(c: Projects.Catalog, u: User, id: int)
    requires id in ProjectChoices(c) && Projects.Involves(c[id], u.id)
    ensures id in Projects.AssignableProjects(c, u)
  {
  }

  /** The assignee field's `clean`: optional (`Some(None)` when blank), else
      one of the choices; `None` is a field error. */
  function CleanAssignee(choices: set<int>, rawAssignee: Option<string>): (r: Option<Option<int>>)
    ensures r == Some(None) <==> !Given(rawAssignee)
    ensures forall id :: r == Some(Some(id)) <==>
      Given(rawAssignee) && ParseInt(rawAssignee.value) == Some(id) && id in choices
  {
    if !Given(rawAssignee) then Some(None)
    else
      match ParseInt(rawAssignee.value)
      case None => None
      case Some(id) => if id in choices then Some(Some(id)) else None
  }

  /** `clean_assigned_to`: with both an assignee and a project, the
      assignee must be a member of the project. */
  predicate AssignedToPasses(c: Projects.Catalog, assignee: Option<int>, project: Option<int>) {
    assignee.None? || project.None? || project.value !in c || assignee.value in Projects.Members(c[project.value])
  }

  datatype FormOutcome = FormCrash | FormErrors(projectError: bool, assigneeError: bool) | FormValid(project: int, assignee: Option<int>)

  /** The project and assignee half of `TicketForm.is_valid()`. */
  function ValidateTicketForm(c: Projects.Catalog, rawProject: Option<string>, rawAssignee: Option<string>,
                              instanceProject: Option<int>): (r: FormOutcome)
    ensures r == FormCrash <==> TicketFormInit(c, rawProject, instanceProject) == InitCrash
    ensures r.FormValid? ==> r.project in c && c[r.project].status == Projects.InProgress
    ensures r.FormValid? && r.assignee.Some? ==> Projects.Involves(c[r.project], r.assignee.value)
    ensures r.FormValid? ==> rawProject.Some? && ParseInt(rawProject.value) == Some(r.project)
    ensures r.FormValid? ==> (r.assignee.None? <==> !Given(rawAssignee))
  {
    match TicketFormInit(c, rawProject, instanceProject)
    case InitCrash => FormCrash
    case Init(choices) =>
      var project := CleanProject(c, rawProject);
      var assignee := CleanAssignee(choices, rawAssignee);
      var passes := assignee.Some? && AssignedToPasses(c, assignee.value, project);
      if project.Some? && passes then
        AssigneeIsMember(c, rawProject, rawAssignee, instanceProject);
        FormValid(project.value, assignee.value)
      else FormErrors(project.None?, !passes)
  }

  /** A valid project field fixes the assignee choices to its members. */
  lemma AssigneeIsMember(c: Projects.Catalog, rawProject: Option<string>, rawAssignee: Option<string>,
                         instanceProject: Option<int>)
    requires TicketFormInit(c, rawProject, instanceProject).Init?
    requires CleanProject(c, rawProject).Some?
    ensures TicketFormInit(c, rawProject, instanceProject).assignees ==
      Projects.Members(c[CleanProject(c, rawProject).value])
  {
  }

  /** `clean_assigned_to` never rejects anything: an assignee that passed
      its field is already a member of the project the form cleaned. */
  lemma {:induction false} AssignedToCheckRedundant(c: Projects.Catalog, rawProject: Option<string>,
                                                    rawAssignee: Option<string>, instanceProject: Option<int>)
    requires TicketFormInit(c, rawProject, instanceProject).Init?
    requires CleanAssignee(TicketFormInit(c, rawProject, instanceProject).assignees, rawAssignee).Some?
    ensures AssignedToPasses(c,
      CleanAssignee(TicketFormInit(c, rawProject, instanceProject).assignees, rawAssignee).value,
      CleanProject(c, rawProject))
  {
    if CleanProject(c, rawProject).Some? {
      AssigneeIsMember(c, rawProject, rawAssignee, instanceProject);
    }
  }
}
