/** Projects and their visibility (apps/projects/models.py and
    `ProjectAccessMixin` in apps/projects/views.py), and the projects a user
    may log time against (`_assignable_projects` in apps/timesheet/views.py). */
module Projects {
  import opened Wrappers
  import opened Accounts

  datatype ProjectStatus = Planned | InProgress | Completed | Late

  const DefaultProjectStatus: ProjectStatus := Planned

  /** The fields the rules read. Manager, owner and client are nullable user ids. */
  datatype Project = Project(
    id: int,
    status: ProjectStatus,
    team: set<int>,
    manager: Option<int>,
    owner: Option<int>,
    client: Option<int>,
    externalAccess: bool)

  /** All projects, by primary key. */
  type Catalog = map<int, Project>

  datatype TaskStatus = Todo | Doing | Done
  datatype TaskPriority = Low | Medium | High

  const DefaultTaskStatus: TaskStatus := Todo
  const DefaultTaskPriority: TaskPriority := Medium

  /** On the team, the manager or the owner. */
  predicate Involves(p: Project, uid: int) {
    uid in p.team || p.manager == Some(uid) || p.owner == Some(uid)
  }

  /** The statuses under which time may be logged. */
  predicate OpenForTime(s: ProjectStatus) {
    s == Planned || s == InProgress || s == Late
  }

  /** `_assignable_projects(user)`, as the set of ids the actions compare against. */
  function AssignableProjects(c: Catalog, u: User): (r: set<int>)
    ensures r <= c.Keys
    ensures forall id :: id in c && OpenForTime(c[id].status) && Involves(c[id], u.id) ==> id in r
    ensures forall id :: id in r ==> c[id].status != Completed && Involves(c[id], u.id)
  {
    set id | id in c && OpenForTime(c[id].status) && Involves(c[id], u.id)
  }

  /** Whether the user passes the first test of `get_project_queryset`. */
  predicate SeesAllProjects(u: User) {
    u.isSuperuser || HasPerm(u, "projects.view_project") || HasPerm(u, "projects.change_project")
  }

  /** `get_project_queryset()`: the ids of the projects the user may see. */
  function VisibleProjects(c: Catalog, u: User): (r: set<int>)
    ensures r <= c.Keys
    ensures SeesAllProjects(u) ==> r == c.Keys
    ensures !SeesAllProjects(u) && IsClient(u) ==>
      forall id :: id in c ==> (id in r <==> c[id].externalAccess && (c[id].client == Some(u.id) || u.id in c[id].team))
    ensures !SeesAllProjects(u) && !IsClient(u) ==>
      forall id :: id in c ==> (id in r <==> Involves(c[id], u.id))
  {
    if SeesAllProjects(u) then c.Keys
    else if IsClient(u) then
      set id | id in c && c[id].externalAccess && (c[id].client == Some(u.id) || u.id in c[id].team)
    else set id | id in c && Involves(c[id], u.id)
  }

  /** Every project an internal user may log time against is one they can see. */
  lemma AssignableAreVisible(c: Catalog, u: User)
    requires !IsClient(u)
    ensures AssignableProjects(c, u) <= VisibleProjects(c, u)
  {
  }

  /** A client sees only projects opened to external access, whatever role
      the team gives them, unless a permission opens every project. */
  lemma ClientSeesOnlyExternal(c: Catalog, u: User, id: int)
    requires IsClient(u) && !SeesAllProjects(u) && id in VisibleProjects(c, u)
    ensures c[id].externalAccess
  {
  }

  /** A project that is completed never receives time. */
  lemma CompletedNeverAssignable(c: Catalog, u: User, id: int)
    requires id in c && c[id].status == Completed
    ensures id !in AssignableProjects(c, u)
  {
  }

  /** For a user who is neither a client nor a holder of a global project
      permission, the projects open to their time are exactly the visible
      ones that are not completed. */
  lemma AssignableAreOpenVisible(c: Catalog, u: User)
    requires !IsClient(u) && !SeesAllProjects(u)
    ensures AssignableProjects(c, u) == set id | id in VisibleProjects(c, u) && c[id].status != Completed
  {
  }

  /** A client on the team of a project closed to external access may log
      time against it while the project pages hide it from them: the
      assignable list reads the team, never the role. */
  lemma ClientLogsTimeUnseen(c: Catalog, u: User, id: int)
    requires IsClient(u) && !SeesAllProjects(u)
    requires id in c && !c[id].externalAccess && u.id in c[id].team && c[id].status != Completed
    ensures id in AssignableProjects(c, u) && id !in VisibleProjects(c, u)
  {
  }

  /** A user who is not a client sees every project they are on the team of,
      manage or own. */
  lemma InvolvedSeesProject(c: Catalog, u: User, id: int)
    requires !IsClient(u) && id in c && Involves(c[id], u.id)
    ensures id in VisibleProjects(c, u)
  {
  }

  /** Granting permissions never hides a project: with the same identity,
      role and superuser flag, more permissions see at least as much. */
  lemma MorePermsSeeMore(c: Catalog, u: User, v: User)
    requires v.id == u.id && v.role == u.role && v.isSuperuser == u.isSuperuser && u.perms <= v.perms
    ensures VisibleProjects(c, u) <= VisibleProjects(c, v)
  {
  }

  // ---------------------------------------------------------------------
  // Lookups by key over the visibility query

  /** Whether a query that ORs a test on the `team` many-to-many field with
      other tests is read as written, one row per team member, or with the
      `.distinct()` the timesheet views add to the same pattern. */
  datatype JoinPolicy = KeepDuplicates | Distinct

  /** What a lookup by key makes of the rows it gets: none is a 404, one is
      the object, and two or more raise `MultipleObjectsReturned`, a 500. */
  datatype Fetch = NoRow | OneRow | ManyRows

  function FetchOf(n: nat, policy: JoinPolicy): (r: Fetch)
    ensures r == NoRow <==> n == 0
    ensures r == ManyRows <==> n > 1 && policy == KeepDuplicates
  {
    if n == 0 then NoRow
    else if n > 1 && policy == KeepDuplicates then ManyRows
    else OneRow
  }

  /** Whether the joined row pairing `p` with team member `member` passes the
      unprivileged filter of `get_project_queryset` (apps/projects/views.py:23-35)
      or of the task update view (apps/projects/views.py:124-133). The join
      is an outer one, so a project with an empty team yields one row whose
      member is `None`. */
  predicate RowPasses(p: Project, u: User, member: Option<int>) {
    if IsClient(u) then p.externalAccess && (p.client == Some(u.id) || member == Some(u.id))
    else member == Some(u.id) || p.manager == Some(u.id) || p.owner == Some(u.id)
  }

  /** The number of rows the unprivileged filter yields for project `p`. */
  function JoinedRows(p: Project, u: User): nat {
    if p.team == {} then (if RowPasses(p, u, None) then 1 else 0)
    else |set m | m in p.team && RowPasses(p, u, Some(m))|
  }

  /** Whether the unprivileged filter passes `p` through the project itself
      (client, manager or owner) rather than through one team member. */
  predicate PassesWholeTeam(p: Project, u: User) {
    if IsClient(u) then p.externalAccess && p.client == Some(u.id)
    else p.manager == Some(u.id) || p.owner == Some(u.id)
  }

  /** The filter finds the project exactly when the visibility rules say so. */
  lemma JoinedRowsFound(p: Project, u: User)
    ensures JoinedRows(p, u) > 0 <==>
      if IsClient(u) then p.externalAccess && (p.client == Some(u.id) || u.id in p.team) else Involves(p, u.id)
  {
    if p.team != {} {
      var rows := set m | m in p.team && RowPasses(p, u, Some(m));
      if PassesWholeTeam(p, u) {
        assert rows == p.team;
      } else if u.id in p.team && (!IsClient(u) || p.externalAccess) {
        assert u.id in rows;
      } else {
        assert rows == {};
      }
    }
  }

  /** The filter repeats the project exactly when it passes the project as a
      whole and the team has two or more members: then every member's row
      passes. A user who only sits on the team gets their own row alone. */
  lemma JoinedRowsRepeat(p: Project, u: User)
    ensures JoinedRows(p, u) > 1 <==> PassesWholeTeam(p, u) && |p.team| >= 2
    ensures PassesWholeTeam(p, u) && p.team != {} ==> JoinedRows(p, u) == |p.team|
  {
    if p.team != {} {
      var rows := set m | m in p.team && RowPasses(p, u, Some(m));
      if PassesWholeTeam(p, u) {
        assert rows == p.team;
      } else if u.id in p.team && RowPasses(p, u, Some(u.id)) {
        assert rows == {u.id};
      } else {
        assert rows == {};
      }
    }
  }

  /** The rows `get_project_queryset().filter(pk=id)` yields: one for a
      global permission, which reads `Project.objects.all()`, else the
      joined rows. */
  function ProjectRows(c: Catalog, u: User, id: int): nat {
    if id !in c then 0 else if SeesAllProjects(u) then 1 else JoinedRows(c[id], u)
  }

  /** Why a view that looks an object up by key shows nothing: a 404, or the
      500 of `MultipleObjectsReturned`. */
  datatype LookupError = NoSuchObject | MultipleObjects

  /** Whether the project query, read under `policy`, finds project `id`
      more than once: only as written, only without a global permission,
      and only when the user passes through the project itself and the team
      has two or more members. */
  predicate ProjectRepeats(c: Catalog, u: User, id: int, policy: JoinPolicy) {
    policy == KeepDuplicates && id in c && !SeesAllProjects(u) && PassesWholeTeam(c[id], u) && |c[id].team| >= 2
  }

  /** `get_object_or_404(self.get_project_queryset(), pk=id)`: a 404 exactly
      for a project the user cannot see, and a 500 exactly when the query
      repeats the project. */
  function ProjectLookup(c: Catalog, u: User, id: int, policy: JoinPolicy): (r: Fetch)
    ensures r == NoRow <==> id !in VisibleProjects(c, u)
    ensures r == ManyRows <==> ProjectRepeats(c, u, id, policy)
  {
    if id !in c then NoRow
    else
      JoinedRowsFound(c[id], u);
      JoinedRowsRepeat(c[id], u);
      FetchOf(ProjectRows(c, u, id), policy)
  }

  /** The smallest case: a manager without a project permission opening a
      project with a team of two gets a 500 from the query as written, and
      the project from the distinct query. */
  lemma ManagerOfTeamOfTwoCrashes(c: Catalog, u: User, id: int)
    requires id in c && !SeesAllProjects(u) && !IsClient(u)
    requires c[id].manager == Some(u.id) && |c[id].team| == 2
    ensures ProjectLookup(c, u, id, KeepDuplicates) == ManyRows
    ensures ProjectLookup(c, u, id, Distinct) == OneRow
  {
  }

  /** The manager of the project an entry points at; none for a null or unknown project. */
  function ManagerOf(c: Catalog, project: Option<int>): (r: Option<int>)
    ensures r.Some? ==> project.Some? && project.value in c && c[project.value].manager == r
    ensures project.Some? && project.value in c ==> r == c[project.value].manager
  {
    match project
    case None => None
    case Some(p) => if p in c then c[p].manager else None
  }

  /** `_project_members(project)` in the ticket form: the team plus the
      manager and the owner when they are set. */
  function Members(p: Project): (r: set<int>)
    ensures forall uid :: uid in r <==> Involves(p, uid)
  {
    p.team
      + (if p.manager.Some? then {p.manager.value} else {})
      + (if p.owner.Some? then {p.owner.value} else {})
  }
}
