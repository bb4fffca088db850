/** The approval state machine of `TimesheetActionView.post` (submit,
    approve, reject, cancel) and `TimesheetDetailView._can_approve`, over a
    timesheet, the entry store and the project catalog. A refused action
    leaves the timesheet as it was and is a `Failure` here. */
module Lifecycle {
  import opened Wrappers
  import opened Accounts
  import opened Projects
  import opened Timesheets
  import opened Dates

  const ChangeTimesheet: string := "timesheet.change_timesheet"

  /** Holds `change_timesheet` or is a superuser. */
  predicate Privileged(u: User) {
    HasPerm(u, ChangeTimesheet) || u.isSuperuser
  }

  /** The role test the actions use: the stored role, not `is_manager()`. */
  predicate ManagerRole(u: User) {
    u.role == Manager
  }

  predicate IsOwner(u: User, ts: Timesheet) {
    u.id == ts.user
  }

  /** `timesheet.entries.filter(project__project_manager=user).exists()`. */
  predicate HasScope(entries: seq<TimeEntry>, c: Catalog, ts: Timesheet, uid: int) {
    exists i :: 0 <= i < |entries| && entries[i].sheet == Some(ts.id) && ManagerOf(c, entries[i].project) == Some(uid)
  }

  /** The distinct non-null project managers across the sheet's entries. */
  function Managers(entries: seq<TimeEntry>, c: Catalog, ts: Timesheet): set<int> {
    set i | 0 <= i < |entries| && entries[i].sheet == Some(ts.id) && ManagerOf(c, entries[i].project).Some?
      :: ManagerOf(c, entries[i].project).value
  }

  /** Manager scope is exactly membership in the set of managers. */
  lemma ScopeIsManagerSet(entries: seq<TimeEntry>, c: Catalog, ts: Timesheet, uid: int)
    ensures HasScope(entries, c, ts, uid) <==> uid in Managers(entries, c, ts)
  {
    if uid in Managers(entries, c, ts) {
      var i :| 0 <= i < |entries| && entries[i].sheet == Some(ts.id) && ManagerOf(c, entries[i].project).Some?
        && ManagerOf(c, entries[i].project).value == uid;
      assert ManagerOf(c, entries[i].project) == Some(uid);
    }
  }

  /** The guard every action passes first: the owner, a privileged actor, or
      a MANAGER who manages the project of one of the sheet's entries. */
  predicate MayOperate(entries: seq<TimeEntry>, c: Catalog, ts: Timesheet, u: User) {
    IsOwner(u, ts) || Privileged(u) || (ManagerRole(u) && HasScope(entries, c, ts, u.id))
  }

  datatype Refusal =
    | NoHoursLogged
    | OwnSheetApproval
    | NoApprovalRight
    | OwnSheetRejection
    | NoRejectionRight
    | NotCancellable
    | NoCancelRight

  /** The fields every transition leaves alone. */
  predicate SameWeek(a: Timesheet, b: Timesheet) {
    a.id == b.id && a.user == b.user && a.startDate == b.startDate && a.endDate == b.endDate
  }

  /** submit: refused when the sheet's hours sum to zero; otherwise SUBMITTED
      with the approvals cleared. The prior status is not consulted. */
  function Submit(ts: Timesheet, entries: seq<TimeEntry>): (r: Result<Timesheet, Refusal>)
    ensures r.Failure? <==> TotalHours(entries, ts.id) == 0
    ensures r.Failure? ==> r.error == NoHoursLogged
    ensures r.Success? ==>
      && SameWeek(ts, r.value) && r.value.status == Submitted
      && r.value.partialApprovers == {} && r.value.approvedBy == None
      && r.value.rejectionReason == ts.rejectionReason
  {
    if TotalHours(entries, ts.id) == 0 then Failure(NoHoursLogged)
    else Success(ts.(status := Submitted, partialApprovers := {}, approvedBy := None))
  }

  /** approve: never by the owner; a privileged actor approves outright; a
      scoped MANAGER signs off, and the sheet is APPROVED once every manager
      of its entries has signed off, PARTIALLY_APPROVED before that. The
      prior status is not consulted. */
  function Approve(ts: Timesheet, entries: seq<TimeEntry>, c: Catalog, actor: User): (r: Result<Timesheet, Refusal>)
    ensures IsOwner(actor, ts) ==> r == Failure(OwnSheetApproval)
    ensures r.Success? <==>
      !IsOwner(actor, ts) && (Privileged(actor) || (ManagerRole(actor) && HasScope(entries, c, ts, actor.id)))
    ensures r.Success? ==> SameWeek(ts, r.value) && r.value.rejectionReason == ts.rejectionReason
    ensures r.Success? && Privileged(actor) ==>
      r.value.status == Approved && r.value.approvedBy == Some(actor.id) && r.value.partialApprovers == {}
    ensures r.Success? && !Privileged(actor) ==>
      var signed := ts.partialApprovers + {actor.id};
      var all := Managers(entries, c, ts);
      && r.value.partialApprovers == signed
      && (r.value.status == Approved <==> all != {} && all <= signed)
      && (r.value.status != Approved ==> r.value.status == PartiallyApproved && r.value.approvedBy == ts.approvedBy)
      && (r.value.status == Approved ==> r.value.approvedBy == Some(actor.id))
  {
    if IsOwner(actor, ts) then Failure(OwnSheetApproval)
    else
      var scoped := HasScope(entries, c, ts, actor.id);
      if ManagerRole(actor) && !scoped && !Privileged(actor) then Failure(NoApprovalRight)
      else if Privileged(actor) then
        Success(ts.(status := Approved, approvedBy := Some(actor.id), partialApprovers := {}))
      else if ManagerRole(actor) && scoped then
        var signed := ts.partialApprovers + {actor.id};
        var all := Managers(entries, c, ts);
        if all != {} && all <= signed then
          Success(ts.(partialApprovers := signed, status := Approved, approvedBy := Some(actor.id)))
        else
          Success(ts.(partialApprovers := signed, status := PartiallyApproved))
      else Failure(NoApprovalRight)
  }

  /** reject: never by the owner, and only by a privileged actor or a scoped
      MANAGER; stores the reason (blank when none is posted) and clears both
      approval fields. The prior status is not consulted. */
  function Reject(ts: Timesheet, entries: seq<TimeEntry>, c: Catalog, actor: User, reason: Option<string>)
    : (r: Result<Timesheet, Refusal>)
    ensures IsOwner(actor, ts) ==> r == Failure(OwnSheetRejection)
    ensures r.Success? <==>
      !IsOwner(actor, ts) && (Privileged(actor) || (ManagerRole(actor) && HasScope(entries, c, ts, actor.id)))
    ensures r.Success? ==>
      && SameWeek(ts, r.value) && r.value.status == Rejected
      && r.value.rejectionReason == (if reason.Some? then reason.value else "")
      && r.value.partialApprovers == {} && r.value.approvedBy == None
  {
    if IsOwner(actor, ts) then Failure(OwnSheetRejection)
    else
      var scoped := HasScope(entries, c, ts, actor.id);
      if !(Privileged(actor) || (ManagerRole(actor) && scoped)) then Failure(NoRejectionRight)
      else if ManagerRole(actor) || Privileged(actor) then
        Success(ts.(status := Rejected, rejectionReason := reason.GetOr(""), partialApprovers := {}, approvedBy := None))
      else Failure(NoRejectionRight)
  }

  /** cancel: only from SUBMITTED or PARTIALLY_APPROVED, and only by the
      owner or a privileged actor; returns to DRAFT with every approval and
      rejection field cleared. */
  function Cancel(ts: Timesheet, actor: User): (r: Result<Timesheet, Refusal>)
    ensures r.Success? <==>
      (ts.status == Submitted || ts.status == PartiallyApproved) && (IsOwner(actor, ts) || Privileged(actor))
    ensures !(ts.status == Submitted || ts.status == PartiallyApproved) ==> r == Failure(NotCancellable)
    ensures r.Success? ==>
      && SameWeek(ts, r.value) && r.value.status == Draft
      && r.value.approvedBy == None && r.value.rejectionReason == "" && r.value.partialApprovers == {}
  {
    if !(ts.status == Submitted || ts.status == PartiallyApproved) then Failure(NotCancellable)
    else if !IsOwner(actor, ts) && !Privileged(actor) then Failure(NoCancelRight)
    else Success(ts.(status := Draft, approvedBy := None, rejectionReason := "", partialApprovers := {}))
  }

  /** `_can_approve(user, timesheet)`: whether the detail page offers approval. */
  predicate CanApprove(entries: seq<TimeEntry>, c: Catalog, ts: Timesheet, u: User) {
    if IsOwner(u, ts) then false
    else if u.isSuperuser || HasPerm(u, ChangeTimesheet) then
      ts.status == Submitted || ts.status == PartiallyApproved
    else if ManagerRole(u) then
      (ts.status == Submitted || ts.status == PartiallyApproved) && HasScope(entries, c, ts, u.id)
    else false
  }

  /** Whenever the page offers approval, the approve action goes through. */
  lemma CanApproveThenApproves(entries: seq<TimeEntry>, c: Catalog, ts: Timesheet, u: User)
    requires CanApprove(entries, c, ts, u)
    ensures Approve(ts, entries, c, u).Success?
    ensures MayOperate(entries, c, ts, u)
  {
  }

  /** The page offers approval exactly when the action would go through and
      the sheet awaits approval: the status gate lives only on the page. */
  lemma CanApproveCharacterized(entries: seq<TimeEntry>, c: Catalog, ts: Timesheet, u: User)
    ensures CanApprove(entries, c, ts, u) <==>
      (ts.status == Submitted || ts.status == PartiallyApproved) && Approve(ts, entries, c, u).Success?
  {
  }

  /** Whether approve, reject or submit goes through does not depend on the
      status the sheet is in, so a DRAFT or APPROVED sheet can be approved
      again by whoever could approve a submitted one. */
  lemma ActionsIgnoreStatus(ts: Timesheet, s: Status, entries: seq<TimeEntry>, c: Catalog, actor: User, reason: Option<string>)
    ensures Approve(ts.(status := s), entries, c, actor).Success? == Approve(ts, entries, c, actor).Success?
    ensures Reject(ts.(status := s), entries, c, actor, reason).Success? == Reject(ts, entries, c, actor, reason).Success?
    ensures Submit(ts.(status := s), entries).Success? == Submit(ts, entries).Success?
  {
    var other := ts.(status := s);
    assert EntriesOf(entries, other.id) == EntriesOf(entries, ts.id);
    assert Managers(entries, c, other) == Managers(entries, c, ts);
    assert HasScope(entries, c, other, actor.id) == HasScope(entries, c, ts, actor.id);
  }

  /** The owner can neither approve nor reject their own sheet, whatever
      permissions they hold. */
  lemma OwnerNeverSignsOff(ts: Timesheet, entries: seq<TimeEntry>, c: Catalog, reason: Option<string>, owner: User)
    requires owner.id == ts.user
    ensures Approve(ts, entries, c, owner).Failure? && Reject(ts, entries, c, owner, reason).Failure?
  {
  }

  /** Relations between the status and the approval fields that every
      transition re-establishes. */
  predicate Coherent(ts: Timesheet) {
    && (ts.status == Draft ==> ts.approvedBy == None && ts.partialApprovers == {} && ts.rejectionReason == "")
    && (ts.status == Submitted ==> ts.approvedBy == None && ts.partialApprovers == {})
    && (ts.status == Rejected ==> ts.approvedBy == None && ts.partialApprovers == {})
    && (ts.status == Approved ==> ts.approvedBy.Some?)
    && (ts.status == PartiallyApproved ==> ts.partialApprovers != {})
  }

  /** The sheet the creation form saves is coherent. */
  lemma NewSheetIsCoherent(id: int, owner: int, start: Date)
    requires Valid(start)
    ensures Coherent(NewSheet(id, owner, start))
  {
  }

  /** Creating a timesheet keeps every stored sheet coherent. */
  lemma CreateKeepsCoherent(sheets: seq<Timesheet>, owner: User, start: Option<Date>, today: Date)
    requires start.Some? ==> Valid(start.value)
    requires forall i :: 0 <= i < |sheets| ==> Coherent(sheets[i])
    ensures var r := CreateTimesheet(sheets, owner, start, today);
      r.Success? ==> forall i :: 0 <= i < |r.value| ==> Coherent(r.value[i])
  {
    var r := CreateTimesheet(sheets, owner, start, today);
    if r.Success? {
      forall i | 0 <= i < |r.value|
        ensures Coherent(r.value[i])
      {
        if i < |sheets| {
          assert r.value[i] == r.value[..|sheets|][i];
        }
      }
    }
  }

  /** Each transition yields a coherent sheet whatever the sheet it starts from. */
  lemma TransitionsAreCoherent(ts: Timesheet, entries: seq<TimeEntry>, c: Catalog, actor: User, reason: Option<string>)
    ensures Submit(ts, entries).Success? ==> Coherent(Submit(ts, entries).value)
    ensures Approve(ts, entries, c, actor).Success? ==> Coherent(Approve(ts, entries, c, actor).value)
    ensures Reject(ts, entries, c, actor, reason).Success? ==> Coherent(Reject(ts, entries, c, actor, reason).value)
    ensures Cancel(ts, actor).Success? ==> Coherent(Cancel(ts, actor).value)
  {
  }

  /** Applying the approvals of several actors one after another; refused
      approvals change nothing. */
  function ApproveAll(ts: Timesheet, entries: seq<TimeEntry>, c: Catalog, actors: seq<User>): Timesheet
    decreases |actors|
  {
    if |actors| == 0 then ts
    else
      var before := ApproveAll(ts, entries, c, actors[..|actors| - 1]);
      match Approve(before, entries, c, actors[|actors| - 1])
      case Success(next) => next
      case Failure(_) => before
  }

  function Ids(actors: seq<User>): set<int> {
    set i | 0 <= i < |actors| :: actors[i].id
  }

  /** A scoped, unprivileged MANAGER who does not own the sheet. */
  predicate SignsOffPartially(entries: seq<TimeEntry>, c: Catalog, ts: Timesheet, u: User) {
    !IsOwner(u, ts) && !Privileged(u) && ManagerRole(u) && HasScope(entries, c, ts, u.id)
  }

  /** Multi-manager approval: when only scoped managers sign off, one after
      another, the signatures accumulate and the sheet is APPROVED exactly
      when every manager of its entries has signed, by the last signer;
      until then it is PARTIALLY_APPROVED. */
  lemma {:induction false} SignOffsAccumulate(ts: Timesheet, entries: seq<TimeEntry>, c: Catalog, actors: seq<User>)
    requires |actors| > 0
    requires forall i :: 0 <= i < |actors| ==> SignsOffPartially(entries, c, ts, actors[i])
    ensures var r := ApproveAll(ts, entries, c, actors);
      && SameWeek(ts, r)
      && r.partialApprovers == ts.partialApprovers + Ids(actors)
      && (r.status == Approved <==> Managers(entries, c, ts) <= ts.partialApprovers + Ids(actors))
      && (r.status != Approved ==> r.status == PartiallyApproved)
      && (r.status == Approved ==> r.approvedBy == Some(actors[|actors| - 1].id))
  {
    var init := actors[..|actors| - 1];
    var last := actors[|actors| - 1];
    var before := ApproveAll(ts, entries, c, init);
    var all := Managers(entries, c, ts);
    ScopeIsManagerSet(entries, c, ts, last.id);
    assert last.id in all;
    if |init| == 0 {
      assert before == ts;
      assert Ids(actors) == {last.id};
    } else {
      SignOffsAccumulate(ts, entries, c, init);
      assert Ids(actors) == Ids(init) + {last.id};
    }
    assert SameWeek(ts, before);
    assert Managers(entries, c, before) == all;
    assert HasScope(entries, c, before, last.id) == HasScope(entries, c, ts, last.id);
    assert !IsOwner(last, before);
  }

  /** With two projects managed by two different managers, the first
      sign-off leaves the sheet PARTIALLY_APPROVED and the second approves it. */
  lemma TwoManagersApproveInTurn(ts: Timesheet, entries: seq<TimeEntry>, c: Catalog, a: User, b: User)
    requires ts.partialApprovers == {}
    requires Managers(entries, c, ts) == {a.id, b.id} && a.id != b.id
    requires SignsOffPartially(entries, c, ts, a) && SignsOffPartially(entries, c, ts, b)
    ensures ApproveAll(ts, entries, c, [a]).status == PartiallyApproved
    ensures ApproveAll(ts, entries, c, [a, b]).status == Approved
    ensures ApproveAll(ts, entries, c, [a, b]).approvedBy == Some(b.id)
  {
    SignOffsAccumulate(ts, entries, c, [a]);
    SignOffsAccumulate(ts, entries, c, [a, b]);
    assert Ids([a]) == {a.id};
    assert Ids([a, b]) == {a.id, b.id};
  }
}
