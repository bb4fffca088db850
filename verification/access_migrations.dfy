/** The data migrations over module-access records (apps/core/migrations
    0006, 0008 and 0011). They run on historical models, so no save signal
    fires: a record created or saved here does not sync the group's
    permissions, and only what the migration itself writes changes. */
module AccessMigrations {
  import opened Wrappers
  import opened ModuleAccess

  /** `get_or_create(group=g)` on the historical model: a missing record is
      created with every flag off and nothing else happens. */
  function Ensured(g: Group): (r: Group)
    ensures r.perms == g.perms && r.access.Some?
    ensures g.access.Some? ==> r == g
    ensures g.access.None? ==> r.access == Some({})
  {
    if g.access.Some? then g else Group(g.perms, Some({}))
  }

  // ---------------------------------------------------------------------
  // 0006: populate the first three flags from the permissions

  /** The flags 0006 reads off the permissions. */
  const PopulatedFlags: set<Flag> := {Helpdesk, Approvals, AdminModule}

  /** One flag of 0006: when its permission exists the flag becomes whether
      the group holds it; otherwise it keeps its value. */
  function SetFromPerm(on: set<Flag>, f: Flag, perms: set<string>, rows: set<string>): (r: set<Flag>)
    ensures forall g :: g != f ==> (g in r <==> g in on)
    ensures Codename(f) in rows ==> (f in r <==> Codename(f) in perms)
    ensures Codename(f) !in rows ==> r == on
  {
    if Codename(f) !in rows then on
    else if Codename(f) in perms then on + {f}
    else on - {f}
  }

  /** `populate_module_flags` for one group. */
  function PopulateGroup(g: Group, rows: set<string>): Group {
    var e := Ensured(g);
    var on := e.access.value;
    var on := SetFromPerm(on, Helpdesk, e.perms, rows);
    var on := SetFromPerm(on, Approvals, e.perms, rows);
    var on := SetFromPerm(on, AdminModule, e.perms, rows);
    Group(e.perms, Some(on))
  }

  /** `populate_module_flags`: every group ends with a record and keeps its
      permissions; helpdesk, approvals and admin follow the permissions that
      exist and otherwise keep their value (off for a new record);
      approvals_he and reports are not touched. */
  function Populate(store: Groups, rows: set<string>): (r: Groups)
    ensures r.Keys == store.Keys
    ensures forall n :: n in store ==> r[n].perms == store[n].perms && r[n].access.Some?
    ensures forall n, f :: n in store && f in PopulatedFlags && Codename(f) in rows ==>
      (f in r[n].access.value <==> Codename(f) in store[n].perms)
    ensures forall n, f :: n in store && (f !in PopulatedFlags || Codename(f) !in rows) ==>
      (f in r[n].access.value <==> f in Ensured(store[n]).access.value)
  {
    map n | n in store :: PopulateGroup(store[n], rows)
  }

  /** Populating twice is populating once. */
  lemma PopulateIdempotent(store: Groups, rows: set<string>)
    ensures Populate(Populate(store, rows), rows) == Populate(store, rows)
  {
    var once := Populate(store, rows);
    var twice := Populate(once, rows);
    forall n | n in store
      ensures twice[n] == once[n]
    {
      assert twice[n].access.value == once[n].access.value;
    }
  }

  /** For the three flags it reads, 0006 leaves records in step with the
      permissions that exist. */
  lemma PopulateAgrees(store: Groups, rows: set<string>, n: string, f: Flag)
    requires n in store && f in PopulatedFlags && Codename(f) in rows
    ensures var g := Populate(store, rows)[n]; Codename(f) in g.perms <==> f in g.access.value
  {
  }

  // ---------------------------------------------------------------------
  // 0008: the reports flag

  /** The groups that get the reports module. */
  predicate ReportsGroup(name: string) {
    name == "Administrador" || name == "Recursos Humanos"
  }

  /** `sync_reports` for one group. */
  function SyncReportsGroup(name: string, g: Group, rows: set<string>): Group {
    var e := Ensured(g);
    var on := if ReportsGroup(name) then e.access.value + {Reports} else e.access.value;
    var perms :=
      if "access_reports" !in rows then e.perms
      else if Reports in on then e.perms + {"access_reports"}
      else e.perms - {"access_reports"};
    Group(perms, Some(on))
  }

  /** `sync_reports`: every group ends with a record; Administrador and
      Recursos Humanos get reports on and every other flag keeps its value;
      when `access_reports` exists a group holds it exactly when its reports
      flag is on, and no other permission changes. */
  function SyncReports(store: Groups, rows: set<string>): (r: Groups)
    ensures r.Keys == store.Keys
    ensures forall n :: n in store ==> r[n].access.Some?
    ensures forall n :: n in store && ReportsGroup(n) ==> Reports in r[n].access.value
    ensures forall n, f :: n in store && (f != Reports || !ReportsGroup(n)) ==>
      (f in r[n].access.value <==> f in Ensured(store[n]).access.value)
    ensures forall n :: n in store && "access_reports" in rows ==>
      ("access_reports" in r[n].perms <==> Reports in r[n].access.value)
    ensures forall n, c :: n in store && (c != "access_reports" || "access_reports" !in rows) ==>
      (c in r[n].perms <==> c in store[n].perms)
  {
    map n | n in store :: SyncReportsGroup(n, store[n], rows)
  }

  /** Running 0008 twice is running it once. */
  lemma SyncReportsIdempotent(store: Groups, rows: set<string>)
    ensures SyncReports(SyncReports(store, rows), rows) == SyncReports(store, rows)
  {
    var once := SyncReports(store, rows);
    var twice := SyncReports(once, rows);
    forall n | n in store
      ensures twice[n] == once[n]
    {
      assert twice[n].access.value == once[n].access.value;
      assert twice[n].perms == once[n].perms;
    }
  }

  // ---------------------------------------------------------------------
  // 0011: approvals copied to HE approvals

  /** `copy_flags`: every record with approvals on gets approvals_he on;
      nothing else changes. */
  function CopyFlags(store: Groups): (r: Groups)
    ensures r.Keys == store.Keys
    ensures forall n :: n in store ==> r[n].perms == store[n].perms && r[n].access.Some? == store[n].access.Some?
    ensures forall n, f :: n in store && store[n].access.Some? && f != ApprovalsHe ==>
      (f in r[n].access.value <==> f in store[n].access.value)
    ensures forall n :: n in store && store[n].access.Some? ==>
      (ApprovalsHe in r[n].access.value <==> ApprovalsHe in store[n].access.value || Approvals in store[n].access.value)
  {
    map n | n in store ::
      var g := store[n];
      if g.access.Some? && Approvals in g.access.value then Group(g.perms, Some(g.access.value + {ApprovalsHe})) else g
  }

  /** `reverse_copy`: approvals_he off on every record; nothing else changes. */
  function ReverseCopy(store: Groups): (r: Groups)
    ensures r.Keys == store.Keys
    ensures forall n :: n in store ==> r[n].perms == store[n].perms && r[n].access.Some? == store[n].access.Some?
    ensures forall n, f :: n in store && store[n].access.Some? ==>
      (f in r[n].access.value <==> f in store[n].access.value && f != ApprovalsHe)
  {
    map n | n in store ::
      var g := store[n];
      if g.access.Some? then Group(g.perms, Some(g.access.value - {ApprovalsHe})) else g
  }

  /** After the copy every record with approvals on has approvals_he on. */
  lemma CopyImpliesHe(store: Groups, n: string)
    requires n in store && CopyFlags(store)[n].access.Some?
    requires Approvals in CopyFlags(store)[n].access.value
    ensures ApprovalsHe in CopyFlags(store)[n].access.value
  {
  }

  /** Reversing after the copy is reversing alone: the copy only ever sets
      the flag the reverse clears. */
  lemma ReverseUndoesCopy(store: Groups)
    ensures ReverseCopy(CopyFlags(store)) == ReverseCopy(store)
  {
    var a := ReverseCopy(CopyFlags(store));
    var b := ReverseCopy(store);
    forall n | n in store
      ensures a[n] == b[n]
    {
      if store[n].access.Some? {
        assert a[n].access.value == b[n].access.value;
      }
    }
  }

  /** Copying twice is copying once. */
  lemma CopyIdempotent(store: Groups)
    ensures CopyFlags(CopyFlags(store)) == CopyFlags(store)
  {
    var once := CopyFlags(store);
    var twice := CopyFlags(once);
    forall n | n in store
      ensures twice[n] == once[n]
    {
      if store[n].access.Some? {
        assert twice[n].access.value == once[n].access.value;
      }
    }
  }
}
