/** The two management commands that realign groups: `sync_module_access_flags`
    (flags read off the permissions) and `create_groups` (the default groups
    rebuilt from a fixed table). Both run on the live models, so every save
    of a module-access record also syncs the group's permissions. */
module GroupCommands {
  import opened Wrappers
  import opened Assoc
  import opened ModuleAccess

  // ---------------------------------------------------------------------
  // sync_module_access_flags

  /** One record of the command: each flag set to whether the group holds its
      permission, then saved (which syncs) and synced once more. A group
      without a record is not visited. */
  function SyncGroup(g: Group, rows: set<string>): (r: Group)
    ensures g.access.None? ==> r == g
    ensures g.access.Some? ==> r.perms == g.perms && r.access == Some(FlagsOf(g.perms))
  {
    if g.access.None? then g
    else
      var on := FlagsOf(g.perms);
      var saved := SaveAccess(g, on, rows);
      FlagsOfRoundTrip(g.perms, rows);
      Group(SyncPerms(saved.perms, on, rows), Some(on))
  }

  /** `sync_module_access_flags`: no group gains or loses a permission, and
      every record ends in step with its group's permissions. */
  function SyncCommand(store: Groups, rows: set<string>): (r: Groups)
    ensures r.Keys == store.Keys
    ensures forall n :: n in store ==> r[n].perms == store[n].perms
    ensures forall n :: n in store ==> (r[n].access.Some? <==> store[n].access.Some?)
    ensures forall n :: n in store && r[n].access.Some? ==>
      forall f :: f in r[n].access.value <==> Codename(f) in store[n].perms
  {
    map n | n in store :: SyncGroup(store[n], rows)
  }

  /** Running the command twice is running it once. */
  lemma SyncCommandIdempotent(store: Groups, rows: set<string>)
    ensures SyncCommand(SyncCommand(store, rows), rows) == SyncCommand(store, rows)
  {
    var once := SyncCommand(store, rows);
    var twice := SyncCommand(once, rows);
    forall n | n in store
      ensures twice[n] == once[n]
    {
      if once[n].access.Some? {
        assert twice[n].access.value == once[n].access.value;
      }
    }
  }

  /** After the command the flags and the module permissions agree for every
      permission that exists. */
  lemma SyncCommandAgrees(store: Groups, rows: set<string>, n: string)
    requires n in store && store[n].access.Some?
    ensures Agrees(SyncCommand(store, rows)[n].perms, SyncCommand(store, rows)[n].access.value, rows)
  {
  }

  // ---------------------------------------------------------------------
  // create_groups

  /** What a listed group is given: every permission, or a list of codenames. */
  datatype Grant = AllPerms | Listed(codes: set<string>)

  const ManagerCodes: set<string> := {
    "access_helpdesk", "access_approvals",
    "view_project", "add_project", "change_project", "delete_project",
    "view_task", "add_task", "change_task", "delete_task",
    "view_timeentry", "change_timeentry", "delete_timeentry",
    "view_ticket", "add_ticket", "change_ticket", "delete_ticket"}

  const ConsultantCodes: set<string> := {
    "access_helpdesk",
    "view_project",
    "view_task", "change_task",
    "view_timeentry", "add_timeentry", "change_timeentry",
    "view_ticket", "add_ticket", "change_ticket"}

  const ClientCodes: set<string> := {"access_helpdesk", "view_project", "view_ticket", "add_ticket"}

  const HumanResourcesCodes: set<string> := {"access_helpdesk", "access_reports"}

  /** The default groups, in the order the command walks them. */
  const GroupTable: seq<(string, Grant)> := [
    ("Administrador", AllPerms),
    ("Gerente Delivery", Listed(ManagerCodes)),
    ("Gerente AMS", Listed(ManagerCodes)),
    ("Gerente Orion", Listed(ManagerCodes)),
    ("Consultor Delivery", Listed(ConsultantCodes)),
    ("Consultor AMS", Listed(ConsultantCodes)),
    ("Consultor Orion", Listed(ConsultantCodes)),
    ("Cliente externo", Listed(ClientCodes)),
    ("Recursos Humanos", Listed(HumanResourcesCodes)),
    ("Gerente de Projetos Delivery", Listed(ManagerCodes))]

  /** The permissions a grant comes to: all rows, or the listed codenames
      that have a row (a missing one is reported and skipped). */
  function Target(grant: Grant, rows: set<string>): (r: set<string>)
    ensures r <= rows
    ensures grant.AllPerms? ==> r == rows
    ensures grant.Listed? ==> forall c {:trigger c in r} :: c in r <==> c in grant.codes && c in rows
  {
    match grant
    case AllPerms => rows
    case Listed(codes) => codes * rows
  }

  /** The permissions a listed group ends with: the target, except that a
      group which existed without a record loses its module permissions to
      the sync of the record created for it. */
  function Rebuilt(store: Groups, name: string, grant: Grant, rows: set<string>): set<string> {
    if name in store && store[name].access.None? then SyncPerms(Target(grant, rows), {}, rows)
    else Target(grant, rows)
  }

  /** One iteration: `get_or_create` the group, reset its permissions to the
      target, make sure it has a record, then set each flag to whether the
      group now holds its permission and save. */
  function RebuildGroup(store: Groups, name: string, grant: Grant, rows: set<string>): (r: Groups)
    ensures r.Keys == store.Keys + {name}
    ensures forall n {:trigger r[n]} :: n in store && n != name ==> r[n] == store[n]
    ensures r[name].perms == Rebuilt(store, name, grant, rows)
    ensures r[name].access == Some(FlagsOf(r[name].perms))
  {
    var g := if name in store then store[name] else CreateGroup();
    var reset := Group(Target(grant, rows), g.access);
    var withRecord := if reset.access.Some? then reset else Blank(reset, rows);
    var on := FlagsOf(withRecord.perms);
    FlagsOfRoundTrip(withRecord.perms, rows);
    store[name := SaveAccess(withRecord, on, rows)]
  }

  /** The group names of a table. */
  function TableNames(t: seq<(string, Grant)>): set<string> {
    set k | 0 <= k < |t| :: t[k].0
  }

  /** `r` is `store` after the rows of `table` were rebuilt: the table's
      groups added, the others untouched, and each listed group holding what
      its grant comes to, with its record in step. */
  ghost predicate RebuiltFrom(store: Groups, table: seq<(string, Grant)>, rows: set<string>, r: Groups) {
    && r.Keys == store.Keys + TableNames(table)
    && (forall n {:trigger r[n]} :: n in store && n !in TableNames(table) ==> r[n] == store[n])
    && (forall k :: 0 <= k < |table| ==>
          && r[table[k].0].perms == Rebuilt(store, table[k].0, table[k].1, rows)
          && r[table[k].0].access == Some(FlagsOf(r[table[k].0].perms)))
  }

  /** The names of a table are those of all but its last row, plus the last. */
  lemma TableNamesSnoc(table: seq<(string, Grant)>)
    requires |table| > 0
    ensures TableNames(table) == TableNames(table[..|table| - 1]) + {table[|table| - 1].0}
  {
    var init := table[..|table| - 1];
    forall n | n in TableNames(table)
      ensures n in TableNames(init) + {table[|table| - 1].0}
    {
      var k :| 0 <= k < |table| && table[k].0 == n;
      if k < |init| {
        assert init[k] == table[k];
      }
    }
  }

  /** With distinct names, the last row's group is not among the earlier ones. */
  lemma LastNameIsNew(table: seq<(string, Grant)>)
    requires DistinctKeys(table) && |table| > 0
    ensures table[|table| - 1].0 !in TableNames(table[..|table| - 1])
  {
    var init := table[..|table| - 1];
    forall k | 0 <= k < |init|
      ensures init[k].0 != table[|table| - 1].0
    {
      assert init[k] == table[k];
    }
  }

  /** `r` is `store` after `RebuildGroup` rebuilt `name`. */
  ghost predicate Rebuilds(store: Groups, name: string, grant: Grant, rows: set<string>, r: Groups) {
    && r.Keys == store.Keys + {name}
    && (forall n {:trigger r[n]} :: n in store && n != name ==> r[n] == store[n])
    && r[name].perms == Rebuilt(store, name, grant, rows)
    && r[name].access == Some(FlagsOf(r[name].perms))
  }

  /** The last step of the command does not disturb the earlier ones. */
  lemma RunTableStep(store: Groups, table: seq<(string, Grant)>, rows: set<string>, prev: Groups, r: Groups)
    requires DistinctKeys(table) && |table| > 0
    requires RebuiltFrom(store, table[..|table| - 1], rows, prev)
    requires Rebuilds(prev, table[|table| - 1].0, table[|table| - 1].1, rows, r)
    ensures RebuiltFrom(store, table, rows, r)
  {
    TableNamesSnoc(table);
    LastNameIsNew(table);
    StepListed(store, table, rows, prev, r);
  }

  /** The listed groups after the last step: the earlier ones as they were,
      the last one just rebuilt. */
  lemma StepListed(store: Groups, table: seq<(string, Grant)>, rows: set<string>, prev: Groups, r: Groups)
    requires |table| > 0 && table[|table| - 1].0 !in TableNames(table[..|table| - 1])
    requires RebuiltFrom(store, table[..|table| - 1], rows, prev)
    requires Rebuilds(prev, table[|table| - 1].0, table[|table| - 1].1, rows, r)
    ensures forall k :: 0 <= k < |table| ==>
      && r[table[k].0].perms == Rebuilt(store, table[k].0, table[k].1, rows)
      && r[table[k].0].access == Some(FlagsOf(r[table[k].0].perms))
  {
    var init, last := table[..|table| - 1], table[|table| - 1];
    RebuiltLooksAtName(store, prev, last.0, last.1, rows);
    forall k | 0 <= k < |init|
      ensures r[table[k].0] == prev[init[k].0] && table[k] == init[k]
    {
    }
  }

  /** What a group is rebuilt to depends only on the group under its name. */
  lemma RebuiltLooksAtName(a: Groups, b: Groups, name: string, grant: Grant, rows: set<string>)
    requires name in a <==> name in b
    requires name in a ==> a[name] == b[name]
    ensures Rebuilt(a, name, grant, rows) == Rebuilt(b, name, grant, rows)
  {
  }

  /** The command over the rows of `table`, in order. */
  function RunTable(store: Groups, table: seq<(string, Grant)>, rows: set<string>): (r: Groups)
    requires DistinctKeys(table)
    ensures RebuiltFrom(store, table, rows, r)
  {
    if |table| == 0 then store
    else
      var prev := RunTable(store, table[..|table| - 1], rows);
      var next := RebuildGroup(prev, table[|table| - 1].0, table[|table| - 1].1, rows);
      RunTableStep(store, table, rows, prev, next);
      next
  }

  lemma GroupTableDistinct()
    ensures DistinctKeys(GroupTable)
  {
  }

  /** `create_groups`: the default groups rebuilt in table order. */
  function CreateGroups(store: Groups, rows: set<string>): Groups {
    GroupTableDistinct();
    RunTable(store, GroupTable, rows)
  }

  /** Every listed group exists afterwards and unlisted groups are untouched;
      groups are found by name before they are created, so a rerun never adds
      a second group of the same name. */
  lemma CreateGroupsKeys(store: Groups, rows: set<string>)
    ensures CreateGroups(store, rows).Keys == store.Keys + TableNames(GroupTable)
    ensures forall n :: n in store && n !in TableNames(GroupTable) ==> CreateGroups(store, rows)[n] == store[n]
  {
    GroupTableDistinct();
  }

  /** A group of the table that is new or had a record ends with the
      permissions of its grant. */
  lemma RunTableGrant(store: Groups, table: seq<(string, Grant)>, rows: set<string>, name: string, grant: Grant)
    requires DistinctKeys(table) && (name, grant) in table
    requires name !in store || store[name].access.Some?
    ensures RunTable(store, table, rows)[name].perms == Target(grant, rows)
  {
  }

  /** Administrador is the one group given every permission. */
  lemma OnlyAdministradorGetsAll(name: string)
    ensures (name, AllPerms) in GroupTable <==> name == "Administrador"
  {
    assert GroupTable[0] == ("Administrador", AllPerms);
  }

  /** The group given every permission ends with every permission there is,
      when it is new or already had a record. */
  lemma AdministradorGetsAll(store: Groups, rows: set<string>, name: string)
    requires (name, AllPerms) in GroupTable
    requires name !in store || store[name].access.Some?
    ensures CreateGroups(store, rows)[name].perms == rows
  {
    GroupTableDistinct();
    RunTableGrant(store, GroupTable, rows, name, AllPerms);
  }

  /** A listed group that is new or had a record ends with exactly its listed
      codenames that exist, and its flags follow its module permissions. */
  lemma ListedGroupRebuilt(store: Groups, rows: set<string>, name: string, codes: set<string>)
    requires (name, Listed(codes)) in GroupTable
    requires name !in store || store[name].access.Some?
    ensures var g := CreateGroups(store, rows)[name];
      && (forall c {:trigger c in g.perms} :: c in g.perms <==> c in codes && c in rows)
      && (forall f :: f in g.access.value <==> Codename(f) in codes && Codename(f) in rows)
  {
    GroupTableDistinct();
  }

  /** A listed group comes out of a second run as it came out of the first. */
  lemma RunTableSettlesAt(store: Groups, table: seq<(string, Grant)>, rows: set<string>, n: string)
    requires DistinctKeys(table)
    requires forall n :: n in store && n in TableNames(table) ==> store[n].access.Some?
    requires n in TableNames(table)
    ensures RunTable(RunTable(store, table, rows), table, rows)[n] == RunTable(store, table, rows)[n]
  {
    var once := RunTable(store, table, rows);
    var k :| 0 <= k < |table| && table[k].0 == n;
    var grant := table[k].1;
    assert (n, grant) in table;
    assert n in store ==> store[n].access.Some?;
    assert once[n].perms == Target(grant, rows);
    var twice := RunTable(once, table, rows);
    assert twice[n].perms == Target(grant, rows);
  }

  /** A run over a table leaves every listed group with a record, so a
      second run reproduces the first. */
  lemma RunTableSettles(store: Groups, table: seq<(string, Grant)>, rows: set<string>)
    requires DistinctKeys(table)
    requires forall n :: n in store && n in TableNames(table) ==> store[n].access.Some?
    ensures RunTable(RunTable(store, table, rows), table, rows) == RunTable(store, table, rows)
  {
    var once := RunTable(store, table, rows);
    var twice := RunTable(once, table, rows);
    assert twice.Keys == once.Keys;
    forall n | n in once
      ensures twice[n] == once[n]
    {
      if n in TableNames(table) {
        RunTableSettlesAt(store, table, rows, n);
      }
    }
    SameGroups(twice, once);
  }

  /** Two stores with the same names and the same group under each name are equal. */
  lemma SameGroups(a: Groups, b: Groups)
    requires a.Keys == b.Keys && forall n :: n in a ==> a[n] == b[n]
    ensures a == b
  {
  }

  /** After one run every listed group has a record, so a run from there on
      changes nothing: the command settles on its second run (on the first
      when every listed group already had a record). */
  lemma CreateGroupsSettles(store: Groups, rows: set<string>)
    requires forall n :: n in store && n in TableNames(GroupTable) ==> store[n].access.Some?
    ensures CreateGroups(CreateGroups(store, rows), rows) == CreateGroups(store, rows)
  {
    GroupTableDistinct();
    RunTableSettles(store, GroupTable, rows);
  }

  /** A listed group that existed without a record comes out of the first
      run without the module permissions of its list: the record created for
      it syncs them away before the flags are read. */
  lemma FirstRunDropsModules(store: Groups, rows: set<string>, name: string, grant: Grant, f: Flag)
    requires (name, grant) in GroupTable && name in store && store[name].access.None?
    requires Codename(f) in rows
    ensures Codename(f) !in CreateGroups(store, rows)[name].perms
    ensures f !in CreateGroups(store, rows)[name].access.value
  {
    GroupTableDistinct();
  }
}
