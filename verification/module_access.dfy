/** Module visibility (apps/core/models.py and apps/core/context_processors.py):
    five per-group flags that decide which menus a user sees, kept in step
    with five permissions of the same names. Permissions are identified by
    their codename; `rows` is the set of codenames that have a Permission row. */
module ModuleAccess {
  import opened Wrappers

  datatype Flag = Helpdesk | Approvals | ApprovalsHe | AdminModule | Reports

  /** The flags in the order the sync walks them. */
  const FlagOrder: seq<Flag> := [Helpdesk, Approvals, ApprovalsHe, AdminModule, Reports]

  const AllFlags: set<Flag> := {Helpdesk, Approvals, ApprovalsHe, AdminModule, Reports}

  /** The permission that goes with each flag, as declared on `User.Meta`. */
  function Codename(f: Flag): string {
    match f
    case Helpdesk => "access_helpdesk"
    case Approvals => "access_approvals"
    case ApprovalsHe => "access_approvals_he"
    case AdminModule => "access_admin"
    case Reports => "access_reports"
  }

  const ModuleCodes: set<string> :=
    {"access_helpdesk", "access_approvals", "access_approvals_he", "access_admin", "access_reports"}

  /** The flag of a module codename. */
  function FlagOf(c: string): (f: Flag)
    requires c in ModuleCodes
    ensures Codename(f) == c
  {
    if c == "access_helpdesk" then Helpdesk
    else if c == "access_approvals" then Approvals
    else if c == "access_approvals_he" then ApprovalsHe
    else if c == "access_admin" then AdminModule
    else Reports
  }

  /** Each flag has its own codename, and the codenames are exactly the module codes. */
  lemma CodenameInjective()
    ensures forall f, g :: Codename(f) == Codename(g) ==> f == g
    ensures forall f :: Codename(f) in ModuleCodes && f in AllFlags && f in FlagOrder
  {
    forall f
      ensures Codename(f) in ModuleCodes && f in AllFlags && f in FlagOrder
    {
      match f
      case Helpdesk => assert FlagOrder[0] == f;
      case Approvals => assert FlagOrder[1] == f;
      case ApprovalsHe => assert FlagOrder[2] == f;
      case AdminModule => assert FlagOrder[3] == f;
      case Reports => assert FlagOrder[4] == f;
    }
    forall f, g | Codename(f) == Codename(g)
      ensures f == g
    {
      match f
      case Helpdesk => assert Codename(g)[7] == 'h';
      case Approvals => assert |Codename(g)| == 16 && Codename(g)[7] == 'a';
      case ApprovalsHe => assert |Codename(g)| == 19;
      case AdminModule => assert Codename(g)[8] == 'd';
      case Reports => assert Codename(g)[7] == 'r';
    }
  }

  /** A group with its permissions and, when the group has one, its
      `GroupModuleAccess` record, given as the set of flags that are on. */
  datatype Group = Group(perms: set<string>, access: Option<set<Flag>>)

  /** The groups, by name (group names are unique). */
  type Groups = map<string, Group>

  /** The module permissions of a group agree with the flags, for every flag
      whose permission exists. */
  ghost predicate Agrees(perms: set<string>, on: set<Flag>, rows: set<string>) {
    forall f :: Codename(f) in rows ==> (Codename(f) in perms <==> f in on)
  }

  /** The loop of `_sync_perms_from_flags` over the flags in `fs`: a flag
      whose permission does not exist is skipped; otherwise its permission
      is added when the flag is on and removed when it is off. */
  function SyncOver(perms: set<string>, on: set<Flag>, rows: set<string>, fs: seq<Flag>): (r: set<string>)
    ensures forall f :: f in fs && Codename(f) in rows ==> (Codename(f) in r <==> f in on)
    ensures forall c {:trigger c in r} :: (c !in rows || forall f :: f in fs ==> Codename(f) != c) ==> (c in r <==> c in perms)
  {
    if |fs| == 0 then perms
    else
      var prev := SyncOver(perms, on, rows, fs[..|fs| - 1]);
      var f := fs[|fs| - 1];
      CodenameInjective();
      assert forall g :: g in fs ==> g in fs[..|fs| - 1] || g == f;
      if Codename(f) !in rows then prev
      else if f in on then prev + {Codename(f)}
      else prev - {Codename(f)}
  }

  /** `_sync_perms_from_flags(gma)`: afterwards the group holds each existing
      module permission exactly when its flag is on; every other permission,
      and a module permission without a row, is left as it was. */
  function SyncPerms(perms: set<string>, on: set<Flag>, rows: set<string>): (r: set<string>)
    ensures Agrees(r, on, rows)
    ensures forall c {:trigger c in r} :: c !in ModuleCodes || c !in rows ==> (c in r <==> c in perms)
  {
    CodenameInjective();
    SyncOver(perms, on, rows, FlagOrder)
  }

  /** Permissions that already agree with the flags are left alone. */
  lemma SyncAgreed(perms: set<string>, on: set<Flag>, rows: set<string>)
    requires Agrees(perms, on, rows)
    ensures SyncPerms(perms, on, rows) == perms
  {
    var r := SyncPerms(perms, on, rows);
    forall c
      ensures c in r <==> c in perms
    {
      if c in ModuleCodes && c in rows {
        var f := FlagOf(c);
        assert Codename(f) in r <==> f in on;
      }
    }
  }

  /** Syncing twice is syncing once. */
  lemma SyncIdempotent(perms: set<string>, on: set<Flag>, rows: set<string>)
    ensures SyncPerms(SyncPerms(perms, on, rows), on, rows) == SyncPerms(perms, on, rows)
  {
    SyncAgreed(SyncPerms(perms, on, rows), on, rows);
  }

  /** The flags whose permission the group holds. */
  function FlagsOf(perms: set<string>): (r: set<Flag>)
    ensures forall f :: f in r <==> Codename(f) in perms
  {
    CodenameInjective();
    set f | f in AllFlags && Codename(f) in perms
  }

  /** Flags read off the permissions sync back to the same permissions. */
  lemma FlagsOfRoundTrip(perms: set<string>, rows: set<string>)
    ensures SyncPerms(perms, FlagsOf(perms), rows) == perms
  {
    SyncAgreed(perms, FlagsOf(perms), rows);
  }

  /** `post_save` on `Group` for a new group: the `ensure_module_access`
      receiver creates an all-off record, whose own `post_save` syncs. */
  function CreateGroup(): (g: Group)
    ensures g.access == Some({}) && g.perms == {}
    ensures forall rows :: SyncPerms(g.perms, g.access.value, rows) == g.perms
  {
    Group({}, Some({}))
  }

  /** `gma.save()` on the live model: the record takes the flags `on`, and the
      `sync_group_permissions` receiver brings the permissions in line. */
  function SaveAccess(g: Group, on: set<Flag>, rows: set<string>): (r: Group)
    ensures r.access == Some(on) && Agrees(r.perms, on, rows)
    ensures forall c {:trigger c in r.perms} :: c !in ModuleCodes || c !in rows ==> (c in r.perms <==> c in g.perms)
  {
    Group(SyncPerms(g.perms, on, rows), Some(on))
  }

  /** A missing record created on the live model: all flags off, and the
      sync that follows strips the group's existing module permissions. */
  function Blank(g: Group, rows: set<string>): (r: Group)
    requires g.access.None?
    ensures r.access == Some({})
    ensures forall f :: Codename(f) in rows ==> Codename(f) !in r.perms
  {
    SaveAccess(g, {}, rows)
  }

  // ---------------------------------------------------------------------
  // The context processor

  /** Who asks for the page: nobody signed in, or a user with the superuser
      bit, the permission names held directly ("app.codename"), and the
      names of the groups they belong to. */
  datatype Requester = Anonymous | SignedIn(superuser: bool, own: set<string>, groups: seq<string>)

  /** What a group's record and permissions give: a flag that is on, or the
      module permission itself. */
  predicate Grants(g: Group, f: Flag) {
    (g.access.Some? && f in g.access.value) || Codename(f) in g.perms
  }

  /** The group loop: every group of the user without a record gets a blank
      one, and the flags are the OR of the records. */
  function ScanGroups(store: Groups, names: seq<string>, rows: set<string>): (r: (Groups, set<Flag>))
    requires forall i :: 0 <= i < |names| ==> names[i] in store
    ensures r.0.Keys == store.Keys
    ensures forall n :: n in store ==>
      r.0[n] == if n in names && store[n].access.None? then Blank(store[n], rows) else store[n]
    ensures forall f :: f in r.1 <==> exists n :: n in names && r.0[n].access.Some? && f in r.0[n].access.value
  {
    if |names| == 0 then (store, {})
    else
      var prev := ScanGroups(store, names[..|names| - 1], rows);
      var n := names[|names| - 1];
      assert forall x :: x in names <==> x in names[..|names| - 1] || x == n;
      var g := prev.0[n];
      var access := if g.access.None? then Blank(g, rows) else g;
      (prev.0[n := access], prev.1 + access.access.value)
  }

  /** Whether the user holds the permission of flag `f`, directly or through
      one of their groups. */
  predicate Held(own: set<string>, store: Groups, names: seq<string>, f: Flag)
    requires forall i :: 0 <= i < |names| ==> names[i] in store
  {
    "core." + Codename(f) in own || exists n :: n in names && Codename(f) in store[n].perms
  }

  /** The flags of a signed-in user who is no superuser: the OR over their
      groups, then every flag whose permission they hold turned on. */
  function MemberFlags(store: Groups, own: set<string>, names: seq<string>, rows: set<string>): (r: (map<Flag, bool>, Groups))
    requires forall i :: 0 <= i < |names| ==> names[i] in store
    ensures r.0.Keys == AllFlags
    ensures r.1.Keys == store.Keys
    ensures forall n :: n in store ==>
      r.1[n] == if n in names && store[n].access.None? then Blank(store[n], rows) else store[n]
    ensures forall f :: f in AllFlags ==>
      (r.0[f] <==> "core." + Codename(f) in own || exists n :: n in names && Grants(r.1[n], f))
  {
    var (after, on) := ScanGroups(store, names, rows);
    assert forall i :: 0 <= i < |names| ==> names[i] in after;
    var held := set f | f in AllFlags && Held(own, after, names, f);
    (map f | f in AllFlags :: f in on || f in held, after)
  }

  /** `module_access(request)`: the five menu flags and the groups after the
      records it creates. Nobody signed in sees no module and a superuser
      sees all; anyone else gets a flag when one of their groups has it on
      or when they hold its permission, directly or through a group. */
  function ContextFlags(req: Requester, store: Groups, rows: set<string>): (r: (map<Flag, bool>, Groups))
    requires req.SignedIn? ==> forall i :: 0 <= i < |req.groups| ==> req.groups[i] in store
    ensures r.0.Keys == AllFlags
    ensures req.Anonymous? ==> r.1 == store && forall f :: f in AllFlags ==> !r.0[f]
    ensures req.SignedIn? && req.superuser ==> r.1 == store && forall f :: f in AllFlags ==> r.0[f]
    ensures req.SignedIn? && !req.superuser ==> r == MemberFlags(store, req.own, req.groups, rows)
  {
    match req
    case Anonymous => (map f | f in AllFlags :: false, store)
    case SignedIn(superuser, own, names) =>
      if superuser then (map f | f in AllFlags :: true, store)
      else MemberFlags(store, own, names, rows)
  }

  /** A group whose record had to be created adds nothing to the flags: it
      comes with every flag off and without its module permissions. */
  lemma BlankGrantsNothing(g: Group, rows: set<string>, f: Flag)
    requires g.access.None? && g.perms <= rows
    ensures !Grants(Blank(g, rows), f)
  {
  }

  /** The permission step only adds flags: every flag on in some group of a
      signed-in user who is no superuser shows. */
  lemma GroupFlagShows(store: Groups, rows: set<string>, own: set<string>, names: seq<string>, n: string, f: Flag)
    requires forall i :: 0 <= i < |names| ==> names[i] in store
    requires n in names && store[n].access.Some? && f in store[n].access.value
    ensures MemberFlags(store, own, names, rows).0[f]
  {
    CodenameInjective();
    var r := MemberFlags(store, own, names, rows);
    assert Grants(r.1[n], f);
  }

  /** When every group of the user has a record in step with its
      permissions, the menus show exactly the modules whose permission the
      user holds, for every module whose permission exists. */
  lemma SyncedMenuMatchesPerms(store: Groups, rows: set<string>, own: set<string>, names: seq<string>, f: Flag)
    requires forall i :: 0 <= i < |names| ==> names[i] in store
    requires forall n :: n in names ==> store[n].access.Some? && Agrees(store[n].perms, store[n].access.value, rows)
    requires Codename(f) in rows
    ensures MemberFlags(store, own, names, rows).0[f] <==>
      "core." + Codename(f) in own || exists n :: n in names && Codename(f) in store[n].perms
  {
    CodenameInjective();
    var r := MemberFlags(store, own, names, rows);
    forall n | n in names
      ensures Grants(r.1[n], f) <==> Codename(f) in store[n].perms
    {
      assert r.1[n] == store[n];
    }
  }
}
