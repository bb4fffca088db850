/** Migration 0015 of apps/core: make sure a user named "admin" exists with
    the default email, role and flags. Users are kept by username, which is
    unique. The password hash is a parameter, since hashing draws a random
    salt. */
module DefaultAdmin {
  import opened Accounts

  /** The columns the migration reads and writes. */
  datatype UserRow = UserRow(email: string, role: Role, isStaff: bool, isSuperuser: bool, password: string)

  const AdminName: string := "admin"
  const AdminEmail: string := "admin@erp.com"

  /** Whether a row already carries every default. */
  predicate HasDefaults(u: UserRow) {
    u.email == AdminEmail && u.role == Admin && u.isStaff && u.isSuperuser
  }

  /** The row with every default set and the password kept. */
  function WithDefaults(u: UserRow): (r: UserRow)
    ensures HasDefaults(r) && r.password == u.password
    ensures HasDefaults(u) ==> r == u
  {
    UserRow(AdminEmail, Admin, true, true, u.password)
  }

  /** `create_default_admin`: the users afterwards, and whether it saved. A
      missing admin is created with the defaults and the hashed password; an
      existing one gets each default that differs and keeps its password, and
      is saved only when something differed. No other user changes. */
  function CreateDefaultAdmin(users: map<string, UserRow>, hash: string): (r: (map<string, UserRow>, bool))
    ensures r.0.Keys == users.Keys + {AdminName}
    ensures forall n :: n in users && n != AdminName ==> r.0[n] == users[n]
    ensures HasDefaults(r.0[AdminName])
    ensures AdminName !in users ==> r.0[AdminName].password == hash && r.1
    ensures AdminName in users ==> r.0[AdminName].password == users[AdminName].password
    ensures AdminName in users ==> (r.1 <==> !HasDefaults(users[AdminName]))
  {
    if AdminName !in users then
      (users[AdminName := UserRow(AdminEmail, Admin, true, true, hash)], true)
    else
      var admin := users[AdminName];
      var updated := admin.email != AdminEmail || admin.role != Admin || !admin.isStaff || !admin.isSuperuser;
      (users[AdminName := WithDefaults(admin)], updated)
  }

  /** A second run saves nothing and changes nothing, whatever hash it is given. */
  lemma CreateDefaultAdminIdempotent(users: map<string, UserRow>, hash: string, hash2: string)
    ensures var once := CreateDefaultAdmin(users, hash).0;
      CreateDefaultAdmin(once, hash2) == (once, false)
  {
    var once := CreateDefaultAdmin(users, hash).0;
    assert once[AdminName := WithDefaults(once[AdminName])] == once;
  }
}
