/** Users, roles and permission checks (apps/core/models.py). */
module Accounts {

  datatype Role = Admin | Manager | Collaborator | Client

  /** A signed-in user as the views see it. `perms` is the set of permission
      names ("app.codename") the user holds directly or through groups. */
  datatype User = User(
    id: int,
    username: string,
    role: Role,
    isSuperuser: bool,
    isStaff: bool,
    perms: set<string>)

  /** `User.is_manager()`: the MANAGER role, or any superuser. */
  predicate IsManager(u: User) {
    u.role == Manager || u.isSuperuser
  }

  /** `User.is_client()`. */
  predicate IsClient(u: User) {
    u.role == Client
  }

  /** `User.is_collaborator()`. */
  predicate IsCollaborator(u: User) {
    u.role == Collaborator
  }

  /** Django's `user.has_perm(name)` for an active user: a superuser holds every permission. */
  predicate HasPerm(u: User, name: string) {
    u.isSuperuser || name in u.perms
  }

  /** The role a user gets when none is chosen. */
  const DefaultRole: Role := Collaborator
}
