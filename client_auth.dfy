/** The client-side permission predicates of src/contexts/AuthContext.tsx,
    over the user the context currently holds (`null` is `None`), and their
    agreement with the server-side guards. */
module ClientAuth {
  import opened Seqs
  import opened Roles
  import opened Guards

  /** `checkPermission` (exposed as `hasPermission`). */
  predicate CheckPermission(user: Option<SessionUser>, p: Permission) {
    if user.None? || !user.value.isActive then false
    else HasPermission(user.value.role, p)
  }

  /** `checkRole` (exposed as `hasRole`). */
  predicate CheckRole(user: Option<SessionUser>, r: Role) {
    if user.None? || !user.value.isActive then false
    else user.value.role == r
  }

  /** `checkAnyRole` (exposed as `hasAnyRole`). */
  predicate CheckAnyRole(user: Option<SessionUser>, rs: seq<Role>) {
    if user.None? || !user.value.isActive then false
    else user.value.role in rs
  }

  /** `isAdmin: checkAnyRole(["super_admin", "admin"])`. */
  predicate IsAdmin(user: Option<SessionUser>) {
    CheckAnyRole(user, [SuperAdmin, Admin])
  }

  /** `isSuperAdmin: checkRole("super_admin")`. */
  predicate IsSuperAdmin(user: Option<SessionUser>) {
    CheckRole(user, SuperAdmin)
  }

  /** No user, or an inactive one, passes no client check. */
  lemma NoActiveUserPassesNothing(user: Option<SessionUser>, p: Permission, r: Role, rs: seq<Role>)
    requires user.None? || !user.value.isActive
    ensures !CheckPermission(user, p) && !CheckRole(user, r) && !CheckAnyRole(user, rs)
    ensures !IsAdmin(user) && !IsSuperAdmin(user)
  {
  }

  /** Each client check answers exactly as the server guard it mirrors allows. */
  lemma ClientAgreesWithServer(user: Option<SessionUser>, p: Permission, r: Role, rs: seq<Role>)
    ensures CheckPermission(user, p) <==> Check(RequirePermission(p), user).Allow?
    ensures CheckRole(user, r) <==> Check(RequireRole(r), user).Allow?
    ensures CheckAnyRole(user, rs) <==> Check(RequireAnyRole(rs), user).Allow?
    ensures IsAdmin(user) <==> Check(RequireAdmin, user).Allow?
    ensures IsSuperAdmin(user) <==> Check(RequireSuperAdmin, user).Allow?
  {
  }

  /** `isAdmin` holds of an active super_admin or admin, `isSuperAdmin` of an active super_admin. */
  lemma AdminFlags(user: Option<SessionUser>)
    ensures IsAdmin(user) <==> user.Some? && user.value.isActive && IsAdminRole(user.value.role)
    ensures IsSuperAdmin(user) <==> user.Some? && user.value.isActive && user.value.role == SuperAdmin
    ensures IsSuperAdmin(user) ==> IsAdmin(user)
  {
  }
}
