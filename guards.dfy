/** The Express access guards of src/middleware/auth.ts as decision functions
    over the optional session user: each either rejects with a status and a
    body, or passes the request on (`next()`), modelled as `Allow`. */
module Guards {
  import opened Seqs
  import opened Text
  import opened Roles

  /** `req.session.user`. Object ids are modelled as naturals. */
  datatype SessionUser = SessionUser(
    id: nat, name: string, email: string, username: string, role: Role, isActive: bool)

  datatype Decision =
    | Allow
    | Reject401                    // { error: "Authentication required" }
    | Reject403Inactive            // { error: "Account is inactive" }
    | Reject403Insufficient(error: string, required: string, userRole: Role)
  {
    function Status(): int {
      match this
      case Allow => 200
      case Reject401 => 401
      case Reject403Inactive => 403
      case Reject403Insufficient(_, _, _) => 403
    }
  }

  /** One guard as mounted on a route: the middleware value each factory returns. */
  datatype Guard =
    | RequireAuth
    | RequirePermission(permission: Permission)
    | RequireAnyPermission(permissions: seq<Permission>)
    | RequireRole(role: Role)
    | RequireAnyRole(roles: seq<Role>)

  /** `requireAdmin = requireAnyRole(["super_admin", "admin"])`. */
  const RequireAdmin: Guard := RequireAnyRole([SuperAdmin, Admin])

  /** `requireSuperAdmin = requireRole("super_admin")`. */
  const RequireSuperAdmin: Guard := RequireRole(SuperAdmin)

  function RoleNames(rs: seq<Role>): (names: seq<string>)
    ensures |names| == |rs|
  {
    if |rs| == 0 then [] else [RoleName(rs[0])] + RoleNames(rs[1..])
  }

  function PermissionNames(ps: seq<Permission>): (names: seq<string>)
    ensures |names| == |ps|
  {
    if |ps| == 0 then [] else [PermissionName(ps[0])] + PermissionNames(ps[1..])
  }

  /** The third step of each guard: the check particular to it. */
  function Particular(g: Guard, r: Role): Decision {
    match g
    case RequireAuth => Allow
    case RequirePermission(p) =>
      if !HasPermission(r, p) then Reject403Insufficient("Insufficient permissions", PermissionName(p), r)
      else Allow
    case RequireAnyPermission(ps) =>
      if !(exists i :: 0 <= i < |ps| && HasPermission(r, ps[i])) then
        Reject403Insufficient("Insufficient permissions", "One of: " + Join(PermissionNames(ps), ", "), r)
      else Allow
    case RequireRole(role) =>
      if r != role then Reject403Insufficient("Insufficient role", RoleName(role), r)
      else Allow
    case RequireAnyRole(rs) =>
      if r !in rs then Reject403Insufficient("Insufficient role", "One of: " + Join(RoleNames(rs), ", "), r)
      else Allow
  }

  /** Running guard `g` on a request whose session holds `u`:
      no user, then inactive user, then the guard's own check. */
  function Check(g: Guard, u: Option<SessionUser>): Decision {
    if u.None? then Reject401
    else if !u.value.isActive then Reject403Inactive
    else Particular(g, u.value.role)
  }

  /** Guards mounted one after another on a route: the first rejection answers,
      and the handler runs only when every guard passes. */
  function RunGuards(gs: seq<Guard>, u: Option<SessionUser>): (d: Decision)
    ensures d.Allow? <==> forall i :: 0 <= i < |gs| ==> Check(gs[i], u).Allow?
    ensures !d.Allow? ==>
      exists i :: 0 <= i < |gs| && d == Check(gs[i], u) && forall j :: 0 <= j < i ==> Check(gs[j], u).Allow?
  {
    if |gs| == 0 then Allow
    else if !Check(gs[0], u).Allow? then Check(gs[0], u)
    else RunGuards(gs[1..], u)
  }

  /** `canModifyUser`. */
  predicate CanModifyUser(actor: Role, target: Role) {
    if actor == SuperAdmin then true
    else if actor == Admin then target !in [SuperAdmin, Admin]
    else false
  }

  // ---------------------------------------------------------------------
  // Properties of the guards

  /** Every guard answers 401 when the session has no user, before anything else. */
  lemma NoUserIsUnauthenticated(g: Guard)
    ensures Check(g, None) == Reject401
    ensures Check(g, None).Status() == 401
  {
  }

  /** Every guard answers 403 "Account is inactive" to an inactive user, whatever the role. */
  lemma InactiveUserIsRejected(g: Guard, u: SessionUser)
    requires !u.isActive
    ensures Check(g, Some(u)) == Reject403Inactive
  {
  }

  /** A guard only ever lets through an active user. */
  lemma AllowMeansActiveUser(g: Guard, u: Option<SessionUser>)
    ensures Check(g, u).Allow? ==> u.Some? && u.value.isActive
    ensures Check(g, u).Allow? ==> Check(RequireAuth, u).Allow?
  {
  }

  /** `requirePermission(p)` allows exactly the active holders of `p`, and a
      rejection names `p` and the user's role. */
  lemma RequirePermissionExactly(p: Permission, u: Option<SessionUser>)
    ensures Check(RequirePermission(p), u).Allow? <==>
      u.Some? && u.value.isActive && HasPermission(u.value.role, p)
    ensures Check(RequirePermission(p), u).Reject403Insufficient? ==>
      Check(RequirePermission(p), u) ==
        Reject403Insufficient("Insufficient permissions", PermissionName(p), u.value.role)
  {
  }

  /** `requireAnyPermission(ps)` agrees with `hasAnyPermission`; an empty list
      rejects every active user. */
  lemma RequireAnyPermissionExactly(ps: seq<Permission>, u: Option<SessionUser>)
    ensures Check(RequireAnyPermission(ps), u).Allow? <==>
      u.Some? && u.value.isActive && HasAnyPermission(u.value.role, ps)
    ensures u.Some? && u.value.isActive ==>
      Check(RequireAnyPermission([]), u).Reject403Insufficient?
  {
  }

  /** `requireRole` is equality of roles, not rank: super_admin fails `requireRole("admin")`. */
  lemma RequireRoleIsExact(r: Role, u: SessionUser)
    requires u.isActive
    ensures Check(RequireRole(r), Some(u)).Allow? <==> u.role == r
    ensures u.role == SuperAdmin ==> Check(RequireRole(Admin), Some(u)).Reject403Insufficient?
  {
  }

  /** `requireAnyRole` is membership in the list. */
  lemma RequireAnyRoleIsMembership(rs: seq<Role>, u: SessionUser)
    requires u.isActive
    ensures Check(RequireAnyRole(rs), Some(u)).Allow? <==> u.role in rs
  {
  }

  /** `requireAdmin` admits exactly the admin-level roles, `requireSuperAdmin` exactly super_admin. */
  lemma AdminGuards(u: Option<SessionUser>)
    ensures Check(RequireAdmin, u).Allow? <==> u.Some? && u.value.isActive && IsAdminRole(u.value.role)
    ensures Check(RequireSuperAdmin, u).Allow? <==> u.Some? && u.value.isActive && u.value.role == SuperAdmin
  {
  }

  /** `requireAuth` in front of another guard changes nothing: the other guard
      repeats its checks first. */
  lemma AuthThenGuard(g: Guard, u: Option<SessionUser>)
    ensures RunGuards([RequireAuth, g], u) == Check(g, u)
  {
    assert [RequireAuth, g][1..] == [g];
  }

  /** `canModifyUser`, case by case, and its agreement with the rank table. */
  lemma CanModifyUserTable()
    ensures forall t :: CanModifyUser(SuperAdmin, t)
    ensures forall t :: CanModifyUser(Admin, t) <==> !IsAdminRole(t)
    ensures forall a, t :: !IsAdminRole(a) ==> !CanModifyUser(a, t)
    ensures forall a, t :: CanModifyUser(a, t) ==> IsHigherOrEqualRole(a, t)
    ensures forall a, t :: CanModifyUser(a, t) && a != SuperAdmin ==> IsHigherRole(a, t)
  {
  }
}
