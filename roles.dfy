/** The static role/permission model: six roles, eighteen permission tags,
    the role-to-permission table, the rank table and the predicates over them
    (src/types/roles.ts). */
module Roles {
  import opened Seqs

  datatype Role = SuperAdmin | Admin | Moderator | Teacher | Student | Guest

  datatype Permission =
    // user management
    | CreateUser | ReadUser | UpdateUser | DeleteUser | ManageRoles | InviteUsers
    // content management
    | CreateCourse | ReadCourse | UpdateCourse | DeleteCourse
    // academic operations
    | GradeAssignments | ViewGrades | SubmitAssignments
    // system administration
    | AccessAdminPanel | ViewAnalytics | ManageSystemSettings
    // communication
    | SendAnnouncements | AccessMessaging

  /** The string value of each role, as stored and sent over the wire. */
  function RoleName(r: Role): string {
    match r
    case SuperAdmin => "super_admin"
    case Admin => "admin"
    case Moderator => "moderator"
    case Teacher => "teacher"
    case Student => "student"
    case Guest => "guest"
  }

  function PermissionName(p: Permission): string {
    match p
    case CreateUser => "create_user"
    case ReadUser => "read_user"
    case UpdateUser => "update_user"
    case DeleteUser => "delete_user"
    case ManageRoles => "manage_roles"
    case InviteUsers => "invite_users"
    case CreateCourse => "create_course"
    case ReadCourse => "read_course"
    case UpdateCourse => "update_course"
    case DeleteCourse => "delete_course"
    case GradeAssignments => "grade_assignments"
    case ViewGrades => "view_grades"
    case SubmitAssignments => "submit_assignments"
    case AccessAdminPanel => "access_admin_panel"
    case ViewAnalytics => "view_analytics"
    case ManageSystemSettings => "manage_system_settings"
    case SendAnnouncements => "send_announcements"
    case AccessMessaging => "access_messaging"
  }

  /** `Object.values(UserRole)`, in declaration order. */
  const AllRoles: seq<Role> := [SuperAdmin, Admin, Moderator, Teacher, Student, Guest]

  /** `Object.values(Permission)`, in declaration order. */
  const AllPermissions: seq<Permission> := [
    CreateUser, ReadUser, UpdateUser, DeleteUser, ManageRoles, InviteUsers,
    CreateCourse, ReadCourse, UpdateCourse, DeleteCourse,
    GradeAssignments, ViewGrades, SubmitAssignments,
    AccessAdminPanel, ViewAnalytics, ManageSystemSettings,
    SendAnnouncements, AccessMessaging]

  /** `Object.values(UserRole).includes(s)`: the role whose string value is `s`, if any. */
  function RoleFromName(s: string): (r: Option<Role>)
    ensures r.Some? ==> RoleName(r.value) == s
    ensures r.None? <==> forall x :: RoleName(x) != s
  {
    if s == "super_admin" then Some(SuperAdmin)
    else if s == "admin" then Some(Admin)
    else if s == "moderator" then Some(Moderator)
    else if s == "teacher" then Some(Teacher)
    else if s == "student" then Some(Student)
    else if s == "guest" then Some(Guest)
    else None
  }

  /** Parsing the string value of a role gives the role back. */
  lemma RoleNameRoundTrip(r: Role)
    ensures RoleFromName(RoleName(r)) == Some(r)
  {
  }

  /** `ROLE_PERMISSIONS`. */
  function RolePermissions(r: Role): seq<Permission> {
    match r
    case SuperAdmin => AllPermissions
    case Admin => [
      CreateUser, ReadUser, UpdateUser, DeleteUser, ManageRoles, InviteUsers,
      CreateCourse, ReadCourse, UpdateCourse, DeleteCourse,
      AccessAdminPanel, ViewAnalytics, SendAnnouncements, AccessMessaging, ViewGrades]
    case Moderator => [
      ReadUser, UpdateUser, ReadCourse, UpdateCourse,
      AccessAdminPanel, SendAnnouncements, AccessMessaging, ViewGrades]
    case Teacher => [
      ReadUser, CreateCourse, ReadCourse, UpdateCourse,
      GradeAssignments, ViewGrades, SendAnnouncements, AccessMessaging]
    case Student => [ReadCourse, SubmitAssignments, ViewGrades, AccessMessaging]
    case Guest => [ReadCourse]
  }

  /** `hasPermission`: the permission is listed for the role. */
  predicate HasPermission(r: Role, p: Permission) {
    p in RolePermissions(r)
  }

  /** `hasAnyPermission`: `permissions.some(p => hasPermission(role, p))`. */
  function HasAnyPermission(r: Role, ps: seq<Permission>): (b: bool)
    ensures b <==> exists i :: 0 <= i < |ps| && HasPermission(r, ps[i])
  {
    if |ps| == 0 then false
    else HasPermission(r, ps[0]) || HasAnyPermission(r, ps[1..])
  }

  /** `hasAllPermissions`: `permissions.every(p => hasPermission(role, p))`. */
  function HasAllPermissions(r: Role, ps: seq<Permission>): (b: bool)
    ensures b <==> forall i :: 0 <= i < |ps| ==> HasPermission(r, ps[i])
  {
    if |ps| == 0 then true
    else HasPermission(r, ps[0]) && HasAllPermissions(r, ps[1..])
  }

  /** `getRolePermissions`: every role has an entry, so the `|| []` fallback never applies. */
  function GetRolePermissions(r: Role): (ps: seq<Permission>)
    ensures forall p :: p in ps <==> HasPermission(r, p)
    ensures |ps| <= |AllPermissions|
  {
    RolePermissions(r)
  }

  /** `isAdminRole`. */
  predicate IsAdminRole(r: Role) {
    r == SuperAdmin || r == Admin
  }

  /** `isStaffRole`. */
  predicate IsStaffRole(r: Role) {
    r == SuperAdmin || r == Admin || r == Moderator || r == Teacher
  }

  /** `ROLE_HIERARCHY`. */
  function Rank(r: Role): (n: nat)
    ensures n <= 5
  {
    match r
    case Guest => 0
    case Student => 1
    case Teacher => 2
    case Moderator => 3
    case Admin => 4
    case SuperAdmin => 5
  }

  /** `isHigherRole`. */
  predicate IsHigherRole(a: Role, b: Role) {
    Rank(a) > Rank(b)
  }

  /** `isHigherOrEqualRole`. */
  predicate IsHigherOrEqualRole(a: Role, b: Role) {
    Rank(a) >= Rank(b)
  }

  // ---------------------------------------------------------------------
  // Properties of the tables

  /** Every role appears once in `Object.values(UserRole)`, and so does every permission. */
  lemma EnumerationsComplete()
    ensures forall r :: r in AllRoles
    ensures forall i, j :: 0 <= i < j < |AllRoles| ==> AllRoles[i] != AllRoles[j]
    ensures forall p :: p in AllPermissions
    ensures |AllPermissions| == 18
  {
    forall r ensures r in AllRoles {
      match r
      case SuperAdmin => assert AllRoles[0] == r;
      case Admin => assert AllRoles[1] == r;
      case Moderator => assert AllRoles[2] == r;
      case Teacher => assert AllRoles[3] == r;
      case Student => assert AllRoles[4] == r;
      case Guest => assert AllRoles[5] == r;
    }
    forall p ensures p in AllPermissions {
      match p
      case CreateUser => assert AllPermissions[0] == p;
      case ReadUser => assert AllPermissions[1] == p;
      case UpdateUser => assert AllPermissions[2] == p;
      case DeleteUser => assert AllPermissions[3] == p;
      case ManageRoles => assert AllPermissions[4] == p;
      case InviteUsers => assert AllPermissions[5] == p;
      case CreateCourse => assert AllPermissions[6] == p;
      case ReadCourse => assert AllPermissions[7] == p;
      case UpdateCourse => assert AllPermissions[8] == p;
      case DeleteCourse => assert AllPermissions[9] == p;
      case GradeAssignments => assert AllPermissions[10] == p;
      case ViewGrades => assert AllPermissions[11] == p;
      case SubmitAssignments => assert AllPermissions[12] == p;
      case AccessAdminPanel => assert AllPermissions[13] == p;
      case ViewAnalytics => assert AllPermissions[14] == p;
      case ManageSystemSettings => assert AllPermissions[15] == p;
      case SendAnnouncements => assert AllPermissions[16] == p;
      case AccessMessaging => assert AllPermissions[17] == p;
    }
  }

  /** super_admin's entry is the spread of all permission values, so it holds every permission. */
  lemma SuperAdminHoldsEverything()
    ensures forall p :: HasPermission(SuperAdmin, p)
    ensures forall r, p :: HasPermission(r, p) ==> HasPermission(SuperAdmin, p)
  {
    EnumerationsComplete();
  }

  /** The two smallest entries of the table, exactly. */
  lemma GuestAndStudentPermissions()
    ensures forall p :: HasPermission(Guest, p) <==> p == ReadCourse
    ensures forall p :: HasPermission(Student, p) <==>
      p in {ReadCourse, SubmitAssignments, ViewGrades, AccessMessaging}
  {
  }

  /** Who may invite, delete and read users. */
  lemma UserManagementHolders()
    ensures forall r :: HasPermission(r, InviteUsers) <==> IsAdminRole(r)
    ensures forall r :: HasPermission(r, DeleteUser) <==> IsAdminRole(r)
    ensures forall r :: HasPermission(r, ReadUser) <==> IsStaffRole(r)
  {
    forall r
      ensures (HasPermission(r, InviteUsers) <==> IsAdminRole(r))
        && (HasPermission(r, DeleteUser) <==> IsAdminRole(r))
        && (HasPermission(r, ReadUser) <==> IsStaffRole(r))
    {
      if r == SuperAdmin {
        assert AllPermissions[1] == ReadUser && AllPermissions[3] == DeleteUser && AllPermissions[5] == InviteUsers;
      }
    }
  }

  /** `hasAnyPermission` is false and `hasAllPermissions` true for an empty list. */
  lemma EmptyPermissionLists(r: Role)
    ensures !HasAnyPermission(r, [])
    ensures HasAllPermissions(r, [])
  {
  }

  /** Admin-level roles are staff-level; student and guest are not staff. */
  lemma AdminIsStaff()
    ensures forall r :: IsAdminRole(r) ==> IsStaffRole(r)
    ensures !IsStaffRole(Student) && !IsStaffRole(Guest)
  {
  }

  /** The ranks rise strictly from guest to super_admin, so no two roles share a rank. */
  lemma RankStrictlyIncreasing()
    ensures forall i, j :: 0 <= i < j < 6 ==>
      Rank([Guest, Student, Teacher, Moderator, Admin, SuperAdmin][i]) <
      Rank([Guest, Student, Teacher, Moderator, Admin, SuperAdmin][j])
    ensures Rank(Guest) == 0 && Rank(SuperAdmin) == 5
    ensures forall a, b :: Rank(a) == Rank(b) ==> a == b
  {
  }

  /** `isHigherRole` is a strict order; `isHigherOrEqualRole` is its total complement. */
  lemma HigherRoleIsStrictOrder()
    ensures forall a :: !IsHigherRole(a, a)
    ensures forall a, b :: IsHigherRole(a, b) ==> !IsHigherRole(b, a)
    ensures forall a, b, c :: IsHigherRole(a, b) && IsHigherRole(b, c) ==> IsHigherRole(a, c)
    ensures forall a, b :: IsHigherOrEqualRole(a, b) <==> !IsHigherRole(b, a)
    ensures forall a, b :: IsHigherOrEqualRole(a, b) || IsHigherOrEqualRole(b, a)
    ensures forall a, b :: IsHigherOrEqualRole(a, b) && IsHigherOrEqualRole(b, a) ==> a == b
  {
    RankStrictlyIncreasing();
  }
}
