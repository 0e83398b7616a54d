/** Who may invite whom (the allow-list of src/components/admin/InvitationManagement.tsx)
    and the role label that component displays. The server route calls
    `canInviteRole`/`getInvitableRoles` from the auth middleware, which does
    not define them; this table is the only encoding of the rule in the code,
    and the server model uses it. */
module InviteRules {
  import opened Seqs
  import opened Text
  import opened Roles
  import opened Guards

  /** The roles offered to an inviter of role `r`. */
  function InvitableRoles(r: Role): seq<Role> {
    if r == SuperAdmin then AllRoles
    else if r == Admin then [Moderator, Teacher, Student, Guest]
    else []
  }

  /** `canInviteRole(inviter, target)`: the target is on the inviter's list. */
  predicate CanInviteRole(r: Role, t: Role) {
    t in InvitableRoles(r)
  }

  /** super_admin is offered every role, admin every role below admin, the rest nothing. */
  lemma InvitableTable()
    ensures forall t :: CanInviteRole(SuperAdmin, t)
    ensures forall t :: CanInviteRole(Admin, t) <==> t in {Moderator, Teacher, Student, Guest}
    ensures !CanInviteRole(Admin, Admin) && !CanInviteRole(Admin, SuperAdmin)
    ensures forall r :: !IsAdminRole(r) ==> InvitableRoles(r) == []
  {
    EnumerationsComplete();
  }

  /** The allow-list never offers a role the inviter could not modify, and only
      roles that hold `invite_users` are offered anything. */
  lemma InvitableWithinModifiable()
    ensures forall r, t :: CanInviteRole(r, t) ==> CanModifyUser(r, t)
    ensures forall r, t :: CanInviteRole(r, t) ==> HasPermission(r, InviteUsers)
    ensures forall r, t :: CanInviteRole(r, t) ==> IsHigherOrEqualRole(r, t)
  {
    CanModifyUserTable();
    UserManagementHolders();
  }

  /** The state `loadInvitableRoles` writes (`invitableRoles`, initially `[]`). */
  class InvitationManagementView {
    var invitableRoles: seq<Role>

    constructor ()
      ensures invitableRoles == []
    {
      invitableRoles := [];
    }

    /** `loadInvitableRoles`: with no user the list is left as it is; otherwise
        it becomes the user's allow-list (the user's activity is not consulted). */
    method LoadInvitableRoles(user: Option<SessionUser>)
      modifies this
      ensures user.None? ==> invitableRoles == old(invitableRoles)
      ensures user.Some? ==> invitableRoles == InvitableRoles(user.value.role)
      ensures user.Some? ==> forall t :: t in invitableRoles ==> CanModifyUser(user.value.role, t)
    {
      if user.None? {
        return;
      }
      if user.value.role == SuperAdmin {
        invitableRoles := AllRoles;
      } else if user.value.role == Admin {
        invitableRoles := [Moderator, Teacher, Student, Guest];
      } else {
        invitableRoles := [];
      }
      InvitableWithinModifiable();
    }
  }

  /** `s.replace(a, b)` with a one-character string pattern: only the first occurrence. */
  function ReplaceFirst(s: string, a: char, b: char): (r: string)
    ensures |r| == |s|
    ensures a !in s ==> r == s
    ensures a in s ==> exists k :: 0 <= k < |s| && s[k] == a && a !in s[..k] && r == s[k := b]
  {
    var k := IndexOf(s, a);
    if k < 0 then s
    else
      var r := s[..k] + [b] + s[k + 1..];
      assert r == s[k := b];
      r
  }

  /** `role.charAt(0).toUpperCase() + role.slice(1).replace("_", " ")`. */
  function RoleLabel(role: string): (shown: string)
    ensures |shown| == |role|
  {
    if |role| == 0 then "" else ToUpper([role[0]]) + ReplaceFirst(role[1..], '_', ' ')
  }

  /** A name without an underscore is shown with its first letter capitalised. */
  lemma PlainLabel(role: string)
    requires |role| > 0 && '_' !in role
    ensures RoleLabel(role) == [UpperChar(role[0])] + role[1..]
  {
    assert '_' !in role[1..];
  }

  /** In a name with underscores only the first one (after the first letter) becomes a space. */
  lemma UnderscoreLabel(c: char, a: string, b: string)
    requires '_' !in a
    ensures RoleLabel([c] + a + "_" + b) == [UpperChar(c)] + a + " " + b
  {
    var role := [c] + a + "_" + b;
    assert role[0] == c && role[1..] == a + "_" + b;
    assert RoleLabel(role) == ToUpper([c]) + ReplaceFirst(a + "_" + b, '_', ' ');
    ReplaceFirstUnderscore(a, b);
    assert ToUpper([c]) == [UpperChar(c)];
  }

  /** The first underscore of `a + "_" + b`, when `a` has none, is the one after `a`. */
  lemma ReplaceFirstUnderscore(a: string, b: string)
    requires '_' !in a
    ensures ReplaceFirst(a + "_" + b, '_', ' ') == a + " " + b
  {
    var tail := a + "_" + b;
    assert tail[|a|] == '_';
    var r := ReplaceFirst(tail, '_', ' ');
    var k :| 0 <= k < |tail| && tail[k] == '_' && '_' !in tail[..k] && r == tail[k := ' '];
    assert k == |a|;
    assert r == a + " " + b;
  }

  /** super_admin is shown as "Super admin": the rest of the name keeps its case. */
  lemma SuperAdminLabel()
    ensures RoleLabel(RoleName(SuperAdmin)) == "Super admin"
  {
    assert RoleName(SuperAdmin) == ['s'] + "uper" + "_" + "admin";
    UnderscoreLabel('s', "uper", "admin");
    SuperLiteral();
  }

  /** The capitalised first letter followed by the rest of the name, spelled out. */
  lemma SuperLiteral()
    ensures [UpperChar('s')] + "uper" + " " + "admin" == "Super admin"
  {
    assert UpperChar('s') == 'S';
  }
}
