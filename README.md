# El Bethel Academy: authorization and single-use tokens, in Dafny

This project models the authorization and single-use-token engine of the El Bethel Academy web application. It has five parts:

- **Roles and permissions.** Six roles, eighteen permission tags, the table that says which role holds which permission, and the rank order of the roles.
- **Access guards.** The Express guards, which answer 401, 403 or allow. The client copies of those checks in the authentication context. The list of roles each inviter may offer.
- **Invitations.** The invitation document and its save hooks, lookups and cleanup. The six invitation routes: create, list, get by token, accept, cancel and stats.
- **Password resets.** The reset record and its reclamation rules. The three reset routes: forgot-password, reset-password and verify-reset-token.
- **Small validators and formatters.**
  - the shared e-mail pattern;
  - the reset page's password check and pre-submit checks;
  - `formatRoleName` and the contents of the invitation and welcome mail bodies;
  - how the SMTP settings are chosen from the environment.

Time is an integer count of milliseconds, and each request reads one `now`.

The database is the class `Store.Database`:

- Its fields hold the users, the invitations, the reset records, the clock and the next free ids.
- The schema rules and the unique indexes are its invariant, `Valid()`.
- Routes that write are methods on the database. Each one first runs its validation chain, a function that returns the first refusal. Each method's `ensures` ties the answer and the new state to that function, or to a specification function such as `CreateResult`.
- Read-only routes (list, get by token, stats, verify-reset-token) are functions of the collections.

Randomness, hashing and mail delivery are handled as follows:

- A fresh random token is a parameter.
- SHA-256 (FIPS 180-4) is an injective constructor, `Hash`.
- Whether a mail went out is a parameter, `Delivery`.

Modules, in dependency order:

| module | file | what it holds |
|---|---|---|
| `Seqs` | seqs.dfy | `Option`, filters and searches over sequences |
| `Text` | text.dfy | ASCII character classes, case mapping, trimming, `split`/`join`, substring containment |
| `Roles` | roles.dfy | src/types/roles.ts |
| `Guards` | guards.dfy | src/middleware/auth.ts |
| `ClientAuth` | client_auth.dfy | the checks in src/contexts/AuthContext.tsx |
| `InviteRules` | invitable.dfy | the allow-list and role label of src/components/admin/InvitationManagement.tsx |
| `EmailPattern` | email_pattern.dfy | the pattern `^\w+([.-]?\w+)*@\w+([.-]?\w+)*(\.\w{2,3})+$` |
| `Users` | users.dfy | the user fields the routes read and write |
| `Invitations` | invitations.dfy | src/models/Invitation.ts |
| `PasswordResets` | password_resets.dfy | src/models/PasswordReset.ts |
| `Store` | store.dfy | the three collections, the clock, and their invariant |
| `Links` | links.dfy | the `FRONTEND_URL` fallback |
| `InvitationRoutes` | invitation_routes.dfy | src/routes/invitation.route.ts |
| `ResetRoutes` | reset_routes.dfy | src/routes/password-reset.route.ts |
| `ResetForm` | reset_form.dfy | `validatePassword` and `handleSubmit` of src/components/auth/ResetPassword.tsx |
| `Templates` | templates.dfy | `formatRoleName` and the mail bodies of src/templates/emailTemplates.ts |
| `MailConfig` | email_config.dfy | src/config/email.ts |

The invitation route imports `canInviteRole` and `getInvitableRoles` from the auth middleware, but src/middleware/auth.ts as given does not define them. The only encoding of that rule in the code is the table in InvitationManagement.tsx:

- super_admin may offer every role;
- admin may offer moderator, teacher, student and guest;
- every other role may offer nothing.

The server model uses that table (`InviteRules.CanInviteRole`). This is an assumption about code that is not part of this model.

## Behaviour the model keeps as written

The model keeps these behaviours of the source as they are. Each one is stated by the proved contract named beside it.

- **forgot-password reveals that an account exists.**
  - It answers 429 only for an active account with a recent pending reset (`ResetRoutes.ForgotPassword`, the `TooSoon` clause).
  - The source's comment promises the same answer whether or not the account exists.
- **Accept and reset ask for different minimum password lengths.** Accept asks for 6 characters; reset asks for 8.
- **Accept is two separate writes.**
  - It saves the user, then marks the invitation used.
  - If the second write fails, the user stays and the invitation stays pending (`InvitationRoutes.Accept`, the `AcceptFailed` case).
- **An expired but unreaped invitation blocks a new one with a 500.**
  - The unique partial index on (email, role, unused) ignores expiry, but the route's duplicate check skips expired invitations.
  - So such an invitation turns a new invitation for the same address and role into a 500 (`Invitations.StaleInvitationBlocksSave`).
- **Stats can miss an invitation.**
  - An unused invitation whose `expiresAt` equals `now` is neither pending (`$gt`) nor expired (`$lt`), so no bucket counts it.
  - `InvitationRoutes.Stats` ties each of the three counts to its query, and states pending + used + expired + at-expiry = total.
- **An empty mail error reads like no mail service.**
  - A mail failure with an empty error text reports "(email not configured)" (`InvitationRoutes.EmptyMailErrorReadsAsNotConfigured`).
- **Create's existing-user check ignores `isActive`.**
  - A deactivated account's address cannot be invited (`InvitationRoutes.CreateCheckPasses`: no user, active or not, may have the lower-cased address).
- **A failed reset mail leaves side effects.**
  - The superseded reset stays used after a 500 (`ResetRoutes.IssueReset` and `ResetRoutes.ForgotPassword`, the `MailFailed` clause).
- **`initialize` without a configuration changes nothing.**
  - An `isConfigured` flag set by an earlier call survives (`MailConfig.EmailConfiguration.Initialize`).

## Model

| member | source | states |
|---|---|---|
| Roles.HasPermission | src/types/roles.ts:104-106 | definition: the permission is in the role's ROLE_PERMISSIONS entry; pinned down role by role by SuperAdminHoldsEverything, GuestAndStudentPermissions and UserManagementHolders |
| Roles.IsAdminRole | src/types/roles.ts:130-132 | definition: super_admin or admin; related to the staff roles by AdminIsStaff |
| Roles.IsStaffRole | src/types/roles.ts:135-142 | definition: super_admin, admin, moderator or teacher; related to the admin roles by AdminIsStaff |
| Roles.IsHigherRole | src/types/roles.ts:155-157 | definition: the first role's rank exceeds the second's; its order laws are HigherRoleIsStrictOrder |
| Roles.IsHigherOrEqualRole | src/types/roles.ts:160-162 | definition: the first role's rank is at least the second's; its order laws are HigherRoleIsStrictOrder |
| Roles.RoleFromName | src/types/roles.ts:2-9 | a role name is parsed to the role that carries exactly that name, and rejected exactly when no role carries it |
| Roles.RoleNameRoundTrip | src/types/roles.ts:2-9 | parsing a role's name gives that role back |
| Roles.EnumerationsComplete | src/types/roles.ts:2-42 | the role list holds every role once, and the permission list holds all eighteen tags |
| Roles.SuperAdminHoldsEverything | src/types/roles.ts:48-51 | super_admin holds every permission, so anything any role holds, super_admin holds |
| Roles.GuestAndStudentPermissions | src/types/roles.ts:93-100 | guest holds exactly read_course; student holds exactly read_course, submit_assignments, view_grades and access_messaging |
| Roles.UserManagementHolders | src/types/roles.ts:47-101 | invite_users and delete_user are held exactly by the admin roles; read_user exactly by the staff roles |
| Roles.HasAnyPermission | src/types/roles.ts:109-114 | true exactly when some listed permission is held |
| Roles.HasAllPermissions | src/types/roles.ts:117-122 | true exactly when every listed permission is held |
| Roles.EmptyPermissionLists | src/types/roles.ts:109-122 | no role has any of an empty list; every role has all of it |
| Roles.GetRolePermissions | src/types/roles.ts:125-127 | the returned list holds exactly the role's permissions |
| Roles.AdminIsStaff | src/types/roles.ts:130-142 | every admin role is a staff role; student and guest are not staff |
| Roles.Rank | src/types/roles.ts:145-152 | the rank is between 0 and 5 |
| Roles.RankStrictlyIncreasing | src/types/roles.ts:145-152 | ranks rise strictly from guest (0) to super_admin (5), so no two roles share a rank |
| Roles.HigherRoleIsStrictOrder | src/types/roles.ts:155-162 | "higher" is irreflexive, asymmetric and transitive; "higher or equal" is its negated converse, total and antisymmetric |
| Guards.Check | src/middleware/auth.ts:25-143 | definition: 401 without a session user, 403 for an inactive one, then the guard's own test; stated by NoUserIsUnauthenticated, InactiveUserIsRejected and AllowMeansActiveUser |
| Guards.Particular | src/middleware/auth.ts:44-143 | definition: each guard's own test on the role and its refusal payload; stated guard by guard by the Require*Exactly lemmas |
| Guards.CanModifyUser | src/middleware/auth.ts:159-172 | definition: super_admin anyone, admin the non-admin roles, others nobody; stated by CanModifyUserTable |
| Guards.RunGuards | src/routes/invitation.route.ts:22-26 | a middleware chain allows exactly when every guard allows, and otherwise answers with the first refusing guard's rejection, every earlier guard having allowed |
| Guards.NoUserIsUnauthenticated | src/middleware/auth.ts:25-32 | with no session user every guard answers 401, before any other check |
| Guards.InactiveUserIsRejected | src/middleware/auth.ts:34-36 | an inactive session user is rejected with 403 "inactive" by every guard, whatever the role |
| Guards.AllowMeansActiveUser | src/middleware/auth.ts:25-39 | any guard that allows has an active user, so requireAuth allows too |
| Guards.RequirePermissionExactly | src/middleware/auth.ts:44-64 | allows exactly an active user whose role holds the permission; the refusal names that permission and the user's role |
| Guards.RequireAnyPermissionExactly | src/middleware/auth.ts:69-93 | allows exactly an active user holding one of the permissions; with an empty list every active user is refused |
| Guards.RequireRoleIsExact | src/middleware/auth.ts:98-118 | requireRole is role equality, so super_admin is refused by requireRole(admin) |
| Guards.RequireAnyRoleIsMembership | src/middleware/auth.ts:123-143 | requireAnyRole is list membership |
| Guards.AdminGuards | src/middleware/auth.ts:148-153 | requireAdmin admits exactly active super_admin and admin users; requireSuperAdmin admits exactly active super_admin users |
| Guards.AuthThenGuard | src/middleware/auth.ts:25-64 | requireAuth followed by a guard decides exactly as the guard alone |
| Guards.CanModifyUserTable | src/middleware/auth.ts:159-172 | super_admin may modify anyone; admin exactly the non-admin roles; the others nobody; every permitted pair ranks the actor at least as high, and strictly higher unless the actor is super_admin |
| ClientAuth.CheckPermission | src/contexts/AuthContext.tsx:80-83 | definition: an active user whose role holds the permission; equal to the server guard by ClientAgreesWithServer |
| ClientAuth.CheckRole | src/contexts/AuthContext.tsx:85-88 | definition: an active user with exactly that role; equal to requireRole by ClientAgreesWithServer |
| ClientAuth.CheckAnyRole | src/contexts/AuthContext.tsx:90-93 | definition: an active user whose role is listed; equal to requireAnyRole by ClientAgreesWithServer |
| ClientAuth.IsAdmin | src/contexts/AuthContext.tsx:103 | definition: checkAnyRole of super_admin and admin; characterised by AdminFlags |
| ClientAuth.IsSuperAdmin | src/contexts/AuthContext.tsx:104 | definition: checkRole of super_admin; characterised by AdminFlags |
| ClientAuth.NoActiveUserPassesNothing | src/contexts/AuthContext.tsx:80-93 | with no user or an inactive one, every client check is false |
| ClientAuth.ClientAgreesWithServer | src/contexts/AuthContext.tsx:80-104 | each client check is true exactly when the server guard it mirrors allows |
| ClientAuth.AdminFlags | src/contexts/AuthContext.tsx:103-104 | isAdmin holds for exactly an active super_admin or admin; isSuperAdmin for exactly an active super_admin, and it implies isAdmin |
| InviteRules.InvitableRoles | src/components/admin/InvitationManagement.tsx:51-67 | definition: the list each role is offered; stated by InvitableTable and InvitableWithinModifiable |
| InviteRules.CanInviteRole | src/components/admin/InvitationManagement.tsx:55-66 | definition: the target is on the inviter's list; stated by InvitableTable |
| InviteRules.InvitableTable | src/components/admin/InvitationManagement.tsx:55-66 | super_admin may offer every role; admin exactly moderator, teacher, student and guest; the other roles nothing |
| InviteRules.InvitableWithinModifiable | src/components/admin/InvitationManagement.tsx:55-66 | every offered role is one the inviter may modify and ranks no higher than the inviter, and only holders of invite_users offer anything |
| InviteRules.InvitationManagementView.constructor | src/components/admin/InvitationManagement.tsx:28 | the offered list starts empty |
| InviteRules.InvitationManagementView.LoadInvitableRoles | src/components/admin/InvitationManagement.tsx:51-67 | without a user the list is left unchanged; otherwise it becomes the user's allow-list, all of whose roles the user may modify |
| InviteRules.ReplaceFirst | src/components/admin/InvitationManagement.tsx:215-216 | a string without the character is returned unchanged; otherwise the character is replaced at the position of its first occurrence and nowhere else |
| InviteRules.RoleLabel | src/components/admin/InvitationManagement.tsx:215-216 | the label has the name's length; its shape is stated by PlainLabel, UnderscoreLabel and SuperAdminLabel |
| InviteRules.PlainLabel | src/components/admin/InvitationManagement.tsx:215-216 | a name without underscores is shown with its first letter capitalised |
| InviteRules.UnderscoreLabel | src/components/admin/InvitationManagement.tsx:273-274 | only the first underscore after the first letter becomes a space |
| InviteRules.SuperAdminLabel | src/components/admin/InvitationManagement.tsx:273-274 | super_admin is shown as "Super admin" |
| EmailPattern.DottedIff | src/models/Invitation.ts:33-36 | the `\w+([.-]?\w+)*` part is equivalent to a position-wise description: word characters, with single separators between them |
| EmailPattern.DomainIff | src/models/Invitation.ts:33-36 | the domain part matches exactly when it splits into a dotted prefix and a final group of 2 or 3 word characters |
| EmailPattern.EmailShape | src/models/Invitation.ts:33-36 | a matching address has exactly one '@', starts with a word character, and ends in '.' followed by 2 or 3 word characters |
| EmailPattern.TrimKeepsEmail | src/models/Invitation.ts:28-32 | trimming a matching address changes nothing |
| EmailPattern.EmailSameClasses | src/routes/invitation.route.ts:39-44 | the pattern depends only on which characters are word characters and dots |
| EmailPattern.LowerCaseKeepsMatch | src/models/Invitation.ts:28-36 | lower-casing a matching address keeps it matching, lower case and trimmed |
| Users.FindUser | src/routes/invitation.route.ts:67-75 | returns a stored user with that address (or username), or nothing exactly when none has it |
| Users.UserIndex | src/routes/password-reset.route.ts:172 | returns the position of a user with that id, or nothing exactly when none has it |
| Users.UserIndexUnique | src/routes/password-reset.route.ts:172 | with unique ids, the lookup finds the one user with the id |
| Users.AddUserKeepsUnique | src/routes/invitation.route.ts:346-355 | adding a user with a fresh id, address and username keeps ids, addresses and usernames unique |
| Users.UpdateUserKeepsValid | src/routes/password-reset.route.ts:180-181 | replacing a user by one with the same id, address and username keeps the invariants |
| Users.EmailNamesOneUser | src/routes/password-reset.route.ts:35 | with unique addresses, an address names at most one user |
| Invitations.StoredEmail | src/models/Invitation.ts:28-38 | the stored address is lower case, and for a matching address it is the address lower-cased and still matching |
| Invitations.NewInvitation | src/models/Invitation.ts:26-87 | a new document has the given fields, isUsed false, no usedAt, and expiresAt seven days after creation |
| Invitations.PreSave | src/models/Invitation.ts:98-113 | a token is generated only when absent and never replaces one; usedAt is set to now only when isUsed was just set and usedAt was empty; nothing else changes |
| Invitations.IsExpired | src/models/Invitation.ts:116-118 | definition: now is past expiresAt; related to the pending query by PendingIsLive |
| Invitations.IsPending | src/models/Invitation.ts:126-141 | definition: unused and expiresAt after now, the filter shared by the token and address lookups; stated by PendingIsLive |
| Invitations.Reclaimable | src/models/Invitation.ts:144-154 | definition: cleanup's deleteMany filter; stated by CleanupExpired and PendingIsLive |
| Invitations.ValidTokenIndex | src/models/Invitation.ts:126-132 | finds an unused, unexpired document with the token, or nothing exactly when none exists |
| Invitations.FindValidByToken | src/models/Invitation.ts:126-132 | returns an unused, unexpired document with the token, or nothing exactly when none exists |
| Invitations.FindPendingByEmail | src/models/Invitation.ts:135-141 | returns exactly the unused, unexpired documents whose address is the lower-cased argument |
| Invitations.CleanupExpired | src/models/Invitation.ts:144-154 | keeps exactly the documents that are neither expired nor used more than thirty days ago |
| Invitations.PendingIsLive | src/models/Invitation.ts:116-154 | a pending document is neither expired nor removed by cleanup |
| Invitations.CleanupKeepsValidTokens | src/models/Invitation.ts:126-154 | cleanup never changes what a token resolves to |
| Invitations.TokenNamesOneDocument | src/models/Invitation.ts:44-48 | with the unique token index, a token names at most one document |
| Invitations.StaleInvitationBlocksSave | src/models/Invitation.ts:90-96 | an expired but unused document hides from the duplicate query, yet a new unused document for the same address and role breaks the unique index |
| Invitations.InsertKeepsValid | src/models/Invitation.ts:89-96 | saving a well-formed document with a fresh id that breaks no index keeps the collection invariant |
| Invitations.UpdateKeepsValid | src/models/Invitation.ts:89-96 | updating a document in place without breaking an index keeps the invariant |
| Invitations.CleanupKeepsValid | src/models/Invitation.ts:144-154 | cleanup keeps the collection invariant |
| Invitations.LaterKeepsValid | src/models/Invitation.ts:69-74 | time passing keeps the invariant |
| Invitations.MarkUsed | src/routes/invitation.route.ts:357-360 | the invitation becomes used at now; nothing else changes |
| Invitations.MarkUsedKeepsValid | src/routes/invitation.route.ts:357-360 | marking a document used keeps the invariant, and its token no longer resolves |
| Invitations.RemoveById | src/routes/invitation.route.ts:434-435 | keeps exactly the documents with a different id |
| Invitations.RemoveKeepsValid | src/routes/invitation.route.ts:434-435 | deleting keeps the invariant |
| Invitations.IdNamesOneDocument | src/routes/invitation.route.ts:415 | with unique ids, a document is the only one with its id |
| Invitations.InsertResolvesToken | src/models/Invitation.ts:44-48 | saving a new pending document keeps the invariant and makes its token resolve to it |
| PasswordResets.HashInjective | src/routes/password-reset.route.ts:66-69 | equal digests come from equal raw tokens |
| PasswordResets.NewReset | src/models/PasswordReset.ts:13-47 | a new record has the given user, token and expiry, a lower-cased address, isUsed false, and both timestamps at now |
| PasswordResets.ReclaimableIsInactive | src/models/PasswordReset.ts:33-59 | the TTL rules never reclaim a record that could still be redeemed |
| PasswordResets.ActiveFor | src/routes/password-reset.route.ts:41-45 | holds exactly the user's unused, unexpired records |
| PasswordResets.AtMostOneActive | src/routes/password-reset.route.ts:59-61 | under the invariant, a user has at most one redeemable record |
| PasswordResets.LaterKeepsResetsValid | src/models/PasswordReset.ts:33-37 | time passing keeps the reset invariant |
| PasswordResets.MarkResetUsed | src/routes/password-reset.route.ts:184-185 | the record becomes used and its updatedAt moves to now; nothing else changes |
| PasswordResets.RetireUnused | src/routes/password-reset.route.ts:188-191 | the user's unused records become used; every other record is unchanged |
| PasswordResets.RetireUnusedDeactivates | src/routes/password-reset.route.ts:188-191 | afterwards all of the user's records are used, and other users' records are untouched |
| PasswordResets.SafeUpdatesKeepValid | src/models/PasswordReset.ts:27-42 | updates that keep ids and tokens and only deactivate keep the invariant |
| PasswordResets.RetireUnusedKeepsValid | src/routes/password-reset.route.ts:188-191 | retiring keeps the invariant |
| PasswordResets.MarkResetUsedKeepsValid | src/routes/password-reset.route.ts:59-61 | marking one record used keeps the invariant |
| PasswordResets.SupersedeLeavesNoneActive | src/routes/password-reset.route.ts:59-61 | marking the user's redeemable record used leaves the user with none |
| PasswordResets.InsertResetKeepsValid | src/routes/password-reset.route.ts:72-79 | inserting a fresh record for a user with no redeemable record keeps the invariant, including at most one redeemable record per user |
| PasswordResets.RemoveResetById | src/routes/password-reset.route.ts:109 | keeps exactly the records with a different id |
| PasswordResets.RemoveInsertedReset | src/routes/password-reset.route.ts:108-109 | deleting the record just inserted restores the collection |
| PasswordResets.MarkThenRetire | src/routes/password-reset.route.ts:183-191 | marking the presented record and then retiring equals retiring alone |
| PasswordResets.RetireUnusedConsumesToken | src/routes/password-reset.route.ts:183-191 | after retiring, no digest of the user's records redeems anything |
| Store.Database.constructor | src/models/Invitation.ts:89-96 | a database with the given users and no invitations or resets satisfies the invariant |
| Store.Database.AdvanceClock | src/models/Invitation.ts:69-74 | time moves forward and the invariant still holds |
| Store.Database.CleanupExpiredInvitations | src/models/Invitation.ts:144-154 | the collection becomes its cleanup, the deleted count is the size difference, and every token resolves as before |
| Store.Database.InsertInvitation | src/routes/invitation.route.ts:110 | appends the document under the invariant, and its token then resolves to it |
| Store.Database.MarkInvitationUsed | src/routes/invitation.route.ts:357-360 | the document becomes used under the invariant, and its token stops resolving |
| Store.Database.DeleteInvitation | src/routes/invitation.route.ts:435 | removes the document with that id under the invariant |
| Store.Database.InsertUser | src/routes/invitation.route.ts:346-355 | appends the user under the invariant and keeps addresses and usernames unique |
| Store.Database.MarkResetUsedAt | src/routes/password-reset.route.ts:60-61 | marks one reset record used under the invariant |
| Store.Database.InsertReset | src/routes/password-reset.route.ts:79 | appends a record for a user with no redeemable record, under the invariant |
| Store.Database.DeleteReset | src/routes/password-reset.route.ts:109 | removes the record with that id under the invariant |
| Store.Database.RetireUserResets | src/routes/password-reset.route.ts:188-191 | retires the user's unused records under the invariant |
| Store.Database.SetPassword | src/routes/password-reset.route.ts:180-181 | changes one user's password and nothing else, under the invariant |
| Links.FrontendBase | src/routes/invitation.route.ts:123-125 | the configured front end when set and non-empty, else exactly the development default `http://localhost:5173`; never empty |
| Links.TokenLink | src/routes/invitation.route.ts:156-158 | the link is FrontendBase's value (the development default when the variable is unset), then the page path, then the token, with its length the sum of the three, and so contains the token |
| InvitationRoutes.InvitationLink | src/routes/invitation.route.ts:156-158 | definition: the token link to the `/invite/` page; its shape is TokenLink's contract |
| InvitationRoutes.CreateCheck | src/routes/invitation.route.ts:22-95 | every refusal is a 400, 401 or 403; passing implies a session user, a matching address and a known role |
| InvitationRoutes.CreateCheckPasses | src/routes/invitation.route.ts:22-95 | the checks pass exactly when the caller holds invite_users, both fields are given, the address matches, the role exists and may be assigned, no user has the lower-cased address, and no pending invitation has that address and role |
| InvitationRoutes.CreateCheckOrder | src/routes/invitation.route.ts:22-75 | which refusal answers, in the route's order: 401/403 guards, missing field, pattern, unknown role, the 403 listing the invitable roles, existing user |
| InvitationRoutes.DuplicateCheck | src/routes/invitation.route.ts:77-95 | refuses exactly when a pending invitation has the lower-cased address and the role, and then with the 400 "already exists" carrying such an invitation |
| InvitationRoutes.CreateCheckDuplicate | src/routes/invitation.route.ts:77-95 | the last step of create's order (pending duplicate, 400): once every earlier check passes and no user has the address, create's checks answer exactly as the duplicate check does |
| InvitationRoutes.RefusalListsInvitableRoles | src/routes/invitation.route.ts:55-64 | the 403 lists exactly the roles the inviter may assign, and the refused role is not among them |
| InvitationRoutes.EmptyMailErrorReadsAsNotConfigured | src/routes/invitation.route.ts:163-168 | a failed delivery with an empty error gives the same message as a disabled mail service |
| InvitationRoutes.CreateResult | src/routes/invitation.route.ts:22-173 | the first failed check answers; otherwise a refused save gives 500; otherwise, and exactly then, the answer is the new document: lower-cased address, requested role, the token, the inviter, unused, expiring in seven days, with its link, emailSent exactly when mail was enabled and delivered, and the matching message |
| InvitationRoutes.Create | src/routes/invitation.route.ts:22-182 | answers CreateResult of the state before, and appends the invitation exactly when it is created; passing checks and an accepted save create it whatever the mail reports, so a mail failure never undoes the write |
| InvitationRoutes.CreatedInvitationIsFound | src/routes/invitation.route.ts:97-110 | once saved, the invariant holds and the new token resolves to the new invitation |
| InvitationRoutes.SaveInvitation | src/routes/invitation.route.ts:110 | saves exactly when no required inviter field is empty and no unique index breaks, and only then appends |
| InvitationRoutes.CreatedDocumentFacts | src/routes/invitation.route.ts:98-108 | the hooks leave the built document unchanged; it is pending, has the lower-cased address, the inviter and the token, and is well formed when the inviter snapshot is complete |
| InvitationRoutes.List | src/routes/invitation.route.ts:189-237 | refused exactly as read_user guards refuse; otherwise exactly the caller's pending invitations (all of them for super_admin), with their count |
| InvitationRoutes.ListNewestFirst | src/routes/invitation.route.ts:208-210 | with the collection in creation order, the list is newest first |
| InvitationRoutes.FetchByToken | src/routes/invitation.route.ts:244-283 | 400 exactly for an empty token; 404 exactly when no unused, unexpired invitation has it; otherwise that invitation's details and token |
| InvitationRoutes.AcceptCheck | src/routes/invitation.route.ts:290-343 | passes exactly when all fields are given, the password has at least 6 characters, the token resolves, and neither the invitation's address nor the trimmed username is taken; each refusal as an iff in the route's order: missing fields, then a short password, then 404 for the token, then the address taken, then the username taken |
| InvitationRoutes.FetchAndAcceptAgree | src/routes/invitation.route.ts:255-266 | for a complete request, accept answers 404 exactly when the link page does |
| InvitationRoutes.NewMember | src/routes/invitation.route.ts:346-353 | the new account has the invitation's address and role, the trimmed username and name, and is active |
| InvitationRoutes.Accept | src/routes/invitation.route.ts:290-398 | a refusal changes nothing; otherwise one user is added and, when the second write succeeds, the invitation is marked used so its token no longer resolves |
| InvitationRoutes.CancelCheck | src/routes/invitation.route.ts:405-432 | passes exactly when the caller holds delete_user, the id is well formed and an invitation with the id is in the caller's scope; 500 exactly when the guards pass and the id cannot be cast; 404 exactly when none has the id; 403 exactly when the invitation is outside the caller's scope; a guard refusal is the guard's own decision |
| InvitationRoutes.Cancel | src/routes/invitation.route.ts:405-448 | a refusal (including the 500 for a malformed id) changes nothing; otherwise exactly the invitation with that id is removed |
| InvitationRoutes.Stats | src/routes/invitation.route.ts:455-507 | refused exactly when the read_user guard refuses, with that guard's own decision (401 or the 403 payload); total is the size of the caller's scope; pending, used and expired are the counts of their three queries over that scope; those three plus the unused ones expiring exactly now add up to the total |
| ResetRoutes.ActiveAccount | src/routes/password-reset.route.ts:35-39 | an active stored user with the lower-cased address, or nothing exactly when no active user has it |
| ResetRoutes.Supersede | src/routes/password-reset.route.ts:41-62 | only the user's redeemable record can change |
| ResetRoutes.SupersedeDeactivates | src/routes/password-reset.route.ts:59-62 | afterwards the user has no redeemable record, and the invariant holds |
| ResetRoutes.FreshReset | src/routes/password-reset.route.ts:64-77 | the new record stores the digest of the raw token, the user, the lower-cased address and a one-hour expiry |
| ResetRoutes.ResetLink | src/routes/password-reset.route.ts:81-84 | definition: the token link to the `/reset-password?token=` page carrying the raw token; its shape is TokenLink's contract |
| ResetRoutes.IssueReset | src/routes/password-reset.route.ts:39-115 | 429 exactly when the pending record is under two minutes old, with no write; otherwise the pending record is superseded, a digest collision or a failed delivery gives 500 without the new record, and a delivered mail leaves the new record appended |
| ResetRoutes.StoreReset | src/routes/password-reset.route.ts:72-114 | a digest collision gives 500; a failed delivery removes the new record and gives 500; otherwise the record is appended |
| ResetRoutes.ForgotPassword | src/routes/password-reset.route.ts:15-129 | 400 for a missing or malformed address before any lookup; no active account means no write and the generic answer; for an active account: 429 exactly when throttled, with no write; otherwise the pending record is superseded, a digest collision or a failed delivery gives 500 without the new record, and success appends the fresh record, which is then the only redeemable one and what the raw token redeems |
| ResetRoutes.Redeemable | src/routes/password-reset.route.ts:155-162 | returns an unused, unexpired record with the token's digest, or nothing exactly when none exists |
| ResetRoutes.ResetCheck | src/routes/password-reset.route.ts:141-177 | every refusal is a 400, each as an iff in the route's order: missing token or password, then a password under 8 characters, then no redeemable record, then an absent or inactive account; passing exactly when none applies |
| ResetRoutes.ResetPassword | src/routes/password-reset.route.ts:136-204 | a refusal changes nothing; otherwise the user's password is set, all of the user's unused records become used, and the token no longer redeems |
| ResetRoutes.VerifyResetToken | src/routes/password-reset.route.ts:211-262 | 400 for an empty token or no redeemable record; valid only with a redeemable record whose user is active, reporting its address and expiry |
| ResetRoutes.VerifyAgreesWithReset | src/routes/password-reset.route.ts:224-253 | for an acceptable password, the check page says valid exactly when the reset would go through, and invalid exactly when the reset finds no record |
| ResetForm.ValidatePassword | src/components/auth/ResetPassword.tsx:48-68 | no messages exactly when the password has 8 characters and an upper-case letter, a lower-case letter and a digit; each message appears exactly when its check fails, at most four, in the checks' order |
| ResetForm.SubmitCheck | src/components/auth/ResetPassword.tsx:76-99 | blank fields, then mismatch, then strength, then a missing token; the form is sent exactly when all pass |
| ResetForm.ResetPasswordForm.constructor | src/components/auth/ResetPassword.tsx:5-18 | a fresh page: empty fields, no error, not loading, no success |
| ResetForm.ResetPasswordForm.HandleSubmit | src/components/auth/ResetPassword.tsx:70-122 | the route is called exactly when the checks pass; a refusal shows its message; the reply sets success or the error text; loading ends false |
| ResetForm.SubmittedFormPassesFieldChecks | src/components/auth/ResetPassword.tsx:51-53 | a form the page sends is never refused by the route for missing fields or a short password |
| Templates.FormatRoleName | src/templates/emailTemplates.ts:447-452 | definition: split at underscores, capitalise each word, join with spaces; its meaning is stated by FormatRoleNameIsTitleCase, FormatRoleNameShape and FormatRoleNameReversible |
| Templates.FormatRoleNameIsTitleCase | src/templates/emailTemplates.ts:447-452 | formatRoleName equals a position-wise description: an underscore becomes a space, a word's first letter is upper-cased, the rest lower-cased |
| Templates.FormatRoleNameShape | src/templates/emailTemplates.ts:447-452 | the result has the input's length and no underscore, and has a space exactly where the input has an underscore |
| Templates.FormatRoleNameReversible | src/templates/emailTemplates.ts:447-452 | for a lower-case name without spaces, the formatted name can be turned back into the name |
| Templates.RoleLabelsDistinct | src/templates/emailTemplates.ts:447-452 | different roles get different labels |
| Templates.FormatSuperAdmin | src/templates/emailTemplates.ts:447-452 | super_admin becomes "Super Admin" |
| Templates.FormatTeacher | src/templates/emailTemplates.ts:447-452 | teacher becomes "Teacher" |
| Templates.InvitationEmailHtml | src/templates/emailTemplates.ts:21-258 | definition: the template's fixed text and its interpolations in order; what it contains is stated by the InvitationHtml* lemmas |
| Templates.InvitationEmailText | src/templates/emailTemplates.ts:260-309 | definition: the plain-text template's fixed text and interpolations in order; what it contains is stated by the InvitationText* lemmas |
| Templates.WelcomeEmailHtml | src/templates/emailTemplates.ts:311-445 | definition: the welcome template's fixed text and interpolations in order; what it contains is stated by WelcomeHtmlMentions |
| Templates.InvitationHtmlLinks | src/templates/emailTemplates.ts:224-246 | the HTML body holds the link as the button's href and as copyable text |
| Templates.InvitationHtmlNamesInvitee | src/templates/emailTemplates.ts:196-216 | the HTML body names the invitee's address, the role and the organisation |
| Templates.InvitationHtmlNamesInviter | src/templates/emailTemplates.ts:196-239 | the HTML body names the inviter, the inviter's address and role |
| Templates.InvitationHtmlExpiry | src/templates/emailTemplates.ts:230 | the HTML body shows the expiry date and time |
| Templates.InvitationTextLinks | src/templates/emailTemplates.ts:276-293 | the text body has the heading and the link on its own line |
| Templates.InvitationTextNamesInvitee | src/templates/emailTemplates.ts:280-299 | the text body names the invitee's address and role |
| Templates.InvitationTextNamesInviter | src/templates/emailTemplates.ts:280-302 | the text body names the inviter, the inviter's address and role |
| Templates.InvitationTextExpiry | src/templates/emailTemplates.ts:295 | the text body shows the expiry date and time |
| Templates.InvitationMailCarriesToken | src/templates/emailTemplates.ts:224-293 | with the route's link, both bodies contain the invitation token |
| Templates.WelcomeHtmlMentions | src/templates/emailTemplates.ts:411-430 | the welcome body names the member, their address, username and role, and links to the sign-in page |
| MailConfig.Or | src/config/email.ts:165-175 | the first string unless it is empty; empty only when both are |
| MailConfig.ParseInt | src/config/email.ts:97 | definition: `parseInt` without a radix (white space, sign, optional hex prefix, longest digit run, NaN without digits); stated by ParseIntShow and ParseDefaultPort |
| MailConfig.ShowNatValue | src/config/email.ts:97 | a number's decimal digits denote that number |
| MailConfig.ParseIntShow | src/config/email.ts:97 | parseInt reads back any integer written in decimal, whatever non-digit text follows |
| MailConfig.ParseDefaultPort | src/config/email.ts:97 | the default port text "587" parses to 587 |
| MailConfig.Login | src/config/email.ts:56-59 | a login exists exactly when user and password are both non-empty, and carries them |
| MailConfig.GetEmailConfig | src/config/email.ts:51-126 | a configuration exists only for gmail, outlook or smtp, with a host; any login carries both non-empty credentials |
| MailConfig.ProviderServices | src/config/email.ts:55-92 | gmail and outlook are configured exactly when user and password are set: the provider's host, port 587, secure false, with the login |
| MailConfig.CustomSmtpService | src/config/email.ts:95-118 | smtp is configured exactly when SMTP_HOST is set; secure exactly when SMTP_SECURE is "true"; a login exactly when both credentials are set |
| MailConfig.CustomSmtpPort | src/config/email.ts:97 | a decimal SMTP_PORT gives that port |
| MailConfig.OtherServicesUnconfigured | src/config/email.ts:120-140 | ethereal and any other or missing service give no configuration |
| MailConfig.GetFromAddress | src/config/email.ts:165-171 | EMAIL_FROM, else EMAIL_USER, else the default address, empty strings counting as unset |
| MailConfig.GetFromName | src/config/email.ts:173-175 | EMAIL_FROM_NAME, else the default name |
| MailConfig.EmailConfiguration.IsEmailConfigured | src/config/email.ts:146-148 | definition: the isConfigured flag; tied to initialize's answer by InitializeFresh |
| MailConfig.EmailConfiguration.constructor | src/config/email.ts:14-19 | no transport and not configured |
| MailConfig.EmailConfiguration.Initialize | src/config/email.ts:28-49 | succeeds exactly with a configuration and a transport that builds; then configured; a throw clears the flag; no configuration changes nothing |
| MailConfig.InitializeFresh | src/config/email.ts:28-49 | on a fresh object, initialize's answer equals isEmailConfigured afterwards |

## Left out

- The User model (src/models/User.js) is not part of this model. Its fields are reduced to id, username, email, password, name, role and isActive. The unique e-mail and username indexes that the routes rely on are assumed in `Users.UsersUnique` and are not derived.
- Password hashing in the User model's pre-save hook, and sign-in, are not modelled. A set password is stored as given.
- SHA-256 (FIPS 180-4) and `crypto.randomBytes` are not computed. The digest is an injective constructor, and the random token is a parameter.
- SMTP is not modelled: creating the transport, `verifyConnection`, `getTransporter` and the `send*` calls. Delivery is a parameter: delivered, or not delivered with an error text.
- `sendPasswordResetEmail` is called by the forgot-password route but is not part of this model. Its outcome is the same `Delivery` parameter.
- The IP address and user agent that forgot-password passes to the mail are not modelled.
- Concurrency is not modelled, so neither is the race between check and write in create and accept. The unique indexes appear as the database invariant, and a save that would break one returns 500.
- The server's physical TTL reaping is not modelled. Expiry is a comparison with `now`.
- `populate` is not modelled, because the responses use the stored inviter snapshot.
- Locale date and time formatting, CSS and the `<style>` blocks of the mail bodies are not modelled. The formatted date and time are parameters.
- `test-email` and `email-status` routes: outside the modelled core.
- The `getInstance` singleton is not modelled. Each configuration object is a separate instance.
- `ResetForm.ValidatePassword` counts length in characters, not in UTF-16 code units as JavaScript does.
- `InvitationRoutes.AcceptCheck` counts the password's length in characters, not UTF-16 code units (invitation.route.ts:303): a password of three characters outside the Basic Multilingual Plane is 6 units long and passes in the source, but is refused as too short here.
- `ResetRoutes.ResetCheck` counts the password's length in characters, not UTF-16 code units (password-reset.route.ts:148): four emoji are 8 units long and pass in the source, but are refused as too short here.
- `InvitationRoutes.Accept` treats saving the new user (invitation.route.ts:355) as always succeeding. The User model's validators and indexes are not part of this model. For example, a username of only spaces passes the presence check (invitation.route.ts:296) and is trimmed to "". The source's User model may refuse such a username with a 500; here it is stored. Only the second write, marking the invitation used, is given a failure parameter.
- Upper- and lower-casing, `\w` and `\d` cover ASCII only. Trimming uses JavaScript's full white-space set.
- `MailConfig.ParseIntShow` and the other parse members model `parseInt` exactly only up to 2^53, because the model's integers are unbounded. A parsed "-0" is read as 0.
- The reset page's token check on load, `validateToken` in `useEffect`, is not modelled, nor is the redirect timer after success.
- React rendering, the invitation form and the clipboard handlers of InvitationManagement.tsx are not modelled.
- `InviteRules.CanInviteRole` is taken from the client's table. The server functions `canInviteRole` and `getInvitableRoles` are not part of this model.
- `Store.Database.AdvanceClock`: the clock only moves forward; a clock that runs backwards is not modelled.
